/**
 The disk driver of kern/dev/lamebus/lhd.c: any number of threads in lhd_io,
 one card with one buffer, and the interrupt handler, interleaved step by step.
 */
module Lhd {
  import opened Errno

  type Data = seq<nat>

  const SECTSIZE := 512

  // ---- state ----

  /** A call of lhd_io for `len` sectors; `data` is what a write brings. */
  datatype Req = Req(write: bool, sector: nat, len: nat, data: seq<Data>)

  /** Where a thread stands in its call; from Owning to Copied it is past P(lh_clear). */
  datatype Phase = Out | Wanting | Owning | Loaded | Aimed | Started | Told | Copied

  /**
   A thread: its call, the sector it is at, what it has read, its result; and
   for the record, which operations served the call and how many had been
   finished by anyone when it began.
   */
  datatype Client = Client(phase: Phase, req: Req, i: nat, got: seq<Data>, res: Errno, marks: seq<nat>, since: nat)

  /** How an operation ended, and the status register. */
  datatype Code = Good | InvalidSector | Media

  datatype Status = Idle | Working(write: bool) | Finished(code: Code)

  /** lhd_code_to_errno. */
  function ToErrno(code: Code): (e: Errno)
    ensures (e == Success <==> code == Good) && (e == EINVAL <==> code == InvalidSector) && (e == EIO <==> code == Media)
  {
    match code
    case Good => Success
    case InvalidSector => EINVAL
    case Media => EIO
  }

  /** One operation the card has finished, and the thread that was past P(lh_clear) then. */
  datatype Op = Op(sector: nat, write: bool, data: Data, code: Errno, who: int)

  /**
   The semaphores' counts and lh_result; the card's registers, buffer and
   sectors; the threads. For the record: the sectors at the start, the
   operations finished so far, and which thread is past P(lh_clear).
   */
  datatype Disk = Disk(
    clear: nat, done: nat, result: Errno,
    sect: nat, status: Status, buf: Data, sectors: seq<Data>,
    clients: seq<Client>, start: seq<Data>, log: seq<Op>, owner: int)

  // ---- steps ----

  function Put(s: Disk, t: nat, c: Client): (r: Disk)
    requires t < |s.clients|
  {
    s.(clients := s.clients[t := c])
  }

  predicate WellFormed(req: Req)
  {
    req.write ==> |req.data| == req.len
  }

  /** A call begins; past the end of the disk it fails, and for no sectors it is done. */
  function Submit(s: Disk, t: nat, req: Req): (r: Disk)
    requires t < |s.clients|
  {
    if s.clients[t].phase != Out || !WellFormed(req) then s
    else if req.sector + req.len > |s.sectors| then Put(s, t, Client(Out, req, 0, [], EINVAL, [], |s.log|))
    else if req.len == 0 then Put(s, t, Client(Out, req, 0, [], Success, [], |s.log|))
    else Put(s, t, Client(Wanting, req, 0, [], Success, [], |s.log|))
  }

  function PClear(s: Disk, t: nat): (r: Disk)
    requires t < |s.clients|
  {
    var c := s.clients[t];
    if c.phase == Wanting && s.clear > 0 then Put(s, t, c.(phase := Owning)).(clear := s.clear - 1, owner := t) else s
  }

  /** A write's data goes to the card's buffer, unless its own buffer is bad. */
  function Fill(s: Disk, t: nat, readable: bool): (r: Disk)
    requires t < |s.clients|
  {
    var c := s.clients[t];
    if c.phase != Owning then s
    else if !c.req.write then Put(s, t, c.(phase := Loaded))
    else if !readable then Put(s, t, c.(phase := Out, res := EFAULT)).(clear := s.clear + 1, owner := -1)
    else if c.i < |c.req.data| then Put(s, t, c.(phase := Loaded)).(buf := c.req.data[c.i])
    else s
  }

  function Aim(s: Disk, t: nat): (r: Disk)
    requires t < |s.clients|
  {
    var c := s.clients[t];
    if c.phase != Loaded then s else Put(s, t, c.(phase := Aimed)).(sect := c.req.sector + c.i)
  }

  function Start(s: Disk, t: nat): (r: Disk)
    requires t < |s.clients|
  {
    var c := s.clients[t];
    if c.phase != Aimed then s else Put(s, t, c.(phase := Started)).(status := Working(c.req.write))
  }

  /** The card finishes: well, or with an error that leaves the sectors alone and the buffer arbitrary. */
  function CardDone(s: Disk, code: Code, junk: Data): (r: Disk)
  {
    if !s.status.Working? || s.sect >= |s.sectors| then s
    else if code != Good then
      s.(status := Finished(code), buf := junk, log := s.log + [Op(s.sect, s.status.write, junk, ToErrno(code), s.owner)])
    else if s.status.write then
      s.(status := Finished(Good), sectors := s.sectors[s.sect := s.buf], log := s.log + [Op(s.sect, true, s.buf, Success, s.owner)])
    else
      s.(status := Finished(Good), buf := s.sectors[s.sect], log := s.log + [Op(s.sect, false, s.sectors[s.sect], Success, s.owner)])
  }

  /** lhd_irq and lhd_iodone. */
  function Irq(s: Disk): (r: Disk)
  {
    if s.status.Finished? then s.(status := Idle, result := ToErrno(s.status.code), done := s.done + 1) else s
  }

  function PDone(s: Disk, t: nat): (r: Disk)
    requires t < |s.clients|
  {
    var c := s.clients[t];
    if c.phase == Started && s.done > 0 then Put(s, t, c.(phase := Told)).(done := s.done - 1) else s
  }

  /** Takes the result, and on a good read the data. */
  function Copy(s: Disk, t: nat, writable: bool): (r: Disk)
    requires t < |s.clients|
  {
    var c := s.clients[t];
    if c.phase != Told then s
    else if s.result != Success then Put(s, t, c.(phase := Copied, res := s.result))
    else
      var d := c.(phase := Copied, marks := c.marks + [if |s.log| > 0 then |s.log| - 1 else 0]);
      if c.req.write then Put(s, t, d.(res := Success))
      else if !writable then Put(s, t, c.(phase := Copied, res := EFAULT))
      else Put(s, t, d.(res := Success, got := c.got + [s.buf]))
  }

  /** V(lh_clear), then the next sector, or back to the caller. */
  function VClear(s: Disk, t: nat): (r: Disk)
    requires t < |s.clients|
  {
    var c := s.clients[t];
    if c.phase != Copied then s
    else
      var d := if c.res != Success then c.(phase := Out)
               else if c.i + 1 < c.req.len then c.(phase := Wanting, i := c.i + 1)
               else c.(phase := Out, i := c.i + 1);
      Put(s, t, d).(clear := s.clear + 1, owner := -1)
  }

  datatype Event =
    | DoSubmit(t: nat, req: Req) | DoPClear(t: nat) | DoFill(t: nat, readable: bool) | DoAim(t: nat) | DoStart(t: nat)
    | DoCard(code: Code, junk: Data) | DoIrq | DoPDone(t: nat) | DoCopy(t: nat, writable: bool) | DoVClear(t: nat)

  function Step(s: Disk, e: Event): (r: Disk)
  {
    var n := |s.clients|;
    match e
    case DoSubmit(t, req) => if t < n then Submit(s, t, req) else s
    case DoPClear(t) => if t < n then PClear(s, t) else s
    case DoFill(t, readable) => if t < n then Fill(s, t, readable) else s
    case DoAim(t) => if t < n then Aim(s, t) else s
    case DoStart(t) => if t < n then Start(s, t) else s
    case DoCard(code, junk) => CardDone(s, code, junk)
    case DoIrq => Irq(s)
    case DoPDone(t) => if t < n then PDone(s, t) else s
    case DoCopy(t, writable) => if t < n then Copy(s, t, writable) else s
    case DoVClear(t) => if t < n then VClear(s, t) else s
  }

  function Run(s: Disk, es: seq<Event>): (r: Disk)
  {
    if es == [] then s else Step(Run(s, es[..|es| - 1]), es[|es| - 1])
  }

  /** After config_lhd: nobody uses the card. */
  function Configured(sectors: seq<Data>, threads: nat): (s: Disk)
  {
    Disk(1, 0, Success, 0, Idle, [], sectors,
         seq(threads, _ => Client(Out, Req(false, 0, 0, []), 0, [], Success, [], 0)), sectors, [], -1)
  }

  // ---- what the operations finished so far say about a sector ----

  /** The data of the latest good write to a sector, or what it held at the start. */
  function Latest(start: seq<Data>, log: seq<Op>, x: nat): (d: Data)
    requires x < |start|
  {
    if log == [] then start[x]
    else
      var op := log[|log| - 1];
      if op.write && op.code == Success && op.sector == x then op.data else Latest(start, log[..|log| - 1], x)
  }

  /** Every good read got the data of the latest good write before it. */
  ghost predicate ReadsRight(start: seq<Data>, log: seq<Op>)
  {
    forall k: nat | k < |log| :: ReadRight(start, log, k)
  }

  ghost predicate ReadRight(start: seq<Data>, log: seq<Op>, k: nat)
    requires k < |log|
  {
    !log[k].write && log[k].code == Success ==> log[k].sector < |start| && log[k].data == Latest(start, log[..k], log[k].sector)
  }

  // ---- the invariant ----

  predicate Holds(c: Client)
  {
    c.phase in {Owning, Loaded, Aimed, Started, Told, Copied}
  }

  /** The operation that served sector `j` of a call of thread `t`: its own, begun and finished during the call. */
  ghost predicate Served(s: Disk, c: Client, t: nat, j: nat)
    requires j < |c.marks|
  {
    && c.since <= c.marks[j] < |s.log|
    && (j > 0 ==> c.marks[j - 1] < c.marks[j])
    && var op := s.log[c.marks[j]];
       && op.who == t && op.sector == c.req.sector + j && op.write == c.req.write && op.code == Success
       && (c.req.write ==> j < |c.req.data| && op.data == c.req.data[j])
       && (!c.req.write ==> j < |c.got| && op.data == c.got[j])
  }

  /** A thread's own record is right: the sectors done were served by its own operations, in order. */
  ghost predicate ClientOk(s: Disk, c: Client, t: nat)
  {
    && WellFormed(c.req) && c.since <= |s.log|
    && (forall j: nat | j < |c.marks| :: Served(s, c, t, j))
    && (!c.req.write ==> |c.got| == |c.marks|)
    && (c.phase != Out ==> c.req.sector + c.req.len <= |s.sectors| && c.i < c.req.len)
    && (c.phase == Copied ==> if c.res == Success then |c.marks| == c.i + 1 else |c.marks| == c.i)
    && (c.phase != Out && c.phase != Copied ==> |c.marks| == c.i)
    && (c.phase == Out && c.res == Success ==> |c.marks| == c.req.len)
  }

  /** The last operation finished is thread `t`'s own, and the one it asked for last. */
  ghost predicate Mine(s: Disk, c: Client, t: nat, code: Errno)
  {
    && c.since < |s.log| && (c.marks != [] ==> c.marks[|c.marks| - 1] < |s.log| - 1)
    && var op := s.log[|s.log| - 1];
       && op.who == t && op.sector == c.req.sector + c.i && op.write == c.req.write && op.code == code
       && (code == Success && c.req.write ==> c.i < |c.req.data| && op.data == c.req.data[c.i])
       && (code == Success && !c.req.write ==> s.buf == op.data)
  }

  /** What the card is doing fits what the owner is waiting for. */
  ghost predicate CardOk(s: Disk, c: Client, t: nat)
  {
    match c.phase
    case Owning => s.status == Idle && s.done == 0
    case Loaded => s.status == Idle && s.done == 0 && Filled(s, c)
    case Aimed => s.status == Idle && s.done == 0 && Filled(s, c) && s.sect == c.req.sector + c.i
    case Started =>
      || (s.status == Working(c.req.write) && s.done == 0 && Filled(s, c) && s.sect == c.req.sector + c.i)
      || (s.status.Finished? && s.done == 0 && Mine(s, c, t, ToErrno(s.status.code)))
      || (s.status == Idle && s.done == 1 && Mine(s, c, t, s.result))
    case Told => s.status == Idle && s.done == 0 && Mine(s, c, t, s.result)
    case Copied => s.status == Idle && s.done == 0
    case _ => true
  }

  ghost predicate Filled(s: Disk, c: Client)
  {
    c.req.write ==> c.i < |c.req.data| && s.buf == c.req.data[c.i]
  }

  ghost predicate OneOwner(s: Disk)
  {
    && -1 <= s.owner < |s.clients|
    && s.clear == (if s.owner == -1 then 1 else 0)
    && forall t: nat | t < |s.clients| :: Holds(s.clients[t]) <==> t == s.owner
  }

  ghost predicate Contents(s: Disk)
  {
    && |s.sectors| == |s.start| && ReadsRight(s.start, s.log)
    && forall x: nat | x < |s.sectors| :: s.sectors[x] == Latest(s.start, s.log, x)
  }

  ghost predicate Inv(s: Disk)
  {
    && OneOwner(s) && Contents(s)
    && (forall t: nat | t < |s.clients| :: ClientOk(s, s.clients[t], t))
    && (if s.owner == -1 then s.status == Idle && s.done == 0 else CardOk(s, s.clients[s.owner], s.owner))
  }
}
