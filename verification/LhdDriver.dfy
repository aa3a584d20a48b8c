/**
 lhd_io and lhd_irq as code, for a thread that has the card to itself: which
 sectors a call transfers, and where it stops.
 */
module LhdDriver {
  import opened Errno
  import opened Lhd

  /** How the transfer of one sector ends: a write needs the caller's buffer first, a read last. */
  function SectorResult(write: bool, code: Code, reachable: bool): (res: Errno)
    ensures res == Success <==> code == Good && reachable
    ensures res == EFAULT <==> !reachable && (write || code == Good)
    ensures res in {Success, EFAULT} || res == ToErrno(code)
  {
    if write && !reachable then EFAULT
    else if code != Good then ToErrno(code)
    else if !reachable then EFAULT
    else Success
  }

  /** How many sectors are transferred before the first that fails. */
  function GoodRun(write: bool, codes: seq<Code>, reach: seq<bool>): (n: nat)
    requires |codes| == |reach|
    ensures n <= |codes|
    ensures forall i: nat | i < n :: SectorResult(write, codes[i], reach[i]) == Success
    ensures n < |codes| ==> SectorResult(write, codes[n], reach[n]) != Success
  {
    if codes == [] || SectorResult(write, codes[0], reach[0]) != Success then 0 else 1 + GoodRun(write, codes[1..], reach[1..])
  }

  lemma {:induction false} GoodRunAt(write: bool, codes: seq<Code>, reach: seq<bool>, n: nat)
    requires n <= |codes| == |reach| && (forall i: nat | i < n :: SectorResult(write, codes[i], reach[i]) == Success)
    requires n < |codes| ==> SectorResult(write, codes[n], reach[n]) != Success
    ensures GoodRun(write, codes, reach) == n
  {
  }

  /** Sectors from `at` on replaced by `d`. */
  function Overwritten(s: seq<Data>, at: nat, d: seq<Data>): (r: seq<Data>)
    requires at + |d| <= |s|
  {
    s[..at] + d + s[at + |d|..]
  }

  lemma OverwriteNext(s: seq<Data>, at: nat, d: seq<Data>, n: nat)
    requires n < |d| && at + |d| <= |s|
    ensures Overwritten(s, at, d[..n])[at + n := d[n]] == Overwritten(s, at, d[..n + 1])
  {
  }

  class Softc {
    var clear: nat
    var done: nat
    var result: Errno
    var sect: nat
    var status: Status
    var buf: Data
    var sectors: seq<Data>

    ghost predicate Quiet()
      reads this
    {
      clear == 1 && done == 0 && status == Idle
    }

    constructor (sectors: seq<Data>)
      ensures Quiet() && this.sectors == sectors
    {
      clear, done, result, sect, status, buf := 1, 0, Success, 0, Idle, [];
      this.sectors := sectors;
    }

    /** The card carries out what its registers say. */
    method CardWorks(code: Code)
      requires status.Working? && sect < |sectors|
      modifies this`status, this`sectors, this`buf
      ensures status == Finished(code)
      ensures sectors == if code == Good && old(status).write then old(sectors)[sect := old(buf)] else old(sectors)
      ensures code == Good && !old(status).write ==> buf == old(sectors)[sect]
    {
      if code == Good {
        if status.write {
          sectors := sectors[sect := buf];
        } else {
          buf := sectors[sect];
        }
      }
      status := Finished(code);
    }

    /** Only a finished operation is acknowledged and reported. */
    method HandleIrq()
      modifies this`status, this`result, this`done
      ensures if old(status).Finished? then status == Idle && result == ToErrno(old(status).code) && done == old(done) + 1
              else status == old(status) && result == old(result) && done == old(done)
    {
      match status
      case Idle =>
      case Working(_) =>
      case Finished(code) =>
        status := Idle;
        result := ToErrno(code);
        done := done + 1;
    }

    /** One sector: fill, start, wait, fetch. A bad buffer of the caller's stops a write before it starts, a read after. */
    method IoSector(x: nat, write: bool, d: Data, code: Code, reachable: bool) returns (res: Errno, got: Data)
      requires Quiet() && x < |sectors|
      modifies this
      ensures Quiet() && res == SectorResult(write, code, reachable)
      ensures sectors == if res == Success && write then old(sectors)[x := d] else old(sectors)
      ensures res == Success && !write ==> got == old(sectors)[x]
    {
      clear := clear - 1;
      if write {
        if !reachable {
          clear := clear + 1;
          return EFAULT, [];
        }
        buf := d;
      }
      sect := x;
      status := Working(write);
      CardWorks(code);
      HandleIrq();
      done := done - 1;
      res := result;
      got := buf;
      if res == Success && !write && !reachable {
        res := EFAULT;
      }
      clear := clear + 1;
    }

    /** The whole call; `codes` are the card's answers and `reach` the caller's good buffers, one per sector. */
    method Io(offset: nat, resid: nat, write: bool, data: seq<Data>, codes: seq<Code>, reach: seq<bool>)
      returns (res: Errno, got: seq<Data>)
      requires Quiet() && |codes| == |reach| == resid / SECTSIZE && (write ==> |data| == resid / SECTSIZE)
      modifies this
      ensures Quiet()
      ensures var sector, n := offset / SECTSIZE, GoodRun(write, codes, reach);
              if offset % SECTSIZE != 0 || resid % SECTSIZE != 0 || sector + |codes| > old(|sectors|)
              then res == EINVAL && got == [] && sectors == old(sectors)
              else && res == (if n == |codes| then Success else SectorResult(write, codes[n], reach[n]))
                   && sectors == (if write then Overwritten(old(sectors), sector, data[..n]) else old(sectors))
                   && got == (if write then [] else old(sectors)[sector..sector + n])
    {
      hide SectorResult;
      got := [];
      var sector, len := offset / SECTSIZE, resid / SECTSIZE;
      if offset % SECTSIZE != 0 || resid % SECTSIZE != 0 {
        return EINVAL, [];
      }
      if sector + len > |sectors| {
        return EINVAL, [];
      }
      var i := 0;
      while i < len
        invariant i <= len && Quiet() && |sectors| == old(|sectors|)
        invariant forall j: nat | j < i :: SectorResult(write, codes[j], reach[j]) == Success
        invariant sectors == if write then Overwritten(old(sectors), sector, data[..i]) else old(sectors)
        invariant got == if write then [] else old(sectors)[sector..sector + i]
      {
        var d: Data := if write then data[i] else [];
        var g;
        if write {
          OverwriteNext(old(sectors), sector, data, i);
        }
        res, g := IoSector(sector + i, write, d, codes[i], reach[i]);
        if res != Success {
          GoodRunAt(write, codes, reach, i);
          return;
        }
        if !write {
          got := got + [g];
        }
        i := i + 1;
      }
      GoodRunAt(write, codes, reach, len);
      res := Success;
    }
  }
}
