/** Pipes: a ring buffer with 32-bit counters that wrap, used under pi->lock by
    any number of readers and writers. Each method runs from taking the lock, or
    from waking up, to sleeping or returning. */
module PipeModule {
  const PIPESIZE := 512
  const WRAP := 0x1_0000_0000 // of an unsigned int

  datatype Outcome = Returned(r: int) | Slept

  /** accepted and delivered are all bytes ever written and read; readers and
      writers are the processes asleep on &pi->nread and &pi->nwrite. */
  class Pipe {
    const data: array<char>
    var nread: nat
    var nwrite: nat
    var readopen: bool
    var writeopen: bool
    ghost var accepted: seq<char>
    ghost var delivered: seq<char>
    ghost var readers: set<nat>
    ghost var writers: set<nat>

    /** The bytes delivered are a prefix of those accepted, at most PIPESIZE are
        under way, and those are in the ring at their places. */
    ghost predicate Valid()
      reads this, data
    {
      && data.Length == PIPESIZE
      && delivered <= accepted && |accepted| <= |delivered| + PIPESIZE
      && nread == |delivered| % WRAP && nwrite == |accepted| % WRAP
      && forall k | |delivered| <= k < |accepted| :: data[k % PIPESIZE] == accepted[k]
    }

    /** A reader sleeps only on an empty pipe that can still be written, a writer
        only on a full pipe that can still be read. */
    ghost predicate SleepersWait()
      reads this
    {
      && (readers != {} ==> accepted == delivered && writeopen)
      && (writers != {} ==> |accepted| == |delivered| + PIPESIZE && readopen)
    }

    /** pipewrite is about to be killed between two bytes of one go: readers sleep,
        it has room to take the bytes up to killAt, and no copy fails before. */
    ghost predicate LosesWakeup(n: nat, i: nat, killAt: nat, copyBad: nat)
      reads this
    {
      && readopen && readers != {} && i < killAt < n
      && killAt - i <= |delivered| + PIPESIZE - |accepted|
      && !(i <= copyBad < killAt)
    }

    /** pipealloc. */
    constructor ()
      ensures Valid() && SleepersWait() && fresh(data) && accepted == [] && delivered == []
      ensures readopen && writeopen && readers == {} && writers == {}
    {
      data := new char[PIPESIZE];
      nread, nwrite, readopen, writeopen := 0, 0, true, true;
      accepted, delivered, readers, writers := [], [], {}, {};
    }

    /** pipewrite from its i-th byte on, by process me. killed(pr) is seen to hold
        from byte killAt on, and copyin fails at byte copyBad. The bytes taken
        are src[i..j]. */
    method Write(src: seq<char>, i: nat, killAt: nat, copyBad: nat, ghost me: nat) returns (out: Outcome, j: nat)
      requires Valid() && i <= |src|
      modifies this, data
      ensures Valid() && i <= j <= |src| && accepted == old(accepted) + src[i..j] && delivered == old(delivered)
      ensures readopen == old(readopen) && writeopen == old(writeopen)
      ensures out == Slept ==> j < |src| && readopen && j < killAt && |accepted| == |delivered| + PIPESIZE
      ensures out.Returned? && out.r == -1 ==> j < |src| && (!readopen || killAt <= j)
      ensures out.Returned? && out.r != -1 ==> out.r == j
      ensures out.Returned? && out.r != -1 && j < |src| ==>
                j == copyBad && readopen && j < killAt && |accepted| < |delivered| + PIPESIZE
      ensures i < j ==> readopen && j <= killAt && !(i <= copyBad < j)
      ensures readers == (if out == Returned(-1) then old(readers) else {})
      ensures writers == (if out == Slept then old(writers) + {me} else old(writers))
      ensures old(SleepersWait()) ==> (SleepersWait() <==> !(out == Returned(-1) && i < j && readers != {}))
      ensures old(SleepersWait()) ==> (!SleepersWait() <==> old(LosesWakeup(|src|, i, killAt, copyBad)))
    {
      j := i;
      while j < |src|
        invariant Valid() && i <= j <= |src| && accepted == old(accepted) + src[i..j] && delivered == old(delivered)
        invariant readopen == old(readopen) && writeopen == old(writeopen) && readers == old(readers) && writers == old(writers)
        invariant i < j ==> readopen && j <= killAt && !(i <= copyBad < j)
      {
        if !readopen || killAt <= j {
          return Returned(-1), j;
        }
        IsFull(|accepted|, |delivered|);
        if nwrite == (nread + PIPESIZE) % WRAP {
          readers := {};
          writers := writers + {me};
          return Slept, j;
        }
        if j == copyBad {
          break;
        }
        Put(src[j]);
        j := j + 1;
      }
      readers := {};
      out := Returned(j);
    }

    /** pi->data[pi->nwrite++ % PIPESIZE] = ch. */
    method Put(ch: char)
      requires Valid() && |accepted| < |delivered| + PIPESIZE
      modifies this`nwrite, this`accepted, data
      ensures Valid() && accepted == old(accepted) + [ch]
    {
      Slot(|accepted|);
      OtherSlots(|delivered|, |accepted|);
      data[nwrite % PIPESIZE] := ch;
      nwrite := (nwrite + 1) % WRAP;
      accepted := accepted + [ch];
    }

    /** piperead by process me; copyout fails at byte copyBad. The bytes delivered
        are the oldest ones, at most n; a failed copy delivers none. */
    method Read(n: int, killed: bool, copyBad: nat, ghost me: nat) returns (out: Outcome, got: seq<char>)
      requires Valid()
      modifies this
      ensures Valid() && accepted == old(accepted) && delivered == old(delivered) + got
      ensures readopen == old(readopen) && writeopen == old(writeopen)
      ensures if old(accepted == delivered && writeopen) then out == (if killed then Returned(-1) else Slept) && got == []
              else out == Returned(if got == [] && n > 0 && copyBad == 0 && old(accepted != delivered) then -1 else |got|)
      ensures !old(accepted == delivered && writeopen) ==>
                (|got| == n || (n <= 0 && got == []) || accepted == delivered || |got| == copyBad) && |got| <= copyBad
      ensures readers == (if out == Slept then old(readers) + {me} else old(readers))
      ensures writers == (if old(accepted == delivered && writeopen) then old(writers) else {})
      ensures old(SleepersWait()) ==> SleepersWait()
    {
      got := [];
      IsEmpty(|accepted|, |delivered|);
      if nread == nwrite && writeopen {
        if killed {
          return Returned(-1), got;
        }
        readers := readers + {me};
        return Slept, got;
      }
      var i := 0;
      while i < n
        invariant Valid() && 0 <= i == |got| <= copyBad && (i <= n || i == 0)
        invariant accepted == old(accepted) && delivered == old(delivered) + got
        invariant readopen == old(readopen) && writeopen == old(writeopen) && readers == old(readers)
      {
        IsEmpty(|accepted|, |delivered|);
        if nread == nwrite {
          break;
        }
        Slot(|delivered|);
        var ch := data[nread % PIPESIZE];
        if i == copyBad {
          writers := {};
          return Returned(if i == 0 then -1 else i), got;
        }
        nread := (nread + 1) % WRAP;
        delivered := delivered + [ch];
        got := got + [ch];
        i := i + 1;
      }
      writers := {};
      out := Returned(i);
    }

    /** pipeclose: whether the pipe's page is freed. */
    method Close(writable: bool) returns (freed: bool)
      requires Valid()
      modifies this
      ensures Valid() && accepted == old(accepted) && delivered == old(delivered)
      ensures readopen == (old(readopen) && writable) && writeopen == (old(writeopen) && !writable)
      ensures freed <==> !readopen && !writeopen
      ensures old(SleepersWait()) ==> SleepersWait()
      ensures writable ==> readers == {}
      ensures !writable ==> writers == {}
    {
      if writable {
        writeopen := false;
        readers := {};
      } else {
        readopen := false;
        writers := {};
      }
      freed := !readopen && !writeopen;
    }
  }

  // ----- counters that wrap -----

  lemma IsEmpty(a: nat, d: nat)
    requires d <= a <= d + PIPESIZE
    ensures d % WRAP == a % WRAP <==> a == d
  {
  }

  lemma IsFull(a: nat, d: nat)
    requires d <= a <= d + PIPESIZE
    ensures a % WRAP == (d % WRAP + PIPESIZE) % WRAP <==> a == d + PIPESIZE
  {
  }

  /** The wrapped counter names the same place in the ring, since PIPESIZE divides WRAP. */
  lemma Slot(k: nat)
    ensures k % WRAP % PIPESIZE == k % PIPESIZE && (k % WRAP + 1) % WRAP == (k + 1) % WRAP
  {
    assert k == k / WRAP * WRAP + k % WRAP;
    assert WRAP == 8388608 * PIPESIZE;
  }

  lemma OtherSlots(d: nat, a: nat)
    requires d <= a < d + PIPESIZE
    ensures forall k | d <= k < a :: k % PIPESIZE != a % PIPESIZE
  {
  }

  /** A writer killed after its first byte returns without a wakeup: the reader
      that slept on the empty pipe sleeps on, though there is a byte for it. */
  method ReaderLeftAsleep() returns (p: Pipe)
    ensures p.Valid() && p.readers == {1} && p.accepted == "a" && p.delivered == "" && !p.SleepersWait()
  {
    p := new Pipe();
    var slept, got := p.Read(1, false, 1, 1);
    var killed, j := p.Write("ab", 0, 1, 2, 2);
  }
}
