/**
  pipe.c: a ring buffer with free-running 32-bit counters, used by any number of readers and
  writers.  A call holds the pipe's lock from one sleep to the next, so a call is a sequence of
  segments, and an interleaving of readers and writers is a sequence of segments of different
  processes.  After is the effect of one segment on what went in, what came out and who sleeps;
  each method of RingPipe carries out one of them on the ring.
 */
module Pipe {
  import opened Params

  const PIPESIZE: nat := 512

  /** How a segment ended: the call returned n, it returned -1, or the process went to sleep. */
  datatype Outcome = Done | Failed | Slept

  /** A count as an unsigned 32-bit counter shows it. */
  function Wrap(k: int): int {
    k % UINT
  }

  /** The ring slot of a count. */
  function Slot(k: int): (i: int)
    ensures 0 <= i < PIPESIZE
  {
    k % PIPESIZE
  }

  // ----- segments -----

  /** Every byte that went in and came out, the processes asleep on &nread and on &nwrite, and the open ends. */
  datatype State = State(
    written: seq<char>, taken: seq<char>, readers: set<int>, writers: set<int>, readopen: bool, writeopen: bool)

  /**
    A call of pipewrite from byte i on, or of piperead, by process me up to its return or its next
    sleep; pipeclose; or kill, which wakes the sleeper me.
   */
  datatype Op =
    | Write(me: int, addr: seq<char>, i: nat, killed: bool)
    | Read(me: int, n: nat, killed: bool)
    | Shut(writable: bool)
    | Kill(me: int)

  predicate OpOk(op: Op) {
    op.Write? ==> op.i <= |op.addr|
  }

  /** Bytes come out in the order they went in, and no more than the ring holds are in between. */
  ghost predicate Fifo(s: State) {
    s.taken <= s.written && |s.written| - |s.taken| <= PIPESIZE
  }

  /** How many bytes are in the pipe. */
  ghost function Filling(s: State): int {
    |s.written| - |s.taken|
  }

  /** How many bytes the segment moves. */
  ghost function Moved(s: State, op: Op): int
    requires OpOk(op)
  {
    match op
    case Write(_, addr, i, _) => Min(|addr| - i, PIPESIZE - Filling(s))
    case Read(_, n, _) => if Ends(s, op) == Done then Min(n, Filling(s)) else 0
    case _ => 0
  }

  ghost function Ends(s: State, op: Op): Outcome
    requires OpOk(op)
  {
    match op
    case Write(_, addr, i, killed) =>
      if |addr| - i <= PIPESIZE - Filling(s) then Done else if !s.readopen || killed then Failed else Slept
    case Read(_, _, killed) => if Filling(s) > 0 || !s.writeopen then Done else if killed then Failed else Slept
    case _ => Done
  }

  ghost function After(s: State, op: Op): State
    requires Fifo(s) && OpOk(op)
  {
    match op
    case Write(me, addr, i, _) =>
      s.(written := s.written + addr[i..i + Moved(s, op)],
         readers := if Ends(s, op) == Failed then s.readers else {},
         writers := if Ends(s, op) == Slept then s.writers + {me} else s.writers)
    case Read(me, n, _) =>
      s.(taken := s.written[..|s.taken| + Moved(s, op)],
         readers := if Ends(s, op) == Slept then s.readers + {me} else s.readers,
         writers := if Ends(s, op) == Done then {} else s.writers)
    case Shut(writable) =>
      if writable then s.(writeopen := false, readers := {}) else s.(readopen := false, writers := {})
    case Kill(me) => s.(readers := s.readers - {me}, writers := s.writers - {me})
  }

  /** Sleeping writers mean a full pipe with the read end open. */
  ghost predicate WritersOk(s: State) {
    s.writers != {} ==> Filling(s) == PIPESIZE && s.readopen
  }

  /** Sleeping readers mean an empty pipe with the write end, and their own end, open. */
  ghost predicate ReadersOk(s: State) {
    s.readers != {} ==> Filling(s) == 0 && s.writeopen && s.readopen
  }

  /**
    Whoever calls is awake, a caller of piperead has the read end open, and nobody sleeps in a call on an
    end being closed.
   */
  ghost predicate Possible(s: State, op: Op) {
    && OpOk(op)
    && match op
       case Write(me, _, _, _) => me !in s.readers && me !in s.writers
       case Read(me, _, _) => me !in s.readers && me !in s.writers && s.readopen
       case Shut(writable) => if writable then s.writers == {} else s.readers == {}
       case Kill(_) => true
  }

  /** In every state, order and bound are kept, and sleeping writers always have a full pipe before them. */
  lemma AfterKeeps(s: State, op: Op)
    requires Fifo(s) && OpOk(op)
    ensures Fifo(After(s, op)) && s.written <= After(s, op).written && s.taken <= After(s, op).taken
    ensures WritersOk(s) ==> WritersOk(After(s, op))
  {
  }

  /** A killed writer that fills the pipe gives up without waking the readers. */
  ghost predicate GivesUp(s: State, op: Op) {
    OpOk(op) && op.Write? && op.killed && s.readers != {} && |op.addr| - op.i > PIPESIZE
  }

  /** Sleeping readers come to miss data exactly by that. */
  lemma ReadersMiss(s: State, op: Op)
    requires Fifo(s) && Possible(s, op) && ReadersOk(s)
    ensures ReadersOk(After(s, op)) <==> !GivesUp(s, op)
  {
    if op.Kill? && s.readers - {op.me} != {} { assert s.readers != {}; }
  }

  /**
    What puts it right again: a write that does not fail, a read that empties the pipe, the writers'
    close, or waking the last sleeper.
   */
  ghost predicate PutsRight(s: State, op: Op)
    requires OpOk(op)
  {
    match op
    case Write(_, _, _, _) => Ends(s, op) != Failed
    case Read(_, n, _) => Ends(s, op) == Done && n >= Filling(s) && s.writeopen
    case Shut(writable) => writable
    case Kill(me) => s.readers == {me}
  }

  lemma ReadersFind(s: State, op: Op)
    requires Fifo(s) && Possible(s, op) && !ReadersOk(s)
    ensures ReadersOk(After(s, op)) <==> PutsRight(s, op)
  {
    if op.Kill? {
      if s.readers - {op.me} == {} { assert s.readers <= {op.me}; }
    }
  }

  /**
    What a segment of pipewrite does: bytes of addr go in from i on, until they are all in or the pipe is
    full; all in, it returns; otherwise it fails if there is no reader or it is killed, and sleeps if not.
   */
  lemma WriteMeans(s: State, me: int, addr: seq<char>, i: nat, killed: bool) returns (j: nat)
    requires Fifo(s) && i <= |addr|
    ensures var t := After(s, Write(me, addr, i, killed)); var end := Ends(s, Write(me, addr, i, killed));
      && i <= j <= |addr| && t.written == s.written + addr[i..j] && (j < |addr| ==> |t.written| - |t.taken| == PIPESIZE)
      && end == (if j == |addr| then Done else if !s.readopen || killed then Failed else Slept)
      && t == s.(written := t.written, readers := if end == Failed then s.readers else {},
                 writers := if end == Slept then s.writers + {me} else s.writers)
  {
    j := i + Moved(s, Write(me, addr, i, killed));
  }

  /** Conversely only After does that. */
  lemma WriteIs(s: State, me: int, addr: seq<char>, i: nat, killed: bool, j: nat, end: Outcome, t: State)
    requires Fifo(s) && i <= j <= |addr| && t.written == s.written + addr[i..j] && |t.written| - |t.taken| <= PIPESIZE
    requires j < |addr| ==> |t.written| - |t.taken| == PIPESIZE
    requires end == if j == |addr| then Done else if !s.readopen || killed then Failed else Slept
    requires t == s.(written := t.written, readers := if end == Failed then s.readers else {},
                     writers := if end == Slept then s.writers + {me} else s.writers)
    ensures t == After(s, Write(me, addr, i, killed)) && end == Ends(s, Write(me, addr, i, killed))
  {
  }

  /**
    What a segment of piperead does: with something in the pipe, or no writer, the next bytes come out
    until there are n of them or the pipe is empty; otherwise it fails if killed and sleeps if not.
   */
  lemma ReadMeans(s: State, me: int, n: nat, killed: bool) returns (out: seq<char>)
    requires Fifo(s)
    ensures var t := After(s, Read(me, n, killed)); var end := Ends(s, Read(me, n, killed));
      && t.taken == s.taken + out && t.taken <= s.written
      && end == (if s.taken != s.written || !s.writeopen then Done else if killed then Failed else Slept)
      && (if end == Done then |out| <= n && (|out| < n ==> t.taken == s.written) else out == [])
      && t == s.(taken := t.taken, readers := if end == Slept then s.readers + {me} else s.readers,
                 writers := if end == Done then {} else s.writers)
  {
    var k := |s.taken| + Moved(s, Read(me, n, killed));
    out := s.written[|s.taken|..k];
    assert s.taken == s.written[..|s.taken|];
    assert s.taken != s.written <==> Filling(s) > 0;
  }

  // ----- runs -----

  ghost function AfterAll(s: State, ops: seq<Op>): (r: State)
    requires Fifo(s) && forall k :: 0 <= k < |ops| ==> OpOk(ops[k])
    ensures Fifo(r) && s.taken <= r.taken && s.written <= r.written && (WritersOk(s) ==> WritersOk(r))
  {
    if ops == [] then s
    else
      var t, op := AfterAll(s, ops[..|ops|-1]), ops[|ops|-1];
      AfterKeeps(t, op);
      After(t, op)
  }

  ghost predicate IsRun(s: State, ops: seq<Op>)
    requires Fifo(s)
  {
    && (forall k :: 0 <= k < |ops| ==> OpOk(ops[k]))
    && forall k :: 0 <= k < |ops| ==> Possible(AfterAll(s, ops[..k]), ops[k])
  }

  /** In every run in which no killed writer gives up, a sleeping reader has an empty pipe with both ends open. */
  lemma {:induction false} NoReaderMisses(s: State, ops: seq<Op>)
    requires Fifo(s) && ReadersOk(s) && IsRun(s, ops)
    requires forall k :: 0 <= k < |ops| ==> !GivesUp(AfterAll(s, ops[..k]), ops[k])
    ensures ReadersOk(AfterAll(s, ops))
  {
    if ops != [] {
      var n := |ops| - 1;
      forall k | 0 <= k < n
        ensures ops[..n][..k] == ops[..k]
      {
      }
      NoReaderMisses(s, ops[..n]);
      ReadersMiss(AfterAll(s, ops[..n]), ops[n]);
    }
  }

  // ----- a call over its segments -----

  /** The bytes that the segments of me have put into the pipe, one after the other. */
  ghost function Given(s: State, ops: seq<Op>, me: int): seq<char>
    requires Fifo(s) && forall k :: 0 <= k < |ops| ==> OpOk(ops[k])
  {
    if ops == [] then []
    else
      var n := |ops| - 1;
      var before, after := AfterAll(s, ops[..n]).written, AfterAll(s, ops).written;
      Given(s, ops[..n], me) + if ops[n].Write? && ops[n].me == me then after[|before|..] else []
  }

  /** The segments of me are those of one call that writes addr: each goes on where the last one stopped. */
  ghost predicate OneCall(s: State, ops: seq<Op>, me: int, addr: seq<char>)
    requires Fifo(s)
  {
    && (forall k :: 0 <= k < |ops| ==> OpOk(ops[k]))
    && forall k :: 0 <= k < |ops| && ops[k].Write? && ops[k].me == me ==>
         ops[k].addr == addr && ops[k].i == |Given(s, ops[..k], me)|
  }

  /** The last segment is one of me, and the call returned in it. */
  ghost predicate Returned(s: State, ops: seq<Op>, me: int)
    requires Fifo(s) && forall k :: 0 <= k < |ops| ==> OpOk(ops[k])
  {
    && ops != [] && ops[|ops|-1].Write? && ops[|ops|-1].me == me
    && Ends(AfterAll(s, ops[..|ops|-1]), ops[|ops|-1]) == Done
  }

  /**
    However the segments of other processes come in between, a call of pipewrite puts in a front part of
    its bytes, each once and in order; and when it returns, all of them.
   */
  lemma {:induction false} WholeCall(s: State, ops: seq<Op>, me: int, addr: seq<char>)
    requires Fifo(s) && OneCall(s, ops, me, addr)
    ensures Given(s, ops, me) <= addr && (Returned(s, ops, me) ==> Given(s, ops, me) == addr)
  {
    hide OneCall, AfterAll, After, Ends;
    if ops != [] {
      var n := |ops| - 1;
      CallBefore(s, ops, me, addr);
      WholeCall(s, ops[..n], me, addr);
      if ops[n].Write? && ops[n].me == me {
        var given := SegmentGives(AfterAll(s, ops[..n]), ops[n]);
        GivenLast(s, ops, me, given);
        hide Given;
        FrontGrows(addr, Given(s, ops[..n], me), given);
      }
    }
  }

  lemma FrontGrows(addr: seq<char>, a: seq<char>, b: seq<char>)
    requires a <= addr && |a| + |b| <= |addr| && b == addr[|a|..|a| + |b|]
    ensures a + b <= addr
  {
  }

  lemma CallBefore(s: State, ops: seq<Op>, me: int, addr: seq<char>)
    requires Fifo(s) && ops != [] && OneCall(s, ops, me, addr)
    ensures (forall k :: 0 <= k < |ops| ==> OpOk(ops[k])) && OneCall(s, ops[..|ops|-1], me, addr)
    ensures var op := ops[|ops|-1];
      op.Write? && op.me == me ==> op.addr == addr && op.i == |Given(s, ops[..|ops|-1], me)|
  {
    var n := |ops| - 1;
    hide Given;
    forall k | 0 <= k < n ensures ops[..n][..k] == ops[..k] { }
  }

  /** What a segment of a write adds, and that it is the rest of addr exactly if the call returns. */
  lemma SegmentGives(s: State, op: Op) returns (given: seq<char>)
    requires Fifo(s) && OpOk(op) && op.Write?
    ensures op.i + |given| <= |op.addr| && given == op.addr[op.i..op.i + |given|]
    ensures After(s, op).written == s.written + given && (Ends(s, op) == Done ==> op.i + |given| == |op.addr|)
  {
    var j := WriteMeans(s, op.me, op.addr, op.i, op.killed);
    given := op.addr[op.i..j];
  }

  lemma GivenLast(s: State, ops: seq<Op>, me: int, given: seq<char>)
    requires Fifo(s) && ops != [] && (forall k :: 0 <= k < |ops| ==> OpOk(ops[k]))
    requires var op := ops[|ops|-1];
      op.Write? && op.me == me
      && After(AfterAll(s, ops[..|ops|-1]), op).written == AfterAll(s, ops[..|ops|-1]).written + given
    ensures Given(s, ops, me) == Given(s, ops[..|ops|-1], me) + given
  {
    hide After, Ends;
  }

  const FRESH := State([], [], {}, {}, true, true)

  /** A run to the failure: process 1 sleeps in a read, and process 2, killed, writes 513 bytes. */
  lemma MissingRun() returns (ops: seq<Op>)
    ensures IsRun(FRESH, ops) && ReadersOk(FRESH) && !ReadersOk(AfterAll(FRESH, ops))
    ensures Filling(AfterAll(FRESH, ops)) == PIPESIZE && AfterAll(FRESH, ops).readers == {1}
  {
    var r, w := Read(1, 1, false), Write(2, seq(PIPESIZE + 1, _ => 'x'), 0, true);
    ops := [r, w];
    var s1 := After(FRESH, r);
    assert s1 == FRESH.(readers := {1});
    assert ops[..0] == [] && ops[..1] == [r] && [r][..0] == [] && ops[..1][..0] == [];
    assert AfterAll(FRESH, []) == FRESH && AfterAll(FRESH, [r]) == s1;
    assert AfterAll(FRESH, ops) == After(s1, w);
  }

  // ----- the ring -----

  class RingPipe {
    const data: array<char>
    var nread: int
    var nwrite: int
    var readopen: bool
    var writeopen: bool
    /** The processes asleep on &nread and on &nwrite. */
    var readers: set<int>
    var writers: set<int>
    /** Every byte that ever went in, and every byte that ever came out. */
    ghost var written: seq<char>
    ghost var taken: seq<char>

    ghost function View(): State
      reads this
    {
      State(written, taken, readers, writers, readopen, writeopen)
    }

    /** The ring holds exactly the bytes in between, and the counters are the two counts. */
    ghost predicate Valid()
      reads this, data
    {
      && data.Length == PIPESIZE && Fifo(View())
      && nread == Wrap(|taken|) && nwrite == Wrap(|written|)
      && forall k :: |taken| <= k < |written| ==> data[Slot(k)] == written[k]
    }

    constructor ()
      ensures Valid() && View() == FRESH && fresh(data)
    {
      data := new char[PIPESIZE](_ => 'x');
      nread, nwrite, readopen, writeopen := 0, 0, true, true;
      readers, writers, written, taken := {}, {}, [], [];
    }

    /** The counter comparisons of the source see through the wrap-around. */
    lemma CountersExact()
      requires Valid()
      ensures nwrite == Wrap(nread + PIPESIZE) <==> |written| - |taken| == PIPESIZE
      ensures nread == nwrite <==> |written| == |taken|
      ensures Slot(nwrite) == Slot(|written|) && Slot(nread) == Slot(|taken|)
      ensures Wrap(nwrite + 1) == Wrap(|written| + 1) && Wrap(nread + 1) == Wrap(|taken| + 1)
    {
      hide Wrap, Slot;
      WrapExact(|written|, |taken|);
      WrapSlot(|written|);
      WrapSlot(|taken|);
    }

    /** One byte into the ring. */
    method Put(c: char)
      requires Valid() && |written| - |taken| < PIPESIZE
      modifies data, this`nwrite, this`written
      ensures Valid() && written == old(written) + [c]
    {
      hide Wrap, Slot;
      CountersExact();
      ghost var w, t := |written|, |taken|;
      data[Slot(nwrite)] := c;
      nwrite := Wrap(nwrite + 1);
      written := written + [c];
      forall k | t <= k < w ensures data[Slot(k)] == written[k] {
        SlotsDiffer(k, w);
      }
    }

    /** One byte out of the ring. */
    method Get() returns (c: char)
      requires Valid() && |taken| < |written|
      modifies this`nread, this`taken
      ensures Valid() && taken == old(taken) + [c] && c == written[|old(taken)|]
    {
      hide Wrap, Slot;
      CountersExact();
      c := data[Slot(nread)];
      nread := Wrap(nread + 1);
      taken := taken + [c];
      assert taken == written[..|taken|];
    }

    /**
      pipewrite from byte i on, up to its return or its next sleep: exactly as much as fits goes in, and
      sleepers are as After says.
     */
    method WriteSegment(me: int, addr: seq<char>, i: nat, killed: bool) returns (j: nat, outcome: Outcome)
      requires Valid() && i <= |addr|
      modifies data, this`nwrite, this`written, this`readers, this`writers
      ensures Valid() && View() == After(old(View()), Write(me, addr, i, killed))
      ensures i <= j <= |addr| && written == old(written) + addr[i..j] && (j < |addr| ==> |written| - |taken| == PIPESIZE)
      ensures outcome == if j == |addr| then Done else if !readopen || killed then Failed else Slept
      ensures readers == if outcome == Failed then old(readers) else {}
      ensures writers == if outcome == Slept then old(writers) + {me} else old(writers)
    {
      hide After, Ends, Wrap, Slot;
      ghost var s := View();
      j := i;
      while j < |addr|
        invariant i <= j <= |addr| && Valid() && taken == old(taken) && written == old(written) + addr[i..j]
        invariant readers == old(readers) && writers == old(writers)
      {
        CountersExact();
        if nwrite == Wrap(nread + PIPESIZE) {
          if !readopen || killed {
            WriteIs(s, me, addr, i, killed, j, Failed, View());
            return j, Failed;
          }
          readers := {};
          writers := writers + {me};
          WriteIs(s, me, addr, i, killed, j, Slept, View());
          return j, Slept;
        }
        Put(addr[j]);
        assert addr[i..j+1] == addr[i..j] + [addr[j]];
        j := j + 1;
      }
      readers := {};
      WriteIs(s, me, addr, i, killed, j, Done, View());
      return j, Done;
    }

    /** piperead's copy loop: as many of the next bytes as are asked for and there. */
    method CopyOut(n: nat) returns (out: seq<char>)
      requires Valid()
      modifies this`nread, this`taken
      ensures Valid() && taken == old(taken) + out
      ensures |out| == if n <= |written| - |old(taken)| then n else |written| - |old(taken)|
      ensures out == written[|old(taken)|..|old(taken)| + |out|]
    {
      ghost var t := |taken|;
      out := [];
      while |out| < n
        invariant |out| <= n && Valid() && taken == old(taken) + out
      {
        CountersExact();
        if nread == nwrite {
          break;
        }
        var c := Get();
        out := out + [c];
      }
      assert taken == written[..|taken|];
      assert out == taken[t..];
    }

    /** piperead up to its return or its next sleep: the next bytes in order, as many as are asked for and there. */
    method ReadSegment(me: int, n: nat, killed: bool) returns (out: seq<char>, outcome: Outcome)
      requires Valid()
      modifies this`nread, this`taken, this`readers, this`writers
      ensures Valid() && View() == After(old(View()), Read(me, n, killed)) && taken == old(taken) + out
      ensures outcome == if old(taken) != written || !writeopen then Done else if killed then Failed else Slept
      ensures if outcome == Done then |out| <= n && (|out| < n ==> taken == written) else out == []
      ensures readers == if outcome == Slept then old(readers) + {me} else old(readers)
      ensures writers == if outcome == Done then {} else old(writers)
    {
      hide Wrap, Slot;
      CountersExact();
      assert taken == written[..|taken|];
      if nread == nwrite && writeopen {
        if killed {
          return [], Failed;
        }
        readers := readers + {me};
        return [], Slept;
      }
      out := CopyOut(n);
      assert taken == written[..|taken|];
      writers := {};
      return out, Done;
    }

    /** pipeclose: the other side is woken, and the pipe is freed exactly when both ends are closed. */
    method Close(writable: bool) returns (freed: bool)
      requires Valid()
      modifies this`readopen, this`writeopen, this`readers, this`writers
      ensures Valid() && View() == After(old(View()), Shut(writable))
      ensures freed <==> !readopen && !writeopen
      ensures writable ==> !writeopen && readers == {} && readopen == old(readopen) && writers == old(writers)
      ensures !writable ==> !readopen && writers == {} && writeopen == old(writeopen) && readers == old(readers)
    {
      if writable {
        writeopen := false;
        readers := {};
      } else {
        readopen := false;
        writers := {};
      }
      freed := !readopen && !writeopen;
    }

    /** kill of a process asleep in the pipe: it runs again and finds itself killed. */
    method WakeKilled(me: int)
      requires Valid()
      modifies this`readers, this`writers
      ensures Valid() && View() == After(old(View()), Kill(me))
      ensures readers == old(readers) - {me} && writers == old(writers) - {me}
    {
      readers := readers - {me};
      writers := writers - {me};
    }

    /** Any interleaving of segments: all bytes read so far are a prefix of all bytes written, in order. */
    method Session(ops: seq<Op>) returns (out: seq<char>)
      requires Valid() && forall k :: 0 <= k < |ops| ==> OpOk(ops[k])
      modifies this, data
      ensures Valid() && View() == AfterAll(old(View()), ops) && taken == old(taken) + out
    {
      hide Wrap, Slot, After, Ends, Moved;
      ghost var s := View();
      out := [];
      var k := 0;
      assert ops[..0] == [];
      while k < |ops|
        invariant 0 <= k <= |ops| && Valid() && View() == AfterAll(s, ops[..k]) && taken == s.taken + out
      {
        assert ops[..k+1][..k] == ops[..k];
        var more := Perform(ops[k]);
        out := out + more;
        k := k + 1;
      }
      assert ops[..k] == ops;
    }

    method Perform(op: Op) returns (out: seq<char>)
      requires Valid() && OpOk(op)
      modifies this, data
      ensures Valid() && View() == After(old(View()), op) && taken == old(taken) + out
    {
      hide Wrap, Slot;
      out := [];
      match op
      case Write(me, addr, i, killed) => var j, outcome := WriteSegment(me, addr, i, killed);
      case Read(me, n, killed) =>
        var outcome;
        out, outcome := ReadSegment(me, n, killed);
      case Shut(writable) => var freed := Close(writable);
      case Kill(me) => WakeKilled(me);
    }
  }

  // ----- counters -----

  lemma WrapExact(w: nat, t: nat)
    requires t <= w <= t + PIPESIZE
    ensures Wrap(w) == Wrap(Wrap(t) + PIPESIZE) <==> w - t == PIPESIZE
    ensures Wrap(t) == Wrap(w) <==> w == t
  {
    assert w == w / UINT * UINT + Wrap(w) && t == t / UINT * UINT + Wrap(t);
    assert w / UINT == t / UINT || w / UINT == t / UINT + 1;
  }

  /** Wrapping changes neither the slot nor the next count, because the ring divides the counter range. */
  lemma WrapSlot(w: nat)
    ensures Slot(Wrap(w)) == Slot(w) && Wrap(Wrap(w) + 1) == Wrap(w + 1)
  {
    var q := w / UINT;
    assert w == q * UINT + Wrap(w);
    assert w == q * 0x80_0000 * PIPESIZE + Wrap(w);
  }

  /** Positions less than a ring apart use different slots. */
  lemma SlotsDiffer(k: nat, w: nat)
    requires k < w < k + PIPESIZE
    ensures Slot(k) != Slot(w)
  {
  }
}
