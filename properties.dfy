/** What the merge join promises across calls of `getNextTuple`: a started
    match emits the whole buffer against one right tuple, and (in the dense,
    non-sparse mode) every joined tuple splits into a left part and a right
    part whose keys are equal and not null. */
module MergeJoinProperties {
  import opened Types
  import opened RightSource
  import opened MergeJoinSpec

  /** `n` consecutive calls of `getNextTuple` from `s`, with the plan
      setting `endOfAllInput` between calls as `Signal` says: the final state
      and the outcomes, in call order. */
  function Run(c: Config, s: Join, n: nat): (r: (Join, seq<Outcome>))
    requires WellFormed(s)
    ensures WellFormed(r.0) && r.0.rows == s.rows && |r.1| == n
    decreases n
  {
    if n == 0 then (s, [])
    else
      var r1 := GetNext(c, s);
      var (s2, os) := Run(c, Signal(r1), n - 1);
      (s2, [r1.1] + os)
  }

  /** Once a match has started (`doingJoin` with `counter` set), the next
      `n <= counter` calls emit `leftTuples[counter - 1]`, ...,
      `leftTuples[counter - n]`, each followed by the same right tuple, and
      change nothing but `counter`. With `n == counter` after
      `counter := |leftTuples|`, every buffered tuple is paired exactly once. */
  lemma {:induction false} DrainCycle(c: Config, s: Join, n: nat)
    requires WellFormed(s) && !s.firstTime && s.doingJoin && n <= s.counter
    requires forall i :: s.counter - n <= i < s.counter ==> s.leftTuples[i].Some?
    ensures Run(c, s, n).0 == s.(counter := s.counter - n)
    ensures forall i :: 0 <= i < n ==>
              Run(c, s, n).1[i] == Returned(Ok(s.leftTuples[s.counter - 1 - i].value + s.curJoiningRightTup))
    decreases n
  {
    if n > 0 {
      var s1 := s.(counter := s.counter - 1);
      assert GetNext(c, s) == (s1, Returned(Ok(s.leftTuples[s.counter - 1].value + s.curJoiningRightTup)));
      assert Signal(GetNext(c, s)) == s1;
      DrainCycle(c, s1, n - 1);
    }
  }

  // ---------------------------------------------------------------------
  // Soundness of the output in the dense mode

  /** A left tuple reference whose key (when it is not null) is `k`. */
  ghost predicate RowKeyed(c: Config, row: Row, k: Key)
  {
    row.Some? ==> c.leftKey(row.value) == KeyOk(k)
  }

  ghost predicate BufferKeyed(c: Config, buf: seq<Row>, k: Key)
  {
    forall i :: 0 <= i < |buf| ==> RowKeyed(c, buf[i], k)
  }

  /** The read-ahead right tuple has the read-ahead key. */
  ghost predicate ReadAheadKeyed(c: Config, s: Join)
  {
    s.prevRightKey.Some? && s.prevRightInp.Some? ==> c.rightKey(s.prevRightInp.value) == KeyOk(s.prevRightKey)
  }

  /** The right stream is used up and no read-ahead tuple is kept: the
      buffer can no longer be joined with anything. */
  ghost predicate Spent(s: Join)
  {
    s.pos == |s.rows| && s.prevRightInp.None?
  }

  /** The invariant behind the join's output: the buffer holds the run of
      `prevLeftKey` (or is dead: see `Spent`, and `prevLeftKey` is null only
      once the last run has been dealt with), and while a match is emitted
      the buffer and the right tuple both carry `curJoinKey`. The end of all
      input comes only after the left input is used up, and a match emitted
      after it is the last one. */
  ghost predicate Sound(c: Config, s: Join)
  {
    && (s.firstTime ==> s.prevLeftInp.None?)
    && (s.endOfAllInput ==> |s.left| == 0)
    && RowKeyed(c, s.prevLeftInp, s.prevLeftKey)
    && ReadAheadKeyed(c, s)
    && (s.doingJoin ==>
          && s.curJoinKey.Some?
          && c.rightKey(s.curJoiningRightTup) == KeyOk(s.curJoinKey)
          && BufferKeyed(c, s.leftTuples, s.curJoinKey)
          && (s.endOfAllInput ==> s.prevLeftKey.None?))
    && (!s.firstTime && !s.doingJoin ==>
          BufferKeyed(c, s.leftTuples, s.prevLeftKey) || Spent(s) || s.prevLeftKey.None?)
  }

  /** `out` splits after its first `n` fields into a left part and a right
      part whose keys are equal and not null. */
  ghost predicate JoinedAt(c: Config, out: Tuple, n: int)
  {
    && 0 <= n <= |out|
    && c.leftKey(out[..n]).KeyOk?
    && c.leftKey(out[..n]).k.Some?
    && c.leftKey(out[..n]) == c.rightKey(out[n..])
  }

  ghost predicate Joined(c: Config, out: Tuple)
  {
    exists n :: JoinedAt(c, out, n)
  }

  /** A call that returns normally: it neither hangs, nor leaves the
      invariant, nor emits a tuple that does not join equal keys; when it
      answers EOP no match is under way. */
  ghost predicate SoundStep(c: Config, r: (Join, Outcome))
  {
    && r.1 != Hang
    && (r.1.Returned? ==>
          && Sound(c, r.0)
          && (r.1.r.Ok? ==> Joined(c, r.1.r.t))
          && (r.1.r == Eop ==> !r.0.doingJoin))
  }

  lemma EmitSound(c: Config, s: Join)
    requires WellFormed(s) && Sound(c, s) && s.doingJoin && s.counter > 0
    ensures SoundStep(c, Emit(s))
  {
    assert Sound(c, s.(counter := s.counter - 1));
    var slot := s.leftTuples[s.counter - 1];
    if slot.Some? {
      var l := slot.value;
      var out := l + s.curJoiningRightTup;
      assert RowKeyed(c, slot, s.curJoinKey);
      assert out[..|l|] == l && out[|l|..] == s.curJoiningRightTup;
      assert JoinedAt(c, out, |l|);
    }
  }

  /** The drain loop's context: the buffer carries `curJoinKey`. */
  ghost predicate DrainReady(c: Config, s: Join)
  {
    && s.curJoinKey.Some?
    && (s.endOfAllInput ==> |s.left| == 0 && s.prevLeftKey.None?)
    && BufferKeyed(c, s.leftTuples, s.curJoinKey)
    && RowKeyed(c, s.prevLeftInp, s.prevLeftKey)
    && ReadAheadKeyed(c, s)
  }

  lemma {:induction false} DrainSound(c: Config, s: Join)
    requires WellFormed(s) && !s.firstTime && s.doingJoin && Sound(c, s)
    ensures SoundStep(c, Drain(c, s))
    decreases |s.rows| - s.pos, 3
  {
    if s.counter > 0 {
      EmitSound(c, s);
    } else {
      DrainLoopSound(c, s.(doingJoin := false));
    }
  }

  lemma {:induction false} DrainLoopSound(c: Config, s: Join)
    requires WellFormed(s) && !s.firstTime && !s.doingJoin && DrainReady(c, s)
    ensures SoundStep(c, DrainLoop(c, s))
    decreases |s.rows| - s.pos, 2
  {
    var (f, p) := Fetch(c.pipeline, s.rows, s.pos);
    DrainOnSound(c, s.(pos := p), f, s.pos);
  }

  lemma {:induction false} DrainOnSound(c: Config, s: Join, f: Fetched, from: nat)
    requires WellFormed(s) && !s.firstTime && !s.doingJoin && DrainReady(c, s)
    requires from <= s.pos && (f.Got? ==> from < s.pos) && (f.Exhausted? ==> s.pos == |s.rows|)
    ensures SoundStep(c, DrainOn(c, s, f, from))
    decreases |s.rows| - from, 1
  {
    match f
    case Failed =>
    case Exhausted =>
    case Got(t) =>
      match c.rightKey(t)
      case KeyFailed =>
      case KeyOk(None) =>
        DrainLoopSound(c, s);
      case KeyOk(Some(k)) =>
        if k == s.curJoinKey.value {
          DrainSound(c, s.(curJoiningRightTup := t, counter := |s.leftTuples|, doingJoin := true));
        }
  }

  /** The right-advance loop's context: `curJoinKey` was just set from
      `prevLeftKey`, and the new left tuple carries the new key (both are
      null at the end of all input). */
  ghost predicate AdvanceReady(c: Config, s: Join, row: Row, key: Key)
  {
    && s.curJoinKey == s.prevLeftKey
    && (s.endOfAllInput ==> |s.left| == 0 && row.None? && key.None?)
    && RowKeyed(c, row, key)
    && RowKeyed(c, s.prevLeftInp, s.prevLeftKey)
    && ReadAheadKeyed(c, s)
    && (BufferKeyed(c, s.leftTuples, s.prevLeftKey) || Spent(s) || s.prevLeftKey.None?)
  }

  lemma {:induction false} AdvanceSound(c: Config, s: Join, row: Row, key: Key, sliding: bool, seeked: bool)
    requires WellFormed(s) && !s.firstTime && !s.doingJoin && !c.sparse
    requires AdvanceReady(c, s, row, key)
    ensures SoundStep(c, Advance(c, s, row, key, sliding, seeked))
    decreases |s.rows| - s.pos, 1
  {
    var (f, p) := Fetch(c.pipeline, s.rows, s.pos);
    AdvanceOnSound(c, s.(pos := p), row, key, f, seeked, s.pos);
  }

  lemma {:induction false} AdvanceOnSound(c: Config, s: Join, row: Row, key: Key, f: Fetched, seeked: bool, from: nat)
    requires WellFormed(s) && !s.firstTime && !s.doingJoin && !c.sparse
    requires from <= s.pos && (f.Got? ==> from < s.pos) && (f.Exhausted? ==> s.pos == |s.rows|)
    requires AdvanceReady(c, s, row, key)
    requires f.Got? ==> BufferKeyed(c, s.leftTuples, s.prevLeftKey) || s.prevLeftKey.None?
    ensures SoundStep(c, AdvanceOn(c, s, row, key, f, seeked, from))
    decreases |s.rows| - from, 0
  {
    match f
    case Failed =>
    case Exhausted =>
    case Got(t) =>
      match c.rightKey(t)
      case KeyFailed =>
      case KeyOk(None) =>
        AdvanceSound(c, s, row, key, false, seeked);
      case KeyOk(Some(k)) =>
        if s.prevRightKey.Some? && k < s.prevRightKey.value {
        } else if s.prevLeftKey.None? {
        } else if k < s.prevLeftKey.value {
          AdvanceSound(c, s, row, key, true, seeked);
        } else if k == s.prevLeftKey.value {
          DrainSound(c, s.(curJoiningRightTup := t, counter := |s.leftTuples|, doingJoin := true,
                           prevLeftInp := row, prevLeftKey := key));
        }
  }

  lemma ReadAheadSound(c: Config, s: Join, row: Row, key: Key)
    requires WellFormed(s) && !s.firstTime && !s.doingJoin && !c.sparse
    requires AdvanceReady(c, s, row, key)
    ensures SoundStep(c, ReadAhead(c, s, row, key))
  {
    if s.prevRightKey.Some? && s.prevRightKey == s.prevLeftKey {
      if s.prevRightInp.Some? {
        DrainSound(c, s.(curJoiningRightTup := s.prevRightInp.value, counter := |s.leftTuples|,
                         doingJoin := true, prevLeftInp := row, prevLeftKey := key));
      }
    } else {
      AdvanceSound(c, s, row, key, false, false);
    }
  }

  lemma MatchSound(c: Config, s: Join, row: Row, key: Key)
    requires WellFormed(s) && !s.firstTime && !s.doingJoin && !c.sparse
    requires AdvanceReady(c, s, row, key)
    ensures SoundStep(c, Match(c, s, row, key))
  {
    ReadAheadSound(c, s, row, key);
  }

  lemma NextLeftSound(c: Config, s: Join)
    requires WellFormed(s) && !s.firstTime && !s.doingJoin && Sound(c, s) && !c.sparse
    ensures SoundStep(c, NextLeft(c, s))
  {
    var (inp, s1) := ProcessInput(s);
    if inp.Ok? && c.leftKey(inp.t).KeyOk? && c.leftKey(inp.t).k.Some? && s1.prevLeftKey.Some? {
      var k := c.leftKey(inp.t).k.value;
      if k == s1.prevLeftKey.value {
        var buf := s1.leftTuples + [Some(inp.t)];
        if BufferKeyed(c, s1.leftTuples, s1.prevLeftKey) {
          assert forall i :: 0 <= i < |buf| ==> buf[i] == if i < |s1.leftTuples| then s1.leftTuples[i] else Some(inp.t);
        }
      } else if k > s1.prevLeftKey.value {
        MatchSound(c, s1.(curJoinKey := s1.prevLeftKey), Some(inp.t), Some(k));
      }
    } else if inp == Eop && s1.endOfAllInput {
      MatchSound(c, s1.(curJoinKey := s1.prevLeftKey), None, None);
    }
  }

  /** One call from a sound state in the dense mode, the end of all input
      included: it does not hang, and when it returns the state is sound
      again and any tuple it returns joins equal non-null keys. */
  lemma GetNextSound(c: Config, s: Join)
    requires WellFormed(s) && Sound(c, s) && !c.sparse
    ensures SoundStep(c, GetNext(c, s))
  {
    if s.firstTime {
    } else if s.doingJoin {
      DrainSound(c, s);
    } else {
      NextLeftSound(c, s);
    }
  }

  /** The plan's end-of-input signal keeps the invariant: it comes only with
      the left input used up and no match under way. */
  lemma SignalSound(c: Config, r: (Join, Outcome))
    requires WellFormed(r.0) && SoundStep(c, r) && r.1.Returned?
    ensures Sound(c, Signal(r))
  {
  }

  lemma InitialSound(c: Config, left: seq<Result>, rows: seq<Tuple>)
    ensures Sound(c, Initial(left, false, rows))
  {
  }

  /** Over any number of calls from a sound state in the dense mode, with the
      plan raising `endOfAllInput` once the left input is used up: as long as
      every call has returned normally, every returned tuple splits into a
      left and a right part with equal non-null keys. */
  lemma {:induction false} RunSound(c: Config, s: Join, n: nat)
    requires WellFormed(s) && Sound(c, s) && !c.sparse
    ensures (forall i :: 0 <= i < n ==> Run(c, s, n).1[i].Returned?) ==>
              && Sound(c, Run(c, s, n).0)
              && forall i :: 0 <= i < n && Run(c, s, n).1[i].r.Ok? ==> Joined(c, Run(c, s, n).1[i].r.t)
    decreases n
  {
    if n > 0 {
      var r1 := GetNext(c, s);
      var s1 := Signal(r1);
      var rest := Run(c, s1, n - 1);
      var os := Run(c, s, n).1;
      assert os == [r1.1] + rest.1;
      if forall i :: 0 <= i < n ==> os[i].Returned? {
        assert os[0] == r1.1;
        GetNextSound(c, s);
        SignalSound(c, r1);
        RunSound(c, s1, n - 1);
        assert forall i :: 1 <= i < n ==> os[i] == rest.1[i - 1];
        assert forall i :: 0 <= i < n - 1 ==> rest.1[i].Returned? by {
          forall i | 0 <= i < n - 1 ensures rest.1[i].Returned? {
            assert os[i + 1] == rest.1[i];
          }
        }
      }
    }
  }
}
