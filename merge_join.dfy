/** The operator `POMergeJoin` itself: its cross-call fields, the right
    loader it reads, and `getNextTuple`, each method proved to do exactly
    what the matching function of `MergeJoinSpec` describes. */
module MergeJoin {
  import opened Types
  import opened RightSource
  import opened RowCombiner
  import Spec = MergeJoinSpec

  class POMergeJoin {
    /** The join type is MERGESPARSE. */
    const sparse: bool
    /** The two `POLocalRearrange` key plans (index 0 left, index 1 right). */
    const leftKey: Tuple -> KeyOut
    const rightKey: Tuple -> KeyOut
    /** The right pipeline; None when `noInnerPlanOnRightSide`. */
    const pipeline: Option<Tuple -> PipeOut>
    const loader: RightLoader

    var firstTime: bool
    var doingJoin: bool
    var counter: nat
    var prevLeftKey: Key
    var prevLeftInp: Row
    var prevRightKey: Key
    var prevRightInp: Row
    var curJoinKey: Key
    var curJoiningRightTup: Tuple
    var leftTuples: seq<Row>
    /** The left results the upstream operator has still to hand over. */
    var input: seq<Result>
    /** The plan's `endOfAllInput` flag, set by the surrounding plan. */
    var endOfAllInput: bool

    function Cfg(): Spec.Config
    {
      Spec.Config(sparse, leftKey, rightKey, pipeline, loader.near)
    }

    ghost function State(): Spec.Join
      reads this, loader
    {
      Spec.Join(firstTime, doingJoin, counter, prevLeftKey, prevLeftInp, prevRightKey, prevRightInp,
                curJoinKey, curJoiningRightTup, leftTuples, input, endOfAllInput,
                loader.rows, loader.pos, loader.closed)
    }

    ghost predicate Valid()
      reads this, loader
    {
      loader.Valid() && Spec.WellFormed(State())
    }

    /** An operator whose right pipeline `setupRightPipeline` accepted:
        `setup` is what `SetupRightPipeline` made of the compiled plan. */
    constructor (sparse: bool, leftKey: Tuple -> KeyOut, rightKey: Tuple -> KeyOut,
                 setup: Setup, loader: RightLoader,
                 input: seq<Result>, endOfAllInput: bool)
      requires setup.Configured?
      requires loader.Valid() && loader.pos == 0 && !loader.closed
      ensures Valid()
      ensures this.sparse == sparse && this.leftKey == leftKey && this.rightKey == rightKey
      ensures this.pipeline == setup.pipeline && this.loader == loader
      ensures State() == Spec.Initial(input, endOfAllInput, loader.rows)
    {
      this.sparse := sparse;
      this.leftKey := leftKey;
      this.rightKey := rightKey;
      this.pipeline := setup.pipeline;
      this.loader := loader;
      firstTime := true;
      doingJoin := false;
      counter := 0;
      prevLeftKey := None;
      prevLeftInp := None;
      prevRightKey := None;
      prevRightInp := None;
      curJoinKey := None;
      curJoiningRightTup := [];
      leftTuples := [];
      this.input := input;
      this.endOfAllInput := endOfAllInput;
    }

    /** `getNextTuple()`. */
    method GetNextTuple() returns (o: Outcome)
      requires Valid()
      modifies this, loader
      ensures Valid()
      ensures (State(), o) == Spec.GetNext(Cfg(), old(State()))
    {
      if firstTime {
        o := SetUp();
      } else if doingJoin {
        o := JoinStep();
      } else {
        o := ReadLeft();
      }
    }

    /** `processInput()`. */
    method ProcessInput() returns (inp: Result)
      requires Valid()
      modifies this`input
      ensures Valid()
      ensures (inp, State()) == Spec.ProcessInput(old(State()))
    {
      if |input| == 0 {
        inp := Eop;
      } else {
        inp := input[0];
        input := input[1..];
      }
    }

    /** `getNextRightInp()`. With a pipeline, its leaf is asked first; it
        has nothing once its input is detached, so a raw row is pulled,
        attached, and the leaf asked again. */
    method GetNextRightInp() returns (f: Spec.Fetched)
      requires Valid()
      modifies loader`pos
      ensures Valid()
      ensures (f, loader.pos) == Spec.Fetch(pipeline, loader.rows, old(loader.pos))
    {
      if pipeline.None? {
        var t := loader.GetNext();
        f := if t.None? then Spec.Exhausted else Spec.Got(t.value);
        return;
      }
      while true
        invariant Valid()
        invariant Spec.Fetch(pipeline, loader.rows, loader.pos) == Spec.Fetch(pipeline, loader.rows, old(loader.pos))
        decreases |loader.rows| - loader.pos
      {
        var t := loader.GetNext();
        if t.None? {
          return Spec.Exhausted;
        }
        match pipeline.value(t.value)
        case Pass(u) => return Spec.Got(u);
        case Broken => return Spec.Failed;
        case Drop =>
      }
    }

    /** `getNextRightInp(leftKey)`: in sparse mode the loader seeks near the
        key first and the read-ahead key is forgotten. */
    method GetNextRightInpNear(k: Key) returns (f: Spec.Fetched)
      requires Valid() && !doingJoin
      modifies this`prevRightKey, loader`pos
      ensures Valid()
      ensures sparse ==> prevRightKey == None
      ensures sparse ==> (f, loader.pos) == Spec.Fetch(pipeline, loader.rows, Near(loader.near, loader.rows, k))
      ensures !sparse ==> prevRightKey == old(prevRightKey)
      ensures !sparse ==> (f, loader.pos) == Spec.Fetch(pipeline, loader.rows, old(loader.pos))
    {
      if sparse {
        loader.SeekNear(k);
        prevRightKey := None;
      }
      f := GetNextRightInp();
    }

    /** The set-up branch taken while `firstTime`. */
    method SetUp() returns (o: Outcome)
      requires Valid() && firstTime
      modifies this, loader
      ensures Valid()
      ensures (State(), o) == Spec.FirstCall(Cfg(), old(State()))
    {
      leftTuples := [];
      var curLeftInp := ProcessInput();
      if !curLeftInp.Ok? {
        return Returned(curLeftInp);
      }
      match leftKey(curLeftInp.t)
      case KeyFailed =>
        return Thrown(KeyPlanBroken);
      case KeyOk(None) =>
        return Returned(Null);
      case KeyOk(Some(k)) =>
        loader.Open(Some(k));
        leftTuples := [Some(curLeftInp.t)];
        firstTime := false;
        prevLeftKey := Some(k);
        return Returned(Null);
    }

    /** One joined tuple: `leftTuples[--counter]` followed by the right tuple. */
    method EmitJoined() returns (o: Outcome)
      requires Valid() && !firstTime && doingJoin && counter > 0
      modifies this`counter
      ensures Valid()
      ensures (State(), o) == Spec.Emit(old(State()))
    {
      counter := counter - 1;
      var joiningLeftTup := leftTuples[counter];
      if joiningLeftTup.None? {
        return Thrown(NullDereference);
      }
      var joinedTup := Combine(joiningLeftTup.value, curJoiningRightTup);
      assert joinedTup == joiningLeftTup.value + curJoiningRightTup;
      o := Returned(Ok(joinedTup));
    }

    /** The `doingJoin` branch. */
    method JoinStep() returns (o: Outcome)
      requires Valid() && !firstTime && doingJoin
      modifies this, loader
      ensures Valid()
      ensures (State(), o) == Spec.Drain(Cfg(), old(State()))
    {
      if counter > 0 {
        o := EmitJoined();
        return;
      }
      doingJoin := false;
      o := DrainRight();
    }

    /** The loop of the `doingJoin` branch once `counter` is 0. */
    method DrainRight() returns (o: Outcome)
      requires Valid() && !firstTime && !doingJoin
      modifies this, loader
      ensures Valid()
      ensures (State(), o) == Spec.DrainLoop(Cfg(), old(State()))
    {
      while true
        invariant Valid() && !firstTime && !doingJoin
        invariant Spec.DrainLoop(Cfg(), State()) == Spec.DrainLoop(Cfg(), old(State()))
        decreases |loader.rows| - loader.pos
      {
        ghost var from := loader.pos;
        var rightInp := GetNextRightInp();
        var done;
        done, o := DrainRightOnce(rightInp, from);
        if done {
          return;
        }
      }
    }

    /** The body of that loop after the fetch; `done` is false when the loop
        goes round again (a null key). */
    method DrainRightOnce(rightInp: Spec.Fetched, ghost from: nat) returns (done: bool, o: Outcome)
      requires Valid() && !firstTime && !doingJoin
      requires from <= loader.pos && (rightInp.Got? ==> from < loader.pos)
      modifies this, loader
      ensures Valid()
      ensures done ==> (State(), o) == Spec.DrainOn(Cfg(), old(State()), rightInp, from)
      ensures !done ==> rightInp.Got? && !firstTime && !doingJoin && loader.pos == old(loader.pos)
      ensures !done ==> Spec.DrainLoop(Cfg(), State()) == Spec.DrainOn(Cfg(), old(State()), rightInp, from)
    {
      done, o := true, Returned(Null);
      match rightInp
      case Failed =>
        return true, Thrown(RightInputFailed);
      case Exhausted =>
        prevRightInp := None;
        return true, Returned(Eop);
      case Got(t) =>
        match rightKey(t)
        case KeyFailed =>
          return true, Thrown(KeyPlanBroken);
        case KeyOk(None) =>
          return false, o;
        case KeyOk(Some(k)) =>
          if curJoinKey.None? {
            return true, Thrown(NullDereference);
          }
          if k == curJoinKey.value {
            curJoiningRightTup := t;
            counter := |leftTuples|;
            doingJoin := true;
            o := EmitJoined();
            return;
          } else if k > curJoinKey.value {
            if !endOfAllInput {
              prevRightKey := Some(k);
              prevRightInp := Some(t);
              leftTuples := [prevLeftInp];
              return true, Returned(Null);
            }
            loader.Close();
            return true, Returned(Eop);
          } else {
            return true, Thrown(NotSortedRight);
          }
    }

    /** The normal branch: the next left tuple. */
    method ReadLeft() returns (o: Outcome)
      requires Valid() && !firstTime && !doingJoin
      modifies this, loader
      ensures Valid()
      ensures (State(), o) == Spec.NextLeft(Cfg(), old(State()))
    {
      var curLeftInp := ProcessInput();
      match curLeftInp
      case Ok(t) =>
        match leftKey(t) {
          case KeyFailed =>
            return Thrown(KeyPlanBroken);
          case KeyOk(None) =>
            return Returned(Null);
          case KeyOk(Some(k)) =>
            if prevLeftKey.None? {
              return Thrown(NullDereference);
            }
            if k == prevLeftKey.value {
              leftTuples := leftTuples + [Some(t)];
              return Returned(Null);
            } else if k > prevLeftKey.value {
              curJoinKey := prevLeftKey;
              o := MatchRun(Some(t), Some(k));
            } else {
              return Thrown(NotSortedLeft);
            }
        }
      case Eop =>
        if endOfAllInput {
          curJoinKey := prevLeftKey;
          o := MatchRun(None, None);
        } else {
          return Returned(Eop);
        }
      case _ =>
        return Returned(curLeftInp);
    }

    /** The buffered run is complete: consult the read-ahead right tuple,
        then advance the right stream. */
    method MatchRun(row: Row, key: Key) returns (o: Outcome)
      requires Valid() && !firstTime && !doingJoin
      modifies this, loader
      ensures Valid()
      ensures (State(), o) == Spec.Match(Cfg(), old(State()), row, key)
    {
      if prevRightKey.Some? && !endOfAllInput {
        if key.None? {
          return Thrown(NullDereference);
        }
        if prevRightKey.value >= key.value {
          leftTuples := [row];
          prevLeftInp := row;
          prevLeftKey := key;
          return Returned(Null);
        }
      }
      if prevRightKey.Some? && prevRightKey == prevLeftKey {
        if prevRightInp.None? {
          return Thrown(NullDereference);
        }
        o := JoinWith(prevRightInp.value, row, key);
        return;
      }
      o := AdvanceRight(row, key);
    }

    /** A right tuple with the buffered key is in hand: the whole buffer is
        to be paired with it, and the new left tuple and key take the place of
        the previous ones. */
    method JoinWith(rt: Tuple, row: Row, key: Key) returns (o: Outcome)
      requires Valid() && !firstTime && !doingJoin
      modifies this, loader
      ensures Valid()
      ensures (State(), o) == Spec.Drain(Cfg(), old(State()).(curJoiningRightTup := rt, counter := |old(leftTuples)|,
                                                              doingJoin := true, prevLeftInp := row, prevLeftKey := key))
    {
      curJoiningRightTup := rt;
      counter := |leftTuples|;
      doingJoin := true;
      prevLeftInp := row;
      prevLeftKey := key;
      o := JoinStep();
    }

    /** The right-advance loop. A second seek inside one loop would put the
        operator back exactly where the first seek did, so from there it
        never returns; that is reported as `Hang`. */
    method AdvanceRight(row: Row, key: Key) returns (o: Outcome)
      requires Valid() && !firstTime && !doingJoin
      modifies this, loader
      ensures Valid()
      ensures (State(), o) == Spec.Advance(Cfg(), old(State()), row, key, false, false)
    {
      var slidingToNextRecord := false;
      var seeked := false;
      while true
        invariant Valid() && !firstTime && !doingJoin
        invariant Spec.Advance(Cfg(), State(), row, key, slidingToNextRecord, seeked)
                  == Spec.Advance(Cfg(), old(State()), row, key, false, false)
        decreases if seeked || !sparse then 0 else 1, |loader.rows| - loader.pos
      {
        var rightInp;
        ghost var from;
        if slidingToNextRecord {
          from := loader.pos;
          rightInp := GetNextRightInp();
          slidingToNextRecord := false;
        } else {
          if sparse && seeked {
            return Hang;
          }
          from := if sparse then Near(loader.near, loader.rows, prevLeftKey) else loader.pos;
          rightInp := GetNextRightInpNear(prevLeftKey);
          seeked := seeked || sparse;
        }
        var done;
        done, o, slidingToNextRecord := AdvanceRightOnce(row, key, rightInp, seeked, from);
        if done {
          return;
        }
      }
    }

    /** The body of the right-advance loop after the fetch; `done` is false
        when the loop goes round again, and `slide` is the new
        `slidingToNextRecord` (true only after a key below `prevLeftKey`). */
    method AdvanceRightOnce(row: Row, key: Key, rightInp: Spec.Fetched, ghost seeked: bool, ghost from: nat)
      returns (done: bool, o: Outcome, slide: bool)
      requires Valid() && !firstTime && !doingJoin
      requires from <= loader.pos && (rightInp.Got? ==> from < loader.pos)
      modifies this, loader
      ensures Valid()
      ensures done ==> (State(), o) == Spec.AdvanceOn(Cfg(), old(State()), row, key, rightInp, seeked, from)
      ensures !done ==> rightInp.Got? && State() == old(State())
      ensures !done ==> Spec.Advance(Cfg(), State(), row, key, slide, seeked)
                        == Spec.AdvanceOn(Cfg(), old(State()), row, key, rightInp, seeked, from)
    {
      done, o, slide := true, Returned(Null), false;
      match rightInp
      case Failed =>
        return true, Thrown(RightInputFailed), false;
      case Exhausted =>
        return true, Returned(Eop), false;
      case Got(t) =>
        match rightKey(t)
        case KeyFailed =>
          return true, Thrown(KeyPlanBroken), false;
        case KeyOk(None) =>
          return false, o, false;
        case KeyOk(Some(k)) =>
          done, o, slide := AdvanceRightOnKey(row, key, t, k, seeked, from);
    }

    /** That body once the right tuple has the non-null key `k`: check the
        right side's order, then slide on a smaller key, join on an equal one
        and keep the tuple as read-ahead on a greater one. */
    method AdvanceRightOnKey(row: Row, key: Key, t: Tuple, k: int, ghost seeked: bool, ghost from: nat)
      returns (done: bool, o: Outcome, slide: bool)
      requires Valid() && !firstTime && !doingJoin
      requires from < loader.pos && rightKey(t) == KeyOk(Some(k))
      modifies this, loader
      ensures Valid()
      ensures done ==> (State(), o) == Spec.AdvanceOn(Cfg(), old(State()), row, key, Spec.Got(t), seeked, from)
      ensures !done ==> slide && State() == old(State())
      ensures !done ==> Spec.Advance(Cfg(), State(), row, key, slide, seeked)
                        == Spec.AdvanceOn(Cfg(), old(State()), row, key, Spec.Got(t), seeked, from)
    {
      if prevRightKey.Some? && k < prevRightKey.value {
        return true, Thrown(NotSortedRight), false;
      }
      if prevLeftKey.None? {
        return true, Thrown(NullDereference), false;
      }
      if k < prevLeftKey.value {
        return false, Returned(Null), true;
      } else if k == prevLeftKey.value {
        o := JoinWith(t, row, key);
        return true, o, false;
      } else {
        Overshoot(row, key, t, k);
        return true, Returned(Null), false;
      }
    }

    /** The right stream went past the buffered key: the right tuple becomes
        the read-ahead one, the new left tuple starts the buffer, and at the
        end of all input the loader is closed. */
    method Overshoot(row: Row, key: Key, t: Tuple, k: int)
      requires Valid() && !firstTime && !doingJoin
      modifies this`prevRightKey, this`prevRightInp, this`leftTuples, this`prevLeftInp, this`prevLeftKey, loader`closed, loader`pos
      ensures Valid() && !firstTime && !doingJoin
      ensures State() == (var s2 := old(State()).(prevRightKey := Some(k), prevRightInp := Some(t),
                                                  leftTuples := [row], prevLeftInp := row, prevLeftKey := key);
                          if s2.endOfAllInput then s2.(closed := true, pos := |s2.rows|) else s2)
    {
      prevRightKey := Some(k);
      prevRightInp := Some(t);
      leftTuples := [row];
      prevLeftInp := row;
      prevLeftKey := key;
      if endOfAllInput {
        loader.Close();
      }
    }
  }
}
