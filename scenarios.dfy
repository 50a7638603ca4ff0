/** Two small dense joins worked through: tuples are pairs of numbers and
    the key of a tuple, on either side, is its first field. */
module MergeJoinScenarios {
  import opened Types
  import opened MergeJoinSpec
  import opened MergeJoinProperties
  import opened MergeJoinCompleteness

  function FirstField(t: Tuple): KeyOut
  {
    if |t| > 0 && t[0].Number? then KeyOk(Some(t[0].i)) else KeyOk(None)
  }

  /** Dense mode, no right pipeline, and an index that sends every seek to
      the first row. */
  function Dense(): Config
  {
    Config(false, FirstField, FirstField, None, k => 0)
  }

  /** A tuple with key `k` and payload `v`. */
  function T(k: int, v: int): Tuple
  {
    [Number(k), Number(v)]
  }

  lemma KeyOfT(k: int, v: int)
    ensures Dense().leftKey(T(k, v)) == KeyOk(Some(k)) && Dense().rightKey(T(k, v)) == KeyOk(Some(k))
    ensures KeyOf(FirstField, T(k, v)) == k
  {
  }

  lemma ExampleInputs()
    ensures Inputs(Dense(), [Ok(T(1, 1)), Ok(T(1, 2)), Ok(T(2, 3))], [T(1, 4), T(2, 5), T(2, 6)])
  {
    var left := [Ok(T(1, 1)), Ok(T(1, 2)), Ok(T(2, 3))];
    var ls := Lefts(left);
    assert ls == [T(1, 1), T(1, 2), T(2, 3)];
    KeyOfT(1, 1); KeyOfT(1, 2); KeyOfT(2, 3); KeyOfT(1, 4); KeyOfT(2, 5); KeyOfT(2, 6);
  }

  lemma ExampleMatching()
    ensures Matching(FirstField, [T(1, 4), T(2, 5), T(2, 6)], 1) == [T(1, 4)]
    ensures Matching(FirstField, [T(1, 4), T(2, 5), T(2, 6)], 2) == [T(2, 5), T(2, 6)]
  {
    var rows := [T(1, 4), T(2, 5), T(2, 6)];
    KeyOfT(1, 4); KeyOfT(2, 5); KeyOfT(2, 6);
    assert rows[1..] == [T(2, 5), T(2, 6)] && rows[1..][1..] == [T(2, 6)] && rows[1..][1..][1..] == [];
  }

  lemma ExampleExpected()
    ensures Expected(Dense(), [T(1, 1), T(1, 2), T(2, 3)], [T(1, 4), T(2, 5), T(2, 6)])
            == [T(1, 2) + T(1, 4), T(1, 1) + T(1, 4), T(2, 3) + T(2, 5), T(2, 3) + T(2, 6)]
  {
    var c := Dense();
    var ls := [T(1, 1), T(1, 2), T(2, 3)];
    var rows := [T(1, 4), T(2, 5), T(2, 6)];
    KeyOfT(1, 1); KeyOfT(1, 2); KeyOfT(2, 3);
    ExampleMatching();
    assert RunLength(c.leftKey, ls, 1) == 2 by {
      assert ls[1..] == [T(1, 2), T(2, 3)] && ls[1..][1..] == [T(2, 3)];
    }
    assert RunLength(c.leftKey, ls[2..], 2) == 1 by {
      assert ls[2..] == [T(2, 3)] && ls[2..][1..] == [];
    }
    assert ls[..2] == [T(1, 1), T(1, 2)] && ls[2..] == [T(2, 3)];
    assert ls[2..][..1] == [T(2, 3)] && ls[2..][1..] == [];
    assert Pairs([T(1, 1), T(1, 2)], T(1, 4)) == [T(1, 2) + T(1, 4), T(1, 1) + T(1, 4)] by {
      assert [T(1, 1), T(1, 2)][..1] == [T(1, 1)];
    }
    assert JoinRun([T(1, 1), T(1, 2)], [T(1, 4)]) == [T(1, 2) + T(1, 4), T(1, 1) + T(1, 4)] by {
      assert [T(1, 4)][1..] == [];
    }
    assert JoinRun([T(2, 3)], [T(2, 5), T(2, 6)]) == [T(2, 3) + T(2, 5), T(2, 3) + T(2, 6)] by {
      assert [T(2, 5), T(2, 6)][1..] == [T(2, 6)] && [T(2, 6)][1..] == [];
    }
    assert Expected(c, ls[2..], rows) == JoinRun([T(2, 3)], [T(2, 5), T(2, 6)]) + Expected(c, [], rows);
  }

  /** Left keys 1, 1, 2 against right keys 1, 2, 2: each left tuple meets
      each right tuple of its key exactly once, four rows in all, and the run
      ends with EOP. */
  lemma CrossProductOfRuns()
    ensures var left := [Ok(T(1, 1)), Ok(T(1, 2)), Ok(T(2, 3))];
            var rows := [T(1, 4), T(2, 5), T(2, 6)];
            && Inputs(Dense(), left, rows)
            && Inv(Dense(), Initial(left, false, rows))
            && Drive(Dense(), Initial(left, false, rows))
               == ([T(1, 2) + T(1, 4), T(1, 1) + T(1, 4), T(2, 3) + T(2, 5), T(2, 3) + T(2, 6)], Returned(Eop))
  {
    var left := [Ok(T(1, 1)), Ok(T(1, 2)), Ok(T(2, 3))];
    var rows := [T(1, 4), T(2, 5), T(2, 6)];
    ExampleInputs();
    MergeJoinComplete(Dense(), left, rows);
    assert Lefts(left) == [T(1, 1), T(1, 2), T(2, 3)];
    ExampleExpected();
  }

  /** Left keys 1, 3 against right keys 1, 4, 5, 6. After the end of all
      input the fifth call reads the row of key 5, closes the loader and
      answers STATUS_NULL; the plan calls once more, and the sixth call's
      read of the closed loader finds nothing and ends the run with EOP. */
  lemma ReadAfterClose()
    ensures var left := [Ok(T(1, 1)), Ok(T(3, 2))];
            var rows := [T(1, 3), T(4, 4), T(5, 5), T(6, 6)];
            var s := Initial(left, false, rows);
            && Run(Dense(), s, 5).0.closed
            && Run(Dense(), s, 6).1
               == [Returned(Null), Returned(Ok(T(1, 1) + T(1, 3))), Returned(Null), Returned(Eop),
                   Returned(Null), Returned(Eop)]
  {
    var c := Dense();
    var l1, l3 := T(1, 1), T(3, 2);
    var left := [Ok(l1), Ok(l3)];
    var rows := [T(1, 3), T(4, 4), T(5, 5), T(6, 6)];
    KeyOfT(1, 1); KeyOfT(3, 2); KeyOfT(1, 3); KeyOfT(4, 4); KeyOfT(5, 5);
    var s0 := Initial(left, false, rows);
    var s1 := s0.(left := [Ok(l3)], leftTuples := [Some(l1)], firstTime := false, prevLeftKey := Some(1));
    assert GetNext(c, s0) == (s1, Returned(Null));
    var s2 := s1.(left := [], curJoinKey := Some(1), pos := 1, curJoiningRightTup := T(1, 3), counter := 0,
                  doingJoin := true, prevLeftInp := Some(l3), prevLeftKey := Some(3));
    assert GetNext(c, s1) == (s2, Returned(Ok(l1 + T(1, 3)))) by {
      var m := s1.(left := [], curJoinKey := Some(1));
      assert s1.left[1..] == [];
      assert ProcessInput(s1) == (Ok(l3), s1.(left := []));
      assert GetNext(c, s1) == Match(c, m, Some(l3), Some(3));
      assert Match(c, m, Some(l3), Some(3)) == Advance(c, m, Some(l3), Some(3), false, false);
      assert Fetch(None, rows, 0) == (Got(T(1, 3)), 1);
      var d := m.(pos := 1, curJoiningRightTup := T(1, 3), counter := 1, doingJoin := true,
                  prevLeftInp := Some(l3), prevLeftKey := Some(3));
      assert Advance(c, m, Some(l3), Some(3), false, false) == Drain(c, d);
      assert Drain(c, d) == Emit(d);
    }
    var s3 := s2.(doingJoin := false, pos := 2, prevRightKey := Some(4), prevRightInp := Some(T(4, 4)),
                  leftTuples := [Some(l3)]);
    assert GetNext(c, s2) == (s3, Returned(Null)) by {
      assert Fetch(None, rows, 1) == (Got(T(4, 4)), 2);
      assert GetNext(c, s2) == DrainLoop(c, s2.(doingJoin := false));
      assert DrainLoop(c, s2.(doingJoin := false)) == DrainOn(c, s2.(doingJoin := false, pos := 2), Got(T(4, 4)), 1);
    }
    assert GetNext(c, s3) == (s3, Returned(Eop));
    var s4 := s3.(endOfAllInput := true);
    assert Signal((s3, Returned(Eop))) == s4;
    var s5 := s4.(curJoinKey := Some(3), pos := 4, prevRightKey := Some(5), prevRightInp := Some(T(5, 5)),
                  leftTuples := [None], prevLeftInp := None, prevLeftKey := None, closed := true);
    assert GetNext(c, s4) == (s5, Returned(Null)) by {
      var m := s4.(curJoinKey := Some(3));
      assert GetNext(c, s4) == Match(c, m, None, None);
      assert Match(c, m, None, None) == Advance(c, m, None, None, false, false);
      assert Fetch(None, rows, 2) == (Got(T(5, 5)), 3);
      assert Advance(c, m, None, None, false, false) == AdvanceOn(c, m.(pos := 3), None, None, Got(T(5, 5)), false, 2);
    }
    var s6 := s5.(curJoinKey := None);
    assert GetNext(c, s5) == (s6, Returned(Eop)) by {
      assert GetNext(c, s5) == Match(c, s6, None, None);
      assert Match(c, s6, None, None) == Advance(c, s6, None, None, false, false);
      assert Fetch(None, rows, 4) == (Exhausted, 4);
    }
    assert Signal((s6, Returned(Eop))) == s6;
    assert Signal((s5, Returned(Null))) == s5;
    assert Run(c, s6, 0) == (s6, []) && Run(c, s5, 0) == (s5, []);
    assert Run(c, s5, 1).0 == s6;
    assert Run(c, s5, 1).1 == [Returned(Eop)];
    assert Run(c, s4, 1).0 == s5 && Run(c, s4, 1).1 == [Returned(Null)];
    assert Run(c, s4, 2).1 == [Returned(Null), Returned(Eop)];
    assert Run(c, s3, 1).0 == s4;
    assert Run(c, s3, 2).0 == s5;
    assert Run(c, s3, 3).1 == [Returned(Eop), Returned(Null), Returned(Eop)];
    assert Run(c, s2, 3).0 == s5;
    assert Run(c, s2, 4).1 == [Returned(Null), Returned(Eop), Returned(Null), Returned(Eop)];
    assert Run(c, s1, 4).0 == s5;
    assert Run(c, s0, 5).0 == s5;
  }
}
