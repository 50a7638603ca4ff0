/** The branches of one `getNextTuple` call, each stated as what the call
    returns and what it leaves behind, including the behaviours of the
    operator that look accidental but are how it works. */
module MergeJoinCases {
  import opened Types
  import opened RightSource
  import opened MergeJoinSpec

  /** What `getNextRightInp()` hands back. Without a pipeline it is the row
      under the cursor, or the end of the rows. With one, the rows passed
      over are exactly rows the pipeline drops, and the fetch stops at the
      first row the pipeline turns into a tuple (which it returns), at the
      first row it fails on, or at the end once every remaining row dropped. */
  lemma {:induction false} FetchCases(pipeline: Option<Tuple -> PipeOut>, rows: seq<Tuple>, pos: nat)
    requires pos <= |rows|
    ensures var (f, p) := Fetch(pipeline, rows, pos);
            && (pipeline.None? && pos < |rows| ==> f == Got(rows[pos]) && p == pos + 1)
            && (pos == |rows| ==> f == Exhausted && p == pos)
            && (pipeline.Some? ==>
                  && (f.Got? ==> pipeline.value(rows[p - 1]) == Pass(f.t))
                  && (f.Failed? ==> pipeline.value(rows[p - 1]) == Broken)
                  && (forall i :: pos <= i < p - 1 ==> pipeline.value(rows[i]) == Drop)
                  && (f.Exhausted? ==> forall i :: pos <= i < |rows| ==> pipeline.value(rows[i]) == Drop))
    decreases |rows| - pos
  {
    if pos < |rows| && pipeline.Some? && pipeline.value(rows[pos]) == Drop {
      FetchCases(pipeline, rows, pos + 1);
    }
  }

  /** The set-up call: a non-OK status comes back unchanged, a null-keyed
      tuple is dropped, and either way set-up is retried on the next call;
      a keyed tuple becomes the whole buffer and opens the right side near
      its key without producing output. `prevLeftInp` is not set here. */
  lemma FirstCallCases(c: Config, s: Join)
    requires WellFormed(s) && s.firstTime
    ensures |s.left| == 0 ==> GetNext(c, s) == (s.(leftTuples := []), Returned(Eop))
    ensures |s.left| > 0 && !s.left[0].Ok? ==>
              GetNext(c, s) == (s.(leftTuples := [], left := s.left[1..]), Returned(s.left[0]))
    ensures |s.left| > 0 && s.left[0].Ok? && c.leftKey(s.left[0].t) == KeyFailed ==>
              GetNext(c, s).1 == Thrown(KeyPlanBroken)
    ensures |s.left| > 0 && s.left[0].Ok? && c.leftKey(s.left[0].t) == KeyOk(None) ==>
              GetNext(c, s) == (s.(leftTuples := [], left := s.left[1..]), Returned(Null))
    ensures |s.left| > 0 && s.left[0].Ok? && c.leftKey(s.left[0].t).KeyOk? && c.leftKey(s.left[0].t).k.Some? ==>
              var r := GetNext(c, s);
              && r.1 == Returned(Null)
              && !r.0.firstTime && !r.0.doingJoin
              && r.0.leftTuples == [Some(s.left[0].t)]
              && r.0.prevLeftKey == c.leftKey(s.left[0].t).k
              && r.0.prevLeftInp == s.prevLeftInp
              && r.0.pos == Near(c.near, s.rows, r.0.prevLeftKey) && !r.0.closed
  {
  }

  /** The next left tuple: a null key is dropped, an equal key joins the
      buffer (without touching `prevLeftInp`), a smaller key is the left
      side's order error 1102, a greater key closes the run and starts the
      match with `curJoinKey := prevLeftKey`; EOP before the end of all
      input and the NULL and ERR statuses come back unchanged. */
  lemma NextLeftCases(c: Config, s: Join)
    requires WellFormed(s) && !s.firstTime && !s.doingJoin && |s.left| > 0
    ensures var inp, rest := s.left[0], s.(left := s.left[1..]);
            && (inp.Ok? && c.leftKey(inp.t) == KeyFailed ==> GetNext(c, s) == (rest, Thrown(KeyPlanBroken)))
            && (inp.Ok? && c.leftKey(inp.t) == KeyOk(None) ==> GetNext(c, s) == (rest, Returned(Null)))
            && (inp.Ok? && c.leftKey(inp.t) == KeyOk(s.prevLeftKey) && s.prevLeftKey.Some? ==>
                  GetNext(c, s) == (rest.(leftTuples := s.leftTuples + [Some(inp.t)]), Returned(Null)))
            && (inp.Ok? && c.leftKey(inp.t).KeyOk? && c.leftKey(inp.t).k.Some? && s.prevLeftKey.Some? ==>
                  var k := c.leftKey(inp.t).k.value;
                  && (k < s.prevLeftKey.value ==> GetNext(c, s) == (rest, Thrown(NotSortedLeft)))
                  && (k > s.prevLeftKey.value ==>
                        GetNext(c, s) == Match(c, rest.(curJoinKey := s.prevLeftKey), Some(inp.t), Some(k))))
            && (inp.Eop? && !s.endOfAllInput ==> GetNext(c, s) == (rest, Returned(Eop)))
            && (inp.Null? || inp.Err? ==> GetNext(c, s) == (rest, Returned(inp)))
  {
  }

  /** At the end of all input the pending run is matched with no new left
      tuple: both the new tuple and the new key are null. */
  lemma EndOfInputCase(c: Config, s: Join)
    requires WellFormed(s) && !s.firstTime && !s.doingJoin && |s.left| == 0 && s.endOfAllInput
    ensures GetNext(c, s) == Match(c, s.(curJoinKey := s.prevLeftKey), None, None)
  {
  }

  /** The read-ahead right tuple is consulted before the right stream: a
      read-ahead key at or past the new left key means the finished run
      has no partner, so the buffer restarts with the new tuple and nothing
      is read; a read-ahead key equal to the run's key starts the join at
      once, again without reading. */
  lemma ReadAheadCases(c: Config, s: Join, row: Row, key: Key)
    requires WellFormed(s) && !s.firstTime && !s.doingJoin
    ensures s.prevRightKey.Some? && !s.endOfAllInput && key.Some? && s.prevRightKey.value >= key.value ==>
              Match(c, s, row, key) == (s.(leftTuples := [row], prevLeftInp := row, prevLeftKey := key), Returned(Null))
    ensures s.prevRightKey.Some? && !s.endOfAllInput && key.None? ==>
              Match(c, s, row, key) == (s, Thrown(NullDereference))
    ensures (s.endOfAllInput || (s.prevRightKey.Some? && key.Some? && s.prevRightKey.value < key.value))
            && s.prevRightKey.Some? && s.prevRightKey == s.prevLeftKey && s.prevRightInp.Some?
            && s.leftTuples[|s.leftTuples| - 1].Some? ==>
              var rt, l := s.prevRightInp.value, s.leftTuples[|s.leftTuples| - 1].value;
              Match(c, s, row, key)
                == (s.(curJoiningRightTup := rt, counter := |s.leftTuples| - 1, doingJoin := true,
                       prevLeftInp := row, prevLeftKey := key),
                    Returned(Ok(l + rt)))
  {
  }

  /** The fetches of the right-advance loop: the first one of a loop in
      sparse mode seeks near `prevLeftKey` and forgets the read-ahead key,
      a second such seek in the same loop can only repeat the first, and
      every other fetch reads on from the cursor. */
  lemma AdvanceFetchCases(c: Config, s: Join, row: Row, key: Key, sliding: bool, seeked: bool)
    requires WellFormed(s) && !s.firstTime && !s.doingJoin
    ensures c.sparse && !sliding && !seeked ==>
              var n := Near(c.near, s.rows, s.prevLeftKey);
              var (f, p) := Fetch(c.pipeline, s.rows, n);
              Advance(c, s, row, key, sliding, seeked)
                == AdvanceOn(c, s.(pos := p, prevRightKey := None), row, key, f, true, n)
    ensures c.sparse && !sliding && seeked ==> Advance(c, s, row, key, sliding, seeked) == (s, Hang)
    ensures sliding || !c.sparse ==>
              var (f, p) := Fetch(c.pipeline, s.rows, s.pos);
              Advance(c, s, row, key, sliding, seeked) == AdvanceOn(c, s.(pos := p), row, key, f, seeked, s.pos)
  {
  }

  /** One right tuple in the advance loop: a failing pipeline and the end of
      the right stream come back as they are; a null key is skipped (with a
      fresh seek in sparse mode); a key below a non-null `prevRightKey` is the
      right side's order error 1102; a key below `prevLeftKey` is skipped
      without updating `prevRightKey`; an equal key starts the join; a greater
      key becomes the read-ahead tuple and STATUS_NULL is returned even at the
      end of all input, where the loader is also closed (and so has no rows
      left to give). */
  lemma AdvanceKeyCases(c: Config, s: Join, row: Row, key: Key, f: Fetched, seeked: bool, from: nat)
    requires WellFormed(s) && !s.firstTime && !s.doingJoin
    requires from <= s.pos && (f.Got? ==> from < s.pos)
    ensures f.Failed? ==> AdvanceOn(c, s, row, key, f, seeked, from) == (s, Thrown(RightInputFailed))
    ensures f.Exhausted? ==> AdvanceOn(c, s, row, key, f, seeked, from) == (s, Returned(Eop))
    ensures f.Got? && c.rightKey(f.t) == KeyFailed ==> AdvanceOn(c, s, row, key, f, seeked, from) == (s, Thrown(KeyPlanBroken))
    ensures f.Got? && c.rightKey(f.t) == KeyOk(None) ==>
              AdvanceOn(c, s, row, key, f, seeked, from) == Advance(c, s, row, key, false, seeked)
    ensures f.Got? && c.rightKey(f.t).KeyOk? && c.rightKey(f.t).k.Some? ==>
              var k := c.rightKey(f.t).k.value;
              && (s.prevRightKey.Some? && k < s.prevRightKey.value ==>
                    AdvanceOn(c, s, row, key, f, seeked, from) == (s, Thrown(NotSortedRight)))
              && ((s.prevRightKey.None? || k >= s.prevRightKey.value) && s.prevLeftKey.Some? ==>
                    var j := s.prevLeftKey.value;
                    && (k < j ==> AdvanceOn(c, s, row, key, f, seeked, from) == Advance(c, s, row, key, true, seeked))
                    && (k == j && s.leftTuples[|s.leftTuples| - 1].Some? ==>
                          AdvanceOn(c, s, row, key, f, seeked, from)
                            == (s.(curJoiningRightTup := f.t, counter := |s.leftTuples| - 1, doingJoin := true,
                                   prevLeftInp := row, prevLeftKey := key),
                                Returned(Ok(s.leftTuples[|s.leftTuples| - 1].value + f.t))))
                    && (k > j ==>
                          AdvanceOn(c, s, row, key, f, seeked, from)
                            == (s.(prevRightKey := Some(k), prevRightInp := Some(f.t), leftTuples := [row],
                                   prevLeftInp := row, prevLeftKey := key,
                                   closed := s.closed || s.endOfAllInput,
                                   pos := if s.endOfAllInput then |s.rows| else s.pos),
                                Returned(Null))))
  {
  }

  /** The call after the last buffered tuple was emitted reads the next
      right tuple: the end of the right stream clears `prevRightInp` and
      answers EOP; a null key is skipped; the same key pairs the whole buffer
      again; a greater key becomes the read-ahead tuple and the buffer
      restarts from `prevLeftInp` (at the end of all input the loader is
      closed and EOP returned instead); a smaller key is error 1102. */
  lemma AfterDrainCases(c: Config, s: Join)
    requires WellFormed(s) && !s.firstTime && s.doingJoin && s.counter == 0
    ensures var (f, p) := Fetch(c.pipeline, s.rows, s.pos);
            var s0 := s.(doingJoin := false, pos := p);
            && (f.Failed? ==> GetNext(c, s) == (s0, Thrown(RightInputFailed)))
            && (f.Exhausted? ==> GetNext(c, s) == (s0.(prevRightInp := None), Returned(Eop)))
            && (f.Got? && c.rightKey(f.t) == KeyOk(None) ==> GetNext(c, s) == DrainLoop(c, s0))
            && (f.Got? && c.rightKey(f.t).KeyOk? && c.rightKey(f.t).k.Some? && s.curJoinKey.Some? ==>
                  var k, j := c.rightKey(f.t).k.value, s.curJoinKey.value;
                  && (k == j && s.leftTuples[|s.leftTuples| - 1].Some? ==>
                        GetNext(c, s)
                          == (s0.(curJoiningRightTup := f.t, counter := |s.leftTuples| - 1, doingJoin := true),
                              Returned(Ok(s.leftTuples[|s.leftTuples| - 1].value + f.t))))
                  && (k > j && !s.endOfAllInput ==>
                        GetNext(c, s)
                          == (s0.(prevRightKey := Some(k), prevRightInp := Some(f.t), leftTuples := [s.prevLeftInp]),
                              Returned(Null)))
                  && (k > j && s.endOfAllInput ==> GetNext(c, s) == (s0.(closed := true, pos := |s.rows|), Returned(Eop)))
                  && (k < j ==> GetNext(c, s) == (s0, Thrown(NotSortedRight))))
  {
    var (f, p) := Fetch(c.pipeline, s.rows, s.pos);
    var s0 := s.(doingJoin := false, pos := p);
    assert GetNext(c, s) == Drain(c, s) == DrainLoop(c, s.(doingJoin := false));
    assert DrainLoop(c, s.(doingJoin := false)) == DrainOn(c, s0, f, s.pos);
    if f.Got? && c.rightKey(f.t).KeyOk? && c.rightKey(f.t).k.Some? && s.curJoinKey.Some?
       && c.rightKey(f.t).k.value == s.curJoinKey.value {
      var s1 := s0.(curJoiningRightTup := f.t, counter := |s.leftTuples|, doingJoin := true);
      assert DrainOn(c, s0, f, s.pos) == Emit(s1);
    }
  }

  /** In sparse mode the advance loop never reports the right side as
      unsorted: its first fetch seeks and clears `prevRightKey`, and skipped
      lower rows never set it again, so the order check has nothing to
      compare with. */
  lemma {:induction false} SparseAdvanceSkipsOrderCheck(c: Config, s: Join, row: Row, key: Key, sliding: bool, seeked: bool)
    requires WellFormed(s) && !s.firstTime && !s.doingJoin && c.sparse
    requires sliding ==> s.prevRightKey.None?
    ensures Advance(c, s, row, key, sliding, seeked).1 != Thrown(NotSortedRight)
    decreases if seeked then 0 else 1, |s.rows| - s.pos, 1
  {
    if sliding || !seeked {
      var s0 := if sliding then s else s.(pos := Near(c.near, s.rows, s.prevLeftKey), prevRightKey := None);
      var (f, p) := Fetch(c.pipeline, s0.rows, s0.pos);
      SparseAdvanceOnSkipsOrderCheck(c, s0.(pos := p), row, key, f, seeked || !sliding, s0.pos);
    }
  }

  lemma {:induction false} SparseAdvanceOnSkipsOrderCheck(c: Config, s: Join, row: Row, key: Key, f: Fetched, seeked: bool, from: nat)
    requires WellFormed(s) && !s.firstTime && !s.doingJoin && c.sparse
    requires from <= s.pos && (f.Got? ==> from < s.pos)
    requires s.prevRightKey.None?
    ensures AdvanceOn(c, s, row, key, f, seeked, from).1 != Thrown(NotSortedRight)
    decreases if seeked then 0 else 1, |s.rows| - from, 0
  {
    if f.Got? && c.rightKey(f.t).KeyOk? {
      match c.rightKey(f.t).k
      case None =>
        SparseAdvanceSkipsOrderCheck(c, s, row, key, false, seeked);
      case Some(k) =>
        if s.prevLeftKey.Some? && k < s.prevLeftKey.value {
          SparseAdvanceSkipsOrderCheck(c, s, row, key, true, seeked);
        }
    }
  }

  /** In sparse mode a right tuple with a null key right after the seek
      sends the loop back to the same seek, which finds the same tuple
      again: the call never returns. */
  lemma SparseNullKeyHangs(c: Config, s: Join, row: Row, key: Key)
    requires WellFormed(s) && !s.firstTime && !s.doingJoin && c.sparse
    requires var f := Fetch(c.pipeline, s.rows, Near(c.near, s.rows, s.prevLeftKey)).0;
             f.Got? && c.rightKey(f.t) == KeyOk(None)
    ensures Advance(c, s, row, key, false, false).1 == Hang
  {
    var n := Near(c.near, s.rows, s.prevLeftKey);
    var (f, p) := Fetch(c.pipeline, s.rows, n);
    var s1 := s.(pos := p, prevRightKey := None);
    assert AdvanceOn(c, s1, row, key, f, true, n) == Advance(c, s1, row, key, false, true);
  }
}
