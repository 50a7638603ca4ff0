/** Completeness of the dense merge join: on a left input sorted on a
    non-null key, a right file sorted the same way, no right pipeline and an
    index that never seeks past a row it should return, the calls of
    `getNextTuple`, made until the operator stops, return exactly the pairs
    of a left and a right tuple with equal keys, each once, in the order
    `Expected` gives. */
module MergeJoinCompleteness {
  import opened Types
  import opened RightSource
  import opened MergeJoinSpec

  // ---------------------------------------------------------------------
  // The join the operator should compute

  /** The key a plan gives a tuple, as a number (0 when it gives none). */
  function KeyOf(f: Tuple -> KeyOut, t: Tuple): int
  {
    if f(t).KeyOk? && f(t).k.Some? then f(t).k.value else 0
  }

  ghost predicate HasKey(f: Tuple -> KeyOut, t: Tuple)
  {
    f(t).KeyOk? && f(t).k.Some?
  }

  /** Every tuple of `ts` has a non-null key, and the keys never decrease. */
  ghost predicate SortedKeyed(f: Tuple -> KeyOut, ts: seq<Tuple>)
  {
    && (forall i :: 0 <= i < |ts| ==> HasKey(f, ts[i]))
    && (forall i, j :: 0 <= i <= j < |ts| ==> KeyOf(f, ts[i]) <= KeyOf(f, ts[j]))
  }

  /** `r` appended to each tuple of `buf`, the last one first. */
  function Pairs(buf: seq<Tuple>, r: Tuple): (out: seq<Tuple>)
    ensures |out| == |buf|
    decreases |buf|
  {
    if |buf| == 0 then [] else [buf[|buf| - 1] + r] + Pairs(buf[..|buf| - 1], r)
  }

  /** `Pairs` with each tuple of `rs` in turn. */
  function JoinRun(buf: seq<Tuple>, rs: seq<Tuple>): seq<Tuple>
    decreases |rs|
  {
    if |rs| == 0 then [] else Pairs(buf, rs[0]) + JoinRun(buf, rs[1..])
  }

  /** The tuples of `rs` whose key is `k`, in order. */
  function Matching(f: Tuple -> KeyOut, rs: seq<Tuple>, k: int): (out: seq<Tuple>)
    ensures |out| <= |rs|
    decreases |rs|
  {
    if |rs| == 0 then []
    else (if KeyOf(f, rs[0]) == k then [rs[0]] else []) + Matching(f, rs[1..], k)
  }

  /** The length of the run of key `k` at the front of `ls`. */
  function RunLength(f: Tuple -> KeyOut, ls: seq<Tuple>, k: int): (n: nat)
    ensures n <= |ls|
    ensures forall i :: 0 <= i < n ==> KeyOf(f, ls[i]) == k
    ensures n < |ls| ==> KeyOf(f, ls[n]) != k
    decreases |ls|
  {
    if |ls| == 0 || KeyOf(f, ls[0]) != k then 0 else 1 + RunLength(f, ls[1..], k)
  }

  /** The merge join of `ls` (sorted on the left key) with `rs`: run by run
      of equal left keys, each right tuple of that key, in file order, is
      paired with the tuples of the run, the last one first. */
  function Expected(c: Config, ls: seq<Tuple>, rs: seq<Tuple>): seq<Tuple>
    decreases |ls|
  {
    if |ls| == 0 then []
    else
      var k := KeyOf(c.leftKey, ls[0]);
      var n := RunLength(c.leftKey, ls, k);
      JoinRun(ls[..n], Matching(c.rightKey, rs, k)) + Expected(c, ls[n..], rs)
  }

  lemma {:induction false} MatchingNone(f: Tuple -> KeyOut, rs: seq<Tuple>, k: int)
    requires forall i :: 0 <= i < |rs| ==> KeyOf(f, rs[i]) != k
    ensures Matching(f, rs, k) == []
    decreases |rs|
  {
    if |rs| > 0 {
      MatchingNone(f, rs[1..], k);
    }
  }

  lemma MatchingAt(f: Tuple -> KeyOut, rs: seq<Tuple>, i: nat, k: int)
    requires i < |rs|
    ensures Matching(f, rs[i..], k) == (if KeyOf(f, rs[i]) == k then [rs[i]] else []) + Matching(f, rs[i + 1..], k)
  {
    assert rs[i..][1..] == rs[i + 1..];
  }

  lemma MatchingFront(f: Tuple -> KeyOut, r: Tuple, rs: seq<Tuple>, k: int)
    ensures Matching(f, [r] + rs, k) == (if KeyOf(f, r) == k then [r] else []) + Matching(f, rs, k)
  {
    assert ([r] + rs)[1..] == rs;
  }

  lemma JoinRunFront(buf: seq<Tuple>, r: Tuple, rs: seq<Tuple>)
    ensures JoinRun(buf, [r] + rs) == Pairs(buf, r) + JoinRun(buf, rs)
  {
    assert ([r] + rs)[1..] == rs;
  }

  /** `Expected` reads the right side only through the keys of `ls`. */
  lemma {:induction false} ExpectedAgree(c: Config, ls: seq<Tuple>, rs: seq<Tuple>, rs2: seq<Tuple>, lo: int)
    requires forall i :: 0 <= i < |ls| ==> lo <= KeyOf(c.leftKey, ls[i])
    requires forall k :: lo <= k ==> Matching(c.rightKey, rs, k) == Matching(c.rightKey, rs2, k)
    ensures Expected(c, ls, rs) == Expected(c, ls, rs2)
    decreases |ls|
  {
    if |ls| > 0 {
      var n := RunLength(c.leftKey, ls, KeyOf(c.leftKey, ls[0]));
      ExpectedAgree(c, ls[n..], rs, rs2, lo);
    }
  }

  /** A right tuple below every left key takes no part in the join. */
  lemma ExpectedSkipFront(c: Config, ls: seq<Tuple>, r: Tuple, rs: seq<Tuple>, lo: int)
    requires forall i :: 0 <= i < |ls| ==> lo <= KeyOf(c.leftKey, ls[i])
    requires KeyOf(c.rightKey, r) < lo
    ensures Expected(c, ls, [r] + rs) == Expected(c, ls, rs)
  {
    forall k | lo <= k
      ensures Matching(c.rightKey, [r] + rs, k) == Matching(c.rightKey, rs, k)
    {
      MatchingFront(c.rightKey, r, rs, k);
    }
    ExpectedAgree(c, ls, [r] + rs, rs, lo);
  }

  lemma {:induction false} ExpectedSkipPrefix(c: Config, ls: seq<Tuple>, rs: seq<Tuple>, n: nat, lo: int)
    requires n <= |rs|
    requires forall i :: 0 <= i < |ls| ==> lo <= KeyOf(c.leftKey, ls[i])
    requires forall j :: 0 <= j < n ==> KeyOf(c.rightKey, rs[j]) < lo
    ensures Expected(c, ls, rs) == Expected(c, ls, rs[n..])
    decreases n
  {
    if n == 0 {
      assert rs[0..] == rs;
    } else {
      ExpectedSkipPrefix(c, ls, rs, n - 1, lo);
      assert rs[n - 1..] == [rs[n - 1]] + rs[n..];
      ExpectedSkipFront(c, ls, rs[n - 1], rs[n..], lo);
    }
  }

  /** No left key meets a right key: the join is empty. */
  lemma {:induction false} ExpectedNoMatch(c: Config, ls: seq<Tuple>, rs: seq<Tuple>)
    requires forall i, j :: 0 <= i < |ls| && 0 <= j < |rs| ==> KeyOf(c.leftKey, ls[i]) != KeyOf(c.rightKey, rs[j])
    ensures Expected(c, ls, rs) == []
    decreases |ls|
  {
    if |ls| > 0 {
      var k := KeyOf(c.leftKey, ls[0]);
      var n := RunLength(c.leftKey, ls, k);
      MatchingNone(c.rightKey, rs, k);
      ExpectedNoMatch(c, ls[n..], rs);
    }
  }

  lemma {:induction false} RunLengthOf(f: Tuple -> KeyOut, buf: seq<Tuple>, ls: seq<Tuple>, k: int)
    requires forall i :: 0 <= i < |buf| ==> KeyOf(f, buf[i]) == k
    requires |ls| > 0 ==> KeyOf(f, ls[0]) != k
    ensures RunLength(f, buf + ls, k) == |buf|
    decreases |buf|
  {
    if |buf| == 0 {
      assert buf + ls == ls;
    } else {
      assert (buf + ls)[1..] == buf[1..] + ls;
      RunLengthOf(f, buf[1..], ls, k);
    }
  }

  /** A whole run of key `kb` in front: its pairs come first. */
  lemma ExpectedSplit(c: Config, buf: seq<Tuple>, ls: seq<Tuple>, kb: int, rs: seq<Tuple>)
    requires |buf| > 0 && forall i :: 0 <= i < |buf| ==> KeyOf(c.leftKey, buf[i]) == kb
    requires |ls| > 0 ==> KeyOf(c.leftKey, ls[0]) != kb
    ensures Expected(c, buf + ls, rs) == JoinRun(buf, Matching(c.rightKey, rs, kb)) + Expected(c, ls, rs)
  {
    var all := buf + ls;
    assert all[0] == buf[0];
    RunLengthOf(c.leftKey, buf, ls, kb);
    var n := RunLength(c.leftKey, all, kb);
    assert all[..n] == buf && all[n..] == ls;
  }

  // ---------------------------------------------------------------------
  // The inputs and the states of a run

  /** The tuples held by a sequence of tuple references. */
  function Vals(buf: seq<Row>): (ts: seq<Tuple>)
    ensures |ts| == |buf|
    ensures forall i :: 0 <= i < |buf| && buf[i].Some? ==> ts[i] == buf[i].value
  {
    seq(|buf|, i requires 0 <= i < |buf| => if buf[i].Some? then buf[i].value else [])
  }

  /** The tuples of a left input of OK results. */
  function Lefts(left: seq<Result>): (ts: seq<Tuple>)
    ensures |ts| == |left|
    ensures forall i :: 0 <= i < |left| && left[i].Ok? ==> ts[i] == left[i].t
  {
    seq(|left|, i requires 0 <= i < |left| => if left[i].Ok? then left[i].t else [])
  }

  lemma LeftsTail(left: seq<Result>)
    requires |left| > 0 && left[0].Ok?
    ensures Lefts(left) == [left[0].t] + Lefts(left[1..])
  {
    assert Lefts(left)[1..] == Lefts(left[1..]);
  }

  /** `seekNear(k)` never lands past a row whose key is `k` or more. */
  ghost predicate SeekSafe(c: Config, rows: seq<Tuple>, k: int)
  {
    forall i :: 0 <= i < Near(c.near, rows, Some(k)) ==> KeyOf(c.rightKey, rows[i]) < k
  }

  ghost predicate IndexConsistent(c: Config, rows: seq<Tuple>)
  {
    forall k :: SeekSafe(c, rows, k)
  }

  /** The inputs of the theorem: dense mode without a right pipeline, every
      left result OK, both sides keyed, non-null and sorted, and a
      consistent index. */
  ghost predicate Inputs(c: Config, left: seq<Result>, rows: seq<Tuple>)
  {
    && !c.sparse && c.pipeline.None?
    && (forall i :: 0 <= i < |left| ==> left[i].Ok?)
    && SortedKeyed(c.leftKey, Lefts(left))
    && SortedKeyed(c.rightKey, rows)
    && IndexConsistent(c, rows)
  }

  /** What holds in every state of such a run: the inputs stay as they were
      assumed, the end of all input comes after the left input, and the
      rows ahead of the cursor are at or past the read-ahead key. */
  ghost predicate Common(c: Config, s: Join)
  {
    && WellFormed(s) && !c.sparse && c.pipeline.None?
    && (forall i :: 0 <= i < |s.left| ==> s.left[i].Ok?)
    && SortedKeyed(c.leftKey, Lefts(s.left))
    && SortedKeyed(c.rightKey, s.rows)
    && (s.endOfAllInput ==> |s.left| == 0)
    && (s.prevRightKey.Some? ==>
          forall j :: s.pos <= j < |s.rows| ==> s.prevRightKey.value <= KeyOf(c.rightKey, s.rows[j]))
  }

  /** Every left tuple still to come has key `k` or more. */
  ghost predicate LeftFrom(c: Config, s: Join, k: int)
  {
    forall i :: 0 <= i < |s.left| ==> k <= KeyOf(c.leftKey, Lefts(s.left)[i])
  }

  ghost predicate Keyed(c: Config, buf: seq<Row>, k: int)
  {
    forall i :: 0 <= i < |buf| ==> buf[i].Some? && KeyOf(c.leftKey, buf[i].value) == k
  }

  /** Before the set-up call. */
  ghost predicate Fresh(c: Config, s: Join)
  {
    && Common(c, s) && s.firstTime
    && s.prevLeftKey.None? && s.prevRightKey.None? && s.prevRightInp.None?
    && IndexConsistent(c, s.rows)
  }

  /** Collecting the run of `prevLeftKey`; the read-ahead tuple, when there
      is one, is the row just before the cursor. */
  ghost predicate Collecting(c: Config, s: Join)
  {
    && Common(c, s) && !s.firstTime && !s.doingJoin && s.prevLeftKey.Some?
    && Keyed(c, s.leftTuples, s.prevLeftKey.value)
    && LeftFrom(c, s, s.prevLeftKey.value)
    && (s.prevRightInp.Some? <==> s.prevRightKey.Some?)
    && (s.prevRightInp.Some? ==>
          && 0 < s.pos
          && s.prevRightInp.value == s.rows[s.pos - 1]
          && s.prevRightKey.value == KeyOf(c.rightKey, s.rows[s.pos - 1]))
  }

  /** Emitting the run of `curJoinKey` against the row just before the
      cursor; the next run has started with `prevLeftInp`, except after the
      end of all input, where nothing follows. */
  ghost predicate Emitting(c: Config, s: Join)
  {
    && Common(c, s) && !s.firstTime && s.doingJoin && s.curJoinKey.Some?
    && Keyed(c, s.leftTuples, s.curJoinKey.value)
    && 0 < s.pos
    && s.curJoiningRightTup == s.rows[s.pos - 1]
    && KeyOf(c.rightKey, s.rows[s.pos - 1]) == s.curJoinKey.value
    && (s.prevRightKey.Some? ==> s.prevRightKey.value <= s.curJoinKey.value)
    && (if s.endOfAllInput then s.prevLeftInp.None? && s.prevLeftKey.None?
        else
          && s.prevLeftInp.Some?
          && s.prevLeftKey == Some(KeyOf(c.leftKey, s.prevLeftInp.value))
          && s.curJoinKey.value < s.prevLeftKey.value
          && LeftFrom(c, s, s.prevLeftKey.value))
  }

  /** The right rows are used up, and the read-ahead tuple, if any, meets
      neither the buffered run nor anything still to come. */
  ghost predicate Starved(c: Config, s: Join)
  {
    && Common(c, s) && !s.firstTime && !s.doingJoin && s.pos == |s.rows| && s.prevLeftKey.Some?
    && LeftFrom(c, s, s.prevLeftKey.value)
    && (s.prevRightKey.Some? ==>
          && s.prevRightKey.value != s.prevLeftKey.value
          && forall i :: 0 <= i < |s.left| ==> s.prevRightKey.value < KeyOf(c.leftKey, Lefts(s.left)[i]))
    && (s.prevRightInp.Some? ==>
          && s.prevRightKey == Some(KeyOf(c.rightKey, s.prevRightInp.value))
          && Keyed(c, s.leftTuples, s.prevLeftKey.value))
  }

  /** After the end of all input, with the last run dealt with and the
      loader closed. */
  ghost predicate Finished(c: Config, s: Join)
  {
    Common(c, s) && !s.firstTime && !s.doingJoin && s.endOfAllInput && s.prevLeftKey.None? && s.pos == |s.rows|
  }

  ghost predicate Inv(c: Config, s: Join)
  {
    Fresh(c, s) || Collecting(c, s) || Emitting(c, s) || Starved(c, s) || Finished(c, s)
  }

  /** The right tuples not consumed yet: the read-ahead tuple, then the
      rows from the cursor on. */
  function Ahead(s: Join): seq<Tuple>
    requires s.pos <= |s.rows|
  {
    (if s.prevRightInp.Some? then [s.prevRightInp.value] else []) + s.rows[s.pos..]
  }

  /** What the operator has still to return from `s`. */
  ghost function Rest(c: Config, s: Join): seq<Tuple>
    requires WellFormed(s)
  {
    if s.firstTime then Expected(c, Lefts(s.left), s.rows)
    else if s.doingJoin then
      var buf := Vals(s.leftTuples);
      var kc := if s.curJoinKey.Some? then s.curJoinKey.value else 0;
      var rs := s.rows[s.pos..];
      Pairs(buf[..s.counter], s.curJoiningRightTup) + JoinRun(buf, Matching(c.rightKey, rs, kc))
        + (if s.prevLeftInp.Some? then Expected(c, [s.prevLeftInp.value] + Lefts(s.left), rs) else [])
    else if s.prevLeftKey.None? then []
    else Expected(c, Vals(s.leftTuples) + Lefts(s.left), Ahead(s))
  }

  /** The plan stops calling: an exception, a hang, or EOP after the end of
      all input. */
  predicate Terminal(r: (Join, Outcome))
  {
    !r.1.Returned? || (r.1.r == Eop && r.0.endOfAllInput)
  }

  function Out(o: Outcome): seq<Tuple>
  {
    if o.Returned? && o.r.Ok? then [o.r.t] else []
  }

  /** How far a run is from its end: left tuples to read, the stage of the
      end of input, rows to read, a match under way, tuples to emit. */
  function Phase(s: Join): nat
  {
    if !s.endOfAllInput then 2 else if s.prevLeftKey.Some? then 1 else 0
  }

  ghost predicate Below(t: Join, s: Join)
  {
    || |t.left| < |s.left|
    || (|t.left| == |s.left| &&
         (|| Phase(t) < Phase(s)
          || (Phase(t) == Phase(s) &&
               (|| |t.rows| - t.pos < |s.rows| - s.pos
                || (|t.rows| - t.pos == |s.rows| - s.pos &&
                     ((!t.doingJoin && s.doingJoin) || (t.doingJoin == s.doingJoin && t.counter < s.counter)))))))
  }

  /** A call's result `r` goes on as `target` says: when the plan stops,
      nothing was left to return and the stop is EOP; otherwise the call returned the first
      tuples of `target` and the rest is what remains from the next state. */
  ghost predicate Continues(c: Config, r: (Join, Outcome), target: seq<Tuple>)
    requires WellFormed(r.0)
  {
    if Terminal(r) then r.1 == Returned(Eop) && target == []
    else Inv(c, Signal(r)) && target == Out(r.1) + Rest(c, Signal(r))
  }

  ghost predicate StepOk(c: Config, s: Join)
    requires WellFormed(s)
  {
    var r := GetNext(c, s);
    && Continues(c, r, Rest(c, s))
    && (!Terminal(r) ==> Signal(r).rows == s.rows && Below(Signal(r), s))
  }

  /** A call that returned and left the run in a state of the invariant. */
  lemma GoesOn(c: Config, r: (Join, Outcome), target: seq<Tuple>)
    requires WellFormed(r.0) && !Terminal(r) && Inv(c, Signal(r))
    requires target == Out(r.1) + Rest(c, Signal(r))
    ensures Continues(c, r, target)
  {
  }

  /** A call with which the plan stops. */
  lemma Stops(c: Config, r: (Join, Outcome), target: seq<Tuple>)
    requires WellFormed(r.0) && Terminal(r) && target == []
    requires r.1 == Returned(Eop)
    ensures Continues(c, r, target)
  {
  }

  /** Leaves the runs' follow-up unchanged by a right tuple below every key
      it starts from. */
  lemma FollowSkip(c: Config, row: Row, left: seq<Result>, lo: int, t: Tuple, rs: seq<Tuple>)
    requires row.Some? ==> lo <= KeyOf(c.leftKey, row.value) && KeyOf(c.rightKey, t) < lo
    requires row.Some? ==> forall i :: 0 <= i < |left| ==> lo <= KeyOf(c.leftKey, Lefts(left)[i])
    ensures Follow(c, row, left, [t] + rs) == Follow(c, row, left, rs)
  {
    if row.Some? {
      var ls := [row.value] + Lefts(left);
      forall i | 0 <= i < |ls| ensures lo <= KeyOf(c.leftKey, ls[i]) {
        if i > 0 {
          assert ls[i] == Lefts(left)[i - 1];
        }
      }
      ExpectedSkipFront(c, ls, t, rs, lo);
    }
  }

  /** The new left tuple in hand when a run ends: the first of the next
      run, or nothing at the end of all input. */
  ghost predicate Next(c: Config, s: Join, row: Row, key: Key)
    requires s.prevLeftKey.Some?
  {
    if s.endOfAllInput then row.None? && key.None?
    else
      && row.Some? && key == Some(KeyOf(c.leftKey, row.value))
      && s.prevLeftKey.value < key.value
      && LeftFrom(c, s, key.value)
  }

  /** `Next`, with the read-ahead tuple (if any) below the new key and not
      the run's: the case where the right side has to be advanced. */
  ghost predicate Pending(c: Config, s: Join, row: Row, key: Key)
    requires s.prevLeftKey.Some?
  {
    && Next(c, s, row, key)
    && (!s.endOfAllInput ==>
          && (s.prevRightKey.Some? ==>
                s.prevRightKey.value != s.prevLeftKey.value && s.prevRightKey.value < key.value)
          && (s.prevRightInp.Some? ==> s.prevRightKey == Some(KeyOf(c.rightKey, s.prevRightInp.value))))
  }

  function Follow(c: Config, row: Row, left: seq<Result>, rs: seq<Tuple>): seq<Tuple>
  {
    if row.Some? then Expected(c, [row.value] + Lefts(left), rs) else []
  }

  // ---------------------------------------------------------------------
  // One call from each kind of state

  lemma StarvedRest(c: Config, s: Join)
    requires Starved(c, s)
    ensures Rest(c, s) == []
  {
    var ls := Vals(s.leftTuples) + Lefts(s.left);
    assert s.rows[s.pos..] == [];
    if s.prevRightInp.Some? {
      var kb := s.prevLeftKey.value;
      forall i, j | 0 <= i < |ls| && 0 <= j < |Ahead(s)|
        ensures KeyOf(c.leftKey, ls[i]) != KeyOf(c.rightKey, Ahead(s)[j])
      {
        if i >= |s.leftTuples| {
          assert ls[i] == Lefts(s.left)[i - |s.leftTuples|];
        }
      }
    }
    ExpectedNoMatch(c, ls, Ahead(s));
  }

  /** The right-advance loop after a finished run of key `prevLeftKey`,
      with `row` (and its key) in hand. */
  ghost predicate Advancing(c: Config, s: Join, row: Row, key: Key)
  {
    && Common(c, s) && !s.firstTime && !s.doingJoin
    && s.prevLeftKey.Some? && s.curJoinKey == s.prevLeftKey
    && Keyed(c, s.leftTuples, s.prevLeftKey.value)
    && Pending(c, s, row, key)
  }

  /** What the loop owes: the run's partners among the rows from the cursor
      on, then the join of the next run, which starts with `row`. */
  ghost function Owed(c: Config, s: Join, row: Row): seq<Tuple>
    requires s.pos <= |s.rows| && s.prevLeftKey.Some?
  {
    JoinRun(Vals(s.leftTuples), Matching(c.rightKey, s.rows[s.pos..], s.prevLeftKey.value))
      + Follow(c, row, s.left, s.rows[s.pos..])
  }

  ghost predicate AdvanceOk(c: Config, s: Join, row: Row, r: (Join, Outcome))
    requires s.pos <= |s.rows| && s.prevLeftKey.Some? && WellFormed(r.0)
  {
    && r.0.rows == s.rows && r.0.left == s.left && r.0.endOfAllInput == s.endOfAllInput
    && (s.endOfAllInput && !Terminal(r) ==> r.0.prevLeftKey.None?)
    && Continues(c, r, Owed(c, s, row))
  }

  lemma AdvanceFetch(c: Config, s: Join, row: Row, key: Key, sliding: bool, seeked: bool)
    requires WellFormed(s) && !s.firstTime && !s.doingJoin && !c.sparse && c.pipeline.None?
    ensures s.pos == |s.rows| ==> Advance(c, s, row, key, sliding, seeked) == (s, Returned(Eop))
    ensures s.pos < |s.rows| ==>
              Advance(c, s, row, key, sliding, seeked)
              == AdvanceOn(c, s.(pos := s.pos + 1), row, key, Got(s.rows[s.pos]), seeked, s.pos)
  {
  }

  /** The right rows run out: the run has no partners left, and nor has
      anything after it. */
  lemma AdvanceEnd(c: Config, s: Join, row: Row, key: Key)
    requires Advancing(c, s, row, key) && s.pos == |s.rows|
    ensures AdvanceOk(c, s, row, (s, Returned(Eop)))
  {
    var r := (s, Returned(Eop));
    assert s.rows[s.pos..] == [];
    if !s.endOfAllInput {
      ExpectedNoMatch(c, [row.value] + Lefts(s.left), []);
      assert Starved(c, Signal(r));
      StarvedRest(c, Signal(r));
    }
  }

  /** The state after the right row at the cursor matched the run and the
      first pair was emitted. */
  function Hit(s: Join, row: Row, key: Key): Join
    requires s.pos < |s.rows| && |s.leftTuples| > 0
  {
    s.(pos := s.pos + 1, curJoiningRightTup := s.rows[s.pos], counter := |s.leftTuples| - 1,
       doingJoin := true, prevLeftInp := row, prevLeftKey := key)
  }

  lemma HitEmitting(c: Config, s: Join, row: Row, key: Key)
    requires Advancing(c, s, row, key) && s.pos < |s.rows|
    requires KeyOf(c.rightKey, s.rows[s.pos]) == s.prevLeftKey.value
    ensures Emitting(c, Hit(s, row, key))
  {
  }

  /** What the loop owes when the row at the cursor matches the run. */
  lemma HitOwedParts(c: Config, s: Join, row: Row, key: Key)
    requires Advancing(c, s, row, key) && s.pos < |s.rows|
    requires KeyOf(c.rightKey, s.rows[s.pos]) == s.prevLeftKey.value
    ensures var buf := Vals(s.leftTuples);
            var t := s.rows[s.pos];
            var m := Matching(c.rightKey, s.rows[s.pos + 1..], s.prevLeftKey.value);
            && Matching(c.rightKey, s.rows[s.pos..], s.prevLeftKey.value) == [t] + m
            && JoinRun(buf, [t] + m) == [buf[|buf| - 1] + t] + Pairs(buf[..|buf| - 1], t) + JoinRun(buf, m)
            && Follow(c, row, s.left, s.rows[s.pos..]) == Follow(c, row, s.left, s.rows[s.pos + 1..])
            && buf[|buf| - 1] == s.leftTuples[|s.leftTuples| - 1].value
  {
    var t := s.rows[s.pos];
    var kb := s.prevLeftKey.value;
    var buf := Vals(s.leftTuples);
    var m := Matching(c.rightKey, s.rows[s.pos + 1..], kb);
    MatchingAt(c.rightKey, s.rows, s.pos, kb);
    JoinRunFront(buf, t, m);
    assert s.rows[s.pos..] == [t] + s.rows[s.pos + 1..];
    FollowSkip(c, row, s.left, if key.Some? then key.value else 0, t, s.rows[s.pos + 1..]);
  }

  lemma HitOwed(c: Config, s: Join, row: Row)
    requires s.pos < |s.rows| && s.prevLeftKey.Some? && |s.leftTuples| > 0
    requires var buf := Vals(s.leftTuples);
             var t := s.rows[s.pos];
             var m := Matching(c.rightKey, s.rows[s.pos + 1..], s.prevLeftKey.value);
             && Matching(c.rightKey, s.rows[s.pos..], s.prevLeftKey.value) == [t] + m
             && JoinRun(buf, [t] + m) == [buf[|buf| - 1] + t] + Pairs(buf[..|buf| - 1], t) + JoinRun(buf, m)
             && Follow(c, row, s.left, s.rows[s.pos..]) == Follow(c, row, s.left, s.rows[s.pos + 1..])
             && s.leftTuples[|s.leftTuples| - 1].Some?
             && buf[|buf| - 1] == s.leftTuples[|s.leftTuples| - 1].value
    ensures var buf := Vals(s.leftTuples);
            var t := s.rows[s.pos];
            Owed(c, s, row)
            == [s.leftTuples[|s.leftTuples| - 1].value + t]
               + (Pairs(buf[..|buf| - 1], t)
                  + JoinRun(buf, Matching(c.rightKey, s.rows[s.pos + 1..], s.prevLeftKey.value))
                  + Follow(c, row, s.left, s.rows[s.pos + 1..]))
  {
  }

  lemma HitRestForm(c: Config, s: Join, row: Row, key: Key)
    requires WellFormed(s) && !s.firstTime && s.pos < |s.rows| && s.prevLeftKey.Some?
    requires s.curJoinKey == s.prevLeftKey
    ensures var buf := Vals(s.leftTuples);
            && WellFormed(Hit(s, row, key))
            && Rest(c, Hit(s, row, key))
               == Pairs(buf[..|buf| - 1], s.rows[s.pos])
                  + JoinRun(buf, Matching(c.rightKey, s.rows[s.pos + 1..], s.prevLeftKey.value))
                  + Follow(c, row, s.left, s.rows[s.pos + 1..])
  {
  }

  /** The row at the cursor has the run's key: the match starts. */
  lemma AdvanceHit(c: Config, s: Join, row: Row, key: Key, seeked: bool)
    requires Advancing(c, s, row, key) && s.pos < |s.rows|
    requires KeyOf(c.rightKey, s.rows[s.pos]) == s.prevLeftKey.value
    ensures AdvanceOk(c, s, row, AdvanceOn(c, s.(pos := s.pos + 1), row, key, Got(s.rows[s.pos]), seeked, s.pos))
  {
    var t := s.rows[s.pos];
    var sD := s.(pos := s.pos + 1, curJoiningRightTup := t, counter := |s.leftTuples|, doingJoin := true,
                 prevLeftInp := row, prevLeftKey := key);
    var r := AdvanceOn(c, s.(pos := s.pos + 1), row, key, Got(t), seeked, s.pos);
    var e := Hit(s, row, key);
    assert r == Drain(c, sD);
    assert r == (e, Returned(Ok(s.leftTuples[|s.leftTuples| - 1].value + t)));
    assert Signal(r) == e;
    assert Inv(c, e) by {
      HitEmitting(c, s, row, key);
    }
    assert Owed(c, s, row) == Out(r.1) + Rest(c, e) by {
      HitOwedParts(c, s, row, key);
      HitOwed(c, s, row);
      HitRestForm(c, s, row, key);
    }
    GoesOn(c, r, Owed(c, s, row));
  }

  /** The row at the cursor is past the run's key: the run has no partners,
      and the row becomes the read-ahead tuple of the next run. */
  lemma AdvancePast(c: Config, s: Join, row: Row, key: Key, seeked: bool)
    requires Advancing(c, s, row, key) && s.pos < |s.rows|
    requires KeyOf(c.rightKey, s.rows[s.pos]) > s.prevLeftKey.value
    ensures AdvanceOk(c, s, row, AdvanceOn(c, s.(pos := s.pos + 1), row, key, Got(s.rows[s.pos]), seeked, s.pos))
  {
    var t := s.rows[s.pos];
    var k := KeyOf(c.rightKey, t);
    var kb := s.prevLeftKey.value;
    var r := AdvanceOn(c, s.(pos := s.pos + 1), row, key, Got(t), seeked, s.pos);
    forall j | 0 <= j < |s.rows[s.pos..]| ensures KeyOf(c.rightKey, s.rows[s.pos..][j]) != kb {
      assert s.rows[s.pos..][j] == s.rows[s.pos + j];
    }
    MatchingNone(c.rightKey, s.rows[s.pos..], kb);
    var s2 := s.(pos := s.pos + 1, prevRightKey := Some(k), prevRightInp := Some(t), leftTuples := [row],
                 prevLeftInp := row, prevLeftKey := key);
    if s.endOfAllInput {
      assert r == (s2.(closed := true, pos := |s.rows|), Returned(Null));
      assert Finished(c, r.0);
    } else {
      assert r == (s2, Returned(Null));
      assert Vals([row]) == [row.value];
      assert Ahead(s2) == s.rows[s.pos..];
      assert Collecting(c, s2);
    }
  }

  /** A row below the run's key is skipped: nothing owed changes. */
  lemma SkipOwed(c: Config, s: Join, row: Row, key: Key)
    requires Advancing(c, s, row, key) && s.pos < |s.rows|
    requires KeyOf(c.rightKey, s.rows[s.pos]) < s.prevLeftKey.value
    ensures Advancing(c, s.(pos := s.pos + 1), row, key)
    ensures Owed(c, s, row) == Owed(c, s.(pos := s.pos + 1), row)
  {
    var t := s.rows[s.pos];
    MatchingAt(c.rightKey, s.rows, s.pos, s.prevLeftKey.value);
    assert s.rows[s.pos..] == [t] + s.rows[s.pos + 1..];
    FollowSkip(c, row, s.left, if key.Some? then key.value else 0, t, s.rows[s.pos + 1..]);
    var s1 := s.(pos := s.pos + 1);
    assert Matching(c.rightKey, s.rows[s.pos..], s.prevLeftKey.value) == Matching(c.rightKey, s1.rows[s1.pos..], s1.prevLeftKey.value);
    assert Follow(c, row, s.left, s.rows[s.pos..]) == Follow(c, row, s1.left, s1.rows[s1.pos..]);
  }

  /** The whole loop, by induction on the rows it skips. */
  lemma {:induction false} AdvanceStep(c: Config, s: Join, row: Row, key: Key, sliding: bool, seeked: bool)
    requires Advancing(c, s, row, key)
    ensures AdvanceOk(c, s, row, Advance(c, s, row, key, sliding, seeked))
    decreases |s.rows| - s.pos
  {
    AdvanceFetch(c, s, row, key, sliding, seeked);
    if s.pos == |s.rows| {
      AdvanceEnd(c, s, row, key);
    } else {
      var k := KeyOf(c.rightKey, s.rows[s.pos]);
      var kb := s.prevLeftKey.value;
      if k < kb {
        var s1 := s.(pos := s.pos + 1);
        assert Advance(c, s, row, key, sliding, seeked) == Advance(c, s1, row, key, true, seeked);
        SkipOwed(c, s, row, key);
        AdvanceStep(c, s1, row, key, true, seeked);
      } else if k == kb {
        AdvanceHit(c, s, row, key, seeked);
      } else {
        AdvancePast(c, s, row, key, seeked);
      }
    }
  }

  // ---------------------------------------------------------------------
  // Matching a finished run

  /** What a finished run of key `prevLeftKey` owes, with `row` in hand:
      its partners among the unconsumed right tuples, then the join of the
      next run with them. */
  ghost function Due(c: Config, s: Join, row: Row): seq<Tuple>
    requires s.pos <= |s.rows| && s.prevLeftKey.Some?
  {
    JoinRun(Vals(s.leftTuples), Matching(c.rightKey, Ahead(s), s.prevLeftKey.value))
      + Follow(c, row, s.left, Ahead(s))
  }

  ghost predicate Ending(c: Config, s: Join, row: Row, key: Key)
  {
    && Collecting(c, s) && s.curJoinKey == s.prevLeftKey && Next(c, s, row, key)
  }

  ghost predicate MatchOk(c: Config, s: Join, r: (Join, Outcome))
    requires s.pos <= |s.rows| && s.prevLeftKey.Some? && WellFormed(r.0)
  {
    && r.0.rows == s.rows && r.0.left == s.left && r.0.endOfAllInput == s.endOfAllInput
    && (s.endOfAllInput && !Terminal(r) ==> r.0.prevLeftKey.None?)
  }

  /** The read-ahead tuple is at or past the new key: the run has no
      partners, and the new tuple starts the next run behind it. */
  lemma Parked(c: Config, s: Join, row: Row, key: Key)
    requires Ending(c, s, row, key) && !s.endOfAllInput
    requires s.prevRightKey.Some? && s.prevRightKey.value >= key.value
    ensures var p := s.(leftTuples := [row], prevLeftInp := row, prevLeftKey := key);
            Collecting(c, p) && Due(c, s, row) == Rest(c, p)
  {
    var p := s.(leftTuples := [row], prevLeftInp := row, prevLeftKey := key);
    var kb := s.prevLeftKey.value;
    var a := Ahead(s);
    assert a == s.rows[s.pos - 1..];
    forall j | 0 <= j < |a| ensures KeyOf(c.rightKey, a[j]) != kb {
      assert a[j] == s.rows[s.pos - 1 + j];
    }
    MatchingNone(c.rightKey, a, kb);
    assert Vals([row]) == [row.value];
    assert Collecting(c, p);
  }

  function AheadHit(s: Join, row: Row, key: Key): Join
    requires s.prevRightInp.Some? && |s.leftTuples| > 0
  {
    s.(curJoiningRightTup := s.prevRightInp.value, counter := |s.leftTuples| - 1, doingJoin := true,
       prevLeftInp := row, prevLeftKey := key)
  }

  lemma AheadEmitting(c: Config, s: Join, row: Row, key: Key)
    requires Ending(c, s, row, key) && s.prevRightKey == s.prevLeftKey
    ensures Emitting(c, AheadHit(s, row, key))
  {
  }

  lemma AheadDueParts(c: Config, s: Join, row: Row, key: Key)
    requires Ending(c, s, row, key) && s.prevRightKey == s.prevLeftKey
    ensures var buf := Vals(s.leftTuples);
            var t := s.prevRightInp.value;
            var m := Matching(c.rightKey, s.rows[s.pos..], s.prevLeftKey.value);
            && Ahead(s) == [t] + s.rows[s.pos..]
            && Matching(c.rightKey, Ahead(s), s.prevLeftKey.value) == [t] + m
            && JoinRun(buf, [t] + m) == [buf[|buf| - 1] + t] + Pairs(buf[..|buf| - 1], t) + JoinRun(buf, m)
            && Follow(c, row, s.left, Ahead(s)) == Follow(c, row, s.left, s.rows[s.pos..])
            && buf[|buf| - 1] == s.leftTuples[|s.leftTuples| - 1].value
  {
    var t := s.prevRightInp.value;
    var kb := s.prevLeftKey.value;
    var buf := Vals(s.leftTuples);
    var m := Matching(c.rightKey, s.rows[s.pos..], kb);
    MatchingFront(c.rightKey, t, s.rows[s.pos..], kb);
    JoinRunFront(buf, t, m);
    FollowSkip(c, row, s.left, if key.Some? then key.value else 0, t, s.rows[s.pos..]);
  }

  lemma AheadDue(c: Config, s: Join, row: Row, key: Key)
    requires s.pos <= |s.rows| && s.prevLeftKey.Some? && s.prevRightInp.Some? && |s.leftTuples| > 0
    requires var buf := Vals(s.leftTuples);
             var t := s.prevRightInp.value;
             var m := Matching(c.rightKey, s.rows[s.pos..], s.prevLeftKey.value);
             && Ahead(s) == [t] + s.rows[s.pos..]
             && Matching(c.rightKey, Ahead(s), s.prevLeftKey.value) == [t] + m
             && JoinRun(buf, [t] + m) == [buf[|buf| - 1] + t] + Pairs(buf[..|buf| - 1], t) + JoinRun(buf, m)
             && Follow(c, row, s.left, Ahead(s)) == Follow(c, row, s.left, s.rows[s.pos..])
             && s.leftTuples[|s.leftTuples| - 1].Some?
             && buf[|buf| - 1] == s.leftTuples[|s.leftTuples| - 1].value
    ensures var buf := Vals(s.leftTuples);
            var t := s.prevRightInp.value;
            Due(c, s, row)
            == [s.leftTuples[|s.leftTuples| - 1].value + t]
               + (Pairs(buf[..|buf| - 1], t)
                  + JoinRun(buf, Matching(c.rightKey, s.rows[s.pos..], s.prevLeftKey.value))
                  + Follow(c, row, s.left, s.rows[s.pos..]))
  {
  }

  lemma AheadRestForm(c: Config, s: Join, row: Row, key: Key)
    requires WellFormed(s) && !s.firstTime && s.prevLeftKey.Some? && s.prevRightInp.Some?
    requires s.curJoinKey == s.prevLeftKey
    ensures var buf := Vals(s.leftTuples);
            && WellFormed(AheadHit(s, row, key))
            && Rest(c, AheadHit(s, row, key))
               == Pairs(buf[..|buf| - 1], s.prevRightInp.value)
                  + JoinRun(buf, Matching(c.rightKey, s.rows[s.pos..], s.prevLeftKey.value))
                  + Follow(c, row, s.left, s.rows[s.pos..])
  {
  }

  lemma AheadCall(c: Config, s: Join, row: Row, key: Key)
    requires Ending(c, s, row, key) && s.prevRightKey.Some? && s.prevRightKey == s.prevLeftKey
    ensures ReadAhead(c, s, row, key)
            == (AheadHit(s, row, key), Returned(Ok(s.leftTuples[|s.leftTuples| - 1].value + s.prevRightInp.value)))
  {
    var sD := s.(curJoiningRightTup := s.prevRightInp.value, counter := |s.leftTuples|, doingJoin := true,
                 prevLeftInp := row, prevLeftKey := key);
    assert ReadAhead(c, s, row, key) == Drain(c, sD);
  }

  /** The read-ahead tuple has the run's key: the match starts with it. */
  lemma AheadJoin(c: Config, s: Join, row: Row, key: Key)
    requires Ending(c, s, row, key) && s.prevRightKey.Some? && s.prevRightKey == s.prevLeftKey
    ensures var r := ReadAhead(c, s, row, key);
            MatchOk(c, s, r) && Continues(c, r, Due(c, s, row))
  {
    var r := ReadAhead(c, s, row, key);
    var e := AheadHit(s, row, key);
    AheadCall(c, s, row, key);
    assert Signal(r) == e;
    assert Inv(c, e) by {
      AheadEmitting(c, s, row, key);
    }
    assert Due(c, s, row) == Out(r.1) + Rest(c, e) by {
      AheadDueParts(c, s, row, key);
      AheadDue(c, s, row, key);
      AheadRestForm(c, s, row, key);
    }
    GoesOn(c, r, Due(c, s, row));
  }

  /** Otherwise the right side is advanced, and what is due is what the
      loop owes. */
  lemma DueOwed(c: Config, s: Join, row: Row, key: Key)
    requires Ending(c, s, row, key)
    requires !(s.prevRightKey.Some? && !s.endOfAllInput && s.prevRightKey.value >= key.value)
    requires !(s.prevRightKey.Some? && s.prevRightKey == s.prevLeftKey)
    ensures Advancing(c, s, row, key)
    ensures Due(c, s, row) == Owed(c, s, row)
  {
    if s.prevRightInp.Some? {
      var t := s.prevRightInp.value;
      assert Ahead(s) == [t] + s.rows[s.pos..];
      MatchingFront(c.rightKey, t, s.rows[s.pos..], s.prevLeftKey.value);
      FollowSkip(c, row, s.left, if key.Some? then key.value else 0, t, s.rows[s.pos..]);
      assert Matching(c.rightKey, Ahead(s), s.prevLeftKey.value) == Matching(c.rightKey, s.rows[s.pos..], s.prevLeftKey.value);
      assert Follow(c, row, s.left, Ahead(s)) == Follow(c, row, s.left, s.rows[s.pos..]);
    } else {
      assert Ahead(s) == s.rows[s.pos..];
    }
  }

  /** `Match` on a finished run, whatever the read-ahead tuple is. */
  lemma MatchStep(c: Config, s: Join, row: Row, key: Key)
    requires Ending(c, s, row, key)
    ensures var r := Match(c, s, row, key);
            MatchOk(c, s, r) && Continues(c, r, Due(c, s, row))
  {
    var r := Match(c, s, row, key);
    if s.prevRightKey.Some? && !s.endOfAllInput && s.prevRightKey.value >= key.value {
      Parked(c, s, row, key);
      assert r == (s.(leftTuples := [row], prevLeftInp := row, prevLeftKey := key), Returned(Null));
    } else if s.prevRightKey.Some? && s.prevRightKey == s.prevLeftKey {
      assert r == ReadAhead(c, s, row, key);
      AheadJoin(c, s, row, key);
    } else {
      assert r == Advance(c, s, row, key, false, false);
      DueOwed(c, s, row, key);
      AdvanceStep(c, s, row, key, false, false);
    }
  }

  // ---------------------------------------------------------------------
  // One call from each kind of state

  /** The state after the set-up call read the first left tuple. */
  function Opened(c: Config, s: Join): Join
    requires |s.left| > 0 && s.left[0].Ok?
  {
    var t := s.left[0].t;
    s.(leftTuples := [Some(t)], left := s.left[1..], pos := Near(c.near, s.rows, Some(KeyOf(c.leftKey, t))),
       closed := false, firstTime := false, prevLeftKey := Some(KeyOf(c.leftKey, t)))
  }

  lemma FreshCall(c: Config, s: Join)
    requires Fresh(c, s) && |s.left| > 0
    ensures GetNext(c, s) == (Opened(c, s), Returned(Null))
  {
    assert HasKey(c.leftKey, Lefts(s.left)[0]);
  }

  lemma FreshOpened(c: Config, s: Join)
    requires Fresh(c, s) && |s.left| > 0
    ensures Collecting(c, Opened(c, s))
  {
    LeftsTail(s.left);
  }

  lemma FreshRest(c: Config, s: Join)
    requires Fresh(c, s) && |s.left| > 0
    ensures WellFormed(Opened(c, s)) && Rest(c, s) == Rest(c, Opened(c, s))
  {
    var t := s.left[0].t;
    var k := KeyOf(c.leftKey, t);
    var n := Near(c.near, s.rows, Some(k));
    var o := Opened(c, s);
    LeftsTail(s.left);
    assert SeekSafe(c, s.rows, k);
    ExpectedSkipPrefix(c, Lefts(s.left), s.rows, n, k);
    assert Vals([Some(t)]) == [t];
    assert Ahead(o) == s.rows[n..];
  }

  lemma StepFresh(c: Config, s: Join)
    requires Fresh(c, s)
    ensures StepOk(c, s)
  {
    var r := GetNext(c, s);
    if |s.left| == 0 {
      assert r == (s.(leftTuples := []), Returned(Eop));
      if s.endOfAllInput {
        Stops(c, r, Rest(c, s));
      } else {
        assert Fresh(c, Signal(r));
        GoesOn(c, r, Rest(c, s));
      }
    } else {
      FreshCall(c, s);
      FreshOpened(c, s);
      FreshRest(c, s);
      GoesOn(c, r, Rest(c, s));
    }
  }

  lemma CollectingEop(c: Config, s: Join)
    requires Collecting(c, s) && |s.left| == 0
    ensures StepOk(c, s)
  {
    var r := GetNext(c, s);
    var buf := Vals(s.leftTuples);
    assert r == NextLeft(c, s);
    assert buf + Lefts(s.left) == buf;
    if !s.endOfAllInput {
      assert r == (s, Returned(Eop));
      assert Collecting(c, Signal(r));
    } else {
      var s1 := s.(curJoinKey := s.prevLeftKey);
      assert r == Match(c, s1, None, None);
      MatchStep(c, s1, None, None);
      ExpectedSplit(c, buf, [], s.prevLeftKey.value, Ahead(s));
    }
  }

  /** The state after a left tuple with the run's key joined the buffer. */
  function Grown(s: Join): Join
    requires |s.left| > 0 && s.left[0].Ok?
  {
    s.(left := s.left[1..], leftTuples := s.leftTuples + [Some(s.left[0].t)])
  }

  lemma GrownRest(c: Config, s: Join)
    requires WellFormed(s) && !s.firstTime && !s.doingJoin && s.prevLeftKey.Some?
    requires |s.left| > 0 && s.left[0].Ok?
    ensures WellFormed(Grown(s)) && Rest(c, Grown(s)) == Rest(c, s)
  {
    LeftsTail(s.left);
    assert Vals(Grown(s).leftTuples) + Lefts(Grown(s).left) == Vals(s.leftTuples) + Lefts(s.left);
  }

  lemma CollectingSame(c: Config, s: Join)
    requires Collecting(c, s) && |s.left| > 0
    requires KeyOf(c.leftKey, s.left[0].t) == s.prevLeftKey.value
    ensures StepOk(c, s)
  {
    var r := GetNext(c, s);
    assert r == (Grown(s), Returned(Null)) by {
      assert HasKey(c.leftKey, Lefts(s.left)[0]);
    }
    assert Inv(c, Grown(s)) by {
      LeftsTail(s.left);
      assert Collecting(c, Grown(s));
    }
    GrownRest(c, s);
    GoesOn(c, r, Rest(c, s));
  }

  lemma CollectingNext(c: Config, s: Join)
    requires Collecting(c, s) && |s.left| > 0
    requires KeyOf(c.leftKey, s.left[0].t) != s.prevLeftKey.value
    ensures StepOk(c, s)
  {
    var r := GetNext(c, s);
    var t := s.left[0].t;
    var k := KeyOf(c.leftKey, t);
    var kb := s.prevLeftKey.value;
    assert HasKey(c.leftKey, Lefts(s.left)[0]);
    LeftsTail(s.left);
    var s2 := s.(left := s.left[1..], curJoinKey := s.prevLeftKey);
    assert r == Match(c, s2, Some(t), Some(k));
    assert Ending(c, s2, Some(t), Some(k));
    MatchStep(c, s2, Some(t), Some(k));
    ExpectedSplit(c, Vals(s.leftTuples), Lefts(s.left), kb, Ahead(s));
  }

  lemma StepCollecting(c: Config, s: Join)
    requires Collecting(c, s)
    ensures StepOk(c, s)
  {
    if |s.left| == 0 {
      CollectingEop(c, s);
    } else if KeyOf(c.leftKey, s.left[0].t) == s.prevLeftKey.value {
      CollectingSame(c, s);
    } else {
      CollectingNext(c, s);
    }
  }

  /** What a match under way owes after the pairs with its current row. */
  ghost function AfterPairs(c: Config, s: Join): seq<Tuple>
    requires s.pos <= |s.rows|
  {
    var kc := if s.curJoinKey.Some? then s.curJoinKey.value else 0;
    JoinRun(Vals(s.leftTuples), Matching(c.rightKey, s.rows[s.pos..], kc))
      + Follow(c, s.prevLeftInp, s.left, s.rows[s.pos..])
  }

  lemma RestEmitting(c: Config, s: Join)
    requires WellFormed(s) && !s.firstTime && s.doingJoin
    ensures Rest(c, s) == Pairs(Vals(s.leftTuples)[..s.counter], s.curJoiningRightTup) + AfterPairs(c, s)
  {
  }

  lemma PairsLast(buf: seq<Tuple>, k: nat, r: Tuple)
    requires 0 < k <= |buf|
    ensures Pairs(buf[..k], r) == [buf[k - 1] + r] + Pairs(buf[..k - 1], r)
  {
    assert buf[..k][..k - 1] == buf[..k - 1];
  }

  lemma EmitRest(c: Config, s: Join)
    requires WellFormed(s) && !s.firstTime && s.doingJoin && s.counter > 0
    ensures var buf := Vals(s.leftTuples);
            Rest(c, s) == [buf[s.counter - 1] + s.curJoiningRightTup] + Rest(c, s.(counter := s.counter - 1))
  {
    var e := s.(counter := s.counter - 1);
    RestEmitting(c, s);
    RestEmitting(c, e);
    assert AfterPairs(c, e) == AfterPairs(c, s);
    PairsLast(Vals(s.leftTuples), s.counter, s.curJoiningRightTup);
  }

  /** Another pair of the match under way. */
  lemma EmitMore(c: Config, s: Join)
    requires Emitting(c, s) && s.counter > 0
    ensures StepOk(c, s)
  {
    var r := GetNext(c, s);
    var e := s.(counter := s.counter - 1);
    assert r == Emit(s);
    assert r == (e, Returned(Ok(s.leftTuples[s.counter - 1].value + s.curJoiningRightTup)));
    assert Signal(r) == e;
    assert Emitting(c, e);
    EmitRest(c, s);
    GoesOn(c, r, Rest(c, s));
  }

  lemma DrainFetch(c: Config, s: Join)
    requires WellFormed(s) && !s.firstTime && s.doingJoin && s.counter == 0 && !c.sparse && c.pipeline.None?
    ensures s.pos == |s.rows| ==> GetNext(c, s) == (s.(doingJoin := false, prevRightInp := None), Returned(Eop))
    ensures s.pos < |s.rows| ==>
              GetNext(c, s) == DrainOn(c, s.(doingJoin := false, pos := s.pos + 1), Got(s.rows[s.pos]), s.pos)
  {
    assert GetNext(c, s) == DrainLoop(c, s.(doingJoin := false));
  }

  /** The match's right rows run out with the right file. */
  lemma DrainEnd(c: Config, s: Join)
    requires Emitting(c, s) && s.counter == 0 && s.pos == |s.rows|
    ensures StepOk(c, s)
  {
    var r := GetNext(c, s);
    DrainFetch(c, s);
    assert s.rows[s.pos..] == [];
    if s.prevLeftInp.Some? {
      ExpectedNoMatch(c, [s.prevLeftInp.value] + Lefts(s.left), []);
    }
    assert Rest(c, s) == [];
    if s.endOfAllInput {
      Stops(c, r, Rest(c, s));
    } else {
      assert Starved(c, Signal(r));
      StarvedRest(c, Signal(r));
      GoesOn(c, r, Rest(c, s));
    }
  }

  function Rematched(s: Join): Join
    requires s.pos < |s.rows| && |s.leftTuples| > 0
  {
    s.(pos := s.pos + 1, curJoiningRightTup := s.rows[s.pos], counter := |s.leftTuples| - 1)
  }

  lemma DrainHitCall(c: Config, s: Join)
    requires Emitting(c, s) && s.counter == 0 && s.pos < |s.rows|
    requires KeyOf(c.rightKey, s.rows[s.pos]) == s.curJoinKey.value
    ensures GetNext(c, s)
            == (Rematched(s), Returned(Ok(s.leftTuples[|s.leftTuples| - 1].value + s.rows[s.pos])))
  {
    var t := s.rows[s.pos];
    DrainFetch(c, s);
    var sD := s.(pos := s.pos + 1, curJoiningRightTup := t, counter := |s.leftTuples|);
    assert GetNext(c, s) == Drain(c, sD);
  }

  /** What a match owes with no pair left to emit against its row, and
      after it moved on to the next row. */
  lemma DrainForms(c: Config, s: Join)
    requires WellFormed(s) && !s.firstTime && s.doingJoin && s.counter == 0 && s.pos < |s.rows|
    requires s.curJoinKey.Some?
    ensures var buf := Vals(s.leftTuples);
            var t := s.rows[s.pos];
            var m := Matching(c.rightKey, s.rows[s.pos + 1..], s.curJoinKey.value);
            && WellFormed(Rematched(s))
            && Rest(c, s) == JoinRun(buf, Matching(c.rightKey, s.rows[s.pos..], s.curJoinKey.value))
                             + Follow(c, s.prevLeftInp, s.left, s.rows[s.pos..])
            && Rest(c, Rematched(s)) == Pairs(buf[..|buf| - 1], t) + JoinRun(buf, m)
                                        + Follow(c, s.prevLeftInp, s.left, s.rows[s.pos + 1..])
  {
  }

  lemma DrainHitParts(c: Config, s: Join)
    requires s.pos < |s.rows| && |s.leftTuples| > 0
    requires s.curJoinKey.Some? && KeyOf(c.rightKey, s.rows[s.pos]) == s.curJoinKey.value
    requires s.prevLeftInp.Some? ==>
               && s.prevLeftKey == Some(KeyOf(c.leftKey, s.prevLeftInp.value))
               && s.curJoinKey.value < s.prevLeftKey.value
               && LeftFrom(c, s, s.prevLeftKey.value)
    ensures var buf := Vals(s.leftTuples);
            var t := s.rows[s.pos];
            var m := Matching(c.rightKey, s.rows[s.pos + 1..], s.curJoinKey.value);
            && Matching(c.rightKey, s.rows[s.pos..], s.curJoinKey.value) == [t] + m
            && JoinRun(buf, [t] + m) == [buf[|buf| - 1] + t] + Pairs(buf[..|buf| - 1], t) + JoinRun(buf, m)
            && Follow(c, s.prevLeftInp, s.left, s.rows[s.pos..]) == Follow(c, s.prevLeftInp, s.left, s.rows[s.pos + 1..])
  {
    var t := s.rows[s.pos];
    var kc := s.curJoinKey.value;
    var buf := Vals(s.leftTuples);
    var m := Matching(c.rightKey, s.rows[s.pos + 1..], kc);
    var lo := if s.prevLeftKey.Some? then s.prevLeftKey.value else 0;
    MatchingAt(c.rightKey, s.rows, s.pos, kc);
    JoinRunFront(buf, t, m);
    assert s.rows[s.pos..] == [t] + s.rows[s.pos + 1..];
    FollowSkip(c, s.prevLeftInp, s.left, lo, t, s.rows[s.pos + 1..]);
  }

  lemma DrainHitEq(c: Config, s: Join)
    requires s.pos < |s.rows| && |s.leftTuples| > 0
    requires s.curJoinKey.Some? && KeyOf(c.rightKey, s.rows[s.pos]) == s.curJoinKey.value
    requires s.prevLeftInp.Some? ==>
               && s.prevLeftKey == Some(KeyOf(c.leftKey, s.prevLeftInp.value))
               && s.curJoinKey.value < s.prevLeftKey.value
               && LeftFrom(c, s, s.prevLeftKey.value)
    ensures var buf := Vals(s.leftTuples);
            var t := s.rows[s.pos];
            var m := Matching(c.rightKey, s.rows[s.pos + 1..], s.curJoinKey.value);
            JoinRun(buf, Matching(c.rightKey, s.rows[s.pos..], s.curJoinKey.value))
              + Follow(c, s.prevLeftInp, s.left, s.rows[s.pos..])
            == [buf[|buf| - 1] + t] + (Pairs(buf[..|buf| - 1], t) + JoinRun(buf, m)
                                       + Follow(c, s.prevLeftInp, s.left, s.rows[s.pos + 1..]))
  {
    DrainHitParts(c, s);
  }

  lemma DrainHitRest(c: Config, s: Join)
    requires WellFormed(s) && !s.firstTime && s.doingJoin && s.counter == 0 && s.pos < |s.rows|
    requires s.curJoinKey.Some? && KeyOf(c.rightKey, s.rows[s.pos]) == s.curJoinKey.value
    requires s.prevLeftInp.Some? ==>
               && s.prevLeftKey == Some(KeyOf(c.leftKey, s.prevLeftInp.value))
               && s.curJoinKey.value < s.prevLeftKey.value
               && LeftFrom(c, s, s.prevLeftKey.value)
    ensures var buf := Vals(s.leftTuples);
            && WellFormed(Rematched(s))
            && Rest(c, s) == [buf[|buf| - 1] + s.rows[s.pos]] + Rest(c, Rematched(s))
  {
    DrainForms(c, s);
    DrainHitEq(c, s);
  }

  /** The next right row has the match's key too: the match goes on. */
  lemma DrainHit(c: Config, s: Join)
    requires Emitting(c, s) && s.counter == 0 && s.pos < |s.rows|
    requires KeyOf(c.rightKey, s.rows[s.pos]) == s.curJoinKey.value
    ensures StepOk(c, s)
  {
    var r := GetNext(c, s);
    DrainHitCall(c, s);
    assert Signal(r) == Rematched(s);
    assert Emitting(c, Rematched(s));
    DrainHitRest(c, s);
    GoesOn(c, r, Rest(c, s));
  }

  /** The next right row is past the match's key: the match is over, and the
      row becomes the read-ahead tuple of the next run. */
  lemma DrainPast(c: Config, s: Join)
    requires Emitting(c, s) && s.counter == 0 && s.pos < |s.rows|
    requires KeyOf(c.rightKey, s.rows[s.pos]) != s.curJoinKey.value
    ensures StepOk(c, s)
  {
    var r := GetNext(c, s);
    var t := s.rows[s.pos];
    var k := KeyOf(c.rightKey, t);
    var kc := s.curJoinKey.value;
    DrainFetch(c, s);
    assert k > kc;
    forall j | 0 <= j < |s.rows[s.pos..]| ensures KeyOf(c.rightKey, s.rows[s.pos..][j]) != kc {
      assert s.rows[s.pos..][j] == s.rows[s.pos + j];
    }
    MatchingNone(c.rightKey, s.rows[s.pos..], kc);
    var s1 := s.(doingJoin := false, pos := s.pos + 1);
    if s.endOfAllInput {
      assert r == (s1.(closed := true, pos := |s.rows|), Returned(Eop));
      Stops(c, r, Rest(c, s));
    } else {
      var p := s1.(prevRightKey := Some(k), prevRightInp := Some(t), leftTuples := [s.prevLeftInp]);
      assert r == (p, Returned(Null));
      assert Collecting(c, p);
      assert Vals([s.prevLeftInp]) == [s.prevLeftInp.value];
      assert Ahead(p) == s.rows[s.pos..];
      GoesOn(c, r, Rest(c, s));
    }
  }

  lemma StepEmitting(c: Config, s: Join)
    requires Emitting(c, s)
    ensures StepOk(c, s)
  {
    if s.counter > 0 {
      EmitMore(c, s);
    } else if s.pos == |s.rows| {
      DrainEnd(c, s);
    } else if KeyOf(c.rightKey, s.rows[s.pos]) == s.curJoinKey.value {
      DrainHit(c, s);
    } else {
      DrainPast(c, s);
    }
  }

  lemma StarvedEop(c: Config, s: Join)
    requires Starved(c, s) && |s.left| == 0
    ensures StepOk(c, s)
  {
    var r := GetNext(c, s);
    StarvedRest(c, s);
    if !s.endOfAllInput {
      assert r == (s, Returned(Eop));
      assert Starved(c, Signal(r));
      StarvedRest(c, Signal(r));
      GoesOn(c, r, Rest(c, s));
    } else {
      var s1 := s.(curJoinKey := s.prevLeftKey);
      assert r == Advance(c, s1, None, None, false, false);
      AdvanceFetch(c, s1, None, None, false, false);
      Stops(c, r, Rest(c, s));
    }
  }

  lemma StarvedSame(c: Config, s: Join)
    requires Starved(c, s) && |s.left| > 0
    requires KeyOf(c.leftKey, s.left[0].t) == s.prevLeftKey.value
    ensures StepOk(c, s)
  {
    var r := GetNext(c, s);
    var t := s.left[0].t;
    StarvedRest(c, s);
    assert HasKey(c.leftKey, Lefts(s.left)[0]);
    LeftsTail(s.left);
    var s2 := s.(left := s.left[1..], leftTuples := s.leftTuples + [Some(t)]);
    assert r == (s2, Returned(Null));
    assert Starved(c, s2);
    StarvedRest(c, s2);
    GoesOn(c, r, Rest(c, s));
  }

  lemma StarvedNext(c: Config, s: Join)
    requires Starved(c, s) && |s.left| > 0
    requires KeyOf(c.leftKey, s.left[0].t) != s.prevLeftKey.value
    ensures StepOk(c, s)
  {
    var r := GetNext(c, s);
    var t := s.left[0].t;
    var k := KeyOf(c.leftKey, t);
    StarvedRest(c, s);
    assert HasKey(c.leftKey, Lefts(s.left)[0]);
    LeftsTail(s.left);
    var s2 := s.(left := s.left[1..], curJoinKey := s.prevLeftKey);
    assert r == Advance(c, s2, Some(t), Some(k), false, false);
    AdvanceFetch(c, s2, Some(t), Some(k), false, false);
    assert r == (s2, Returned(Eop));
    assert Starved(c, Signal(r));
    StarvedRest(c, Signal(r));
    GoesOn(c, r, Rest(c, s));
  }

  lemma StepStarved(c: Config, s: Join)
    requires Starved(c, s)
    ensures StepOk(c, s)
  {
    if |s.left| == 0 {
      StarvedEop(c, s);
    } else if KeyOf(c.leftKey, s.left[0].t) == s.prevLeftKey.value {
      StarvedSame(c, s);
    } else {
      StarvedNext(c, s);
    }
  }

  /** After the last run the closed loader is read once more, and answers
      EOP. */
  lemma StepFinished(c: Config, s: Join)
    requires Finished(c, s)
    ensures StepOk(c, s)
  {
    var r := GetNext(c, s);
    var s1 := s.(curJoinKey := None);
    assert r == Advance(c, s1, None, None, false, false);
    AdvanceFetch(c, s1, None, None, false, false);
    Stops(c, r, Rest(c, s));
  }

  lemma Step(c: Config, s: Join)
    requires Inv(c, s)
    ensures StepOk(c, s)
  {
    if Fresh(c, s) {
      StepFresh(c, s);
    } else if Collecting(c, s) {
      StepCollecting(c, s);
    } else if Emitting(c, s) {
      StepEmitting(c, s);
    } else if Starved(c, s) {
      StepStarved(c, s);
    } else {
      StepFinished(c, s);
    }
  }

  // ---------------------------------------------------------------------
  // The whole run

  /** The calls the plan makes from `s` until the operator stops: the
      tuples they return, and the outcome of the last one. The run does
      stop, and with EOP. */
  ghost function Drive(c: Config, s: Join): (r: (seq<Tuple>, Outcome))
    requires Inv(c, s)
    ensures r.1 == Returned(Eop)
    decreases |s.left|, Phase(s), |s.rows| - s.pos, if s.doingJoin then 1 else 0, s.counter
  {
    Step(c, s);
    var r1 := GetNext(c, s);
    if Terminal(r1) then ([], r1.1)
    else
      var next := Drive(c, Signal(r1));
      (Out(r1.1) + next.0, next.1)
  }

  /** The run returns exactly what was still owed. */
  lemma {:induction false} DriveOwes(c: Config, s: Join)
    requires Inv(c, s)
    ensures Drive(c, s).0 == Rest(c, s)
    decreases |s.left|, Phase(s), |s.rows| - s.pos, if s.doingJoin then 1 else 0, s.counter
  {
    Step(c, s);
    var r1 := GetNext(c, s);
    if !Terminal(r1) {
      DriveOwes(c, Signal(r1));
    }
  }

  /** Completeness: from the freshly constructed operator, the tuples the
      calls return are exactly the merge join of the two inputs. */
  lemma MergeJoinComplete(c: Config, left: seq<Result>, rows: seq<Tuple>)
    requires Inputs(c, left, rows)
    ensures Inv(c, Initial(left, false, rows))
    ensures Drive(c, Initial(left, false, rows)).0 == Expected(c, Lefts(left), rows)
  {
    assert Fresh(c, Initial(left, false, rows));
    DriveOwes(c, Initial(left, false, rows));
  }
}
