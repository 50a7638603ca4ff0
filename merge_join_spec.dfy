/** One call of `POMergeJoin.getNextTuple()` as a function from the
    operator's state before the call to its state after the call and what
    the call returns. The recursive self-calls of the operator are the
    recursive calls of `DrainLoop` and `Advance` here, and the `while(true)`
    loops of the operator are those same recursions. */
module MergeJoinSpec {
  import opened Types
  import opened RightSource

  /** What stays fixed for the lifetime of one operator: the join type
      (MERGESPARSE or not), the two key-extraction plans, the optional
      right pipeline and the right loader's index. */
  datatype Config = Config(
    sparse: bool,
    leftKey: Tuple -> KeyOut,
    rightKey: Tuple -> KeyOut,
    pipeline: Option<Tuple -> PipeOut>,
    near: Key -> nat)

  /** The operator's state across calls, its left input still to come, and
      the right loader's rows and cursor. */
  datatype Join = Join(
    firstTime: bool,
    doingJoin: bool,
    counter: nat,
    prevLeftKey: Key,
    prevLeftInp: Row,
    prevRightKey: Key,
    prevRightInp: Row,
    curJoinKey: Key,
    curJoiningRightTup: Tuple,
    leftTuples: seq<Row>,
    left: seq<Result>,
    endOfAllInput: bool,
    rows: seq<Tuple>,
    pos: nat,
    closed: bool)

  /** The facts every call relies on: the right cursor is inside the file,
      no match is under way before the set-up call, after it the buffer is
      never empty, and while a match is being emitted `counter` indexes the
      buffer. */
  ghost predicate WellFormed(s: Join)
  {
    && s.pos <= |s.rows|
    && (s.firstTime ==> !s.doingJoin)
    && (!s.firstTime ==> |s.leftTuples| > 0)
    && (s.doingJoin ==> s.counter <= |s.leftTuples|)
  }

  /** The state of a freshly constructed operator. */
  function Initial(left: seq<Result>, endOfAllInput: bool, rows: seq<Tuple>): (s: Join)
    ensures WellFormed(s) && s.firstTime && !s.doingJoin && s.leftTuples == []
  {
    Join(true, false, 0, None, None, None, None, None, [], [], left, endOfAllInput, rows, 0, false)
  }

  /** `processInput`: the next left result; an exhausted input answers EOP. */
  function ProcessInput(s: Join): (r: (Result, Join))
    ensures |s.left| > 0 ==> r.0 == s.left[0] && r.1 == s.(left := s.left[1..])
    ensures |s.left| == 0 ==> r.0 == Eop && r.1 == s
  {
    if |s.left| == 0 then (Eop, s) else (s.left[0], s.(left := s.left[1..]))
  }

  /** The outcome of `getNextRightInp()`. */
  datatype Fetched = Got(t: Tuple) | Exhausted | Failed

  /** `getNextRightInp()`: without a pipeline, the loader's next row; with
      one, raw rows are pushed through it until its leaf yields a tuple
      (rows it drops are skipped), the loader runs out, or the leaf gives an
      ERR or NULL status. Returns the outcome and the new cursor. */
  function Fetch(pipeline: Option<Tuple -> PipeOut>, rows: seq<Tuple>, pos: nat): (r: (Fetched, nat))
    requires pos <= |rows|
    ensures pos <= r.1 <= |rows|
    ensures r.0.Exhausted? ==> r.1 == |rows|
    ensures !r.0.Exhausted? ==> pos < r.1
    decreases |rows| - pos
  {
    if pos == |rows| then (Exhausted, pos)
    else
      match pipeline
      case None => (Got(rows[pos]), pos + 1)
      case Some(f) =>
        match f(rows[pos])
        case Pass(u) => (Got(u), pos + 1)
        case Broken => (Failed, pos + 1)
        case Drop => Fetch(pipeline, rows, pos + 1)
  }

  /** One call of `getNextTuple()`. */
  function GetNext(c: Config, s: Join): (r: (Join, Outcome))
    requires WellFormed(s)
    ensures WellFormed(r.0) && r.0.rows == s.rows
  {
    if s.firstTime then FirstCall(c, s)
    else if s.doingJoin then Drain(c, s)
    else NextLeft(c, s)
  }

  /** The surrounding plan's side of the protocol: once the operator answers
      EOP with its left input used up, the plan sets `endOfAllInput` and
      calls again. */
  function Signal(r: (Join, Outcome)): (s: Join)
    requires WellFormed(r.0)
    ensures WellFormed(s) && s.rows == r.0.rows && s.pos == r.0.pos && s.left == r.0.left
    ensures s.endOfAllInput <==> r.0.endOfAllInput || (r.1 == Returned(Eop) && |r.0.left| == 0)
  {
    if r.1 == Returned(Eop) && |r.0.left| == 0 then r.0.(endOfAllInput := true) else r.0
  }

  /** The set-up call: the buffer is renewed, and the first left tuple with a
      non-null key opens the right side near its key. */
  function FirstCall(c: Config, s: Join): (r: (Join, Outcome))
    requires WellFormed(s) && s.firstTime
    ensures WellFormed(r.0) && r.0.rows == s.rows
  {
    var (inp, s1) := ProcessInput(s.(leftTuples := []));
    if !inp.Ok? then (s1, Returned(inp))
    else
      match c.leftKey(inp.t)
      case KeyFailed => (s1, Thrown(KeyPlanBroken))
      case KeyOk(None) => (s1, Returned(Null))
      case KeyOk(Some(k)) =>
        (s1.(pos := Near(c.near, s.rows, Some(k)), closed := false,
             leftTuples := [Some(inp.t)], firstTime := false, prevLeftKey := Some(k)),
         Returned(Null))
  }

  /** The `doingJoin` branch: emit one joined tuple while `counter > 0`,
      otherwise look for the next right tuple with the same key. */
  function Drain(c: Config, s: Join): (r: (Join, Outcome))
    requires WellFormed(s) && !s.firstTime && s.doingJoin
    ensures WellFormed(r.0) && r.0.rows == s.rows
    decreases |s.rows| - s.pos, 3
  {
    if s.counter > 0 then Emit(s)
    else DrainLoop(c, s.(doingJoin := false))
  }

  /** Pairs `leftTuples[counter - 1]` with the matched right tuple. */
  function Emit(s: Join): (r: (Join, Outcome))
    requires WellFormed(s) && s.doingJoin && s.counter > 0
    ensures WellFormed(r.0) && r.0 == s.(counter := s.counter - 1)
  {
    var s1 := s.(counter := s.counter - 1);
    match s.leftTuples[s.counter - 1]
    case None => (s1, Thrown(NullDereference))
    case Some(l) => (s1, Returned(Ok(l + s.curJoiningRightTup)))
  }

  /** The `while(true)` loop of the `doingJoin` branch, entered with
      `counter == 0`: fetch the next right tuple. */
  function DrainLoop(c: Config, s: Join): (r: (Join, Outcome))
    requires WellFormed(s) && !s.firstTime && !s.doingJoin
    ensures WellFormed(r.0) && r.0.rows == s.rows
    decreases |s.rows| - s.pos, 2
  {
    var (f, p) := Fetch(c.pipeline, s.rows, s.pos);
    DrainOn(c, s.(pos := p), f, s.pos)
  }

  /** One turn of that loop after the fetch (`from` is the cursor before it):
      skip a null key, start the next match on an equal key, keep the tuple
      as read-ahead on a greater key, fail on a smaller one. */
  function DrainOn(c: Config, s: Join, f: Fetched, from: nat): (r: (Join, Outcome))
    requires WellFormed(s) && !s.firstTime && !s.doingJoin
    requires from <= s.pos && (f.Got? ==> from < s.pos)
    ensures WellFormed(r.0) && r.0.rows == s.rows
    decreases |s.rows| - from, 1
  {
    match f
    case Failed => (s, Thrown(RightInputFailed))
    case Exhausted => (s.(prevRightInp := None), Returned(Eop))
    case Got(t) =>
      match c.rightKey(t)
      case KeyFailed => (s, Thrown(KeyPlanBroken))
      case KeyOk(None) => DrainLoop(c, s)
      case KeyOk(Some(k)) =>
        if s.curJoinKey.None? then (s, Thrown(NullDereference))
        else if k == s.curJoinKey.value then
          Drain(c, s.(curJoiningRightTup := t, counter := |s.leftTuples|, doingJoin := true))
        else if k > s.curJoinKey.value then
          if !s.endOfAllInput then
            (s.(prevRightKey := Some(k), prevRightInp := Some(t), leftTuples := [s.prevLeftInp]),
             Returned(Null))
          else (s.(closed := true, pos := |s.rows|), Returned(Eop))
        else (s, Thrown(NotSortedRight))
  }

  /** The normal path: read the next left tuple and, once its key moves
      past the buffered run, try to match that run on the right. */
  function NextLeft(c: Config, s: Join): (r: (Join, Outcome))
    requires WellFormed(s) && !s.firstTime && !s.doingJoin
    ensures WellFormed(r.0) && r.0.rows == s.rows
  {
    var (inp, s1) := ProcessInput(s);
    match inp
    case Ok(t) =>
      (match c.leftKey(t)
       case KeyFailed => (s1, Thrown(KeyPlanBroken))
       case KeyOk(None) => (s1, Returned(Null))
       case KeyOk(Some(k)) =>
         if s1.prevLeftKey.None? then (s1, Thrown(NullDereference))
         else if k == s1.prevLeftKey.value then
           (s1.(leftTuples := s1.leftTuples + [Some(t)]), Returned(Null))
         else if k > s1.prevLeftKey.value then
           Match(c, s1.(curJoinKey := s1.prevLeftKey), Some(t), Some(k))
         else (s1, Thrown(NotSortedLeft)))
    case Eop =>
      if s1.endOfAllInput then Match(c, s1.(curJoinKey := s1.prevLeftKey), None, None)
      else (s1, Returned(Eop))
    case _ => (s1, Returned(inp))
  }

  /** Entered with `curJoinKey` set and the new left tuple and key in hand
      (both null at the end of all input). First the read-ahead right tuple
      is consulted, then the right stream is advanced. */
  function Match(c: Config, s: Join, row: Row, key: Key): (r: (Join, Outcome))
    requires WellFormed(s) && !s.firstTime && !s.doingJoin
    ensures WellFormed(r.0) && r.0.rows == s.rows
  {
    if s.prevRightKey.Some? && !s.endOfAllInput then
      if key.None? then (s, Thrown(NullDereference))
      else if s.prevRightKey.value >= key.value then
        (s.(leftTuples := [row], prevLeftInp := row, prevLeftKey := key), Returned(Null))
      else ReadAhead(c, s, row, key)
    else ReadAhead(c, s, row, key)
  }

  /** The read-ahead right tuple has the buffered key: join with it at once. */
  function ReadAhead(c: Config, s: Join, row: Row, key: Key): (r: (Join, Outcome))
    requires WellFormed(s) && !s.firstTime && !s.doingJoin
    ensures WellFormed(r.0) && r.0.rows == s.rows
  {
    if s.prevRightKey.Some? && s.prevRightKey == s.prevLeftKey then
      match s.prevRightInp
      case None => (s, Thrown(NullDereference))
      case Some(rt) =>
        Drain(c, s.(curJoiningRightTup := rt, counter := |s.leftTuples|, doingJoin := true,
                    prevLeftInp := row, prevLeftKey := key))
    else Advance(c, s, row, key, false, false)
  }

  /** The right-advance loop. `sliding` is `slidingToNextRecord`; `seeked`
      records that this loop has already called `seekNear`. The state right
      after a seek depends only on fields the loop never changes, so a second
      seek within one loop repeats the first forever: that is `Hang`. */
  function Advance(c: Config, s: Join, row: Row, key: Key, sliding: bool, seeked: bool): (r: (Join, Outcome))
    requires WellFormed(s) && !s.firstTime && !s.doingJoin
    ensures WellFormed(r.0) && r.0.rows == s.rows
    decreases if seeked || !c.sparse then 0 else 1, |s.rows| - s.pos, 1
  {
    var seek := !sliding && c.sparse;
    if seek && seeked then (s, Hang)
    else
      var s0 := if seek then s.(pos := Near(c.near, s.rows, s.prevLeftKey), prevRightKey := None) else s;
      var (f, p) := Fetch(c.pipeline, s0.rows, s0.pos);
      AdvanceOn(c, s0.(pos := p), row, key, f, seeked || seek, s0.pos)
  }

  /** One turn of the right-advance loop after the fetch (`from` is the
      cursor the fetch started from). */
  function AdvanceOn(c: Config, s: Join, row: Row, key: Key, f: Fetched, seeked: bool, from: nat): (r: (Join, Outcome))
    requires WellFormed(s) && !s.firstTime && !s.doingJoin
    requires from <= s.pos && (f.Got? ==> from < s.pos)
    ensures WellFormed(r.0) && r.0.rows == s.rows
    decreases if seeked || !c.sparse then 0 else 1, |s.rows| - from, 0
  {
    match f
    case Failed => (s, Thrown(RightInputFailed))
    case Exhausted => (s, Returned(Eop))
    case Got(t) =>
      match c.rightKey(t)
      case KeyFailed => (s, Thrown(KeyPlanBroken))
      case KeyOk(None) => Advance(c, s, row, key, false, seeked)
      case KeyOk(Some(k)) =>
        if s.prevRightKey.Some? && k < s.prevRightKey.value then (s, Thrown(NotSortedRight))
        else if s.prevLeftKey.None? then (s, Thrown(NullDereference))
        else if k < s.prevLeftKey.value then Advance(c, s, row, key, true, seeked)
        else if k == s.prevLeftKey.value then
          Drain(c, s.(curJoiningRightTup := t, counter := |s.leftTuples|, doingJoin := true,
                      prevLeftInp := row, prevLeftKey := key))
        else
          var s2 := s.(prevRightKey := Some(k), prevRightInp := Some(t), leftTuples := [row],
                       prevLeftInp := row, prevLeftKey := key);
          if s2.endOfAllInput then (s2.(closed := true, pos := |s2.rows|), Returned(Null))
          else (s2, Returned(Null))
  }
}
