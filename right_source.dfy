/** The right side's `IndexableLoadFunc`: a fixed, key-ordered run of tuples
    read through a cursor that can be placed near a key. */
module RightSource {
  import opened Types

  /** Where `seekNear(k)` leaves the cursor: whatever position the loader's
      index `near` gives, clamped to the end of the rows. Nothing here ties
      that position to the rows' keys; a usable index points at or before
      the first row whose key is at least `k`, and the completeness theorem
      (`MergeJoinCompleteness.IndexConsistent`) takes that as a hypothesis. */
  function Near(near: Key -> nat, rows: seq<Tuple>, k: Key): (p: nat)
    ensures p <= |rows|
    ensures near(k) <= |rows| ==> p == near(k)
    ensures near(k) > |rows| ==> p == |rows|
  {
    if near(k) <= |rows| then near(k) else |rows|
  }

  class RightLoader {
    /** The rows of the right relation, in file order. */
    const rows: seq<Tuple>
    /** The index consulted by `seekNear`. */
    const near: Key -> nat
    /** Position of the next row `getNext` returns. */
    var pos: nat
    var closed: bool

    ghost predicate Valid()
      reads this
    {
      pos <= |rows|
    }

    constructor (rows: seq<Tuple>, near: Key -> nat)
      ensures Valid()
      ensures this.rows == rows && this.near == near
      ensures pos == 0 && !closed
    {
      this.rows := rows;
      this.near := near;
      pos := 0;
      closed := false;
    }

    /** `getNext`: the next raw row, or None (Java's null) at the end. */
    method GetNext() returns (t: Option<Tuple>)
      requires Valid()
      modifies this`pos
      ensures Valid()
      ensures old(pos) < |rows| ==> t == Some(rows[old(pos)]) && pos == old(pos) + 1
      ensures old(pos) == |rows| ==> t == None && pos == old(pos)
    {
      if pos < |rows| {
        t := Some(rows[pos]);
        pos := pos + 1;
      } else {
        t := None;
      }
    }

    /** `seekNear(k)`. */
    method SeekNear(k: Key)
      requires Valid()
      modifies this`pos
      ensures Valid()
      ensures pos == Near(near, rows, k)
    {
      pos := Near(near, rows, k);
    }

    /** `seekInRightStream`: the operator instantiates a fresh loader, opens
        the right file and seeks near the first left key. */
    method Open(k: Key)
      requires Valid()
      modifies this
      ensures Valid()
      ensures pos == Near(near, rows, k) && !closed
    {
      closed := false;
      pos := Near(near, rows, k);
    }

    /** `close`; a failure to close is only logged, so it cannot fail here.
        The loader's own code is not part of this model: a closed loader is
        taken to have nothing more to give, so its cursor moves past the last
        row and a later `getNext` answers null. */
    method Close()
      requires Valid()
      modifies this`closed, this`pos
      ensures Valid() && closed && pos == |rows|
    {
      closed := true;
      pos := |rows|;
    }
  }
}
