/** Building the joined tuple: a new tuple of arity `leftTupSize +
    rightTupSize` filled field by field. */
module RowCombiner {
  import opened Types

  /** The two index loops of the drain step: left fields go to positions
      `0 .. |l| - 1` and right fields to `|l| .. |l| + |r| - 1`, unchanged. */
  method Combine(l: Tuple, r: Tuple) returns (joined: Tuple)
    ensures |joined| == |l| + |r|
    ensures forall i :: 0 <= i < |l| ==> joined[i] == l[i]
    ensures forall i :: 0 <= i < |r| ==> joined[|l| + i] == r[i]
  {
    var leftTupSize, rightTupSize := |l|, |r|;
    var a := new Datum[leftTupSize + rightTupSize](_ => NullField);
    for i := 0 to leftTupSize
      invariant forall j :: 0 <= j < i ==> a[j] == l[j]
    {
      a[i] := l[i];
    }
    for i := 0 to rightTupSize
      invariant forall j :: 0 <= j < leftTupSize ==> a[j] == l[j]
      invariant forall j :: 0 <= j < i ==> a[leftTupSize + j] == r[j]
    {
      a[i + leftTupSize] := r[i];
    }
    joined := a[..];
  }
}
