/** Small shared vocabulary: optional values, error-carrying results and the
    fixed-width integer types of the .NET runtime that the packer relies on. */
module Common {

  datatype Option<+T> = None | Some(value: T)

  /** The outcome of an operation that the original code lets throw. */
  datatype Result<+T, +E> = Ok(value: T) | Err(error: E)

  const INT32_MAX: int := 0x7FFF_FFFF
  const INT32_MIN: int := -0x8000_0000
  const UINT32_MAX: int := 0xFFFF_FFFF

  /** C# `int`. */
  newtype int32 = x: int | -0x8000_0000 <= x < 0x8000_0000

  /** C# `uint`. */
  newtype uint32 = x: int | 0 <= x < 0x1_0000_0000

  /** C# `byte`. */
  newtype byte = x: int | 0 <= x < 0x100

  /** 2 to the power k. */
  function Pow2(k: nat): (r: nat)
    ensures r >= 1
  {
    if k == 0 then 1 else 2 * Pow2(k - 1)
  }

  /** A string that is neither null nor empty (`!string.IsNullOrEmpty`). */
  predicate HasText(s: Option<string>) {
    s.Some? && s.value != ""
  }

  function Max(a: int, b: int): int {
    if a >= b then a else b
  }

  function Min(a: int, b: int): int {
    if a <= b then a else b
  }
  /** `idx` lists, in increasing order, exactly the positions at which `keep`
      holds: the positions an order-preserving filter keeps. */
  predicate SelectsInOrder(idx: seq<int>, keep: seq<bool>) {
    (forall j :: 0 <= j < |idx| ==> 0 <= idx[j] < |keep| && keep[idx[j]]) &&
    (forall j, j' :: 0 <= j < j' < |idx| ==> idx[j] < idx[j']) &&
    (forall k :: 0 <= k < |keep| && keep[k] ==> k in idx)
  }

  /** Filtering one more element appends its position exactly when it is kept. */
  lemma SelectsExtend(idx: seq<int>, keep: seq<bool>, b: bool)
    requires SelectsInOrder(idx, keep)
    ensures SelectsInOrder(if b then idx + [|keep|] else idx, keep + [b])
  {
    var keep' := keep + [b];
    assert forall k :: 0 <= k < |keep| ==> keep'[k] == keep[k];
    if b {
      var idx' := idx + [|keep|];
      assert forall j :: 0 <= j < |idx| ==> idx'[j] == idx[j];
      assert idx'[|idx|] == |keep|;
      forall k | 0 <= k < |keep'| && keep'[k]
        ensures k in idx'
      {
        if k < |keep| {
          var i :| 0 <= i < |idx| && idx[i] == k;
          assert idx'[i] == k;
        }
      }
    }
  }

  /** The positions at which `keep` holds, in increasing order. */
  function Positions(keep: seq<bool>): (idx: seq<int>)
    ensures SelectsInOrder(idx, keep)
  {
    if keep == [] then []
    else
      var n := |keep| - 1;
      SelectsExtend(Positions(keep[..n]), keep[..n], keep[n]);
      assert keep[..n] + [keep[n]] == keep;
      if keep[n] then Positions(keep[..n]) + [n] else Positions(keep[..n])
  }

  /** Dropping the last element of `keep` drops its position, when it was kept. */
  lemma SelectsShrink(idx: seq<int>, keep: seq<bool>, b: bool)
    requires SelectsInOrder(idx, keep + [b])
    ensures b ==> idx != [] && idx[|idx| - 1] == |keep| && SelectsInOrder(idx[..|idx| - 1], keep)
    ensures !b ==> SelectsInOrder(idx, keep)
  {
    var keep' := keep + [b];
    assert forall k :: 0 <= k < |keep| ==> keep'[k] == keep[k];
    if b {
      assert keep'[|keep|];
      var m :| 0 <= m < |idx| && idx[m] == |keep|;
      assert m == |idx| - 1 by {
        assert 0 <= idx[|idx| - 1] < |keep'|;
      }
      var front := idx[..|idx| - 1];
      forall k | 0 <= k < |keep| && keep[k]
        ensures k in front
      {
        assert keep'[k];
        var i :| 0 <= i < |idx| && idx[i] == k;
        assert i != |idx| - 1;
        assert front[i] == k;
      }
    } else {
      forall j | 0 <= j < |idx|
        ensures idx[j] < |keep|
      {
        assert keep'[idx[j]];
      }
    }
  }

  /** The positions an order-preserving filter keeps are determined by `keep`. */
  lemma {:induction false} SelectsUnique(idx1: seq<int>, idx2: seq<int>, keep: seq<bool>)
    requires SelectsInOrder(idx1, keep) && SelectsInOrder(idx2, keep)
    ensures idx1 == idx2
  {
    if keep != [] {
      var n := |keep| - 1;
      var b := keep[n];
      assert keep == keep[..n] + [b];
      SelectsShrink(idx1, keep[..n], b);
      SelectsShrink(idx2, keep[..n], b);
      if b {
        SelectsUnique(idx1[..|idx1| - 1], idx2[..|idx2| - 1], keep[..n]);
        assert idx1 == idx1[..|idx1| - 1] + [n];
        assert idx2 == idx2[..|idx2| - 1] + [n];
      } else {
        SelectsUnique(idx1, idx2, keep[..n]);
      }
    }
  }
}
