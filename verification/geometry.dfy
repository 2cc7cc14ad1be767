/** Axis-aligned integer rectangles, the overlap test of the packer, and an
    area theory over unit cells: rectangles that pairwise do not overlap and lie
    inside a frame cover at most the frame's area. */
module Geometry {

  /** The packer's `PackingRect`: a rectangle used for collision tests. */
  datatype PackingRect = PackingRect(x: int, y: int, width: int, height: int)

  /** Strict-inequality intersection test: rectangles that only touch along an
      edge do not overlap. */
  predicate RectanglesOverlap(a: PackingRect, b: PackingRect) {
    a.x < b.x + b.width &&
    a.x + a.width > b.x &&
    a.y < b.y + b.height &&
    a.y + a.height > b.y
  }

  /** The test does not depend on the order of its arguments. */
  lemma OverlapSymmetric(a: PackingRect, b: PackingRect)
    ensures RectanglesOverlap(a, b) == RectanglesOverlap(b, a)
  {
  }

  /** `inner` lies within `outer`. */
  predicate Within(inner: PackingRect, outer: PackingRect) {
    outer.x <= inner.x && inner.x + inner.width <= outer.x + outer.width &&
    outer.y <= inner.y && inner.y + inner.height <= outer.y + outer.height
  }

  /** Growing both rectangles cannot separate them. */
  lemma OverlapMonotone(a: PackingRect, b: PackingRect, a': PackingRect, b': PackingRect)
    requires Within(a, a') && Within(b, b')
    requires RectanglesOverlap(a, b)
    ensures RectanglesOverlap(a', b')
  {
  }

  /** The unit cells (i, j) covered by a rectangle. */
  function Cells(r: PackingRect): set<(int, int)> {
    set i, j | r.x <= i < r.x + r.width && r.y <= j < r.y + r.height :: (i, j)
  }

  function RowCells(x: int, y: int, width: int): set<(int, int)> {
    set i | x <= i < x + width :: (i, y)
  }

  lemma {:induction false} RowCellCount(x: int, y: int, width: nat)
    ensures |RowCells(x, y, width)| == width
  {
    if width > 0 {
      RowCellCount(x, y, width - 1);
      assert RowCells(x, y, width) == RowCells(x, y, width - 1) + {(x + width - 1, y)};
    } else {
      assert RowCells(x, y, width) == {};
    }
  }

  lemma MulPred(w: int, h: int)
    ensures w * h == w * (h - 1) + w
  {
  }

  /** A rectangle of positive height is its lower part plus its top row of cells. */
  lemma CellsSplitTopRow(r: PackingRect)
    requires r.height > 0
    ensures var top := RowCells(r.x, r.y + r.height - 1, r.width);
      Cells(r) == Cells(r.(height := r.height - 1)) + top &&
      Cells(r.(height := r.height - 1)) !! top
  {
    var lower := r.(height := r.height - 1);
    var top := RowCells(r.x, r.y + r.height - 1, r.width);
    forall c | c in Cells(r) ensures c in Cells(lower) + top {
      if c.1 < r.y + r.height - 1 {
        assert c in Cells(lower);
      } else {
        assert c in top;
      }
    }
  }

  /** A rectangle of non-negative size covers exactly width * height cells. */
  lemma {:induction false} CellCount(r: PackingRect)
    requires r.width >= 0 && r.height >= 0
    ensures |Cells(r)| == r.width * r.height
    decreases r.height
  {
    if r.height == 0 {
      assert Cells(r) == {};
    } else {
      var lower := r.(height := r.height - 1);
      var top := RowCells(r.x, r.y + r.height - 1, r.width);
      CellCount(lower);
      RowCellCount(r.x, r.y + r.height - 1, r.width);
      CellsSplitTopRow(r);
      assert |Cells(r)| == |Cells(lower)| + |top|;
      MulPred(r.width, r.height);
    }
  }

  /** Rectangles that do not overlap share no cell. */
  lemma DisjointCells(a: PackingRect, b: PackingRect)
    requires !RectanglesOverlap(a, b)
    ensures Cells(a) !! Cells(b)
  {
    forall c | c in Cells(a) && c in Cells(b) ensures false {
    }
  }

  lemma WithinCells(inner: PackingRect, outer: PackingRect)
    requires Within(inner, outer)
    ensures Cells(inner) <= Cells(outer)
  {
  }

  function SumArea(rs: seq<PackingRect>): int {
    if rs == [] then 0 else SumArea(rs[..|rs| - 1]) + rs[|rs| - 1].width * rs[|rs| - 1].height
  }

  function UnionCells(rs: seq<PackingRect>): set<(int, int)> {
    if rs == [] then {} else UnionCells(rs[..|rs| - 1]) + Cells(rs[|rs| - 1])
  }

  ghost predicate PairwiseDisjoint(rs: seq<PackingRect>) {
    forall i, j :: 0 <= i < j < |rs| ==> !RectanglesOverlap(rs[i], rs[j])
  }

  lemma {:induction false} UnionCellsWithin(rs: seq<PackingRect>, frame: PackingRect)
    requires forall i :: 0 <= i < |rs| ==> Within(rs[i], frame)
    ensures UnionCells(rs) <= Cells(frame)
  {
    if rs != [] {
      UnionCellsWithin(rs[..|rs| - 1], frame);
      WithinCells(rs[|rs| - 1], frame);
    }
  }

  lemma {:induction false} UnionDisjointFrom(rs: seq<PackingRect>, r: PackingRect)
    requires forall i :: 0 <= i < |rs| ==> !RectanglesOverlap(rs[i], r)
    ensures UnionCells(rs) !! Cells(r)
  {
    if rs != [] {
      UnionDisjointFrom(rs[..|rs| - 1], r);
      DisjointCells(rs[|rs| - 1], r);
    }
  }

  /** Pairwise non-overlapping rectangles cover as many cells as their areas add up to. */
  lemma {:induction false} UnionCellCount(rs: seq<PackingRect>)
    requires forall i :: 0 <= i < |rs| ==> rs[i].width >= 0 && rs[i].height >= 0
    requires PairwiseDisjoint(rs)
    ensures |UnionCells(rs)| == SumArea(rs)
  {
    if rs != [] {
      var init, last := rs[..|rs| - 1], rs[|rs| - 1];
      UnionCellCount(init);
      CellCount(last);
      UnionDisjointFrom(init, last);
    }
  }

  /** Area bound: pairwise non-overlapping rectangles inside a frame have a total
      area no larger than the frame's. */
  lemma PackedAreaBound(rs: seq<PackingRect>, frame: PackingRect)
    requires frame.width >= 0 && frame.height >= 0
    requires forall i :: 0 <= i < |rs| ==> rs[i].width >= 0 && rs[i].height >= 0
    requires forall i :: 0 <= i < |rs| ==> Within(rs[i], frame)
    requires PairwiseDisjoint(rs)
    ensures SumArea(rs) <= frame.width * frame.height
  {
    UnionCellCount(rs);
    UnionCellsWithin(rs, frame);
    CellCount(frame);
    SubsetCardinality(UnionCells(rs), Cells(frame));
  }

  lemma SubsetCardinality<T>(a: set<T>, b: set<T>)
    requires a <= b
    ensures |a| <= |b|
  {
    assert b == a + (b - a);
  }
}
