/** The greedy bottom-left bin packer of PPacker.Core.

    Rectangles are taken largest area first (ties: longest side first, then input
    order).  Each one is padded on every side and placed at the feasible anchor
    (the origin, or right of / above an already placed rectangle) that is lowest,
    then leftmost; when no anchor is feasible a row-major scan of all integer
    positions decides.  A rectangle that does not fit may be retried rotated by 90
    degrees; the first rectangle that fits nowhere aborts the whole batch. */
module BinPacking {
  import opened Common
  import opened Geometry

  /** A rectangle to pack.  `x`, `y`, `width`, `height` and `rotated` are the
      placement; `originalWidth` and `originalHeight` keep the requested size. */
  datatype PackingRectangle = PackingRectangle(
    name: string,
    x: int, y: int,
    width: int, height: int,
    rotated: bool,
    originalWidth: int, originalHeight: int)

  /** A fresh request of the given size, at the origin and not rotated. */
  function NewPackingRectangle(width: int, height: int, name: string): (r: PackingRectangle)
    ensures r.width == r.originalWidth == width && r.height == r.originalHeight == height
    ensures r.name == name && !r.rotated
  {
    PackingRectangle(name, 0, 0, width, height, false, width, height)
  }

  function Area(r: PackingRectangle): int {
    r.width * r.height
  }

  function LongestSide(r: PackingRectangle): int {
    Max(r.width, r.height)
  }

  /** What a successful `Pack` reports. */
  datatype PackingResult = PackingResult(
    packedRectangles: seq<PackingRectangle>,
    actualWidth: int,
    actualHeight: int,
    efficiency: real)

  /** `Pack` either succeeds, returns null because a rectangle fits nowhere, or
      throws because there was nothing to measure. */
  datatype PackOutcome =
    | Packed(result: PackingResult)
    | Unpackable
    | NoRectangles

  /** The immutable configuration of a packer. */
  datatype BinSettings = BinSettings(maxWidth: int, maxHeight: int, padding: int, allowRotation: bool)

  datatype Position = Position(x: int, y: int)

  // ---------------------------------------------------------------------------
  // Packing order: descending area, then descending longest side, stable.
  // ---------------------------------------------------------------------------

  /** `a` may come before `b` in packing order. */
  predicate RanksNoLater(a: PackingRectangle, b: PackingRectangle) {
    Area(a) > Area(b) || (Area(a) == Area(b) && LongestSide(a) >= LongestSide(b))
  }

  ghost predicate RankSorted(s: seq<PackingRectangle>) {
    forall i, j :: 0 <= i < j < |s| ==> RanksNoLater(s[i], s[j])
  }

  /** Inserts `x` in front of the first element it ranks no later than. */
  function InsertByRank(x: PackingRectangle, s: seq<PackingRectangle>): (r: seq<PackingRectangle>)
    requires RankSorted(s)
    ensures multiset(r) == multiset(s) + multiset{x}
    ensures |r| == |s| + 1
    ensures RankSorted(r)
  {
    if s == [] || RanksNoLater(x, s[0]) then
      [x] + s
    else
      var tail := InsertByRank(x, s[1..]);
      assert s == [s[0]] + s[1..];
      HeadRanksFirst(s[0], x, s[1..], tail);
      [s[0]] + tail
  }

  lemma HeadRanksFirst(h: PackingRectangle, x: PackingRectangle, rest: seq<PackingRectangle>, tail: seq<PackingRectangle>)
    requires RankSorted([h] + rest)
    requires !RanksNoLater(x, h)
    requires multiset(tail) == multiset(rest) + multiset{x}
    requires RankSorted(tail)
    ensures RankSorted([h] + tail)
  {
    forall j | 0 <= j < |tail| ensures RanksNoLater(h, tail[j]) {
      assert tail[j] in multiset(tail);
      if tail[j] == x {
        assert RanksNoLater(h, x);
      } else {
        assert tail[j] in multiset(rest);
        var k :| 0 <= k < |rest| && rest[k] == tail[j];
        assert ([h] + rest)[k + 1] == rest[k];
        assert RanksNoLater(([h] + rest)[0], ([h] + rest)[k + 1]);
      }
    }
  }

  /** The order in which `Pack` visits the rectangles: a stable sort by
      descending area, then descending longest side. */
  function SortForPacking(s: seq<PackingRectangle>): (r: seq<PackingRectangle>)
    ensures multiset(r) == multiset(s)
    ensures |r| == |s|
    ensures RankSorted(r)
  {
    if s == [] then [] else 
      assert s == [s[0]] + s[1..];
      InsertByRank(s[0], SortForPacking(s[1..]))
  }

  // ---------------------------------------------------------------------------
  // Placement search, specified.
  // ---------------------------------------------------------------------------

  /** The box an already placed rectangle keeps free: itself grown by the padding
      on every side. */
  function PaddedBox(e: PackingRectangle, padding: int): PackingRect {
    PackingRect(e.x - padding, e.y - padding, e.width + 2 * padding, e.height + 2 * padding)
  }

  /** A footprint of the given size may go at `q`: it does not pass the right or
      top edge of the bin and overlaps no padded box of a placed rectangle. */
  ghost predicate Feasible(bin: BinSettings, placed: seq<PackingRectangle>, q: Position, width: int, height: int) {
    q.x + width <= bin.maxWidth && q.y + height <= bin.maxHeight &&
    ClearOf(PackingRect(q.x, q.y, width, height), placed, bin.padding)
  }

  /** `r` overlaps the padded box of none of `placed`. */
  predicate ClearOf(r: PackingRect, placed: seq<PackingRectangle>, padding: int) {
    placed == [] ||
    (ClearOf(r, placed[..|placed| - 1], padding) && !RectanglesOverlap(r, PaddedBox(placed[|placed| - 1], padding)))
  }

  lemma {:induction false} ClearOfEach(r: PackingRect, placed: seq<PackingRectangle>, padding: int)
    ensures ClearOf(r, placed, padding) <==>
      forall i :: 0 <= i < |placed| ==> !RectanglesOverlap(r, PaddedBox(placed[i], padding))
  {
    if placed != [] {
      ClearOfEach(r, placed[..|placed| - 1], padding);
    }
  }

  /** Bottom-most first, then left-most. */
  predicate Precedes(a: Position, b: Position) {
    a.y < b.y || (a.y == b.y && a.x < b.x)
  }

  const Origin := Position(0, 0)

  /** The initial best position of the search, which every real candidate must beat. */
  const Sentinel := Position(INT32_MAX, INT32_MAX)

  function RightOf(e: PackingRectangle, padding: int): Position {
    Position(e.x + e.width + padding, e.y)
  }

  function AboveOf(e: PackingRectangle, padding: int): Position {
    Position(e.x, e.y + e.height + padding)
  }

  ghost predicate IsAnchor(bin: BinSettings, placed: seq<PackingRectangle>, q: Position) {
    q == Origin ||
    exists i :: 0 <= i < |placed| && (q == RightOf(placed[i], bin.padding) || q == AboveOf(placed[i], bin.padding))
  }

  /** Candidate `c` does not beat `best`: it is infeasible or does not precede it. */
  ghost predicate NotBetter(bin: BinSettings, placed: seq<PackingRectangle>, width: int, height: int, c: Position, best: Position) {
    Feasible(bin, placed, c, width, height) ==> !Precedes(c, best)
  }

  /** No feasible anchor precedes `best`. */
  ghost predicate NoAnchorBefore(bin: BinSettings, placed: seq<PackingRectangle>, width: int, height: int, best: Position) {
    NotBetter(bin, placed, width, height, Origin, best) &&
    AnchorsNotBetter(bin, placed, width, height, |placed|, best)
  }

  /** Neither anchor of the first `n` placed rectangles beats `best`. */
  ghost predicate AnchorsNotBetter(bin: BinSettings, placed: seq<PackingRectangle>, width: int, height: int, n: int, best: Position)
    requires n <= |placed|
  {
    forall i :: 0 <= i < n ==>
      NotBetter(bin, placed, width, height, RightOf(placed[i], bin.padding), best) &&
      NotBetter(bin, placed, width, height, AboveOf(placed[i], bin.padding), best)
  }

  lemma AnchorsAreAnchors(bin: BinSettings, placed: seq<PackingRectangle>, i: int)
    requires 0 <= i < |placed|
    ensures IsAnchor(bin, placed, RightOf(placed[i], bin.padding))
    ensures IsAnchor(bin, placed, AboveOf(placed[i], bin.padding))
  {
  }

  /** `a` is `b` or precedes it. */
  predicate NoLaterThan(a: Position, b: Position) {
    a == b || Precedes(a, b)
  }

  lemma NotBetterMonotone(bin: BinSettings, placed: seq<PackingRectangle>, width: int, height: int, c: Position, best: Position, best': Position)
    requires NotBetter(bin, placed, width, height, c, best)
    requires NoLaterThan(best', best)
    ensures NotBetter(bin, placed, width, height, c, best')
  {
  }

  /** Moving the best position earlier keeps every anchor already rejected rejected. */
  lemma AnchorsNotBetterMonotone(bin: BinSettings, placed: seq<PackingRectangle>, width: int, height: int, n: int, best: Position, best': Position)
    requires n <= |placed|
    requires AnchorsNotBetter(bin, placed, width, height, n, best)
    requires NoLaterThan(best', best)
    ensures AnchorsNotBetter(bin, placed, width, height, n, best')
  {
    forall i | 0 <= i < n
      ensures NotBetter(bin, placed, width, height, RightOf(placed[i], bin.padding), best')
      ensures NotBetter(bin, placed, width, height, AboveOf(placed[i], bin.padding), best')
    {
      NotBetterMonotone(bin, placed, width, height, RightOf(placed[i], bin.padding), best, best');
      NotBetterMonotone(bin, placed, width, height, AboveOf(placed[i], bin.padding), best, best');
    }
  }

  /** No feasible position with non-negative coordinates precedes `best`. */
  ghost predicate NoPositionBefore(bin: BinSettings, placed: seq<PackingRectangle>, width: int, height: int, best: Position) {
    forall x: int, y: int {:trigger Feasible(bin, placed, Position(x, y), width, height)} ::
      0 <= x && 0 <= y && Precedes(Position(x, y), best) ==> !Feasible(bin, placed, Position(x, y), width, height)
  }

  /** The answers `FindBestPosition` may give for a footprint of the given size.
      `Some(q)`: q is the lowest-then-leftmost feasible anchor, or, when no anchor
      is feasible, the first feasible position in row-major order.  `None`: the
      footprint is larger than the bin, or no anchor and no position with
      non-negative coordinates is feasible. */
  ghost predicate SearchOutcome(bin: BinSettings, placed: seq<PackingRectangle>, width: int, height: int, r: Option<Position>) {
    match r
    case None =>
      width > bin.maxWidth || height > bin.maxHeight ||
      (NoAnchorBefore(bin, placed, width, height, Sentinel) &&
       forall x: int, y: int {:trigger Feasible(bin, placed, Position(x, y), width, height)} ::
         0 <= x && 0 <= y ==> !Feasible(bin, placed, Position(x, y), width, height))
    case Some(q) =>
      width <= bin.maxWidth && height <= bin.maxHeight &&
      Feasible(bin, placed, q, width, height) &&
      ((IsAnchor(bin, placed, q) && Precedes(q, Sentinel) && NoAnchorBefore(bin, placed, width, height, q)) ||
       (NoAnchorBefore(bin, placed, width, height, Sentinel) && 0 <= q.x && 0 <= q.y &&
        NoPositionBefore(bin, placed, width, height, q)))
  }

  /** `out` is how `TryPackRectangle` places `req` next to `placed`: unrotated at
      the position found for its padded footprint, or else (rotation allowed, not
      a square, unrotated search failed) rotated at the position found for the
      rotated footprint, with width and height swapped. */
  ghost predicate PlacedBy(bin: BinSettings, placed: seq<PackingRectangle>, req: PackingRectangle, out: PackingRectangle) {
    var p := bin.padding;
    var home := Position(out.x - p, out.y - p);
    out.name == req.name &&
    out.originalWidth == req.originalWidth && out.originalHeight == req.originalHeight &&
    if !out.rotated then
      out.width == req.width && out.height == req.height &&
      SearchOutcome(bin, placed, req.width + 2 * p, req.height + 2 * p, Some(home))
    else
      bin.allowRotation && req.width != req.height &&
      out.width == req.height && out.height == req.width &&
      SearchOutcome(bin, placed, req.width + 2 * p, req.height + 2 * p, None) &&
      SearchOutcome(bin, placed, req.height + 2 * p, req.width + 2 * p, Some(home))
  }

  /** `req` can be placed neither unrotated nor, where allowed, rotated. */
  ghost predicate FitsNowhere(bin: BinSettings, placed: seq<PackingRectangle>, req: PackingRectangle) {
    var p := bin.padding;
    SearchOutcome(bin, placed, req.width + 2 * p, req.height + 2 * p, None) &&
    (bin.allowRotation && req.width != req.height ==>
      SearchOutcome(bin, placed, req.height + 2 * p, req.width + 2 * p, None))
  }

  /** `placements` is the result of placing `requests` one after the other,
      starting from an empty bin. */
  ghost predicate GreedyTrace(bin: BinSettings, requests: seq<PackingRectangle>, placements: seq<PackingRectangle>) {
    |requests| == |placements| &&
    (placements == [] ||
     var n := |placements| - 1;
     GreedyTrace(bin, requests[..n], placements[..n]) &&
     PlacedBy(bin, placements[..n], requests[n], placements[n]))
  }

  /** One more successful placement extends a trace. */
  lemma TraceExtend(bin: BinSettings, requests: seq<PackingRectangle>, placements: seq<PackingRectangle>, k: nat)
    requires k < |requests| && |placements| == k + 1
    requires GreedyTrace(bin, requests[..k], placements[..k])
    requires PlacedBy(bin, placements[..k], requests[k], placements[k])
    ensures GreedyTrace(bin, requests[..k + 1], placements)
  {
    assert requests[..k + 1][..k] == requests[..k];
    assert placements[..k] == placements[..k];
    assert placements[..k + 1] == placements;
  }

  // ---------------------------------------------------------------------------
  // Result summary.
  // ---------------------------------------------------------------------------

  /** The largest right edge of the placements. */
  function MaxRight(placed: seq<PackingRectangle>): (r: int)
    requires |placed| > 0
    ensures forall i :: 0 <= i < |placed| ==> placed[i].x + placed[i].width <= r
    ensures exists i :: 0 <= i < |placed| && r == placed[i].x + placed[i].width
  {
    var last := placed[|placed| - 1];
    if |placed| == 1 then last.x + last.width
    else Max(MaxRight(placed[..|placed| - 1]), last.x + last.width)
  }

  /** The largest top edge of the placements. */
  function MaxTop(placed: seq<PackingRectangle>): (r: int)
    requires |placed| > 0
    ensures forall i :: 0 <= i < |placed| ==> placed[i].y + placed[i].height <= r
    ensures exists i :: 0 <= i < |placed| && r == placed[i].y + placed[i].height
  {
    var last := placed[|placed| - 1];
    if |placed| == 1 then last.y + last.height
    else Max(MaxTop(placed[..|placed| - 1]), last.y + last.height)
  }

  function TotalArea(placed: seq<PackingRectangle>): int {
    if placed == [] then 0 else TotalArea(placed[..|placed| - 1]) + Area(placed[|placed| - 1])
  }

  /** Used area over the area of the used bounding box, 0 for an empty box. */
  function CalculateEfficiency(placed: seq<PackingRectangle>, usedWidth: int, usedHeight: int): real {
    var totalArea := usedWidth * usedHeight;
    if totalArea > 0 then TotalArea(placed) as real / totalArea as real else 0.0
  }

  /** What a call of `Pack` on `rectangles` leaves behind: `placed` is a greedy
      trace of a prefix of the packing order; `Packed` means the whole order was
      placed and the result summarises it, `Unpackable` that the next rectangle
      fits nowhere, `NoRectangles` that the input was empty. */
  ghost predicate PackReport(bin: BinSettings, rectangles: seq<PackingRectangle>, placed: seq<PackingRectangle>, outcome: PackOutcome) {
    var order := SortForPacking(rectangles);
    |placed| <= |order| &&
    GreedyTrace(bin, order[..|placed|], placed) &&
    match outcome
    case Packed(result) =>
      rectangles != [] && |placed| == |order| &&
      result.packedRectangles == placed &&
      result.actualWidth == MaxRight(placed) &&
      result.actualHeight == MaxTop(placed) &&
      result.efficiency == CalculateEfficiency(placed, result.actualWidth, result.actualHeight)
    case Unpackable =>
      |placed| < |order| && FitsNowhere(bin, placed, order[|placed|])
    case NoRectangles =>
      rectangles == []
  }

  // ---------------------------------------------------------------------------
  // The packer.
  // ---------------------------------------------------------------------------

  class BinPacker {
    const maxWidth: int
    const maxHeight: int
    const padding: int
    const allowRotation: bool
    /** The rectangles placed so far, in placement order. */
    var packedRectangles: seq<PackingRectangle>

    function Settings(): BinSettings {
      BinSettings(maxWidth, maxHeight, padding, allowRotation)
    }

    constructor (maxWidth: int, maxHeight: int, padding: int := 1, allowRotation: bool := false)
      ensures Settings() == BinSettings(maxWidth, maxHeight, padding, allowRotation)
      ensures packedRectangles == []
    {
      this.maxWidth := maxWidth;
      this.maxHeight := maxHeight;
      this.padding := padding;
      this.allowRotation := allowRotation;
      packedRectangles := [];
    }

    /** Packs all rectangles or none.  The placement list is cleared first, so
        the outcome depends only on the input. */
    method Pack(rectangles: seq<PackingRectangle>) returns (outcome: PackOutcome)
      modifies this
      ensures PackReport(Settings(), rectangles, packedRectangles, outcome)
    {
      packedRectangles := [];
      var sortedRectangles := SortForPacking(rectangles);
      var k := 0;
      while k < |sortedRectangles|
        invariant 0 <= k <= |sortedRectangles|
        invariant |packedRectangles| == k
        invariant GreedyTrace(Settings(), sortedRectangles[..k], packedRectangles)
      {
        var success := TryPackRectangle(sortedRectangles[k]);
        if !success {
          return Unpackable;
        }
        TraceExtend(Settings(), sortedRectangles, packedRectangles, k);
        k := k + 1;
      }
      assert sortedRectangles[..k] == sortedRectangles;
      if |packedRectangles| == 0 {
        // `Max` over an empty list throws InvalidOperationException.
        return NoRectangles;
      }
      var actualWidth := MaxRight(packedRectangles);
      var actualHeight := MaxTop(packedRectangles);
      var efficiency := CalculateEfficiency(packedRectangles, actualWidth, actualHeight);
      return Packed(PackingResult(packedRectangles, actualWidth, actualHeight, efficiency));
    }

    /** Places `rect` unrotated if possible, else rotated if allowed, and appends
        the placement; on failure nothing changes. */
    method TryPackRectangle(rect: PackingRectangle) returns (success: bool)
      modifies this
      ensures success ==>
        |packedRectangles| == |old(packedRectangles)| + 1 &&
        packedRectangles[..|old(packedRectangles)|] == old(packedRectangles) &&
        PlacedBy(Settings(), old(packedRectangles), rect, packedRectangles[|old(packedRectangles)|])
      ensures !success ==>
        packedRectangles == old(packedRectangles) && FitsNowhere(Settings(), packedRectangles, rect)
    {
      var position := FindBestPosition(rect.width + padding * 2, rect.height + padding * 2);
      if position.Some? {
        var placed := rect.(x := position.value.x + padding, y := position.value.y + padding, rotated := false);
        assert Position(placed.x - padding, placed.y - padding) == position.value;
        packedRectangles := packedRectangles + [placed];
        return true;
      }
      if allowRotation && rect.width != rect.height {
        var rotatedPosition := FindBestPosition(rect.height + padding * 2, rect.width + padding * 2);
        if rotatedPosition.Some? {
          var placed := rect.(x := rotatedPosition.value.x + padding, y := rotatedPosition.value.y + padding,
                              width := rect.height, height := rect.width, rotated := true);
          assert Position(placed.x - padding, placed.y - padding) == rotatedPosition.value;
          packedRectangles := packedRectangles + [placed];
          return true;
        }
      }
      return false;
    }

    /** The lowest-then-leftmost feasible anchor for a footprint of the given
        size, or else the first feasible position of a row-major scan. */
    method FindBestPosition(width: int, height: int) returns (position: Option<Position>)
      ensures SearchOutcome(Settings(), packedRectangles, width, height, position)
    {
      if width > maxWidth || height > maxHeight {
        return None;
      }
      var bin, placed := Settings(), packedRectangles;
      var bestX, bestY := INT32_MAX, INT32_MAX;
      var found := false;

      var i := 0;
      while i < |placed|
        invariant 0 <= i <= |placed|
        invariant found ==>
          Feasible(bin, placed, Position(bestX, bestY), width, height) &&
          IsAnchor(bin, placed, Position(bestX, bestY)) && Precedes(Position(bestX, bestY), Sentinel)
        invariant !found ==> bestX == INT32_MAX && bestY == INT32_MAX
        invariant AnchorsNotBetter(bin, placed, width, height, i, Position(bestX, bestY))
      {
        ghost var before := Position(bestX, bestY);
        var existing := placed[i];
        AnchorsAreAnchors(bin, placed, i);
        bestX, bestY, found := ConsiderCandidate(existing.x + existing.width + padding, existing.y, width, height, bestX, bestY, found);
        ghost var middle := Position(bestX, bestY);
        bestX, bestY, found := ConsiderCandidate(existing.x, existing.y + existing.height + padding, width, height, bestX, bestY, found);
        ghost var after := Position(bestX, bestY);
        NotBetterMonotone(bin, placed, width, height, RightOf(existing, padding), middle, after);
        AnchorsNotBetterMonotone(bin, placed, width, height, i, before, after);
        i := i + 1;
      }

      ghost var beforeOrigin := Position(bestX, bestY);
      bestX, bestY, found := ConsiderCandidate(0, 0, width, height, bestX, bestY, found);
      AnchorsNotBetterMonotone(bin, placed, width, height, |placed|, beforeOrigin, Position(bestX, bestY));

      if found {
        position := Some(Position(bestX, bestY));
      } else {
        // No anchor works: fall back to a row-major scan.
        position := ScanForPosition(width, height);
      }
    }

    /** The first feasible position of a row-major scan over every position
        whose footprint could lie inside the bin. */
    method ScanForPosition(width: int, height: int) returns (position: Option<Position>)
      requires width <= maxWidth && height <= maxHeight
      ensures position.Some? ==>
        var q := position.value;
        0 <= q.x && 0 <= q.y && Feasible(Settings(), packedRectangles, q, width, height) &&
        NoPositionBefore(Settings(), packedRectangles, width, height, q)
      ensures position.None? ==>
        forall x: int, y: int {:trigger Feasible(Settings(), packedRectangles, Position(x, y), width, height)} ::
          0 <= x && 0 <= y ==> !Feasible(Settings(), packedRectangles, Position(x, y), width, height)
    {
      var bin, placed := Settings(), packedRectangles;
      var y := 0;
      while y <= maxHeight - height
        invariant 0 <= y <= maxHeight - height + 1
        invariant forall x', y' {:trigger Feasible(bin, placed, Position(x', y'), width, height)} ::
          0 <= x' && 0 <= y' < y ==> !Feasible(bin, placed, Position(x', y'), width, height)
        decreases maxHeight - height - y
      {
        var x := 0;
        while x <= maxWidth - width
          invariant 0 <= x <= maxWidth - width + 1
          invariant forall x' {:trigger Feasible(bin, placed, Position(x', y), width, height)} ::
            0 <= x' < x ==> !Feasible(bin, placed, Position(x', y), width, height)
          decreases maxWidth - width - x
        {
          var fits := CanPlaceAt(x, y, width, height);
          if fits {
            return Some(Position(x, y));
          }
          x := x + 1;
        }
        y := y + 1;
      }
      return None;
    }

    /** Takes the candidate position when it fits and lies below, or level
        with and left of, the best position so far. */
    method ConsiderCandidate(candidateX: int, candidateY: int, width: int, height: int,
                             bestX: int, bestY: int, found: bool)
      returns (newX: int, newY: int, nowFound: bool)
      requires IsAnchor(Settings(), packedRectangles, Position(candidateX, candidateY))
      requires found ==>
        Feasible(Settings(), packedRectangles, Position(bestX, bestY), width, height) &&
        IsAnchor(Settings(), packedRectangles, Position(bestX, bestY)) && Precedes(Position(bestX, bestY), Sentinel)
      requires !found ==> bestX == INT32_MAX && bestY == INT32_MAX
      ensures nowFound ==>
        Feasible(Settings(), packedRectangles, Position(newX, newY), width, height) &&
        IsAnchor(Settings(), packedRectangles, Position(newX, newY)) && Precedes(Position(newX, newY), Sentinel)
      ensures !nowFound ==> newX == INT32_MAX && newY == INT32_MAX
      ensures NotBetter(Settings(), packedRectangles, width, height, Position(candidateX, candidateY), Position(newX, newY))
      ensures NoLaterThan(Position(newX, newY), Position(bestX, bestY))
    {
      var fits := CanPlaceAt(candidateX, candidateY, width, height);
      if fits && (candidateY < bestY || (candidateY == bestY && candidateX < bestX)) {
        return candidateX, candidateY, true;
      }
      return bestX, bestY, found;
    }

    /** The footprint at (x, y) stays inside the bin's right and top edges and
        misses every padded placement. */
    method CanPlaceAt(x: int, y: int, width: int, height: int) returns (fits: bool)
      ensures fits == Feasible(Settings(), packedRectangles, Position(x, y), width, height)
    {
      if x + width > maxWidth || y + height > maxHeight {
        return false;
      }
      var newRect := PackingRect(x, y, width, height);
      var i := 0;
      while i < |packedRectangles|
        invariant 0 <= i <= |packedRectangles|
        invariant ClearOf(newRect, packedRectangles[..i], padding)
      {
        assert packedRectangles[..i + 1][..i] == packedRectangles[..i];
        var existingRect := PaddedBox(packedRectangles[i], padding);
        if RectanglesOverlap(newRect, existingRect) {
          ClearOfEach(newRect, packedRectangles, padding);
          return false;
        }
        i := i + 1;
      }
      assert packedRectangles[..i] == packedRectangles;
      return true;
    }
  }
}
