/** What the greedy packer guarantees: the search has one answer and misses no
    free position, and every trace of placements stays inside the bin, keeps
    padded boxes apart, preserves areas and names, follows the rotation rule, is
    determined by its input, and has an efficiency in (0, 1]. */
module BinPackingProperties {
  import opened Common
  import opened Geometry
  import opened BinPacking

  // ---------------------------------------------------------------------------
  // The search.
  // ---------------------------------------------------------------------------

  /** An anchor never beats a best position that no anchor precedes. */
  lemma AnchorNotBetter(bin: BinSettings, placed: seq<PackingRectangle>, width: int, height: int, q: Position, best: Position)
    requires IsAnchor(bin, placed, q)
    requires NoAnchorBefore(bin, placed, width, height, best)
    ensures NotBetter(bin, placed, width, height, q, best)
  {
    if q != Origin {
      var i :| 0 <= i < |placed| && (q == RightOf(placed[i], bin.padding) || q == AboveOf(placed[i], bin.padding));
      assert NotBetter(bin, placed, width, height, RightOf(placed[i], bin.padding), best);
      assert NotBetter(bin, placed, width, height, AboveOf(placed[i], bin.padding), best);
    }
  }

  /** A search that finds a position cannot also be a search that finds none. */
  lemma SomeExcludesNone(bin: BinSettings, placed: seq<PackingRectangle>, width: int, height: int, q: Position)
    requires SearchOutcome(bin, placed, width, height, Some(q))
    ensures !SearchOutcome(bin, placed, width, height, None)
  {
    if SearchOutcome(bin, placed, width, height, None) {
      if IsAnchor(bin, placed, q) && Precedes(q, Sentinel) && NoAnchorBefore(bin, placed, width, height, q) {
        AnchorNotBetter(bin, placed, width, height, q, Sentinel);
      }
    }
  }

  /** Determinism of `FindBestPosition`: the search rule admits exactly one answer. */
  lemma SearchOutcomeUnique(bin: BinSettings, placed: seq<PackingRectangle>, width: int, height: int, r1: Option<Position>, r2: Option<Position>)
    requires SearchOutcome(bin, placed, width, height, r1)
    requires SearchOutcome(bin, placed, width, height, r2)
    ensures r1 == r2
  {
    match (r1, r2)
    case (None, None) =>
    case (Some(q1), None) =>
      SomeExcludesNone(bin, placed, width, height, q1);
    case (None, Some(q2)) =>
      SomeExcludesNone(bin, placed, width, height, q2);
    case (Some(q1), Some(q2)) =>
      var anchor1 := IsAnchor(bin, placed, q1) && Precedes(q1, Sentinel) && NoAnchorBefore(bin, placed, width, height, q1);
      var anchor2 := IsAnchor(bin, placed, q2) && Precedes(q2, Sentinel) && NoAnchorBefore(bin, placed, width, height, q2);
      if anchor1 && anchor2 {
        AnchorNotBetter(bin, placed, width, height, q1, q2);
        AnchorNotBetter(bin, placed, width, height, q2, q1);
      } else if anchor1 {
        AnchorNotBetter(bin, placed, width, height, q1, Sentinel);
      } else if anchor2 {
        AnchorNotBetter(bin, placed, width, height, q2, Sentinel);
      } else {
        assert Feasible(bin, placed, Position(q1.x, q1.y), width, height);
        assert Feasible(bin, placed, Position(q2.x, q2.y), width, height);
      }
  }

  /** Completeness: the search reports no position only when no position with
      non-negative coordinates can take the footprint. */
  lemma SearchNoneMeansNoRoom(bin: BinSettings, placed: seq<PackingRectangle>, width: int, height: int, x: int, y: int)
    requires SearchOutcome(bin, placed, width, height, None)
    requires 0 <= x && 0 <= y
    ensures !Feasible(bin, placed, Position(x, y), width, height)
  {
  }

  /** Conversely, when some position with non-negative coordinates is free the
      search finds a position; when that free position is also an anchor ahead
      of the sentinel, the search answers with an anchor no later than it. */
  lemma SearchFindsRoom(bin: BinSettings, placed: seq<PackingRectangle>, width: int, height: int, r: Option<Position>, q: Position)
    requires SearchOutcome(bin, placed, width, height, r)
    requires 0 <= q.x && 0 <= q.y && Feasible(bin, placed, q, width, height)
    ensures r.Some?
    ensures IsAnchor(bin, placed, q) && Precedes(q, Sentinel) ==>
      IsAnchor(bin, placed, r.value) && !Precedes(q, r.value)
  {
    if r.Some? && IsAnchor(bin, placed, q) && Precedes(q, Sentinel) {
      var found := r.value;
      if IsAnchor(bin, placed, found) && Precedes(found, Sentinel) && NoAnchorBefore(bin, placed, width, height, found) {
        AnchorNotBetter(bin, placed, width, height, q, found);
      } else {
        AnchorNotBetter(bin, placed, width, height, q, Sentinel);
      }
    }
  }

  /** A rectangle that fits nowhere has no room at any non-negative position, in
      any orientation the packer tries. */
  lemma FitsNowhereMeansNoRoom(bin: BinSettings, placed: seq<PackingRectangle>, req: PackingRectangle, x: int, y: int)
    requires FitsNowhere(bin, placed, req)
    requires 0 <= x && 0 <= y
    ensures !Feasible(bin, placed, Position(x, y), req.width + 2 * bin.padding, req.height + 2 * bin.padding)
    ensures bin.allowRotation && req.width != req.height ==>
      !Feasible(bin, placed, Position(x, y), req.height + 2 * bin.padding, req.width + 2 * bin.padding)
  {
  }

  // ---------------------------------------------------------------------------
  // Traces: access.
  // ---------------------------------------------------------------------------

  lemma {:induction false} TracePrefix(bin: BinSettings, requests: seq<PackingRectangle>, placements: seq<PackingRectangle>, n: nat)
    requires GreedyTrace(bin, requests, placements)
    requires n <= |placements|
    ensures GreedyTrace(bin, requests[..n], placements[..n])
    decreases |placements| - n
  {
    if n == |placements| {
      assert requests[..n] == requests;
      assert placements[..n] == placements;
    } else {
      var m := |placements| - 1;
      TracePrefix(bin, requests[..m], placements[..m], n);
      assert requests[..m][..n] == requests[..n];
      assert placements[..m][..n] == placements[..n];
    }
  }

  /** Step k of a trace placed request k next to the first k placements. */
  lemma TraceStep(bin: BinSettings, requests: seq<PackingRectangle>, placements: seq<PackingRectangle>, k: nat)
    requires GreedyTrace(bin, requests, placements)
    requires k < |placements|
    ensures PlacedBy(bin, placements[..k], requests[k], placements[k])
  {
    TracePrefix(bin, requests, placements, k + 1);
    assert requests[..k + 1][k] == requests[k];
    assert placements[..k + 1][..k] == placements[..k];
    assert placements[..k + 1][k] == placements[k];
  }

  // ---------------------------------------------------------------------------
  // Determinism.
  // ---------------------------------------------------------------------------

  /** The facts `PlacedBy` records about one placement, with the padded
      footprint and home position spelled out. */
  lemma PlacedByFacts(bin: BinSettings, placed: seq<PackingRectangle>, req: PackingRectangle, out: PackingRectangle,
                      w: int, h: int, home: Position)
    requires PlacedBy(bin, placed, req, out)
    requires w == req.width + 2 * bin.padding && h == req.height + 2 * bin.padding
    requires home == Position(out.x - bin.padding, out.y - bin.padding)
    ensures out.name == req.name && out.originalWidth == req.originalWidth && out.originalHeight == req.originalHeight
    ensures !out.rotated ==> out.width == req.width && out.height == req.height && SearchOutcome(bin, placed, w, h, Some(home))
    ensures out.rotated ==>
      out.width == req.height && out.height == req.width &&
      SearchOutcome(bin, placed, w, h, None) && SearchOutcome(bin, placed, h, w, Some(home))
  {
  }

  lemma PlacedByUnique(bin: BinSettings, placed: seq<PackingRectangle>, req: PackingRectangle, out1: PackingRectangle, out2: PackingRectangle)
    requires PlacedBy(bin, placed, req, out1)
    requires PlacedBy(bin, placed, req, out2)
    ensures out1 == out2
  {
    var p := bin.padding;
    var home1 := Position(out1.x - p, out1.y - p);
    var home2 := Position(out2.x - p, out2.y - p);
    var w, h := req.width + 2 * p, req.height + 2 * p;
    PlacedByFacts(bin, placed, req, out1, w, h, home1);
    PlacedByFacts(bin, placed, req, out2, w, h, home2);
    if !out1.rotated && !out2.rotated {
      SearchOutcomeUnique(bin, placed, w, h, Some(home1), Some(home2));
    } else if !out1.rotated {
      SearchOutcomeUnique(bin, placed, w, h, Some(home1), None);
    } else if !out2.rotated {
      SearchOutcomeUnique(bin, placed, w, h, Some(home2), None);
    } else {
      SearchOutcomeUnique(bin, placed, h, w, Some(home1), Some(home2));
    }
  }

  /** The placements of a batch are determined by the requests and the settings. */
  lemma {:induction false} TraceUnique(bin: BinSettings, requests: seq<PackingRectangle>, p1: seq<PackingRectangle>, p2: seq<PackingRectangle>)
    requires GreedyTrace(bin, requests, p1)
    requires GreedyTrace(bin, requests, p2)
    ensures p1 == p2
  {
    if p1 != [] {
      var m := |p1| - 1;
      TraceUnique(bin, requests[..m], p1[..m], p2[..m]);
      var placed := p1[..m];
      assert p2[..m] == placed;
      PlacedByUnique(bin, placed, requests[m], p1[m], p2[m]);
      assert p1 == p1[..m] + [p1[m]];
      assert p2 == p2[..m] + [p2[m]];
    }
  }

  // ---------------------------------------------------------------------------
  // Containment.
  // ---------------------------------------------------------------------------

  /** A placement keeps at least the padding from every edge of the bin. */
  ghost predicate InsideBin(bin: BinSettings, r: PackingRectangle) {
    bin.padding <= r.x && bin.padding <= r.y &&
    r.x + r.width + bin.padding <= bin.maxWidth &&
    r.y + r.height + bin.padding <= bin.maxHeight &&
    0 <= r.width && 0 <= r.height
  }

  lemma AnchorNonNegative(bin: BinSettings, placed: seq<PackingRectangle>, q: Position)
    requires 0 <= bin.padding
    requires forall i :: 0 <= i < |placed| ==> InsideBin(bin, placed[i])
    requires IsAnchor(bin, placed, q)
    ensures 0 <= q.x && 0 <= q.y
  {
    if q != Origin {
      var i :| 0 <= i < |placed| && (q == RightOf(placed[i], bin.padding) || q == AboveOf(placed[i], bin.padding));
      assert InsideBin(bin, placed[i]);
    }
  }

  lemma PlacementInside(bin: BinSettings, placed: seq<PackingRectangle>, req: PackingRectangle, out: PackingRectangle)
    requires 0 <= bin.padding && 0 <= req.width && 0 <= req.height
    requires forall i :: 0 <= i < |placed| ==> InsideBin(bin, placed[i])
    requires PlacedBy(bin, placed, req, out)
    ensures InsideBin(bin, out)
  {
    var p := bin.padding;
    var home := Position(out.x - p, out.y - p);
    var w, h := out.width + 2 * p, out.height + 2 * p;
    assert SearchOutcome(bin, placed, w, h, Some(home));
    if IsAnchor(bin, placed, home) {
      AnchorNonNegative(bin, placed, home);
    }
  }

  /** Containment: with non-negative padding and sizes, every placement keeps the
      padding from the left, bottom, right and top edges of the bin. */
  lemma {:induction false} TraceInsideBin(bin: BinSettings, requests: seq<PackingRectangle>, placements: seq<PackingRectangle>)
    requires GreedyTrace(bin, requests, placements)
    requires 0 <= bin.padding
    requires forall i :: 0 <= i < |requests| ==> 0 <= requests[i].width && 0 <= requests[i].height
    ensures forall i :: 0 <= i < |placements| ==> InsideBin(bin, placements[i])
  {
    if placements != [] {
      var m := |placements| - 1;
      var prefix := placements[..m];
      assert forall i :: 0 <= i < m ==> requests[..m][i] == requests[i];
      TraceInsideBin(bin, requests[..m], prefix);
      PlacementInside(bin, prefix, requests[m], placements[m]);
      forall i | 0 <= i < |placements| ensures InsideBin(bin, placements[i]) {
        if i < m {
          assert prefix[i] == placements[i];
        }
      }
    }
  }

  // ---------------------------------------------------------------------------
  // Non-overlap.
  // ---------------------------------------------------------------------------

  /** A placement's padded box is exactly the footprint the search placed. */
  lemma PlacementClear(bin: BinSettings, placed: seq<PackingRectangle>, req: PackingRectangle, out: PackingRectangle)
    requires PlacedBy(bin, placed, req, out)
    ensures forall i :: 0 <= i < |placed| ==>
      !RectanglesOverlap(PaddedBox(placed[i], bin.padding), PaddedBox(out, bin.padding))
  {
    var p := bin.padding;
    var home := Position(out.x - p, out.y - p);
    var w, h := out.width + 2 * p, out.height + 2 * p;
    assert SearchOutcome(bin, placed, w, h, Some(home));
    assert PackingRect(home.x, home.y, w, h) == PaddedBox(out, p);
    ClearOfEach(PaddedBox(out, p), placed, p);
  }

  /** Each placement of a trace keeps clear of the padded boxes of those before it. */
  lemma TraceClearOfEarlier(bin: BinSettings, requests: seq<PackingRectangle>, placements: seq<PackingRectangle>, k: nat)
    requires GreedyTrace(bin, requests, placements)
    requires k < |placements|
    ensures forall i :: 0 <= i < k ==>
      !RectanglesOverlap(PaddedBox(placements[i], bin.padding), PaddedBox(placements[k], bin.padding))
  {
    TraceStep(bin, requests, placements, k);
    PlacementClear(bin, placements[..k], requests[k], placements[k]);
    assert forall i :: 0 <= i < k ==> placements[..k][i] == placements[i];
  }

  lemma ClearPairs(padding: int, placements: seq<PackingRectangle>)
    requires forall i, k :: 0 <= i < k < |placements| ==>
      !RectanglesOverlap(PaddedBox(placements[i], padding), PaddedBox(placements[k], padding))
    ensures forall i, j :: 0 <= i < |placements| && 0 <= j < |placements| && i != j ==>
      !RectanglesOverlap(PaddedBox(placements[i], padding), PaddedBox(placements[j], padding))
  {
    forall i, j | 0 <= i < |placements| && 0 <= j < |placements| && i != j
      ensures !RectanglesOverlap(PaddedBox(placements[i], padding), PaddedBox(placements[j], padding))
    {
      if j < i {
        OverlapSymmetric(PaddedBox(placements[j], padding), PaddedBox(placements[i], padding));
      }
    }
  }

  /** Non-overlap: the padded boxes of any two placements of a trace do not
      intersect. */
  lemma TraceNoOverlap(bin: BinSettings, requests: seq<PackingRectangle>, placements: seq<PackingRectangle>)
    requires GreedyTrace(bin, requests, placements)
    ensures forall i, j :: 0 <= i < |placements| && 0 <= j < |placements| && i != j ==>
      !RectanglesOverlap(PaddedBox(placements[i], bin.padding), PaddedBox(placements[j], bin.padding))
  {
    forall i, k | 0 <= i < k < |placements|
      ensures !RectanglesOverlap(PaddedBox(placements[i], bin.padding), PaddedBox(placements[k], bin.padding))
    {
      TraceClearOfEarlier(bin, requests, placements, k);
    }
    ClearPairs(bin.padding, placements);
  }

  // ---------------------------------------------------------------------------
  // Names, areas and rotation.
  // ---------------------------------------------------------------------------

  /** Rotation rule: a placement is rotated only when rotation is allowed, the
      request is not square and the unrotated search failed, and then width and
      height are swapped; otherwise the size is kept.  Names and original sizes
      are carried over. */
  lemma TraceRotationRule(bin: BinSettings, requests: seq<PackingRectangle>, placements: seq<PackingRectangle>, k: nat)
    requires GreedyTrace(bin, requests, placements)
    requires k < |placements|
    ensures var req, out, p := requests[k], placements[k], bin.padding;
      out.name == req.name &&
      out.originalWidth == req.originalWidth && out.originalHeight == req.originalHeight &&
      (out.rotated ==>
        bin.allowRotation && req.width != req.height &&
        SearchOutcome(bin, placements[..k], req.width + 2 * p, req.height + 2 * p, None) &&
        out.width == req.height && out.height == req.width) &&
      (!out.rotated ==> out.width == req.width && out.height == req.height)
  {
    TraceStep(bin, requests, placements, k);
  }

  /** Every placement has the area of its request. */
  lemma TraceKeepsAreas(bin: BinSettings, requests: seq<PackingRectangle>, placements: seq<PackingRectangle>)
    requires GreedyTrace(bin, requests, placements)
    ensures forall k :: 0 <= k < |placements| ==> Area(placements[k]) == Area(requests[k])
  {
    forall k | 0 <= k < |placements| ensures Area(placements[k]) == Area(requests[k]) {
      TraceRotationRule(bin, requests, placements, k);
      SwapKeepsArea(requests[k], placements[k]);
    }
  }

  lemma SwapKeepsArea(req: PackingRectangle, out: PackingRectangle)
    requires (out.width == req.width && out.height == req.height) ||
             (out.width == req.height && out.height == req.width)
    ensures Area(out) == Area(req)
  {
  }

  lemma {:induction false} TotalAreaPointwise(a: seq<PackingRectangle>, b: seq<PackingRectangle>)
    requires |a| == |b|
    requires forall k :: 0 <= k < |a| ==> Area(a[k]) == Area(b[k])
    ensures TotalArea(a) == TotalArea(b)
  {
    if a != [] {
      var m := |a| - 1;
      TotalAreaPointwise(a[..m], b[..m]);
    }
  }

  /** Area preservation: the placements cover exactly the requested area. */
  lemma TraceAreaPreserved(bin: BinSettings, requests: seq<PackingRectangle>, placements: seq<PackingRectangle>)
    requires GreedyTrace(bin, requests, placements)
    ensures TotalArea(placements) == TotalArea(requests)
  {
    TraceKeepsAreas(bin, requests, placements);
    TotalAreaPointwise(placements, requests);
  }

  // ---------------------------------------------------------------------------
  // Efficiency.
  // ---------------------------------------------------------------------------

  function Footprints(placed: seq<PackingRectangle>): (r: seq<PackingRect>)
    ensures |r| == |placed|
    ensures forall i :: 0 <= i < |placed| ==>
      r[i] == PackingRect(placed[i].x, placed[i].y, placed[i].width, placed[i].height)
  {
    seq(|placed|, i requires 0 <= i < |placed| => PackingRect(placed[i].x, placed[i].y, placed[i].width, placed[i].height))
  }

  lemma {:induction false} FootprintArea(placed: seq<PackingRectangle>)
    ensures SumArea(Footprints(placed)) == TotalArea(placed)
  {
    if placed != [] {
      var m := |placed| - 1;
      FootprintArea(placed[..m]);
      assert Footprints(placed)[..m] == Footprints(placed[..m]);
    }
  }

  lemma {:induction false} TotalAreaPositive(placed: seq<PackingRectangle>)
    requires placed != []
    requires forall i :: 0 <= i < |placed| ==> 0 < placed[i].width && 0 < placed[i].height
    ensures TotalArea(placed) > 0
  {
    var m := |placed| - 1;
    PositiveProduct(placed[m].width, placed[m].height);
    if m > 0 {
      TotalAreaPositive(placed[..m]);
    }
  }

  lemma PositiveProduct(a: int, b: int)
    requires 0 < a && 0 < b
    ensures 0 < a * b
  {
  }

  lemma RatioAtMostOne(used: int, total: int)
    requires 0 < used <= total
    ensures 0.0 < used as real / total as real <= 1.0
  {
  }

  /** The footprints of a trace's placements are pairwise disjoint and lie in
      `frame` whenever every placement keeps the padding from the bin's edges and
      lies in `frame`. */
  lemma FootprintsPacked(bin: BinSettings, requests: seq<PackingRectangle>, placements: seq<PackingRectangle>, frame: PackingRect)
    requires GreedyTrace(bin, requests, placements)
    requires 0 <= bin.padding
    requires forall i :: 0 <= i < |requests| ==> 0 <= requests[i].width && 0 <= requests[i].height
    requires forall i :: 0 <= i < |placements| ==>
      Within(PackingRect(placements[i].x, placements[i].y, placements[i].width, placements[i].height), frame)
    ensures SumArea(Footprints(placements)) == TotalArea(placements)
    ensures PairwiseDisjoint(Footprints(placements))
    ensures forall i :: 0 <= i < |placements| ==>
      Footprints(placements)[i].width >= 0 && Footprints(placements)[i].height >= 0
  {
    var boxes := Footprints(placements);
    TraceInsideBin(bin, requests, placements);
    TraceNoOverlap(bin, requests, placements);
    forall i, j | 0 <= i < j < |boxes| ensures !RectanglesOverlap(boxes[i], boxes[j]) {
      if RectanglesOverlap(boxes[i], boxes[j]) {
        OverlapMonotone(boxes[i], boxes[j], PaddedBox(placements[i], bin.padding), PaddedBox(placements[j], bin.padding));
      }
    }
    forall i | 0 <= i < |boxes| ensures boxes[i].width >= 0 && boxes[i].height >= 0 {
      assert InsideBin(bin, placements[i]);
    }
    FootprintArea(placements);
  }

  /** A batch that packs has a total area no larger than the bin's. */
  lemma TraceAreaWithinBin(bin: BinSettings, requests: seq<PackingRectangle>, placements: seq<PackingRectangle>)
    requires GreedyTrace(bin, requests, placements)
    requires 0 <= bin.padding && 0 <= bin.maxWidth && 0 <= bin.maxHeight
    requires forall i :: 0 <= i < |requests| ==> 0 <= requests[i].width && 0 <= requests[i].height
    ensures TotalArea(requests) <= bin.maxWidth * bin.maxHeight
  {
    var frame := PackingRect(0, 0, bin.maxWidth, bin.maxHeight);
    TraceInsideBin(bin, requests, placements);
    FootprintsPacked(bin, requests, placements, frame);
    PackedAreaBound(Footprints(placements), frame);
    TraceAreaPreserved(bin, requests, placements);
  }

  /** The reported efficiency of a non-empty trace lies in (0, 1]: the placed
      rectangles do not overlap and lie in the used bounding box, so their area
      cannot exceed its area. */
  lemma EfficiencyInUnitRange(bin: BinSettings, requests: seq<PackingRectangle>, placements: seq<PackingRectangle>)
    requires GreedyTrace(bin, requests, placements)
    requires placements != []
    requires 0 <= bin.padding
    requires forall i :: 0 <= i < |requests| ==> 0 < requests[i].width && 0 < requests[i].height
    ensures var e := CalculateEfficiency(placements, MaxRight(placements), MaxTop(placements));
      0.0 < e <= 1.0
  {
    var usedWidth, usedHeight := MaxRight(placements), MaxTop(placements);
    var frame := PackingRect(0, 0, usedWidth, usedHeight);
    TraceInsideBin(bin, requests, placements);
    forall i | 0 <= i < |placements| ensures 0 < placements[i].width && 0 < placements[i].height {
      TraceRotationRule(bin, requests, placements, i);
    }
    FootprintsPacked(bin, requests, placements, frame);
    assert InsideBin(bin, placements[0]);
    PackedAreaBound(Footprints(placements), frame);
    TotalAreaPositive(placements);
    PositiveProduct(usedWidth, usedHeight);
    RatioAtMostOne(TotalArea(placements), usedWidth * usedHeight);
  }

  /** A footprint that overlaps the padded box of a placed rectangle cannot go there. */
  lemma Blocked(bin: BinSettings, placed: seq<PackingRectangle>, q: Position, width: int, height: int, m: int)
    requires 0 <= m < |placed|
    requires RectanglesOverlap(PackingRect(q.x, q.y, width, height), PaddedBox(placed[m], bin.padding))
    ensures !Feasible(bin, placed, q, width, height)
  {
    ClearOfEach(PackingRect(q.x, q.y, width, height), placed, bin.padding);
  }

  /** A footprint inside the bin that misses every padded box can go there. */
  lemma Unblocked(bin: BinSettings, placed: seq<PackingRectangle>, q: Position, width: int, height: int)
    requires q.x + width <= bin.maxWidth && q.y + height <= bin.maxHeight
    requires forall m :: 0 <= m < |placed| ==>
      !RectanglesOverlap(PackingRect(q.x, q.y, width, height), PaddedBox(placed[m], bin.padding))
    ensures Feasible(bin, placed, q, width, height)
  {
    ClearOfEach(PackingRect(q.x, q.y, width, height), placed, bin.padding);
  }

  // ---------------------------------------------------------------------------
  // Packing order.
  // ---------------------------------------------------------------------------

  /** The elements of `s` whose area and longest side are `area` and `side`, in order. */
  function WithRank(s: seq<PackingRectangle>, area: int, side: int): seq<PackingRectangle> {
    if s == [] then []
    else (if Area(s[0]) == area && LongestSide(s[0]) == side then [s[0]] else []) + WithRank(s[1..], area, side)
  }

  lemma {:induction false} InsertByRankStable(x: PackingRectangle, s: seq<PackingRectangle>, area: int, side: int)
    requires RankSorted(s)
    ensures WithRank(InsertByRank(x, s), area, side) ==
      (if Area(x) == area && LongestSide(x) == side then [x] else []) + WithRank(s, area, side)
  {
    if s == [] || RanksNoLater(x, s[0]) {
      assert InsertByRank(x, s)[1..] == s;
    } else {
      RankSortedTail(s);
      InsertByRankStable(x, s[1..], area, side);
      assert InsertByRank(x, s) == [s[0]] + InsertByRank(x, s[1..]);
      assert s == [s[0]] + s[1..];
      PassOver(x, s[0], InsertByRank(x, s[1..]), s[1..], area, side);
    }
  }

  /** Inserting `x` behind `y`, which ranks strictly before it, keeps the
      order among the elements of any one rank. */
  lemma PassOver(x: PackingRectangle, y: PackingRectangle, inserted: seq<PackingRectangle>, rest: seq<PackingRectangle>,
                 area: int, side: int)
    requires !RanksNoLater(x, y)
    requires WithRank(inserted, area, side) ==
      (if Area(x) == area && LongestSide(x) == side then [x] else []) + WithRank(rest, area, side)
    ensures WithRank([y] + inserted, area, side) ==
      (if Area(x) == area && LongestSide(x) == side then [x] else []) + WithRank([y] + rest, area, side)
  {
    assert ([y] + inserted)[1..] == inserted;
    assert ([y] + rest)[1..] == rest;
  }

  lemma RankSortedTail(s: seq<PackingRectangle>)
    requires RankSorted(s) && s != []
    ensures RankSorted(s[1..])
  {
    forall i, j | 0 <= i < j < |s| - 1 ensures RanksNoLater(s[1..][i], s[1..][j]) {
      assert s[1..][i] == s[i + 1] && s[1..][j] == s[j + 1];
    }
  }

  /** The packing order is stable: rectangles of equal area and equal longest
      side keep their input order. */
  lemma {:induction false} SortForPackingStable(s: seq<PackingRectangle>, area: int, side: int)
    ensures WithRank(SortForPacking(s), area, side) == WithRank(s, area, side)
  {
    if s != [] {
      SortForPackingStable(s[1..], area, side);
      InsertByRankStable(s[0], SortForPacking(s[1..]), area, side);
    }
  }

  /** Rectangles that all rank alike are packed in input order. */
  lemma {:induction false} SortForPackingKeepsTies(s: seq<PackingRectangle>)
    requires forall i :: 0 <= i < |s| ==> Area(s[i]) == Area(s[0]) && LongestSide(s[i]) == LongestSide(s[0])
    ensures SortForPacking(s) == s
  {
    if s != [] {
      var rest := s[1..];
      if rest != [] {
        assert forall i :: 0 <= i < |rest| ==> rest[i] == s[i + 1];
        SortForPackingKeepsTies(rest);
        assert RanksNoLater(s[0], rest[0]);
      }
      assert s == [s[0]] + rest;
    }
  }

  // ---------------------------------------------------------------------------
  // The first placement.
  // ---------------------------------------------------------------------------

  /** The first rectangle of a batch goes unrotated to (padding, padding)
      whenever its padded footprint fits the bin at all. */
  lemma FirstPlacementAtPadding(bin: BinSettings, requests: seq<PackingRectangle>, placements: seq<PackingRectangle>)
    requires GreedyTrace(bin, requests, placements)
    requires placements != []
    requires requests[0].width + 2 * bin.padding <= bin.maxWidth
    requires requests[0].height + 2 * bin.padding <= bin.maxHeight
    requires 0 <= requests[0].width + 2 * bin.padding && 0 <= requests[0].height + 2 * bin.padding
    ensures placements[0].x == bin.padding && placements[0].y == bin.padding
    ensures !placements[0].rotated
  {
    var req := requests[0];
    var w, h := req.width + 2 * bin.padding, req.height + 2 * bin.padding;
    TraceStep(bin, requests, placements, 0);
    assert placements[..0] == [];
    assert Feasible(bin, [], Origin, w, h);
    assert SearchOutcome(bin, [], w, h, Some(Origin));
    if placements[0].rotated {
      SomeExcludesNone(bin, [], w, h, Origin);
    } else {
      SearchOutcomeUnique(bin, [], w, h, Some(Origin), Some(Position(placements[0].x - bin.padding, placements[0].y - bin.padding)));
    }
  }
}
