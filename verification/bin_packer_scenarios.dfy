/** Concrete packing runs: grids of 32x32 sprites without padding, a row that
    overflows, a sprite larger than the bin, a sprite that only fits rotated, and
    the largest of three squares going first. */
module BinPackingScenarios {
  import opened Common
  import opened Geometry
  import opened BinPacking
  import opened BinPackingProperties

  function Square(side: int, name: string): PackingRectangle {
    NewPackingRectangle(side, side, name)
  }

  /** One 32x32 request per name. */
  function Squares32(names: seq<string>): (s: seq<PackingRectangle>)
    ensures |s| == |names|
    ensures forall i :: 0 <= i < |s| ==> s[i] == Square(32, names[i])
  {
    seq(|names|, i requires 0 <= i < |names| => Square(32, names[i]))
  }

  /** Equal squares all rank alike, so the packing order is the input order. */
  lemma Squares32Order(names: seq<string>)
    ensures SortForPacking(Squares32(names)) == Squares32(names)
  {
    var requests := Squares32(names);
    forall i | 0 <= i < |requests|
      ensures Area(requests[i]) == Area(requests[0]) && LongestSide(requests[i]) == LongestSide(requests[0])
    {
      assert requests[i] == Square(32, names[i]) && requests[0] == Square(32, names[0]);
    }
    SortForPackingKeepsTies(requests);
  }

  ghost predicate AllSquares32(s: seq<PackingRectangle>) {
    forall i :: 0 <= i < |s| ==> s[i].width == 32 && s[i].height == 32
  }

  // ---------------------------------------------------------------------------
  // 32x32 sprites in a 512-wide bin without padding fill rows of sixteen.
  // ---------------------------------------------------------------------------

  function GridBin(rows: int): BinSettings {
    BinSettings(512, 32 * rows, 0, false)
  }

  /** Where the k-th sprite goes: column k % 16 of row k / 16. */
  function GridCell(k: int): Position {
    Position(32 * (k % 16), 32 * (k / 16))
  }

  lemma GridCellBelow(k: int)
    requires 0 <= k
    ensures GridCell(k + 16) == Position(GridCell(k).x, GridCell(k).y + 32)
  {
    assert (k + 16) % 16 == k % 16 && (k + 16) / 16 == k / 16 + 1;
  }

  lemma GridCellNext(k: int)
    requires 0 <= k && k % 16 != 15
    ensures GridCell(k + 1) == Position(GridCell(k).x + 32, GridCell(k).y)
  {
    assert (k + 1) % 16 == k % 16 + 1 && (k + 1) / 16 == k / 16;
  }

  ghost predicate OnGrid(r: PackingRectangle, k: int) {
    Position(r.x, r.y) == GridCell(k) && r.width == 32 && r.height == 32 && !r.rotated
  }

  lemma GridCellsApart(a: int, b: int)
    requires 0 <= a && 0 <= b && a != b
    ensures !RectanglesOverlap(PackingRect(GridCell(a).x, GridCell(a).y, 32, 32), PackingRect(GridCell(b).x, GridCell(b).y, 32, 32))
  {
  }

  lemma GridOrder(a: int, b: int)
    requires 0 <= a && 0 <= b
    ensures Precedes(GridCell(a), GridCell(b)) <==> a < b
  {
  }

  /** A feasible anchor that no other feasible anchor precedes is what the search returns. */
  lemma AnchorIsOutcome(bin: BinSettings, placed: seq<PackingRectangle>, width: int, height: int, q: Position)
    requires width <= bin.maxWidth && height <= bin.maxHeight
    requires Feasible(bin, placed, q, width, height)
    requires IsAnchor(bin, placed, q) && Precedes(q, Sentinel)
    requires NoAnchorBefore(bin, placed, width, height, q)
    ensures SearchOutcome(bin, placed, width, height, Some(q))
  {
  }

  ghost predicate GridPrefix(rows: int, placed: seq<PackingRectangle>) {
    1 <= rows <= 16 && |placed| < 16 * rows &&
    forall j :: 0 <= j < |placed| ==> OnGrid(placed[j], j)
  }

  lemma GridCellInBin(rows: int, k: int)
    requires 1 <= rows <= 16 && 0 <= k < 16 * rows
    ensures 0 <= GridCell(k).x && GridCell(k).x + 32 <= 512
    ensures 0 <= GridCell(k).y && GridCell(k).y + 32 <= 32 * rows
  {
    assert k / 16 < rows;
  }

  lemma GridCellFeasible(rows: int, placed: seq<PackingRectangle>)
    requires GridPrefix(rows, placed)
    ensures Feasible(GridBin(rows), placed, GridCell(|placed|), 32, 32)
  {
    var k := |placed|;
    var c := GridCell(k);
    forall j | 0 <= j < k ensures !RectanglesOverlap(PackingRect(c.x, c.y, 32, 32), PaddedBox(placed[j], 0)) {
      GridCellsApart(k, j);
    }
    GridCellInBin(rows, k);
    Unblocked(GridBin(rows), placed, c, 32, 32);
  }

  lemma GridCellIsAnchor(rows: int, placed: seq<PackingRectangle>)
    requires GridPrefix(rows, placed)
    ensures IsAnchor(GridBin(rows), placed, GridCell(|placed|))
  {
    var bin, k := GridBin(rows), |placed|;
    if k % 16 != 0 {
      assert OnGrid(placed[k - 1], k - 1);
      GridCellNext(k - 1);
      assert GridCell(k) == RightOf(placed[k - 1], 0);
      AnchorsAreAnchors(bin, placed, k - 1);
    } else if k != 0 {
      assert OnGrid(placed[k - 16], k - 16);
      GridCellBelow(k - 16);
      assert GridCell(k) == AboveOf(placed[k - 16], 0);
      AnchorsAreAnchors(bin, placed, k - 16);
    }
  }

  /** The anchors of sprite j are taken, off the bin, or come after cell k. */
  lemma GridAnchorsRejected(rows: int, placed: seq<PackingRectangle>, j: int)
    requires GridPrefix(rows, placed)
    requires 0 <= j < |placed|
    ensures NotBetter(GridBin(rows), placed, 32, 32, RightOf(placed[j], 0), GridCell(|placed|))
    ensures NotBetter(GridBin(rows), placed, 32, 32, AboveOf(placed[j], 0), GridCell(|placed|))
  {
    GridRightRejected(rows, placed, j);
    GridAboveRejected(rows, placed, j);
  }

  lemma GridRightRejected(rows: int, placed: seq<PackingRectangle>, j: int)
    requires GridPrefix(rows, placed)
    requires 0 <= j < |placed|
    ensures NotBetter(GridBin(rows), placed, 32, 32, RightOf(placed[j], 0), GridCell(|placed|))
  {
    var bin, k := GridBin(rows), |placed|;
    assert OnGrid(placed[j], j);
    if j % 16 != 15 {
      GridCellNext(j);
      assert RightOf(placed[j], 0) == GridCell(j + 1);
      GridOrder(j + 1, k);
      if j + 1 < k {
        assert OnGrid(placed[j + 1], j + 1);
        Blocked(bin, placed, GridCell(j + 1), 32, 32, j + 1);
      }
    } else {
      assert RightOf(placed[j], 0).x == 512;
    }
  }

  lemma GridAboveRejected(rows: int, placed: seq<PackingRectangle>, j: int)
    requires GridPrefix(rows, placed)
    requires 0 <= j < |placed|
    ensures NotBetter(GridBin(rows), placed, 32, 32, AboveOf(placed[j], 0), GridCell(|placed|))
  {
    var bin, k := GridBin(rows), |placed|;
    assert OnGrid(placed[j], j);
    GridCellBelow(j);
    assert AboveOf(placed[j], 0) == GridCell(j + 16);
    GridOrder(j + 16, k);
    if j + 16 < k {
      assert OnGrid(placed[j + 16], j + 16);
      Blocked(bin, placed, GridCell(j + 16), 32, 32, j + 16);
    }
  }

  lemma GridNoAnchorBefore(rows: int, placed: seq<PackingRectangle>)
    requires GridPrefix(rows, placed)
    ensures NoAnchorBefore(GridBin(rows), placed, 32, 32, GridCell(|placed|))
  {
    var bin, k := GridBin(rows), |placed|;
    if k > 0 {
      assert OnGrid(placed[0], 0);
      Blocked(bin, placed, Origin, 32, 32, 0);
    }
    forall j | 0 <= j < k
      ensures NotBetter(bin, placed, 32, 32, RightOf(placed[j], 0), GridCell(k))
      ensures NotBetter(bin, placed, 32, 32, AboveOf(placed[j], 0), GridCell(k))
    {
      GridAnchorsRejected(rows, placed, j);
    }
  }

  /** With the first k sprites on their cells, the search puts sprite k on cell k. */
  lemma GridStep(rows: int, placed: seq<PackingRectangle>)
    requires GridPrefix(rows, placed)
    ensures SearchOutcome(GridBin(rows), placed, 32, 32, Some(GridCell(|placed|)))
  {
    GridCellFeasible(rows, placed);
    GridCellIsAnchor(rows, placed);
    GridNoAnchorBefore(rows, placed);
    GridCellInBin(rows, |placed|);
    AnchorIsOutcome(GridBin(rows), placed, 32, 32, GridCell(|placed|));
  }

  /** Every trace of 32x32 sprites in the grid bin puts sprite k on cell k. */
  lemma {:induction false} GridTrace(rows: int, requests: seq<PackingRectangle>, placements: seq<PackingRectangle>)
    requires 1 <= rows <= 16
    requires |requests| <= 16 * rows && AllSquares32(requests)
    requires GreedyTrace(GridBin(rows), requests, placements)
    ensures forall k :: 0 <= k < |placements| ==> OnGrid(placements[k], k)
  {
    if placements != [] {
      var m := |placements| - 1;
      TracePrefix(GridBin(rows), requests, placements, m);
      assert AllSquares32(requests[..m]) by {
        assert forall i :: 0 <= i < m ==> requests[..m][i] == requests[i];
      }
      GridTrace(rows, requests[..m], placements[..m]);
      assert forall k :: 0 <= k < m ==> placements[..m][k] == placements[k];
      GridTraceLast(rows, requests, placements);
    }
  }

  /** The induction step of `GridTrace`: the last sprite follows the others. */
  lemma GridTraceLast(rows: int, requests: seq<PackingRectangle>, placements: seq<PackingRectangle>)
    requires 1 <= rows <= 16
    requires |requests| <= 16 * rows && AllSquares32(requests)
    requires GreedyTrace(GridBin(rows), requests, placements)
    requires placements != []
    requires forall k :: 0 <= k < |placements| - 1 ==> OnGrid(placements[k], k)
    ensures OnGrid(placements[|placements| - 1], |placements| - 1)
  {
    var m := |placements| - 1;
    var before := placements[..m];
    assert GridPrefix(rows, before) by {
      assert forall k :: 0 <= k < m ==> before[k] == placements[k];
    }
    TraceStep(GridBin(rows), requests, placements, m);
    GridPlacement(rows, before, requests[m], placements[m]);
  }

  /** With the first k sprites on their cells, sprite k goes on cell k. */
  lemma GridPlacement(rows: int, placed: seq<PackingRectangle>, req: PackingRectangle, out: PackingRectangle)
    requires GridPrefix(rows, placed)
    requires req.width == 32 && req.height == 32
    requires PlacedBy(GridBin(rows), placed, req, out)
    ensures OnGrid(out, |placed|)
  {
    GridStep(rows, placed);
    PlacedByFacts(GridBin(rows), placed, req, out, 32, 32, Position(out.x, out.y));
    SearchOutcomeUnique(GridBin(rows), placed, 32, 32, Some(GridCell(|placed|)), Some(Position(out.x, out.y)));
  }

  /** No 32x32 sprite gets stuck while fewer than 16 * rows are placed. */
  lemma GridNeverStuck(rows: int, requests: seq<PackingRectangle>, placed: seq<PackingRectangle>)
    requires 1 <= rows <= 16
    requires |placed| < |requests| <= 16 * rows && AllSquares32(requests)
    requires GreedyTrace(GridBin(rows), requests[..|placed|], placed)
    ensures !FitsNowhere(GridBin(rows), placed, requests[|placed|])
  {
    var k := |placed|;
    assert AllSquares32(requests[..k]) by {
      assert forall i :: 0 <= i < k ==> requests[..k][i] == requests[i];
    }
    GridTrace(rows, requests[..k], placed);
    GridStep(rows, placed);
    SomeExcludesNone(GridBin(rows), placed, 32, 32, GridCell(k));
  }

  /** What `Pack` reports for up to 16 * rows sprites of 32x32: all placed, in
      input order, row by row. */
  lemma GridReport(rows: int, names: seq<string>, placed: seq<PackingRectangle>, outcome: PackOutcome)
    requires 1 <= rows <= 16
    requires 0 < |names| <= 16 * rows
    requires PackReport(GridBin(rows), Squares32(names), placed, outcome)
    ensures outcome.Packed? && outcome.result.packedRectangles == placed && |placed| == |names|
    ensures forall k :: 0 <= k < |names| ==>
      placed[k].name == names[k] && OnGrid(placed[k], k)
  {
    var requests := Squares32(names);
    Squares32Order(names);
    if outcome.Unpackable? {
      GridNeverStuck(rows, requests, placed);
    } else {
      assert outcome.Packed?;
      assert requests[..|placed|] == requests;
      GridTrace(rows, requests, placed);
      forall k | 0 <= k < |names| ensures placed[k].name == names[k] {
        TraceRotationRule(GridBin(rows), requests, placed, k);
      }
    }
  }

  /** Up to 16 * rows sprites of 32x32 pack, in input order, row by row. */
  method PackGrid(rows: int, names: seq<string>) returns (outcome: PackOutcome)
    requires 1 <= rows <= 16
    requires 0 < |names| <= 16 * rows
    ensures outcome.Packed? && |outcome.result.packedRectangles| == |names|
    ensures forall k :: 0 <= k < |names| ==>
      var r := outcome.result.packedRectangles[k];
      r.name == names[k] && r.x == 32 * (k % 16) && r.y == 32 * (k / 16) &&
      r.width == 32 && r.height == 32 && !r.rotated
  {
    var packer := new BinPacker(512, 32 * rows, 0, false);
    outcome := packer.Pack(Squares32(names));
    GridReport(rows, names, packer.packedRectangles, outcome);
  }

  /** Sixteen 32x32 sprites in a 512x512 bin fill the bottom row exactly. */
  method SixteenInOneRow(names: seq<string>) returns (outcome: PackOutcome)
    requires |names| == 16
    ensures outcome.Packed? && |outcome.result.packedRectangles| == 16
    ensures forall k :: 0 <= k < 16 ==>
      var r := outcome.result.packedRectangles[k];
      r.x == 32 * k && r.y == 0 && r.width == 32 && r.height == 32
  {
    outcome := PackGrid(16, names);
  }

  /** Thirty-two 32x32 sprites in a 512x64 bin form two rows of sixteen. */
  method ThirtyTwoInTwoRows(names: seq<string>) returns (outcome: PackOutcome)
    requires |names| == 32
    ensures outcome.Packed? && |outcome.result.packedRectangles| == 32
    ensures forall k :: 0 <= k < 16 ==>
      var r := outcome.result.packedRectangles[k];
      r.x == 32 * k && r.y == 0
    ensures forall k :: 16 <= k < 32 ==>
      var r := outcome.result.packedRectangles[k];
      r.x == 32 * (k - 16) && r.y == 32
  {
    outcome := PackGrid(2, names);
  }

  lemma {:induction false} TotalAreaUniform(s: seq<PackingRectangle>, area: int)
    requires forall i :: 0 <= i < |s| ==> Area(s[i]) == area
    ensures TotalArea(s) == |s| * area
  {
    if s != [] {
      TotalAreaUniform(s[..|s| - 1], area);
    }
  }

  /** Seventeen 32x32 sprites have more area than a 512x32 bin: `Pack` fails. */
  lemma SeventeenReport(names: seq<string>, placed: seq<PackingRectangle>, outcome: PackOutcome)
    requires |names| == 17
    requires PackReport(GridBin(1), Squares32(names), placed, outcome)
    ensures outcome == Unpackable
  {
    var requests := Squares32(names);
    Squares32Order(names);
    if outcome.Packed? {
      assert |placed| == |requests|;
      assert requests[..|placed|] == requests;
      forall i | 0 <= i < |requests| ensures Area(requests[i]) == 1024 && 0 <= requests[i].width && 0 <= requests[i].height {
        assert requests[i] == Square(32, names[i]);
      }
      TotalAreaUniform(requests, 1024);
      TraceAreaWithinBin(GridBin(1), requests, placed);
    }
  }

  /** A seventeenth 32x32 sprite does not fit a 512x32 bin: the whole batch fails. */
  method SeventeenInOneRowFail(names: seq<string>) returns (outcome: PackOutcome)
    requires |names| == 17
    ensures outcome == Unpackable
  {
    var packer := new BinPacker(512, 32, 0, false);
    outcome := packer.Pack(Squares32(names));
    SeventeenReport(names, packer.packedRectangles, outcome);
  }

  // ---------------------------------------------------------------------------
  // Single sprites.
  // ---------------------------------------------------------------------------

  /** Some room at a non-negative position means the request fits somewhere. */
  lemma RoomMeansFits(bin: BinSettings, placed: seq<PackingRectangle>, req: PackingRectangle, q: Position)
    requires 0 <= q.x && 0 <= q.y
    requires Feasible(bin, placed, q, req.width + 2 * bin.padding, req.height + 2 * bin.padding)
    ensures !FitsNowhere(bin, placed, req)
  {
    if FitsNowhere(bin, placed, req) {
      FitsNowhereMeansNoRoom(bin, placed, req, q.x, q.y);
    }
  }

  /** A single request is its own packing order. */
  lemma SingleOrder(r: PackingRectangle)
    ensures SortForPacking([r]) == [r]
  {
    assert [r][1..] == [];
  }

  /** A 100x100 sprite never fits a 50x50 bin with padding 1. */
  lemma OversizedReport(name: string, placed: seq<PackingRectangle>, outcome: PackOutcome)
    requires PackReport(BinSettings(50, 50, 1, false), [Square(100, name)], placed, outcome)
    ensures outcome == Unpackable
  {
    var request := Square(100, name);
    SingleOrder(request);
    if outcome.Packed? {
      TraceStep(BinSettings(50, 50, 1, false), [request], placed, 0);
    }
  }

  /** A 100x100 sprite never fits a 50x50 bin with the default padding. */
  method OversizedFails(name: string) returns (outcome: PackOutcome)
    ensures outcome == Unpackable
  {
    var packer := new BinPacker(50, 50);
    outcome := packer.Pack([Square(100, name)]);
    OversizedReport(name, packer.packedRectangles, outcome);
  }

  /** In an empty bin the search settles on the origin for any footprint that fits. */
  lemma EmptyBinOrigin(bin: BinSettings, width: int, height: int)
    requires width <= bin.maxWidth && height <= bin.maxHeight
    ensures SearchOutcome(bin, [], width, height, Some(Origin))
  {
    assert Feasible(bin, [], Origin, width, height);
  }

  /** A 40x90 sprite in a 100x50 bin without padding only fits rotated, at the origin. */
  lemma ForcedRotationReport(name: string, placed: seq<PackingRectangle>, outcome: PackOutcome)
    requires PackReport(BinSettings(100, 50, 0, true), [NewPackingRectangle(40, 90, name)], placed, outcome)
    ensures outcome.Packed? && outcome.result.packedRectangles == placed && |placed| == 1
    ensures placed[0].rotated && placed[0].x == 0 && placed[0].y == 0
    ensures placed[0].width == 90 && placed[0].height == 40
  {
    var bin, request := BinSettings(100, 50, 0, true), NewPackingRectangle(40, 90, name);
    SingleOrder(request);
    if outcome.Unpackable? {
      assert Feasible(bin, [], Origin, 90, 40);
      RoomMeansFits(bin, [], request, Origin);
    } else {
      TraceStep(bin, [request], placed, 0);
      assert placed[..0] == [];
      EmptyBinOrigin(bin, 90, 40);
      SearchOutcomeUnique(bin, [], 90, 40, Some(Origin), Some(Position(placed[0].x, placed[0].y)));
    }
  }

  /** A 40x90 sprite in a 100x50 bin with rotation allowed goes rotated to the origin. */
  method ForcedRotation(name: string) returns (outcome: PackOutcome)
    ensures outcome.Packed? && |outcome.result.packedRectangles| == 1
    ensures var r := outcome.result.packedRectangles[0];
      r.rotated && r.x == 0 && r.y == 0 && r.width == 90 && r.height == 40
  {
    var packer := new BinPacker(100, 50, 0, true);
    outcome := packer.Pack([NewPackingRectangle(40, 90, name)]);
    ForcedRotationReport(name, packer.packedRectangles, outcome);
  }

  /** A 60x30 sprite in a 100x50 bin with padding 1 fits unrotated at (1, 1). */
  lemma RotationNotNeededReport(name: string, placed: seq<PackingRectangle>, outcome: PackOutcome)
    requires PackReport(BinSettings(100, 50, 1, true), [NewPackingRectangle(60, 30, name)], placed, outcome)
    ensures outcome.Packed? && outcome.result.packedRectangles == placed && |placed| == 1
    ensures !placed[0].rotated && placed[0].x == 1 && placed[0].y == 1
    ensures placed[0].width == 60 && placed[0].height == 30
  {
    var bin, request := BinSettings(100, 50, 1, true), NewPackingRectangle(60, 30, name);
    SingleOrder(request);
    if outcome.Unpackable? {
      assert Feasible(bin, [], Origin, 62, 32);
      RoomMeansFits(bin, [], request, Origin);
    } else {
      FirstPlacementAtPadding(bin, [request], placed);
      TraceRotationRule(bin, [request], placed, 0);
    }
  }

  /** A 60x30 sprite in a 100x50 bin with rotation allowed fits unrotated at
      (1, 1) with the default padding. */
  method RotationNotNeeded(name: string) returns (outcome: PackOutcome)
    ensures outcome.Packed? && |outcome.result.packedRectangles| == 1
    ensures var r := outcome.result.packedRectangles[0];
      !r.rotated && r.x == 1 && r.y == 1 && r.width == 60 && r.height == 30
  {
    var packer := new BinPacker(100, 50, allowRotation := true);
    outcome := packer.Pack([NewPackingRectangle(60, 30, name)]);
    RotationNotNeededReport(name, packer.packedRectangles, outcome);
  }

  // ---------------------------------------------------------------------------
  // The largest of three squares goes first.
  // ---------------------------------------------------------------------------

  function ThreeSquares(): seq<PackingRectangle> {
    [Square(10, "small"), Square(30, "large"), Square(20, "medium")]
  }

  function LargestFirst(): seq<PackingRectangle> {
    [Square(30, "large"), Square(20, "medium"), Square(10, "small")]
  }

  function ThreeSquaresBin(): BinSettings {
    BinSettings(200, 200, 1, false)
  }

  lemma ThreeSquaresOrder()
    ensures SortForPacking(ThreeSquares()) == LargestFirst()
  {
    var small, large, medium := Square(10, "small"), Square(30, "large"), Square(20, "medium");
    assert ThreeSquares()[1..] == [large, medium];
    assert [large, medium][1..] == [medium];
    SingleOrder(medium);
    assert SortForPacking([large, medium]) == [large, medium];
    assert InsertByRank(small, [large, medium]) == [large] + InsertByRank(small, [medium]);
    assert InsertByRank(small, [medium]) == [medium] + InsertByRank(small, []);
  }

  /** The large square goes to (1, 1). */
  lemma LargeAtPadding(placed: seq<PackingRectangle>)
    requires 1 <= |placed| <= 3
    requires GreedyTrace(ThreeSquaresBin(), LargestFirst()[..|placed|], placed)
    ensures placed[0] == PackingRectangle("large", 1, 1, 30, 30, false, 30, 30)
  {
    var requests := LargestFirst()[..|placed|];
    assert requests[0] == Square(30, "large");
    FirstPlacementAtPadding(ThreeSquaresBin(), requests, placed);
    TraceRotationRule(ThreeSquaresBin(), requests, placed, 0);
  }

  /** Next to the large square at (1, 1), the padded medium square goes to its right. */
  lemma MediumSearch(large: PackingRectangle)
    requires large == PackingRectangle("large", 1, 1, 30, 30, false, 30, 30)
    ensures SearchOutcome(ThreeSquaresBin(), [large], 22, 22, Some(Position(32, 1)))
  {
    var bin, spot := ThreeSquaresBin(), Position(32, 1);
    Unblocked(bin, [large], spot, 22, 22);
    assert spot == RightOf([large][0], 1);
    AnchorsAreAnchors(bin, [large], 0);
    Blocked(bin, [large], Origin, 22, 22, 0);
    AnchorIsOutcome(bin, [large], 22, 22, spot);
  }

  /** The medium square goes right of the large one, at (33, 2). */
  lemma MediumBesideLarge(placed: seq<PackingRectangle>)
    requires 2 <= |placed| <= 3
    requires GreedyTrace(ThreeSquaresBin(), LargestFirst()[..|placed|], placed)
    ensures placed[1] == PackingRectangle("medium", 33, 2, 20, 20, false, 20, 20)
  {
    var bin, requests := ThreeSquaresBin(), LargestFirst()[..|placed|];
    LargeAtPadding(placed);
    assert requests[1] == Square(20, "medium");
    TraceRotationRule(bin, requests, placed, 1);
    TraceStep(bin, requests, placed, 1);
    assert placed[..1] == [placed[0]];
    MediumSearch(placed[0]);
    SearchOutcomeUnique(bin, [placed[0]], 22, 22, Some(Position(32, 1)), Some(Position(placed[1].x - 1, placed[1].y - 1)));
  }

  /** No step of packing the three squares gets stuck. */
  lemma ThreeSquaresNeverStuck(placed: seq<PackingRectangle>)
    requires |placed| < 3
    requires GreedyTrace(ThreeSquaresBin(), LargestFirst()[..|placed|], placed)
    ensures !FitsNowhere(ThreeSquaresBin(), placed, LargestFirst()[|placed|])
  {
    var bin, k := ThreeSquaresBin(), |placed|;
    if k == 0 {
      assert Feasible(bin, [], Origin, 32, 32);
      RoomMeansFits(bin, [], LargestFirst()[0], Origin);
    } else if k == 1 {
      LargeAtPadding(placed);
      FreeCorner(placed, 22);
      RoomMeansFits(bin, placed, LargestFirst()[1], Position(100, 100));
    } else {
      LargeAtPadding(placed);
      MediumBesideLarge(placed);
      FreeCorner(placed, 12);
      RoomMeansFits(bin, placed, LargestFirst()[2], Position(100, 100));
    }
  }

  /** With the large and medium squares where they go, (100, 100) is free. */
  lemma FreeCorner(placed: seq<PackingRectangle>, side: int)
    requires 1 <= |placed| <= 2 && 0 <= side <= 100
    requires placed[0] == PackingRectangle("large", 1, 1, 30, 30, false, 30, 30)
    requires |placed| == 2 ==> placed[1] == PackingRectangle("medium", 33, 2, 20, 20, false, 20, 20)
    ensures Feasible(ThreeSquaresBin(), placed, Position(100, 100), side, side)
  {
    var box := PackingRect(100, 100, side, side);
    forall m | 0 <= m < |placed| ensures !RectanglesOverlap(box, PaddedBox(placed[m], 1)) {
      assert placed[m].x + placed[m].width < 99;
    }
    Unblocked(ThreeSquaresBin(), placed, Position(100, 100), side, side);
  }

  lemma LargestFirstReport(placed: seq<PackingRectangle>, outcome: PackOutcome)
    requires PackReport(ThreeSquaresBin(), ThreeSquares(), placed, outcome)
    ensures outcome.Packed? && outcome.result.packedRectangles == placed && |placed| == 3
    ensures placed[0].name == "large" && placed[0].x == 1 && placed[0].y == 1
    ensures placed[1].name == "medium" && placed[1].x == 33 && placed[1].y == 2
  {
    ThreeSquaresOrder();
    var order := LargestFirst();
    assert GreedyTrace(ThreeSquaresBin(), order[..|placed|], placed);
    if outcome.Unpackable? {
      ThreeSquaresNeverStuck(placed);
    } else {
      assert |placed| == 3;
      LargeAtPadding(placed);
      MediumBesideLarge(placed);
    }
  }

  /** Packing a small, a large and a medium square with padding 1 succeeds,
      places the large one first at (1, 1) and the medium one right of it. */
  method LargestSquareFirst() returns (outcome: PackOutcome)
    ensures outcome.Packed? && |outcome.result.packedRectangles| == 3
    ensures var r := outcome.result.packedRectangles;
      r[0].name == "large" && r[0].x == 1 && r[0].y == 1 &&
      r[1].name == "medium" && r[1].x == 33 && r[1].y == 2
  {
    var packer := new BinPacker(200, 200, padding := 1);
    outcome := packer.Pack(ThreeSquares());
    LargestFirstReport(packer.packedRectangles, outcome);
  }
}
