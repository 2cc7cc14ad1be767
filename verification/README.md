# PPacker core, modelled in Dafny

PPacker is a command-line texture-atlas packer. It does the following:

- It loads sprites, either single images (optionally trimmed to their non-transparent pixels) or regions cut out of sprite sheets.
- It packs the sprites into one atlas with a greedy bottom-left bin packer.
- It rounds the atlas size up to powers of two.
- It writes an atlas description and animation definitions that refer to the packed sprites by name.
- It reads Tiled maps: it decodes layer data (CSV, or base64 with optional gzip/zlib), converts map objects and their properties, and gathers the images a map needs.

This project models that core and proves what it promises:

- The bin packer (`bin_packer.dfy`) is a class whose placement list the methods update. `FindBestPosition`, `CanPlaceAt` and the packing loop keep their loops and are proved against specification predicates:
  - `SearchOutcome` describes the lowest-then-leftmost feasible anchor, or failing that the first feasible position of a row-major scan.
  - `PlacedBy` describes how one rectangle is placed.
  - `GreedyTrace` describes a whole run.
  - `PackReport` describes what `Pack` returns.
- `bin_packer_properties.dfy` proves facts about any packing run:
  - determinism;
  - containment and non-overlap of the padded boxes;
  - the rotation rule and area preservation;
  - an efficiency in (0, 1] when the padding is non-negative and every requested side is positive;
  - a stable packing order.
- `bin_packer_scenarios.dfy` works through the packer's test cases.
- The sprite processor (`sprite_processor.dfy`) covers:
  - the trim scan over an alpha array, proved to give the tight box of the non-transparent pixels;
  - `LoadSprite`'s trim rule;
  - sprite-sheet extraction;
  - the final dimensions.
- `power_of_two.dfy` proves the OR-and-shift rounding: it gives the least power of two for inputs up to 2^30, and overflows to `int.MinValue` above that.
- The atlas packer (`atlas_packer.dfy`) covers:
  - frame-name generation;
  - animation assembly (only frames whose sprite is in the atlas are kept, and animations left without frames are dropped);
  - atlas data creation;
  - `PackAsync`'s two failure exits and its result.
- `atlas_data.dfy` covers the model defaults and `TotalDuration`.
- `tiled_layer.dfy` covers layer data decoding. It proves a CSV round trip, a little-endian word round trip and the encoding and compression dispatch.
- `tiled_map.dfy` covers:
  - property typing;
  - the geometry classification of objects;
  - image-path gathering: first-occurrence de-duplication, and a tileset-source dictionary where the last write wins.
- `program.dfy` covers the configuration validation and the output-directory override of the command-line front end.

The model uses the following conventions:

- Integers are unbounded. Where the C# code depends on 32-bit arithmetic, that is written out:
  - `NextPowerOfTwo`;
  - the `int` results handed to `CalculateFinalDimensions`;
  - `width * height` for an empty layer;
  - `uint` parsing.
- Exceptions become `Option`/`Result` values:
  - `Pack` on an empty list;
  - `First` without a match;
  - a negative array length;
  - a bad number;
  - bad base64;
  - zstd.
- A filter that keeps order (kept frames, animations with frames, sprites cut from a sheet) is specified through `Common.Positions`: the increasing list of exactly the positions kept. `Common.SelectsInOrder` states this, and `Common.SelectsUnique` proves that only one list satisfies it.
- Library calls the model cannot see are parameters:
  - base64 decoding, gzip and zlib;
  - `Path.Combine`, `Path.GetFileName` and `Path.GetDirectoryName`;
  - `string.Format`;
  - `int`/`float`/`bool.TryParse`.

## Model

| member | source | states |
|---|---|---|
| Geometry.OverlapSymmetric | src/PPacker/Core/BinPacker.cs:253-259 | the overlap test is symmetric |
| PackerConfiguration.DefaultOutputConfig | src/PPacker/Models/PackerConfig.cs:68-92 | output defaults: atlas.png, atlas.json, no animation or map path |
| PackerConfiguration.DefaultAtlasConfig | src/PPacker/Models/PackerConfig.cs:98-134 | atlas defaults: 2048x2048, padding 1, no rotation, trimming and power-of-two on |
| PackerConfiguration.DefaultAnimationPattern | src/PPacker/Models/PackerConfig.cs:176-194 | pattern defaults: empty pattern, frames 1 to 1 |
| PackerConfiguration.DefaultAnimationConfig | src/PPacker/Models/PackerConfig.cs:140-170 | animation defaults: 100 ms frames, looping, no pattern, no frames |
| PackerConfiguration.DefaultPackerConfig | src/PPacker/Models/PackerConfig.cs:8-32 | a new configuration has no inputs, no animation list and the default output and atlas sections |
| AtlasModel.NewAnimationFrame | src/PPacker/Models/AtlasData.cs:170-183 | a new frame names its sprite and has no duration of its own |
| AtlasModel.NewAnimationData | src/PPacker/Models/AtlasData.cs:134-158 | a new animation has no frames, a 100 ms default duration and loops |
| AtlasModel.FrameDuration | src/PPacker/Models/AtlasData.cs:164 | a frame lasts its own duration, or the default when it has none |
| AtlasModel.TotalDuration | src/PPacker/Models/AtlasData.cs:164 | no frames give 0; frames without durations give count times the default |
| AtlasModel.AllDefaultDurations | src/PPacker/Models/AtlasData.cs:164 | frames that all fall back sum to count times the default |
| AtlasModel.SumDurationsAppend | src/PPacker/Models/AtlasData.cs:164 | the total of a concatenation is the sum of the totals |
| AtlasModel.AppendFrameDuration | src/PPacker/Models/AtlasData.cs:164 | adding a frame adds exactly its (possibly default) duration |
| AtlasModel.TotalDurationBounds | src/PPacker/Models/AtlasData.cs:164 | with non-negative durations the total is non-negative and at least every single frame's duration |
| AtlasModel.MixedDurationExample | tests/PPacker.Tests/Core/PerFrameDurationFallbackTests.cs:104-118 | a 150 ms frame plus a frame falling back to 100 ms total 250 ms |
| PowerOfTwo.Wrap32 | src/PPacker/Core/SpriteProcessor.cs:187 | unchecked 32-bit wrap: in range, identity on 32-bit values, int.MaxValue + 1 becomes int.MinValue |
| PowerOfTwo.SmearAllOnes | src/PPacker/Core/SpriteProcessor.cs:182-186 | the five OR-with-shift steps set every bit below the top bit of a 32-bit value |
| PowerOfTwo.NextPowerOfTwoIsLeast | src/PPacker/Core/SpriteProcessor.cs:177-190 | for 1..2^30 the result is a power of two, at least the input, and no larger than any power of two at least the input |
| PowerOfTwo.PowerOfTwoUnchanged | src/PPacker/Core/SpriteProcessor.cs:177-190 | powers of two up to 2^30 are returned unchanged |
| PowerOfTwo.NextPowerOfTwoOverflows | src/PPacker/Core/SpriteProcessor.cs:181-187 | above 2^30 the final increment overflows to int.MinValue |
| PowerOfTwo.NextPowerOfTwo | src/PPacker/Core/SpriteProcessor.cs:177-190 | the bit-smearing code computes the closed-form rounding; non-positive inputs give 1 |
| SpriteProcessing.Intersect | src/PPacker/Core/SpriteProcessor.cs:102 | the intersection contains exactly the pixels in both rectangles, with non-negative size |
| SpriteProcessing.IntersectWithin | src/PPacker/Core/SpriteProcessor.cs:102-105 | a non-empty intersection lies inside the image bounds |
| SpriteProcessing.TightBoxIsLeast | src/PPacker/Core/SpriteProcessor.cs:54-87 | any rectangle holding every non-transparent pixel holds the trim box |
| SpriteProcessing.CalculateTrimBounds | src/PPacker/Core/SpriteProcessor.cs:54-87 | the whole image when no pixel is opaque, otherwise the tight box: inside the image, containing every opaque pixel, each edge touching one |
| SpriteProcessing.ScanRow | src/PPacker/Core/SpriteProcessor.cs:64-76 | scanning one row keeps min/max bounds of the opaque pixels seen so far, each attained by a pixel |
| SpriteProcessing.VisitOpaque | src/PPacker/Core/SpriteProcessor.cs:69-75 | an opaque pixel widens the bounds by Min/Max and keeps them attained |
| SpriteProcessing.ScanComplete | src/PPacker/Core/SpriteProcessor.cs:80-86 | after the scan, maxX < 0 exactly when no pixel is opaque, otherwise the box from the extremes is tight |
| SpriteProcessing.WasTrimmedIffSmaller | src/PPacker/Core/SpriteProcessor.cs:46-47 | for bounds inside the image, "was trimmed" means trimming was on and the bounds are not the whole image |
| SpriteProcessing.LoadSprite | src/PPacker/Core/SpriteProcessor.cs:16-49 | name from the argument or the file stem; original size kept; untrimmed gives the full picture and no trim data; trimmed gives the tight box, its offset as trim, and "was trimmed" iff the box is smaller than the image |
| SpriteProcessing.PrefixedName | src/PPacker/Core/SpriteProcessor.cs:115 | the prefix, when given, is prepended and the name can be recovered after it |
| SpriteProcessing.ExtractOne | src/PPacker/Core/SpriteProcessor.cs:97-126 | an entry is skipped exactly when its rectangle misses the image; otherwise the region is the part of the rectangle inside the image, and the size and trim defaults and the trimmed flag follow the entry |
| SpriteProcessing.ExtractAllSpec | src/PPacker/Core/SpriteProcessor.cs:92-130 | every sprite cut out comes from an entry, every entry hitting the image is cut out, and there are no more sprites than entries |
| SpriteProcessing.ExtractAllOrder | src/PPacker/Core/SpriteProcessor.cs:92-130 | the sprites are those of exactly the entries hitting the image, one per such entry, in entry order |
| SpriteProcessing.ExtractAllInside | src/PPacker/Core/SpriteProcessor.cs:92-130 | entries inside the image all come out, in order, with their names and rectangles |
| SpriteProcessing.ExtractSprites | src/PPacker/Core/SpriteProcessor.cs:92-130 | the loop yields the extracted sprites of all entries in order |
| SpriteProcessing.CalculateFinalDimensions | src/PPacker/Core/SpriteProcessor.cs:169-175 | unchanged without power-of-two; otherwise non-positive sides become 1 and sides up to 2^30 become powers of two no smaller than the side |
| BinPacking.NewPackingRectangle | src/PPacker/Core/BinPacker.cs:40-47 | a request keeps its size as its original size and is not rotated |
| BinPacking.InsertByRank | src/PPacker/Core/BinPacker.cs:89-92 | insertion into a rank-sorted list keeps it sorted and adds exactly the element |
| BinPacking.SortForPacking | src/PPacker/Core/BinPacker.cs:89-92 | the packing order is a permutation sorted by descending area, then descending longest side |
| BinPacking.ClearOfEach | src/PPacker/Core/BinPacker.cs:238-248 | a footprint is clear of the placed list iff it misses each padded box |
| BinPacking.TraceExtend | src/PPacker/Core/BinPacker.cs:94-101 | one more successful placement extends the greedy trace |
| BinPacking.MaxRight | src/PPacker/Core/BinPacker.cs:104 | the used width bounds every right edge and is attained |
| BinPacking.MaxTop | src/PPacker/Core/BinPacker.cs:105 | the used height bounds every top edge and is attained |
| BinPacking.BinPacker.constructor | src/PPacker/Core/BinPacker.cs:71-77 | the settings are stored and nothing is placed |
| BinPacking.BinPacker.Pack | src/PPacker/Core/BinPacker.cs:84-114 | after clearing, the placements are a greedy trace of the packing order; Packed with the right extent and efficiency, Unpackable when the next rectangle fits nowhere, NoRectangles for empty input |
| BinPacking.BinPacker.TryPackRectangle | src/PPacker/Core/BinPacker.cs:116-146 | success appends exactly the placement PlacedBy prescribes; failure changes nothing and the rectangle fits nowhere |
| BinPacking.BinPacker.FindBestPosition | src/PPacker/Core/BinPacker.cs:148-228 | the result satisfies the search rule: best anchor, else first row-major position, else none |
| BinPacking.BinPacker.ScanForPosition | src/PPacker/Core/BinPacker.cs:206-225 | the fallback scan returns the first feasible position in row-major order, or none when no non-negative position is feasible |
| BinPacking.BinPacker.ConsiderCandidate | src/PPacker/Core/BinPacker.cs:164-203 | a feasible candidate strictly lower, or level and further left, replaces the best; the best never gets worse |
| BinPacking.BinPacker.CanPlaceAt | src/PPacker/Core/BinPacker.cs:230-251 | true exactly when the footprint stays within the right and top edges and misses every padded box |
| BinPackingProperties.AnchorNotBetter | src/PPacker/Core/BinPacker.cs:168-191 | an anchor never beats a best position that no anchor precedes |
| BinPackingProperties.SomeExcludesNone | src/PPacker/Core/BinPacker.cs:148-228 | the search cannot both find and not find a position |
| BinPackingProperties.SearchOutcomeUnique | src/PPacker/Core/BinPacker.cs:148-228 | the search rule admits exactly one answer (determinism) |
| BinPackingProperties.SearchNoneMeansNoRoom | src/PPacker/Core/BinPacker.cs:206-227 | no answer means no non-negative position is feasible |
| BinPackingProperties.SearchFindsRoom | src/PPacker/Core/BinPacker.cs:162-227 | any feasible non-negative position forces an answer, and no feasible anchor precedes the anchor found |
| BinPackingProperties.FitsNowhereMeansNoRoom | src/PPacker/Core/BinPacker.cs:116-146 | a rectangle that fits nowhere has no room unrotated, nor rotated when rotation applies |
| BinPackingProperties.TracePrefix | src/PPacker/Core/BinPacker.cs:94-101 | every prefix of a greedy trace is a greedy trace |
| BinPackingProperties.TraceStep | src/PPacker/Core/BinPacker.cs:94-101 | step k placed request k next to the first k placements |
| BinPackingProperties.PlacedByFacts | src/PPacker/Core/BinPacker.cs:116-146 | a placement keeps name and original size; unrotated it sits where the search put the padded footprint; rotated it has swapped sides and the unrotated search failed |
| BinPackingProperties.PlacedByUnique | src/PPacker/Core/BinPacker.cs:116-146 | a request has exactly one placement next to given placements |
| BinPackingProperties.TraceUnique | src/PPacker/Core/BinPacker.cs:84-114 | the placements of a batch are determined by the requests and the settings |
| BinPackingProperties.AnchorNonNegative | src/PPacker/Core/BinPacker.cs:162-191 | anchors next to placements inside the bin have non-negative coordinates |
| BinPackingProperties.PlacementInside | src/PPacker/Core/BinPacker.cs:116-146 | a new placement keeps the padding from every bin edge |
| BinPackingProperties.TraceInsideBin | src/PPacker/Core/BinPacker.cs:230-234 | every placement of a run lies inside the bin with its padding |
| BinPackingProperties.PlacementClear | src/PPacker/Core/BinPacker.cs:236-248 | a new placement's padded box misses every earlier padded box |
| BinPackingProperties.TraceClearOfEarlier | src/PPacker/Core/BinPacker.cs:94-101 | each placement of a run misses the padded boxes of all earlier ones |
| BinPackingProperties.TraceNoOverlap | src/PPacker/Core/BinPacker.cs:230-251 | the padded boxes of any two placements of a run do not overlap |
| BinPackingProperties.TraceRotationRule | src/PPacker/Core/BinPacker.cs:129-143 | a placement is rotated only when rotation is allowed, the request is not square and the unrotated search failed; its sides are then swapped |
| BinPackingProperties.TraceKeepsAreas | src/PPacker/Core/BinPacker.cs:116-146 | every placement has its request's area |
| BinPackingProperties.TraceAreaPreserved | src/PPacker/Core/BinPacker.cs:263 | the placed area equals the requested area |
| BinPackingProperties.FootprintsPacked | src/PPacker/Core/BinPacker.cs:230-251 | the footprints of a run are pairwise disjoint and sum to the placed area |
| BinPackingProperties.TraceAreaWithinBin | src/PPacker/Core/BinPacker.cs:84-114 | a batch that packs has a total area no larger than the bin's |
| BinPackingProperties.EfficiencyInUnitRange | src/PPacker/Core/BinPacker.cs:261-266 | for a non-negative padding and requests with positive sides, the reported efficiency of a non-empty run lies in (0, 1] |
| BinPackingProperties.Blocked | src/PPacker/Core/BinPacker.cs:246-247 | a footprint overlapping a padded box is infeasible |
| BinPackingProperties.Unblocked | src/PPacker/Core/BinPacker.cs:230-251 | a footprint inside the bin missing every padded box is feasible |
| BinPackingProperties.InsertByRankStable | src/PPacker/Core/BinPacker.cs:89-92 | inserting keeps the relative order of rectangles of equal rank |
| BinPackingProperties.SortForPackingStable | src/PPacker/Core/BinPacker.cs:89-92 | the sort is stable: equally ranked rectangles keep input order |
| BinPackingProperties.SortForPackingKeepsTies | src/PPacker/Core/BinPacker.cs:89-92 | rectangles that all rank alike are packed in input order |
| BinPackingProperties.FirstPlacementAtPadding | src/PPacker/Core/BinPacker.cs:194-203 | the first rectangle that fits goes unrotated to (padding, padding) |
| BinPackingScenarios.Squares32Order | tests/PPacker.Tests/Core/BinPackerBoundaryTests.cs:16-19 | equal squares keep their input order |
| BinPackingScenarios.GridTrace | tests/PPacker.Tests/Core/BinPackerBoundaryTests.cs:67-100 | in a 512-wide bin without padding, 32x32 sprite k goes to column k % 16 of row k / 16 |
| BinPackingScenarios.GridReport | tests/PPacker.Tests/Core/BinPackerBoundaryTests.cs:67-100 | up to 16 rows' worth of 32x32 sprites all pack, in input order, row by row |
| BinPackingScenarios.PackGrid | tests/PPacker.Tests/Core/BinPackerBoundaryTests.cs:67-100 | running the packer on such sprites yields those grid positions |
| BinPackingScenarios.SixteenInOneRow | tests/PPacker.Tests/Core/BinPackerBoundaryTests.cs:9-44 | sixteen 32x32 sprites in 512x512 fill the bottom row at x = 32k |
| BinPackingScenarios.ThirtyTwoInTwoRows | tests/PPacker.Tests/Core/BinPackerBoundaryTests.cs:67-100 | thirty-two 32x32 sprites in 512x64 form two rows of sixteen |
| BinPackingScenarios.SeventeenReport | tests/PPacker.Tests/Core/BinPackerBoundaryTests.cs:48-64 | a seventeenth 32x32 sprite in 512x32 makes Pack fail |
| BinPackingScenarios.SeventeenInOneRowFail | tests/PPacker.Tests/Core/BinPackerBoundaryTests.cs:48-64 | running the packer on seventeen such sprites returns Unpackable |
| BinPackingScenarios.OversizedReport | tests/PPacker.Tests/Core/BinPackerTests.cs:32-46 | a 100x100 sprite never fits a 50x50 bin |
| BinPackingScenarios.OversizedFails | tests/PPacker.Tests/Core/BinPackerTests.cs:32-46 | running the packer on it returns Unpackable |
| BinPackingScenarios.EmptyBinOrigin | src/PPacker/Core/BinPacker.cs:194-203 | in an empty bin the search settles on the origin for any footprint that fits |
| BinPackingScenarios.RoomMeansFits | src/PPacker/Core/BinPacker.cs:116-146 | room at a non-negative position means the request does not fit nowhere |
| BinPackingScenarios.ForcedRotationReport | src/PPacker/Core/BinPacker.cs:129-143 | a 40x90 sprite in a 100x50 bin fits only rotated, at the origin, as 90x40 |
| BinPackingScenarios.ForcedRotation | src/PPacker/Core/BinPacker.cs:129-143 | running the packer on it yields that rotated placement |
| BinPackingScenarios.RotationNotNeededReport | tests/PPacker.Tests/Core/BinPackerTests.cs:48-64 | a 60x30 sprite in a 100x50 bin with rotation allowed is placed unrotated at (1, 1) |
| BinPackingScenarios.RotationNotNeeded | tests/PPacker.Tests/Core/BinPackerTests.cs:48-64 | running the packer on it yields that single placement |
| BinPackingScenarios.ThreeSquaresOrder | tests/PPacker.Tests/Core/BinPackerTests.cs:66-88 | small, large, medium are packed large first |
| BinPackingScenarios.MediumSearch | src/PPacker/Core/BinPacker.cs:164-177 | next to the large square the medium square's footprint goes to its right anchor |
| BinPackingScenarios.LargestFirstReport | tests/PPacker.Tests/Core/BinPackerTests.cs:66-88 | the large square goes to (1, 1) and the medium one to (33, 2) |
| BinPackingScenarios.LargestSquareFirst | tests/PPacker.Tests/Core/BinPackerTests.cs:66-88 | running the packer on the three squares yields those placements |
| AtlasPacking.PatternNamesSpec | src/PPacker/Core/AtlasPacker.cs:276-280 | one formatted name per frame number, ascending |
| AtlasPacking.FrameNamesSpec | src/PPacker/Core/AtlasPacker.cs:270-288 | a pattern wins and gives EndFrame - StartFrame + 1 names (none when reversed); else the explicit list |
| AtlasPacking.KeptFramesMembers | src/PPacker/Core/AtlasPacker.cs:244-259 | kept frames name atlas sprites from the list and have no own duration |
| AtlasPacking.KeptFramesComplete | src/PPacker/Core/AtlasPacker.cs:244-259 | every listed name the atlas contains is kept |
| AtlasPacking.KeptFramesOrder | src/PPacker/Core/AtlasPacker.cs:244-259 | the kept frames are the frames of exactly the names the atlas contains, one per such name, in name order |
| AtlasPacking.KeptFramesAll | src/PPacker/Core/AtlasPacker.cs:244-259 | when the atlas contains every name, every name is kept in place |
| AtlasPacking.KeptFramesSpec | src/PPacker/Core/AtlasPacker.cs:244-259 | the facts above together, plus: no frame kept exactly when the atlas contains none of the names |
| AtlasPacking.WithFramesLength | src/PPacker/Core/AtlasPacker.cs:261-264 | dropping animations never adds any |
| AtlasPacking.WithFramesMembers | src/PPacker/Core/AtlasPacker.cs:261-264 | an animation is kept iff it has a frame |
| AtlasPacking.WithFramesAll | src/PPacker/Core/AtlasPacker.cs:261-264 | when every animation has a frame, all are kept in order |
| AtlasPacking.WithFramesOrder | src/PPacker/Core/AtlasPacker.cs:261-264 | the kept animations are exactly those with frames, in their order |
| AtlasPacking.WithFramesSpec | src/PPacker/Core/AtlasPacker.cs:261-264 | the four facts above together |
| AtlasPacking.AnimationsForOrder | src/PPacker/Core/AtlasPacker.cs:232-265 | the animations follow exactly the configurations whose animation keeps a frame, in order, one each |
| AtlasPacking.AnimationsForSpec | src/PPacker/Core/AtlasPacker.cs:232-265 | every written animation comes from a configuration and has a frame; every configuration keeping a frame is written; all keeping one gives one per configuration |
| AtlasPacking.AnimationForSpec | src/PPacker/Core/AtlasPacker.cs:234-259 | an animation copies name, frame duration and loop; its frames are those of the frame names the atlas contains, in order; its total duration is frames times the configured duration |
| AtlasPacking.FirstWithName | src/PPacker/Core/AtlasPacker.cs:196 | the first sprite with the name, or none when no sprite has it |
| AtlasPacking.AtlasDataForFails | src/PPacker/Core/AtlasPacker.cs:194-196 | building the atlas data succeeds iff every placement names a loaded sprite |
| AtlasPacking.AtlasDataForEntries | src/PPacker/Core/AtlasPacker.cs:179-221 | one entry per placement copying name, position, size and rotation; trim fields present exactly for trimmed sprites; metadata version 1.0.0, the input paths and the settings |
| AtlasPacking.PlacedNamesAreSprites | src/PPacker/Core/AtlasPacker.cs:42-52 | every rectangle the packer places names a loaded sprite |
| AtlasPacking.AtlasPacker.constructor | src/PPacker/Core/AtlasPacker.cs:17-20 | the configuration is stored |
| AtlasPacking.AtlasPacker.GenerateFrameNames | src/PPacker/Core/AtlasPacker.cs:270-288 | the loop yields the frame names of the animation |
| AtlasPacking.AtlasPacker.BuildAnimation | src/PPacker/Core/AtlasPacker.cs:234-259 | the frame loop builds the configured animation with the kept frames |
| AtlasPacking.AtlasPacker.CreateAnimationCollection | src/PPacker/Core/AtlasPacker.cs:223-268 | the collection names the atlas image and holds the animations that kept a frame, in order; none without an animation list |
| AtlasPacking.AtlasPacker.CreateAtlasData | src/PPacker/Core/AtlasPacker.cs:179-221 | the loop yields the specified atlas data, or fails when a placement names no sprite |
| AtlasPacking.AtlasPacker.PackAsync | src/PPacker/Core/AtlasPacker.cs:25-99 | no sprites, or a sprite that fits nowhere, ends the run; otherwise the size is rounded as configured, the atlas data describes every placement (one per sprite), and animations are built iff some are configured and the animation path is set |
| TiledLayer.TrimStart | src/PPacker/Core/TiledMapProcessor.cs:231 | drops exactly the leading white space |
| TiledLayer.TrimEnd | src/PPacker/Core/TiledMapProcessor.cs:231 | drops exactly the trailing white space |
| TiledLayer.Trim | src/PPacker/Core/TiledMapProcessor.cs:231 | empty iff the text is blank; otherwise starts and ends with a non-space |
| TiledLayer.ToLower | src/PPacker/Core/TiledMapProcessor.cs:218 | the result has the same length, each letter A-Z becomes its lower-case letter, every other character is unchanged, and no letter A-Z remains |
| TiledLayer.Split | src/PPacker/Core/TiledMapProcessor.cs:232 | at least one piece, none containing a comma |
| TiledLayer.JoinSplit | src/PPacker/Core/TiledMapProcessor.cs:232 | joining the pieces of a split gives the text back |
| TiledLayer.SplitJoin | src/PPacker/Core/TiledMapProcessor.cs:232 | splitting comma-free pieces joined by commas gives the pieces back |
| TiledLayer.ParseUIntDecimal | src/PPacker/Core/TiledMapProcessor.cs:234 | a uint's decimal text parses back to it |
| TiledLayer.ParseUIntOk | src/PPacker/Core/TiledMapProcessor.cs:234 | a successful parse read an optional sign and decimal digits of that value; a minus sign only for zero |
| TiledLayer.ParseEntriesOk | src/PPacker/Core/TiledMapProcessor.cs:233-234 | parsing succeeds iff every non-blank entry parses, and then gives one value per non-blank entry in order |
| TiledLayer.ParseEntriesFirstError | src/PPacker/Core/TiledMapProcessor.cs:234 | a failure is that of the first non-blank entry that does not parse |
| TiledLayer.ParseEntriesBlankTail | src/PPacker/Core/TiledMapProcessor.cs:233 | a trailing blank entry changes nothing |
| TiledLayer.CsvRoundTrip | src/PPacker/Core/TiledMapProcessor.cs:229-243 | CSV text of any non-empty gid list, with white space around entries and an optional trailing comma, parses back to the list |
| TiledLayer.CsvTwelveTiles | tests/PPacker.Tests/Core/TiledMapProcessorTests.cs:149-164 | "1,2,...,12" parses to the gids 1 to 12 |
| TiledLayer.LittleEndianWords | src/PPacker/Core/TiledMapProcessor.cs:270-274 | one gid per whole four bytes, each the little-endian word at 4i |
| TiledLayer.WordRoundTrip | src/PPacker/Core/TiledMapProcessor.cs:273 | reading back a word's four little-endian bytes gives the word |
| TiledLayer.LittleEndianRoundTrip | src/PPacker/Core/TiledMapProcessor.cs:270-274 | serialized gids followed by fewer than four extra bytes read back as the gids |
| TiledLayer.TrailingBytesIgnored | src/PPacker/Core/TiledMapProcessor.cs:270 | bytes beyond the last whole word are ignored |
| TiledLayer.Decompress | src/PPacker/Core/TiledMapProcessor.cs:258-267 | gzip and zlib (any case) give the decompressor's output, or a decompression error when it fails; no or empty compression and unknown names leave the bytes; zstd is refused; no other error occurs |
| TiledLayer.CompressionIgnoresCase | src/PPacker/Core/TiledMapProcessor.cs:260 | compression names are compared case-insensitively |
| TiledLayer.ParseBase64Data | src/PPacker/Core/TiledMapProcessor.cs:248-282 | decode, decompress, then the word loop, as the base64 path specifies |
| TiledLayer.ReadWords | src/PPacker/Core/TiledMapProcessor.cs:270-274 | the array loop yields the little-endian words of the bytes |
| TiledLayer.LayerSourceSelection | src/PPacker/Core/TiledMapProcessor.cs:198-211 | tile children win; empty text gives width*height zero gids, or fails when that product wraps negative |
| TiledLayer.EncodingDispatch | src/PPacker/Core/TiledMapProcessor.cs:218-223 | "base64" (any case) takes the base64 path; anything else, or none, is CSV |
| TiledLayer.EncodingIgnoresCase | src/PPacker/Core/TiledMapProcessor.cs:218 | encodings differing only in case give the same result |
| TiledLayer.CsvLayerRoundTrip | src/PPacker/Core/TiledMapProcessor.cs:196-243 | a layer with CSV text of a gid list decodes to that list |
| TiledLayer.Base64LayerRoundTrip | src/PPacker/Core/TiledMapProcessor.cs:196-282 | a base64 layer whose decoded, decompressed bytes serialize some gids decodes to those gids |
| TiledLayer.ZstdRefused | src/PPacker/Core/TiledMapProcessor.cs:264 | zstd-compressed base64 data is refused |
| TiledMap.RawValue | src/PPacker/Core/TiledMapProcessor.cs:604 | the value attribute, else the element text, else empty |
| TiledMap.TypedValue | src/PPacker/Core/TiledMapProcessor.cs:606-615 | int and object give the parsed integer (0 when parsing fails), float the parsed float (0), bool the parsed Boolean (false); every other type keeps the text |
| TiledMap.AssignKeys | src/PPacker/Core/TiledMapProcessor.cs:602-618 | the dictionary has exactly one key per property name |
| TiledMap.LastWriteWins | src/PPacker/Core/TiledMapProcessor.cs:617 | a name maps to the typed value of its last property |
| TiledMap.ParseProperties | src/PPacker/Core/TiledMapProcessor.cs:596-621 | the loop yields the specified dictionary; no properties give an empty one |
| TiledMap.ObjectTypePrecedence | src/PPacker/Core/TiledMapProcessor.cs:548-588 | each geometry name is given exactly when its element is present and no earlier rule's is; circle when width and height differ by less than 0.001 |
| TiledMap.ConvertObject | src/PPacker/Core/TiledMapProcessor.cs:530-591 | the attributes are copied, visible iff 1, properties parsed; polygon, polyline and text are set exactly for those geometries |
| TiledMap.ObjectTypeExamples | tests/PPacker.Tests/Core/TiledMapProcessorTests.cs:283-354 | the seven objects of the test map get rectangle, ellipse, circle, point, polygon, polyline and text |
| TiledMap.TilesetSourcesKeys | src/PPacker/Core/TiledMapProcessor.cs:132-141 | the source dictionary has exactly the names of named external tilesets |
| TiledMap.DistinctElements | src/PPacker/Core/TiledMapProcessor.cs:190 | de-duplication keeps exactly the same elements, without duplicates |
| TiledMap.DistinctKeepsFirstOccurrences | src/PPacker/Core/TiledMapProcessor.cs:190 | de-duplication keeps elements in the order of their first occurrence |
| TiledMap.DistinctOfDistinct | src/PPacker/Core/TiledMapProcessor.cs:190 | a list without duplicates is unchanged |
| TiledMap.DistinctIdempotent | src/PPacker/Core/TiledMapProcessor.cs:190 | de-duplicating twice is de-duplicating once |
| TiledMap.AppendTilesetImages | src/PPacker/Core/TiledMapProcessor.cs:148-172 | the tileset's own image, then its tiles' images, are appended |
| TiledMap.AppendLayerImages | src/PPacker/Core/TiledMapProcessor.cs:176-188 | image-layer images are appended, relative to the map |
| TiledMap.VisitTileset | src/PPacker/Core/TiledMapProcessor.cs:128-173 | one tileset's images are appended and its TSX path recorded iff it has a source and a name |
| TiledMap.ExtractImagePathsWithTilesetInfo | src/PPacker/Core/TiledMapProcessor.cs:117-191 | the loops yield the de-duplicated image references in order and the tileset sources |
| TiledMap.FourImagesCollected | tests/PPacker.Tests/Core/TiledMapProcessorTests.cs:166-207 | the test map's references are the two tileset images, the tile image and the background |
| TiledMap.FourImagesExample | tests/PPacker.Tests/Core/TiledMapProcessorTests.cs:166-207 | when those four paths differ, all four come out, in order |
| PackCommand.ValidateConfigExactly | src/PPacker/Program.cs:319-355 | valid iff there are inputs, every input names an image, both output paths are set and both maximum sides are positive |
| PackCommand.FirstProblemOrder | src/PPacker/Program.cs:321-352 | each error is reported exactly when its check fails and all earlier checks pass |
| PackCommand.ValidateConfigIgnores | src/PPacker/Program.cs:319-355 | nothing but input image paths, the two output paths and the maximum sides affects validity |
| PackCommand.DefaultConfigNeedsInputs | src/PPacker/Program.cs:321-325 | the default configuration fails only for want of inputs |
| PackCommand.OverrideOutputIdempotent | src/PPacker/Program.cs:115-124 | for output paths that end in non-empty file names, and a combine that keeps such names, overriding the output directory twice is overriding once (a path ending in a separator is not kept) |
| PackCommand.OverrideSatisfiesOutputChecks | src/PPacker/Program.cs:115-124 | after the override validity is decided by the inputs, the relocated output paths and the sides; when combining with the directory never gives an empty path, only inputs and sides remain |
| PackCommand.OutputSettings.constructor | src/PPacker/Models/PackerConfig.cs:68-92 | the settings hold the given output section |
| PackCommand.OutputSettings.ApplyOutputDirectory | src/PPacker/Program.cs:115-124 | with a directory, image and data (and animation, when set) move into it; without one nothing changes |

## Left out

- Pixel work is not modelled: loading images, cropping, rotating, `CreateAtlas` and saving. An image is its alpha channel as a two-dimensional array, and a cut-out sprite is its source region plus a rotation flag.
- Files, JSON and XML are not modelled. `LoadAllSpritesAsync` reads configuration inputs, Aseprite data and Tiled maps from disk, so the loaded sprites are a parameter of `PackAsync` and its outputs are returned instead of saved.
- `async`, console output and verbose logging are left out. `ValidateConfig`'s messages are the `ConfigProblem` values.
- Library routines are function parameters:
  - base64 decoding, gzip and zlib decompression;
  - `Path.Combine`, `Path.GetFileName` and `Path.GetDirectoryName`;
  - `string.Format`;
  - `int`/`float`/`bool.TryParse`.

  Nothing is assumed about them beyond what each lemma requires. `DecompressZlib`'s two-byte header skip lies inside the zlib parameter.
- `ParsePoints` is not modelled. Converted polygons and polylines keep their `points` text.
- Coordinates, sizes and rotation of map objects are reals, not single-precision floats, so float rounding in the circle test is not modelled.
- Property values of type `float` are reals, not single-precision floats, so their rounding is not modelled.
- The packing efficiency is a real, not a `double`, so its rounding is not modelled.
- Output paths are strings that are never null. A configuration file with a null image or data path makes `Path.Combine` throw during the output-directory override, while the model relocates the file name of the empty path.
- EfficiencyInUnitRange: holds only for a non-negative padding and requests with positive sides. Request sides come from image sizes, but `ValidateConfig` does not check the padding, and with a negative padding the placed boxes may overlap, so the efficiency can exceed 1.
- ToLower: lowers only the letters A to Z, so the model assumes a current culture whose lowering of A to Z is plain ASCII and leaves other letters (such as 'Ä') as they are. Under the Turkish and Azeri cultures .NET lowers 'I' to 'ı' (U+0131) and 'İ' (U+0130) to 'i'. There the source does not recognise upper-case names containing 'I' ("GZIP" and "ZLIB" keep their bytes compressed, a property of type "INT" keeps its text), while a name spelled with 'İ' is recognised. `Decompress`, `CompressionIgnoresCase`, `EncodingIgnoresCase` and `TypedValue` inherit this assumption.
- The number parsing recognises an optional sign and decimal digits, and not culture-specific forms.
- 32-bit overflow is not modelled except in these places:
  - `NextPowerOfTwo`;
  - the `int` packing extent passed to `CalculateFinalDimensions`;
  - the cell count of an empty layer;
  - `uint` parsing.

  Areas, candidate positions and padded sizes are unbounded integers.
- GenerateFrameNames: the loop counter's overflow when `EndFrame` is `int.MaxValue` is not modelled. The model then gives the names up to `EndFrame` and stops.
- BinPacking.BinPacker.TryPackRectangle: the C# code mutates the caller's rectangle object and stores that same object. The model stores an updated copy, so aliasing between the input list and the result is not captured.
- `Pack` on an empty list throws from `Max`. The model reports `NoRectangles`, and `PackAsync` never calls it with an empty list.
- `PackAsync`'s catch-all for exceptions is not modelled beyond `CreateAtlasData`'s failed lookup. That lookup cannot happen, as `PlacedNamesAreSprites` proves.
- The metadata's generation timestamp is not modelled.
