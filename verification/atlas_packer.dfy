/** The packing pipeline of PPacker.Core.AtlasPacker: sprites are packed by the
    bin packer, the atlas size is rounded, one atlas entry is written per
    placement, and animations are assembled from the configured frame names
    that the atlas actually contains.  Loading sprites from disk and writing
    images and JSON are outside the model: the loaded sprites are a parameter
    and the outputs are returned. */
module AtlasPacking {
  import opened Common
  import opened PackerConfiguration
  import opened AtlasModel
  import opened BinPacking
  import opened BinPackingProperties
  import opened PowerOfTwo
  import opened SpriteProcessing

  /** `string.Format(namePattern, i)`. */
  type Formatter = (string, int) -> string

  // ---------------------------------------------------------------------------
  // Frame names.
  // ---------------------------------------------------------------------------

  /** The names for frames lo, lo + 1, ..., hi - 1. */
  function PatternNames(format: Formatter, namePattern: string, lo: int, hi: int): seq<string>
    decreases hi - lo
  {
    if hi <= lo then [] else PatternNames(format, namePattern, lo, hi - 1) + [format(namePattern, hi - 1)]
  }

  /** One name per frame number, in ascending order. */
  lemma {:induction false} PatternNamesSpec(format: Formatter, namePattern: string, lo: int, hi: int)
    ensures |PatternNames(format, namePattern, lo, hi)| == Max(0, hi - lo)
    ensures forall k :: 0 <= k < |PatternNames(format, namePattern, lo, hi)| ==>
      PatternNames(format, namePattern, lo, hi)[k] == format(namePattern, lo + k)
    decreases hi - lo
  {
    if lo < hi {
      PatternNamesSpec(format, namePattern, lo, hi - 1);
    }
  }

  /** The frame names of an animation: from its pattern when it has one, else
      its explicit list. */
  function FrameNames(anim: AnimationConfig, format: Formatter): seq<string> {
    match anim.pattern
    case Some(p) => PatternNames(format, p.namePattern, p.startFrame, p.endFrame + 1)
    case None => anim.frames
  }

  /** A pattern wins over the frame list and yields the names for StartFrame
      to EndFrame inclusive, none when StartFrame > EndFrame; without a pattern
      the frame list is used unchanged. */
  lemma FrameNamesSpec(anim: AnimationConfig, format: Formatter)
    ensures anim.pattern.None? ==> FrameNames(anim, format) == anim.frames
    ensures anim.pattern.Some? ==> var p := anim.pattern.value;
      var names := FrameNames(anim, format);
      |names| == Max(0, p.endFrame - p.startFrame + 1) &&
      (forall k :: 0 <= k < |names| ==> names[k] == format(p.namePattern, p.startFrame + k))
    ensures anim.pattern.Some? && anim.pattern.value.startFrame > anim.pattern.value.endFrame ==>
      FrameNames(anim, format) == []
  {
    if anim.pattern.Some? {
      var p := anim.pattern.value;
      PatternNamesSpec(format, p.namePattern, p.startFrame, p.endFrame + 1);
    }
  }

  // ---------------------------------------------------------------------------
  // Animations.
  // ---------------------------------------------------------------------------

  /** Some sprite of the atlas has exactly this name. */
  predicate InAtlas(sprites: seq<SpriteData>, name: string) {
    exists i :: 0 <= i < |sprites| && sprites[i].name == name
  }

  /** A frame without its own duration for each name the atlas contains. */
  function KeptFrames(names: seq<string>, sprites: seq<SpriteData>): seq<AnimationFrame> {
    if names == [] then []
    else
      var rest := KeptFrames(names[..|names| - 1], sprites);
      var name := names[|names| - 1];
      if InAtlas(sprites, name) then rest + [NewAnimationFrame(name)] else rest
  }

  lemma KeptFramesStep(names: seq<string>, j: nat, sprites: seq<SpriteData>)
    requires j < |names|
    ensures KeptFrames(names[..j + 1], sprites) ==
      KeptFrames(names[..j], sprites) + (if InAtlas(sprites, names[j]) then [NewAnimationFrame(names[j])] else [])
  {
    assert names[..j + 1][..j] == names[..j];
  }

  lemma {:induction false} KeptFramesMembers(names: seq<string>, sprites: seq<SpriteData>)
    ensures |KeptFrames(names, sprites)| <= |names|
    ensures forall f :: f in KeptFrames(names, sprites) ==>
      f.duration.None? && f.sprite in names && InAtlas(sprites, f.sprite)
  {
    if names != [] {
      var n := |names| - 1;
      KeptFramesMembers(names[..n], sprites);
      assert names == names[..n] + [names[n]];
    }
  }

  lemma {:induction false} KeptFramesComplete(names: seq<string>, sprites: seq<SpriteData>)
    ensures forall k :: 0 <= k < |names| && InAtlas(sprites, names[k]) ==>
      NewAnimationFrame(names[k]) in KeptFrames(names, sprites)
  {
    if names != [] {
      var n := |names| - 1;
      KeptFramesComplete(names[..n], sprites);
      assert forall k :: 0 <= k < n ==> names[..n][k] == names[k];
    }
  }

  /** A frame without its own duration for every name. */
  function FramesFor(names: seq<string>): (r: seq<AnimationFrame>)
    ensures |r| == |names| && forall k :: 0 <= k < |names| ==> r[k] == NewAnimationFrame(names[k])
  {
    seq(|names|, k requires 0 <= k < |names| => NewAnimationFrame(names[k]))
  }

  lemma {:induction false} KeptFramesAll(names: seq<string>, sprites: seq<SpriteData>)
    requires forall k :: 0 <= k < |names| ==> InAtlas(sprites, names[k])
    ensures KeptFrames(names, sprites) == FramesFor(names)
  {
    if names != [] {
      var n := |names| - 1;
      var prefix := names[..n];
      assert forall k :: 0 <= k < n ==> prefix[k] == names[k];
      KeptFramesAll(prefix, sprites);
      assert InAtlas(sprites, names[n]);
      assert FramesFor(names) == FramesFor(prefix) + [NewAnimationFrame(names[n])];
    }
  }

  /** Which of the names the atlas contains. */
  function AtlasMask(names: seq<string>, sprites: seq<SpriteData>): (m: seq<bool>)
    ensures |m| == |names| && forall k :: 0 <= k < |names| ==> m[k] == InAtlas(sprites, names[k])
  {
    seq(|names|, k requires 0 <= k < |names| => InAtlas(sprites, names[k]))
  }

  /** The kept frames are the frames of exactly the names the atlas contains,
      one per such name, in the order of the names. */
  lemma {:induction false} KeptFramesOrder(names: seq<string>, sprites: seq<SpriteData>)
    ensures var idx := Positions(AtlasMask(names, sprites));
      |idx| == |KeptFrames(names, sprites)| &&
      forall j :: 0 <= j < |idx| ==> KeptFrames(names, sprites)[j] == NewAnimationFrame(names[idx[j]])
  {
    if names != [] {
      var n := |names| - 1;
      var prefix := names[..n];
      KeptFramesOrder(prefix, sprites);
      var mask := AtlasMask(names, sprites);
      assert mask[..n] == AtlasMask(prefix, sprites);
      var before := Positions(mask[..n]);
      forall j | 0 <= j < |before|
        ensures KeptFrames(names, sprites)[j] == NewAnimationFrame(names[before[j]])
      {
        assert prefix[before[j]] == names[before[j]];
      }
    }
  }

  /** Kept frames name atlas sprites from the list and use the default
      duration; every name the atlas contains is kept; none is kept exactly
      when the atlas contains none of the names; when it contains all of
      them, every name is kept in its place; and in general the frames follow
      the names the atlas contains, in order, one each. */
  lemma KeptFramesSpec(names: seq<string>, sprites: seq<SpriteData>)
    ensures |KeptFrames(names, sprites)| <= |names|
    ensures forall f :: f in KeptFrames(names, sprites) ==>
      f.duration.None? && f.sprite in names && InAtlas(sprites, f.sprite)
    ensures forall k :: 0 <= k < |names| && InAtlas(sprites, names[k]) ==>
      NewAnimationFrame(names[k]) in KeptFrames(names, sprites)
    ensures KeptFrames(names, sprites) == [] <==> forall k :: 0 <= k < |names| ==> !InAtlas(sprites, names[k])
    ensures (forall k :: 0 <= k < |names| ==> InAtlas(sprites, names[k])) ==>
      |KeptFrames(names, sprites)| == |names| &&
      forall k :: 0 <= k < |names| ==> KeptFrames(names, sprites)[k] == NewAnimationFrame(names[k])
    ensures var idx := Positions(AtlasMask(names, sprites));
      |idx| == |KeptFrames(names, sprites)| &&
      forall j :: 0 <= j < |idx| ==> KeptFrames(names, sprites)[j] == NewAnimationFrame(names[idx[j]])
  {
    KeptFramesOrder(names, sprites);
    KeptFramesMembers(names, sprites);
    KeptFramesComplete(names, sprites);
    if forall k :: 0 <= k < |names| ==> InAtlas(sprites, names[k]) {
      KeptFramesAll(names, sprites);
    }
    if KeptFrames(names, sprites) != [] {
      var f := KeptFrames(names, sprites)[0];
      assert f in KeptFrames(names, sprites);
      var k :| 0 <= k < |names| && names[k] == f.sprite;
    }
  }

  /** The animation built for one configuration, before the empty check. */
  function AnimationFor(anim: AnimationConfig, sprites: seq<SpriteData>, format: Formatter): AnimationData {
    NewAnimationData(anim.name).(
      frames := KeptFrames(FrameNames(anim, format), sprites),
      defaultDuration := anim.frameDuration,
      loop := anim.loop)
  }

  /** The animations of `built` that have at least one frame, in order. */
  function WithFrames(built: seq<AnimationData>): seq<AnimationData> {
    if built == [] then []
    else
      var rest := WithFrames(built[..|built| - 1]);
      var a := built[|built| - 1];
      if a.frames != [] then rest + [a] else rest
  }

  lemma {:induction false} WithFramesLength(built: seq<AnimationData>)
    ensures |WithFrames(built)| <= |built|
  {
    if built != [] {
      WithFramesLength(built[..|built| - 1]);
    }
  }

  lemma {:induction false} WithFramesMembers(built: seq<AnimationData>)
    ensures forall a :: a in WithFrames(built) <==> a in built && a.frames != []
  {
    if built != [] {
      var n := |built| - 1;
      WithFramesMembers(built[..n]);
      assert built == built[..n] + [built[n]];
    }
  }

  lemma {:induction false} WithFramesAll(built: seq<AnimationData>)
    requires forall k :: 0 <= k < |built| ==> built[k].frames != []
    ensures WithFrames(built) == built
  {
    if built != [] {
      var n := |built| - 1;
      WithFramesAll(built[..n]);
      assert built == built[..n] + [built[n]];
    }
  }

  /** Which of the animations have at least one frame. */
  function FramedMask(built: seq<AnimationData>): (m: seq<bool>)
    ensures |m| == |built| && forall k :: 0 <= k < |built| ==> m[k] == (built[k].frames != [])
  {
    seq(|built|, k requires 0 <= k < |built| => built[k].frames != [])
  }

  /** The kept animations are exactly those with frames, in their order. */
  lemma {:induction false} WithFramesOrder(built: seq<AnimationData>)
    ensures var idx := Positions(FramedMask(built));
      |idx| == |WithFrames(built)| &&
      forall j :: 0 <= j < |idx| ==> WithFrames(built)[j] == built[idx[j]]
  {
    if built != [] {
      var n := |built| - 1;
      var prefix := built[..n];
      WithFramesOrder(prefix);
      var mask := FramedMask(built);
      assert mask[..n] == FramedMask(prefix);
      var before := Positions(mask[..n]);
      forall j | 0 <= j < |before|
        ensures WithFrames(built)[j] == built[before[j]]
      {
        assert prefix[before[j]] == built[before[j]];
      }
    }
  }

  /** Exactly the animations with frames are kept, in order. */
  lemma WithFramesSpec(built: seq<AnimationData>)
    ensures |WithFrames(built)| <= |built|
    ensures forall a :: a in WithFrames(built) <==> a in built && a.frames != []
    ensures (forall k :: 0 <= k < |built| ==> built[k].frames != []) ==> WithFrames(built) == built
    ensures var idx := Positions(FramedMask(built));
      |idx| == |WithFrames(built)| &&
      forall j :: 0 <= j < |idx| ==> WithFrames(built)[j] == built[idx[j]]
  {
    WithFramesOrder(built);
    WithFramesLength(built);
    WithFramesMembers(built);
    if forall k :: 0 <= k < |built| ==> built[k].frames != [] {
      WithFramesAll(built);
    }
  }

  /** One animation per configuration, frames not yet checked. */
  function Built(configs: seq<AnimationConfig>, sprites: seq<SpriteData>, format: Formatter): seq<AnimationData> {
    seq(|configs|, k requires 0 <= k < |configs| => AnimationFor(configs[k], sprites, format))
  }

  /** The animations of the configurations, skipping those left without frames. */
  function AnimationsFor(configs: seq<AnimationConfig>, sprites: seq<SpriteData>, format: Formatter): seq<AnimationData> {
    WithFrames(Built(configs, sprites, format))
  }

  lemma AnimationsForStep(configs: seq<AnimationConfig>, i: nat, sprites: seq<SpriteData>, format: Formatter)
    requires i < |configs|
    ensures AnimationsFor(configs[..i + 1], sprites, format) ==
      var a := AnimationFor(configs[i], sprites, format);
      AnimationsFor(configs[..i], sprites, format) + (if a.frames != [] then [a] else [])
  {
    var built := Built(configs[..i + 1], sprites, format);
    assert built[..i] == Built(configs[..i], sprites, format);
    assert built[i] == AnimationFor(configs[i], sprites, format);
  }

  /** The collection follows exactly the configurations whose animation keeps
      a frame, in order, one animation each. */
  lemma AnimationsForOrder(configs: seq<AnimationConfig>, sprites: seq<SpriteData>, format: Formatter)
    ensures var idx := Positions(FramedMask(Built(configs, sprites, format)));
      |idx| == |AnimationsFor(configs, sprites, format)| &&
      forall j :: 0 <= j < |idx| ==> AnimationsFor(configs, sprites, format)[j] == AnimationFor(configs[idx[j]], sprites, format)
  {
    WithFramesOrder(Built(configs, sprites, format));
  }

  /** Every animation in the collection comes from a configuration and has a
      frame, every configuration that keeps a frame is represented, and when
      each keeps one the collection follows the configurations one to one. */
  lemma AnimationsForSpec(configs: seq<AnimationConfig>, sprites: seq<SpriteData>, format: Formatter)
    ensures |AnimationsFor(configs, sprites, format)| <= |configs|
    ensures forall a :: a in AnimationsFor(configs, sprites, format) ==>
      a.frames != [] && exists k :: 0 <= k < |configs| && a == AnimationFor(configs[k], sprites, format)
    ensures forall k :: 0 <= k < |configs| && AnimationFor(configs[k], sprites, format).frames != [] ==>
      AnimationFor(configs[k], sprites, format) in AnimationsFor(configs, sprites, format)
    ensures (forall k :: 0 <= k < |configs| ==> AnimationFor(configs[k], sprites, format).frames != []) ==>
      AnimationsFor(configs, sprites, format) == Built(configs, sprites, format)
  {
    var built := Built(configs, sprites, format);
    WithFramesLength(built);
    WithFramesMembers(built);
    if forall k :: 0 <= k < |built| ==> built[k].frames != [] {
      WithFramesAll(built);
    }
    forall a | a in AnimationsFor(configs, sprites, format)
      ensures exists k :: 0 <= k < |configs| && a == AnimationFor(configs[k], sprites, format)
    {
      var k :| 0 <= k < |built| && built[k] == a;
    }
    forall k | 0 <= k < |configs| && AnimationFor(configs[k], sprites, format).frames != []
      ensures AnimationFor(configs[k], sprites, format) in AnimationsFor(configs, sprites, format)
    {
      assert built[k] in built;
    }
  }

  /** An assembled animation copies the configured name, frame duration and
      loop flag; its frames are those of the frame names the atlas contains,
      in order, and all fall back to that duration, so it runs for the number
      of frames times the configured duration. */
  lemma AnimationForSpec(anim: AnimationConfig, sprites: seq<SpriteData>, format: Formatter)
    ensures var a := AnimationFor(anim, sprites, format);
      a.name == anim.name && a.defaultDuration == anim.frameDuration && a.loop == anim.loop &&
      TotalDuration(a) == |a.frames| * anim.frameDuration
    ensures var a := AnimationFor(anim, sprites, format);
      var names := FrameNames(anim, format);
      var idx := Positions(AtlasMask(names, sprites));
      |idx| == |a.frames| && forall j :: 0 <= j < |idx| ==> a.frames[j] == NewAnimationFrame(names[idx[j]])
  {
    var a := AnimationFor(anim, sprites, format);
    KeptFramesSpec(FrameNames(anim, format), sprites);
    assert forall i :: 0 <= i < |a.frames| ==> a.frames[i] in a.frames;
  }

  /** The animation file's contents: the atlas image path and the animations
      of the configuration (none when it has no animation list). */
  function CollectionFor(config: PackerConfig, atlasData: AtlasData, format: Formatter): AnimationCollection {
    var animations := match config.animations
      case None => []
      case Some(configs) => AnimationsFor(configs, atlasData.sprites, format);
    AnimationCollection(animations, config.output.imagePath)
  }

  /** Animations are written only when some are configured and the animation
      output path is set. */
  predicate WantsAnimations(config: PackerConfig) {
    config.animations.Some? && config.animations.value != [] && HasText(config.output.animationPath)
  }

  // ---------------------------------------------------------------------------
  // Atlas entries.
  // ---------------------------------------------------------------------------

  /** The position of the first sprite with this name (`First`), if any. */
  function FirstWithName(sprites: seq<SpriteInfo>, name: string): (r: Option<nat>)
    ensures r.None? <==> forall i :: 0 <= i < |sprites| ==> sprites[i].name != name
    ensures r.Some? ==>
      r.value < |sprites| && sprites[r.value].name == name &&
      forall j :: 0 <= j < r.value ==> sprites[j].name != name
  {
    if sprites == [] then None
    else if sprites[0].name == name then Some(0)
    else
      match FirstWithName(sprites[1..], name)
      case None => None
      case Some(i) => Some(i + 1)
  }

  /** The atlas entry for a placement of `sprite`: the placement's name,
      position, size and rotation, plus the trim data for a trimmed sprite. */
  function SpriteEntry(packed: PackingRectangle, sprite: SpriteInfo): SpriteData {
    var entry := SpriteData(packed.name, packed.x, packed.y, packed.width, packed.height, packed.rotated, None, None, None, None);
    if sprite.wasTrimmed then
      entry.(sourceWidth := Some(sprite.originalWidth), sourceHeight := Some(sprite.originalHeight),
             trimX := Some(sprite.trimX), trimY := Some(sprite.trimY))
    else entry
  }

  /** Every placement names a loaded sprite. */
  predicate AllNamed(packed: seq<PackingRectangle>, sprites: seq<SpriteInfo>) {
    forall k :: 0 <= k < |packed| ==> FirstWithName(sprites, packed[k].name).Some?
  }

  /** The entries for the placements in order, or nothing when a placement
      names no loaded sprite (the lookup throws). */
  function AtlasEntries(packed: seq<PackingRectangle>, sprites: seq<SpriteInfo>): Option<seq<SpriteData>> {
    if AllNamed(packed, sprites) then
      Some(seq(|packed|, k requires 0 <= k < |packed| => SpriteEntry(packed[k], sprites[FirstWithName(sprites, packed[k].name).value])))
    else None
  }

  /** The source image paths recorded in the metadata. */
  function Sources(inputs: seq<InputConfig>): seq<string> {
    seq(|inputs|, i requires 0 <= i < |inputs| => inputs[i].imagePath)
  }

  function AtlasDataFor(config: PackerConfig, packed: seq<PackingRectangle>, width: int, height: int, sprites: seq<SpriteInfo>): Option<AtlasData> {
    match AtlasEntries(packed, sprites)
    case None => None
    case Some(entries) => Some(AtlasData(width, height, entries, AtlasMetadata("1.0.0", Sources(config.inputs), config.atlas)))
  }

  /** Some loaded sprite has exactly this name. */
  predicate Loaded(sprites: seq<SpriteInfo>, name: string) {
    exists i :: 0 <= i < |sprites| && sprites[i].name == name
  }

  /** Building the atlas data succeeds exactly when every placement names a
      loaded sprite. */
  lemma AtlasDataForFails(config: PackerConfig, packed: seq<PackingRectangle>, width: int, height: int, sprites: seq<SpriteInfo>)
    ensures AtlasDataFor(config, packed, width, height, sprites).Some? <==>
      forall k :: 0 <= k < |packed| ==> Loaded(sprites, packed[k].name)
  {
    forall k | 0 <= k < |packed|
      ensures Loaded(sprites, packed[k].name) <==> FirstWithName(sprites, packed[k].name).Some?
    {
      var r := FirstWithName(sprites, packed[k].name);
      if r.Some? {
        assert sprites[r.value].name == packed[k].name;
      }
    }
  }

  /** One entry per placement, in packing order, copying name, position, size
      and rotation; the four trim fields are present exactly for trimmed
      sprites and then hold the first same-named sprite's original size and
      trim offset.  The metadata records version 1.0.0, the input image paths
      and the atlas settings. */
  lemma AtlasDataForEntries(config: PackerConfig, packed: seq<PackingRectangle>, width: int, height: int, sprites: seq<SpriteInfo>)
    requires AtlasDataFor(config, packed, width, height, sprites).Some?
    ensures var atlas := AtlasDataFor(config, packed, width, height, sprites).value;
      atlas.width == width && atlas.height == height &&
      atlas.metadata.version == "1.0.0" && atlas.metadata.settings == config.atlas &&
      |atlas.metadata.sources| == |config.inputs| &&
      (forall i :: 0 <= i < |config.inputs| ==> atlas.metadata.sources[i] == config.inputs[i].imagePath) &&
      |atlas.sprites| == |packed|
    ensures var atlas := AtlasDataFor(config, packed, width, height, sprites).value;
      forall k :: 0 <= k < |packed| ==>
        var e, p := atlas.sprites[k], packed[k];
        var s := sprites[FirstWithName(sprites, p.name).value];
        s.name == p.name &&
        e.name == p.name && e.x == p.x && e.y == p.y && e.width == p.width && e.height == p.height &&
        e.rotated == p.rotated &&
        (e.sourceWidth.Some? <==> s.wasTrimmed) && (e.sourceHeight.Some? <==> s.wasTrimmed) &&
        (e.trimX.Some? <==> s.wasTrimmed) && (e.trimY.Some? <==> s.wasTrimmed) &&
        (s.wasTrimmed ==> e.sourceWidth == Some(s.originalWidth) && e.sourceHeight == Some(s.originalHeight) &&
                          e.trimX == Some(s.trimX) && e.trimY == Some(s.trimY))
  {
  }

  // ---------------------------------------------------------------------------
  // Packing.
  // ---------------------------------------------------------------------------

  /** The size of a sprite's picture, turned when it is rotated. */
  function PictureWidth(s: SpriteInfo): int {
    if s.picture.rotated then s.picture.region.height else s.picture.region.width
  }

  function PictureHeight(s: SpriteInfo): int {
    if s.picture.rotated then s.picture.region.width else s.picture.region.height
  }

  /** One packing request per sprite, of its picture's size and name. */
  function Requests(sprites: seq<SpriteInfo>): seq<PackingRectangle> {
    seq(|sprites|, i requires 0 <= i < |sprites| => NewPackingRectangle(PictureWidth(sprites[i]), PictureHeight(sprites[i]), sprites[i].name))
  }

  function BinFor(atlas: AtlasConfig): BinSettings {
    BinSettings(atlas.maxWidth, atlas.maxHeight, atlas.padding, atlas.allowRotation)
  }

  /** Every rectangle the packer places carries the name of a loaded sprite,
      so the atlas entries can always be built. */
  lemma PlacedNamesAreSprites(bin: BinSettings, sprites: seq<SpriteInfo>, placed: seq<PackingRectangle>, outcome: PackOutcome)
    requires PackReport(bin, Requests(sprites), placed, outcome)
    ensures AllNamed(placed, sprites)
  {
    var requests := Requests(sprites);
    var order := SortForPacking(requests);
    forall k | 0 <= k < |placed| ensures FirstWithName(sprites, placed[k].name).Some? {
      TraceRotationRule(bin, order[..|placed|], placed, k);
      assert placed[k].name == order[k].name;
      assert order[k] in multiset(requests);
      var j :| 0 <= j < |requests| && requests[j] == order[k];
      assert sprites[j].name == placed[k].name;
    }
  }

  /** What a packing run ends with.  `PackAsync` returns true exactly for
      `Completed`. */
  datatype PackRun =
    | NoSprites
    | PackingFailed
    | Completed(width: int32, height: int32, atlas: AtlasData, animations: Option<AnimationCollection>)

  /** The packer for one configuration; it keeps no other state. */
  class AtlasPacker {
    const config: PackerConfig

    constructor (config: PackerConfig)
      ensures this.config == config
    {
      this.config := config;
    }

    /** The frame names of an animation, one per frame number of its pattern,
        or its explicit list. */
    method GenerateFrameNames(animConfig: AnimationConfig, atlasData: AtlasData, format: Formatter)
      returns (frameNames: seq<string>)
      ensures frameNames == FrameNames(animConfig, format)
    {
      if animConfig.pattern.Some? {
        var pattern := animConfig.pattern.value;
        frameNames := [];
        var i := pattern.startFrame;
        while i <= pattern.endFrame
          invariant pattern.startFrame <= i <= Max(pattern.startFrame, pattern.endFrame + 1)
          invariant frameNames == PatternNames(format, pattern.namePattern, pattern.startFrame, i)
          decreases pattern.endFrame - i
        {
          var frameName := format(pattern.namePattern, i);
          frameNames := frameNames + [frameName];
          i := i + 1;
        }
      } else {
        frameNames := animConfig.frames;
      }
    }

    /** One configured animation with the frames whose sprites the atlas
        holds, in frame order. */
    method BuildAnimation(animConfig: AnimationConfig, atlasData: AtlasData, format: Formatter) returns (animation: AnimationData)
      ensures animation == AnimationFor(animConfig, atlasData.sprites, format)
    {
      animation := NewAnimationData(animConfig.name).(defaultDuration := animConfig.frameDuration, loop := animConfig.loop);
      var frameNames := GenerateFrameNames(animConfig, atlasData, format);
      var j := 0;
      while j < |frameNames|
        invariant 0 <= j <= |frameNames|
        invariant animation == AnimationFor(animConfig, atlasData.sprites, format).(frames := KeptFrames(frameNames[..j], atlasData.sprites))
      {
        var frameName := frameNames[j];
        if InAtlas(atlasData.sprites, frameName) {
          animation := animation.(frames := animation.frames + [NewAnimationFrame(frameName)]);
        }
        KeptFramesStep(frameNames, j, atlasData.sprites);
        j := j + 1;
      }
      assert frameNames[..j] == frameNames;
    }

    /** Assembles the animations: each configuration's frames that the atlas
        contains, without per-frame durations; animations left without frames
        are dropped. */
    method CreateAnimationCollection(atlasData: AtlasData, format: Formatter) returns (collection: AnimationCollection)
      ensures collection == CollectionFor(config, atlasData, format)
    {
      collection := AnimationCollection([], config.output.imagePath);
      if config.animations.None? {
        return;
      }
      var configs := config.animations.value;
      var i := 0;
      while i < |configs|
        invariant 0 <= i <= |configs|
        invariant collection == AnimationCollection(AnimationsFor(configs[..i], atlasData.sprites, format), config.output.imagePath)
      {
        var animation := BuildAnimation(configs[i], atlasData, format);
        if animation.frames != [] {
          collection := collection.(animations := collection.animations + [animation]);
        }
        AnimationsForStep(configs, i, atlasData.sprites, format);
        i := i + 1;
      }
      assert configs[..i] == configs;
    }

    /** Writes one atlas entry per placement, in packing order; fails when a
        placement names no loaded sprite. */
    method CreateAtlasData(packingResult: PackingResult, atlasWidth: int, atlasHeight: int, sprites: seq<SpriteInfo>)
      returns (atlasData: Option<AtlasData>)
      ensures atlasData == AtlasDataFor(config, packingResult.packedRectangles, atlasWidth, atlasHeight, sprites)
    {
      var metadata := AtlasMetadata("1.0.0", Sources(config.inputs), config.atlas);
      var entries: seq<SpriteData> := [];
      var packed := packingResult.packedRectangles;
      var i := 0;
      while i < |packed|
        invariant 0 <= i <= |packed|
        invariant |entries| == i
        invariant forall k :: 0 <= k < i ==>
          FirstWithName(sprites, packed[k].name).Some? &&
          entries[k] == SpriteEntry(packed[k], sprites[FirstWithName(sprites, packed[k].name).value])
      {
        var packedRect := packed[i];
        var found := FirstWithName(sprites, packedRect.name);
        if found.None? {
          return None;
        }
        var sprite := sprites[found.value];
        var spriteData := SpriteData(packedRect.name, packedRect.x, packedRect.y, packedRect.width, packedRect.height,
                                     packedRect.rotated, None, None, None, None);
        if sprite.wasTrimmed {
          spriteData := spriteData.(sourceWidth := Some(sprite.originalWidth), sourceHeight := Some(sprite.originalHeight),
                                    trimX := Some(sprite.trimX), trimY := Some(sprite.trimY));
        }
        entries := entries + [spriteData];
        i := i + 1;
      }
      assert AllNamed(packed, sprites);
      assert AtlasEntries(packed, sprites).value == entries;
      atlasData := Some(AtlasData(atlasWidth, atlasHeight, entries, metadata));
    }

    /** Packs the loaded sprites.  There are two failure exits: no sprites,
        and a sprite that fits nowhere.  Otherwise the atlas size is rounded
        as configured, the atlas data describes every placement, and the
        animations are assembled when they are wanted. */
    method PackAsync(allSprites: seq<SpriteInfo>, format: Formatter)
      returns (run: PackRun, ghost placed: seq<PackingRectangle>, ghost outcome: PackOutcome)
      ensures allSprites == [] <==> run == NoSprites
      ensures allSprites != [] ==> PackReport(BinFor(config.atlas), Requests(allSprites), placed, outcome)
      ensures run == PackingFailed <==> allSprites != [] && outcome.Unpackable?
      ensures run.Completed? <==> allSprites != [] && outcome.Packed?
      ensures run.Completed? ==>
        var result := outcome.result;
        var size := CalculateFinalDimensions(Wrap32(result.actualWidth) as int32, Wrap32(result.actualHeight) as int32,
                                             config.atlas.powerOfTwo);
        run.width == size.0 && run.height == size.1 &&
        AtlasDataFor(config, placed, size.0 as int, size.1 as int, allSprites) == Some(run.atlas) &&
        |run.atlas.sprites| == |allSprites| &&
        run.animations == (if WantsAnimations(config) then Some(CollectionFor(config, run.atlas, format)) else None)
    {
      placed, outcome := [], NoRectangles;
      if allSprites == [] {
        run := NoSprites;
        return;
      }
      var packingRects := Requests(allSprites);
      var packer := new BinPacker(config.atlas.maxWidth, config.atlas.maxHeight, config.atlas.padding, config.atlas.allowRotation);
      var packingResult := packer.Pack(packingRects);
      placed, outcome := packer.packedRectangles, packingResult;
      if !packingResult.Packed? {
        run := PackingFailed;
        return;
      }
      var result := packingResult.result;
      var size := CalculateFinalDimensions(Wrap32(result.actualWidth) as int32, Wrap32(result.actualHeight) as int32,
                                           config.atlas.powerOfTwo);
      PlacedNamesAreSprites(BinFor(config.atlas), allSprites, placed, outcome);
      var atlasData := CreateAtlasData(result, size.0 as int, size.1 as int, allSprites);
      var animations: Option<AnimationCollection> := None;
      if config.animations.Some? && config.animations.value != [] && HasText(config.output.animationPath) {
        var collection := CreateAnimationCollection(atlasData.value, format);
        animations := Some(collection);
      }
      run := Completed(size.0, size.1, atlasData.value, animations);
    }
  }
}
