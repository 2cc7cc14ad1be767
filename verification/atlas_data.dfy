/** The atlas description written next to the atlas image, and the animation
    records built from it. */
module AtlasModel {
  import opened Common
  import opened PackerConfiguration

  /** One sprite of an atlas, or of a sprite sheet being read back.  The four
      optional fields are present only for trimmed sprites. */
  datatype SpriteData = SpriteData(
    name: string,
    x: int,
    y: int,
    width: int,
    height: int,
    rotated: bool,
    sourceWidth: Option<int>,
    sourceHeight: Option<int>,
    trimX: Option<int>,
    trimY: Option<int>)

  /** The metadata block.  The generation time stamp is not modelled. */
  datatype AtlasMetadata = AtlasMetadata(version: string, sources: seq<string>, settings: AtlasConfig)

  datatype AtlasData = AtlasData(width: int, height: int, sprites: seq<SpriteData>, metadata: AtlasMetadata)

  /** A frame shows sprite `sprite`; without a duration it lasts the
      animation's default duration. */
  datatype AnimationFrame = AnimationFrame(sprite: string, duration: Option<int>)

  datatype AnimationData = AnimationData(name: string, frames: seq<AnimationFrame>, defaultDuration: int, loop: bool)

  datatype AnimationCollection = AnimationCollection(animations: seq<AnimationData>, atlasFile: string)

  /** A new frame has no duration of its own. */
  function NewAnimationFrame(sprite: string): (f: AnimationFrame)
    ensures f.sprite == sprite && f.duration.None?
  {
    AnimationFrame(sprite, None)
  }

  /** A new animation has no frames, lasts 100 ms per frame and loops. */
  function NewAnimationData(name: string): (a: AnimationData)
    ensures a.name == name && a.frames == []
    ensures a.defaultDuration == 100 && a.loop
  {
    AnimationData(name, [], 100, true)
  }

  /** How long a frame is shown: its own duration, else the default. */
  function FrameDuration(f: AnimationFrame, defaultDuration: int): (d: int)
    ensures f.duration.None? ==> d == defaultDuration
    ensures f.duration.Some? ==> d == f.duration.value
  {
    match f.duration
    case Some(d) => d
    case None => defaultDuration
  }

  /** Sum of the frame durations of `frames`, each falling back to `defaultDuration`. */
  function SumDurations(frames: seq<AnimationFrame>, defaultDuration: int): int {
    if frames == [] then 0
    else SumDurations(frames[..|frames| - 1], defaultDuration) + FrameDuration(frames[|frames| - 1], defaultDuration)
  }

  /** Total running time of one pass of the animation. */
  function TotalDuration(a: AnimationData): (total: int)
    ensures a.frames == [] ==> total == 0
    ensures (forall i :: 0 <= i < |a.frames| ==> a.frames[i].duration.None?) ==>
      total == |a.frames| * a.defaultDuration
  {
    AllDefaultDurations(a.frames, a.defaultDuration);
    SumDurations(a.frames, a.defaultDuration)
  }

  /** Frames without durations each contribute the default. */
  lemma {:induction false} AllDefaultDurations(frames: seq<AnimationFrame>, defaultDuration: int)
    ensures (forall i :: 0 <= i < |frames| ==> frames[i].duration.None?) ==>
      SumDurations(frames, defaultDuration) == |frames| * defaultDuration
  {
    if frames != [] && forall i :: 0 <= i < |frames| ==> frames[i].duration.None? {
      var m := |frames| - 1;
      assert forall i :: 0 <= i < m ==> frames[..m][i] == frames[i];
      AllDefaultDurations(frames[..m], defaultDuration);
    }
  }

  /** The total of a concatenation is the sum of the totals. */
  lemma {:induction false} SumDurationsAppend(a: seq<AnimationFrame>, b: seq<AnimationFrame>, defaultDuration: int)
    ensures SumDurations(a + b, defaultDuration) == SumDurations(a, defaultDuration) + SumDurations(b, defaultDuration)
    decreases |b|
  {
    if b != [] {
      var m := |b| - 1;
      assert (a + b)[..|a + b| - 1] == a + b[..m];
      SumDurationsAppend(a, b[..m], defaultDuration);
    } else {
      assert a + b == a;
    }
  }

  /** Appending a frame adds its duration to the total. */
  lemma AppendFrameDuration(a: AnimationData, f: AnimationFrame)
    ensures TotalDuration(a.(frames := a.frames + [f])) == TotalDuration(a) + FrameDuration(f, a.defaultDuration)
  {
    assert (a.frames + [f])[..|a.frames|] == a.frames;
  }

  /** If every duration (and the default) is non-negative, so is the total, and
      it is at least each frame's own duration. */
  lemma {:induction false} TotalDurationBounds(frames: seq<AnimationFrame>, defaultDuration: int)
    requires defaultDuration >= 0
    requires forall i :: 0 <= i < |frames| ==> frames[i].duration.Some? ==> frames[i].duration.value >= 0
    ensures SumDurations(frames, defaultDuration) >= 0
    ensures forall i :: 0 <= i < |frames| ==>
      FrameDuration(frames[i], defaultDuration) <= SumDurations(frames, defaultDuration)
  {
    if frames != [] {
      var m := |frames| - 1;
      assert forall i :: 0 <= i < m ==> frames[..m][i] == frames[i];
      TotalDurationBounds(frames[..m], defaultDuration);
      var last := FrameDuration(frames[m], defaultDuration);
      assert last >= 0;
      forall i | 0 <= i < m ensures FrameDuration(frames[i], defaultDuration) <= SumDurations(frames, defaultDuration) {
        assert FrameDuration(frames[..m][i], defaultDuration) <= SumDurations(frames[..m], defaultDuration);
      }
    }
  }

  /** A 150 ms frame followed by a frame without a duration, default 100: 250 ms. */
  lemma MixedDurationExample()
    ensures TotalDuration(AnimationData("walk", [AnimationFrame("walk_01", Some(150)), NewAnimationFrame("walk_02")], 100, true)) == 250
  {
    var frames := [AnimationFrame("walk_01", Some(150)), NewAnimationFrame("walk_02")];
    assert frames[..1] == [AnimationFrame("walk_01", Some(150))];
    assert frames[..1][..0] == [];
    assert SumDurations(frames[..1], 100) == 150;
    assert SumDurations(frames, 100) == 250;
  }
}
