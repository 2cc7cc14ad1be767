/** Sprite loading without pixels: an image is its alpha channel, a grid of
    bytes indexed [row, column]; a loaded sprite records which region of its
    source image it shows.  Covers transparent-border trimming, cutting sprites
    out of a sprite sheet, and the final atlas size. */
module SpriteProcessing {
  import opened Common
  import opened PowerOfTwo
  import opened AtlasModel

  /** An integer rectangle; `x + width` is its right edge, `y + height` its bottom. */
  datatype Rectangle = Rectangle(x: int, y: int, width: int, height: int)

  predicate Contains(r: Rectangle, px: int, py: int) {
    r.x <= px < r.x + r.width && r.y <= py < r.y + r.height
  }

  function FullBounds(width: int, height: int): Rectangle {
    Rectangle(0, 0, width, height)
  }

  /** The overlap of two rectangles, or the empty rectangle (0, 0, 0, 0) when
      they do not meet. */
  function Intersect(a: Rectangle, b: Rectangle): (r: Rectangle)
    ensures r.width >= 0 && r.height >= 0
    ensures forall px, py :: Contains(r, px, py) <==> Contains(a, px, py) && Contains(b, px, py)
  {
    var x1 := Max(a.x, b.x);
    var x2 := Min(a.x + a.width, b.x + b.width);
    var y1 := Max(a.y, b.y);
    var y2 := Min(a.y + a.height, b.y + b.height);
    if x2 >= x1 && y2 >= y1 then Rectangle(x1, y1, x2 - x1, y2 - y1)
    else Rectangle(0, 0, 0, 0)
  }

  /** A non-empty intersection lies within both rectangles. */
  lemma IntersectWithin(a: Rectangle, b: Rectangle)
    requires var r := Intersect(a, b); r.width > 0 && r.height > 0
    ensures var r := Intersect(a, b);
      a.x <= r.x && r.x + r.width <= a.x + a.width && a.y <= r.y && r.y + r.height <= a.y + a.height &&
      b.x <= r.x && r.x + r.width <= b.x + b.width && b.y <= r.y && r.y + r.height <= b.y + b.height
  {
    var r := Intersect(a, b);
    assert Contains(r, r.x, r.y);
    assert Contains(r, r.x + r.width - 1, r.y + r.height - 1);
  }

  // ---------------------------------------------------------------------------
  // Trimming.
  // ---------------------------------------------------------------------------

  /** The image has a pixel with non-zero alpha. */
  ghost predicate HasOpaque(alpha: array2<byte>)
    reads alpha
  {
    exists py, px :: 0 <= py < alpha.Length0 && 0 <= px < alpha.Length1 && alpha[py, px] > 0
  }

  /** Some pixel of column `px` in rows [top, bottom) is non-transparent. */
  ghost predicate OpaqueInColumn(alpha: array2<byte>, px: int, top: int, bottom: int)
    reads alpha
  {
    exists py :: top <= py < bottom && 0 <= py < alpha.Length0 && 0 <= px < alpha.Length1 && alpha[py, px] > 0
  }

  /** Some pixel of row `py` in columns [left, right) is non-transparent. */
  ghost predicate OpaqueInRow(alpha: array2<byte>, py: int, left: int, right: int)
    reads alpha
  {
    exists px :: left <= px < right && 0 <= py < alpha.Length0 && 0 <= px < alpha.Length1 && alpha[py, px] > 0
  }

  /** `r` is the tight box of the non-transparent pixels: it lies in the image,
      contains each of them, and each of its four edges passes through one. */
  ghost predicate TightBox(alpha: array2<byte>, r: Rectangle)
    reads alpha
  {
    0 <= r.x && 1 <= r.width && r.x + r.width <= alpha.Length1 &&
    0 <= r.y && 1 <= r.height && r.y + r.height <= alpha.Length0 &&
    (forall py, px :: 0 <= py < alpha.Length0 && 0 <= px < alpha.Length1 && alpha[py, px] > 0 ==> Contains(r, px, py)) &&
    OpaqueInColumn(alpha, r.x, r.y, r.y + r.height) &&
    OpaqueInColumn(alpha, r.x + r.width - 1, r.y, r.y + r.height) &&
    OpaqueInRow(alpha, r.y, r.x, r.x + r.width) &&
    OpaqueInRow(alpha, r.y + r.height - 1, r.x, r.x + r.width)
  }

  /** Any rectangle holding every non-transparent pixel holds the tight box. */
  lemma TightBoxIsLeast(alpha: array2<byte>, r: Rectangle, s: Rectangle)
    requires TightBox(alpha, r)
    requires forall py, px :: 0 <= py < alpha.Length0 && 0 <= px < alpha.Length1 && alpha[py, px] > 0 ==> Contains(s, px, py)
    ensures s.x <= r.x && r.x + r.width <= s.x + s.width
    ensures s.y <= r.y && r.y + r.height <= s.y + s.height
  {
    var left :| r.y <= left < r.y + r.height && 0 <= left < alpha.Length0 && 0 <= r.x < alpha.Length1 && alpha[left, r.x] > 0;
    var right :| r.y <= right < r.y + r.height && 0 <= right < alpha.Length0 && 0 <= r.x + r.width - 1 < alpha.Length1 && alpha[right, r.x + r.width - 1] > 0;
    var top :| r.x <= top < r.x + r.width && 0 <= r.y < alpha.Length0 && 0 <= top < alpha.Length1 && alpha[r.y, top] > 0;
    var bottom :| r.x <= bottom < r.x + r.width && 0 <= r.y + r.height - 1 < alpha.Length0 && 0 <= bottom < alpha.Length1 && alpha[r.y + r.height - 1, bottom] > 0;
    assert Contains(s, r.x, left);
    assert Contains(s, r.x + r.width - 1, right);
    assert Contains(s, top, r.y);
    assert Contains(s, bottom, r.y + r.height - 1);
  }

  /** Pixel (px, py) comes before (x, y) in row-major order. */
  predicate Before(y: int, x: int, py: int, px: int) {
    py < y || (py == y && px < x)
  }

  /** What the scan knows once every pixel before (x, y) has been visited:
      with no opaque pixel seen the extremes keep their start values, otherwise
      they bound every opaque pixel seen and each is attained by one (the ghost
      witnesses name the other coordinate). */
  ghost predicate Scanned(alpha: array2<byte>, y: int, x: int, minX: int, minY: int, maxX: int, maxY: int,
                          atMinX: int, atMaxX: int, atMinY: int, atMaxY: int)
    reads alpha
  {
    var h, w := alpha.Length0, alpha.Length1;
    if maxX < 0 then
      minX == w && minY == h && maxY == -1 &&
      forall py, px :: 0 <= py < h && 0 <= px < w && Before(y, x, py, px) ==> alpha[py, px] == 0
    else
      0 <= minX <= maxX < w && 0 <= minY <= maxY < h &&
      (forall py, px :: 0 <= py < h && 0 <= px < w && Before(y, x, py, px) && alpha[py, px] > 0 ==>
        minX <= px <= maxX && minY <= py <= maxY) &&
      minY <= atMinX <= maxY && alpha[atMinX, minX] > 0 &&
      minY <= atMaxX <= maxY && alpha[atMaxX, maxX] > 0 &&
      minX <= atMinY <= maxX && alpha[minY, atMinY] > 0 &&
      minX <= atMaxY <= maxX && alpha[maxY, atMaxY] > 0
  }

  /** The bounds of the non-transparent pixels: the tight box, or the whole
      image when every pixel is transparent. */
  method CalculateTrimBounds(alpha: array2<byte>) returns (r: Rectangle)
    ensures !HasOpaque(alpha) ==> r == FullBounds(alpha.Length1, alpha.Length0)
    ensures HasOpaque(alpha) ==> TightBox(alpha, r)
  {
    var minX, minY, maxX, maxY := alpha.Length1, alpha.Length0, -1, -1;
    ghost var atMinX, atMaxX, atMinY, atMaxY := 0, 0, 0, 0;
    var y := 0;
    while y < alpha.Length0
      invariant 0 <= y <= alpha.Length0
      invariant Scanned(alpha, y, 0, minX, minY, maxX, maxY, atMinX, atMaxX, atMinY, atMaxY)
    {
      minX, minY, maxX, maxY, atMinX, atMaxX, atMinY, atMaxY :=
        ScanRow(alpha, y, minX, minY, maxX, maxY, atMinX, atMaxX, atMinY, atMaxY);
      y := y + 1;
    }
    ScanComplete(alpha, minX, minY, maxX, maxY, atMinX, atMaxX, atMinY, atMaxY);
    if maxX < 0 {
      return FullBounds(alpha.Length1, alpha.Length0);
    }
    return Rectangle(minX, minY, maxX - minX + 1, maxY - minY + 1);
  }

  /** The pass over row y: every non-transparent pixel widens the extremes
      to include it. The ghost parameters record where each extreme was seen. */
  method ScanRow(alpha: array2<byte>, y: int, minX: int, minY: int, maxX: int, maxY: int,
                 ghost atMinX: int, ghost atMaxX: int, ghost atMinY: int, ghost atMaxY: int)
    returns (minX': int, minY': int, maxX': int, maxY': int,
             ghost atMinX': int, ghost atMaxX': int, ghost atMinY': int, ghost atMaxY': int)
    requires 0 <= y < alpha.Length0
    requires Scanned(alpha, y, 0, minX, minY, maxX, maxY, atMinX, atMaxX, atMinY, atMaxY)
    ensures Scanned(alpha, y + 1, 0, minX', minY', maxX', maxY', atMinX', atMaxX', atMinY', atMaxY')
  {
    minX', minY', maxX', maxY' := minX, minY, maxX, maxY;
    atMinX', atMaxX', atMinY', atMaxY' := atMinX, atMaxX, atMinY, atMaxY;
    var x := 0;
    while x < alpha.Length1
      invariant 0 <= x <= alpha.Length1
      invariant Scanned(alpha, y, x, minX', minY', maxX', maxY', atMinX', atMaxX', atMinY', atMaxY')
    {
      if alpha[y, x] > 0 {
        VisitOpaque(alpha, y, x, minX', minY', maxX', maxY', atMinX', atMaxX', atMinY', atMaxY');
        atMinX', atMaxX', atMinY', atMaxY' :=
          if x < minX' then y else atMinX', if x > maxX' then y else atMaxX',
          if y < minY' then x else atMinY', if y > maxY' then x else atMaxY';
        minX' := Min(minX', x);
        minY' := Min(minY', y);
        maxX' := Max(maxX', x);
        maxY' := Max(maxY', y);
      } else {
        VisitClear(alpha, y, x, minX', minY', maxX', maxY', atMinX', atMaxX', atMinY', atMaxY');
      }
      x := x + 1;
    }
    NextRow(alpha, y, minX', minY', maxX', maxY', atMinX', atMaxX', atMinY', atMaxY');
  }

  /** Visiting a non-transparent pixel widens the extremes to include it. */
  lemma VisitOpaque(alpha: array2<byte>, y: int, x: int, minX: int, minY: int, maxX: int, maxY: int,
                    atMinX: int, atMaxX: int, atMinY: int, atMaxY: int)
    requires 0 <= y < alpha.Length0 && 0 <= x < alpha.Length1 && alpha[y, x] > 0
    requires Scanned(alpha, y, x, minX, minY, maxX, maxY, atMinX, atMaxX, atMinY, atMaxY)
    ensures Scanned(alpha, y, x + 1, Min(minX, x), Min(minY, y), Max(maxX, x), Max(maxY, y),
      if x < minX then y else atMinX, if x > maxX then y else atMaxX,
      if y < minY then x else atMinY, if y > maxY then x else atMaxY)
  {
  }

  /** Visiting a transparent pixel changes nothing. */
  lemma VisitClear(alpha: array2<byte>, y: int, x: int, minX: int, minY: int, maxX: int, maxY: int,
                   atMinX: int, atMaxX: int, atMinY: int, atMaxY: int)
    requires 0 <= y < alpha.Length0 && 0 <= x < alpha.Length1 && alpha[y, x] == 0
    requires Scanned(alpha, y, x, minX, minY, maxX, maxY, atMinX, atMaxX, atMinY, atMaxY)
    ensures Scanned(alpha, y, x + 1, minX, minY, maxX, maxY, atMinX, atMaxX, atMinY, atMaxY)
  {
  }

  /** After the last row: no opaque pixel was seen iff there is none, and
      otherwise the extremes form the tight box. */
  lemma ScanComplete(alpha: array2<byte>, minX: int, minY: int, maxX: int, maxY: int,
                     atMinX: int, atMaxX: int, atMinY: int, atMaxY: int)
    requires Scanned(alpha, alpha.Length0, 0, minX, minY, maxX, maxY, atMinX, atMaxX, atMinY, atMaxY)
    ensures maxX < 0 <==> !HasOpaque(alpha)
    ensures maxX >= 0 ==> TightBox(alpha, Rectangle(minX, minY, maxX - minX + 1, maxY - minY + 1))
  {
    if maxX >= 0 {
      var r := Rectangle(minX, minY, maxX - minX + 1, maxY - minY + 1);
      assert alpha[atMinX, r.x] > 0;
      assert alpha[atMaxX, r.x + r.width - 1] > 0;
      assert alpha[r.y, atMinY] > 0;
      assert alpha[r.y + r.height - 1, atMaxY] > 0;
    }
  }

  /** The end of a row is the start of the next. */
  lemma NextRow(alpha: array2<byte>, y: int, minX: int, minY: int, maxX: int, maxY: int,
                atMinX: int, atMaxX: int, atMinY: int, atMaxY: int)
    requires Scanned(alpha, y, alpha.Length1, minX, minY, maxX, maxY, atMinX, atMaxX, atMinY, atMaxY)
    ensures Scanned(alpha, y + 1, 0, minX, minY, maxX, maxY, atMinX, atMaxX, atMinY, atMaxY)
  {
    assert forall py, px :: 0 <= px < alpha.Length1 ==> (Before(y + 1, 0, py, px) <==> Before(y, alpha.Length1, py, px));
  }

  /** Whether loading cut a border away: trimming was on and the bounds are
      not the whole image. */
  predicate WasTrimmed(trim: bool, bounds: Rectangle, originalWidth: int, originalHeight: int) {
    trim && (bounds.x > 0 || bounds.y > 0 || bounds.width < originalWidth || bounds.height < originalHeight)
  }

  /** For bounds inside the image, the test is exactly "trimming was on and the
      bounds differ from the whole image". */
  lemma WasTrimmedIffSmaller(trim: bool, bounds: Rectangle, originalWidth: int, originalHeight: int)
    requires 0 <= bounds.x && bounds.x + bounds.width <= originalWidth
    requires 0 <= bounds.y && bounds.y + bounds.height <= originalHeight
    ensures WasTrimmed(trim, bounds, originalWidth, originalHeight) <==>
      trim && bounds != FullBounds(originalWidth, originalHeight)
  {
  }

  // ---------------------------------------------------------------------------
  // Loaded sprites.
  // ---------------------------------------------------------------------------

  /** The pixels of `region` of the source image, turned a quarter turn when
      `rotated`. */
  datatype Picture = Picture(region: Rectangle, rotated: bool)

  datatype SpriteInfo = SpriteInfo(
    name: string,
    picture: Picture,
    originalWidth: int,
    originalHeight: int,
    trimX: int,
    trimY: int,
    wasTrimmed: bool)

  /** Loads one image as a sprite named `name`, or after its file name without
      extension (`fileStem`).  With `trim`, the picture is the tight box of the
      non-transparent pixels, unless that is the whole image. */
  method LoadSprite(alpha: array2<byte>, fileStem: string, name: Option<string>, trim: bool) returns (info: SpriteInfo)
    ensures info.name == (if name.Some? then name.value else fileStem)
    ensures info.originalWidth == alpha.Length1 && info.originalHeight == alpha.Length0
    ensures !info.picture.rotated
    ensures !trim || !HasOpaque(alpha) ==>
      info.picture.region == FullBounds(alpha.Length1, alpha.Length0) &&
      info.trimX == 0 && info.trimY == 0 && !info.wasTrimmed
    ensures trim && HasOpaque(alpha) ==>
      TightBox(alpha, info.picture.region) &&
      info.trimX == info.picture.region.x && info.trimY == info.picture.region.y &&
      (info.wasTrimmed <==> info.picture.region != FullBounds(alpha.Length1, alpha.Length0))
  {
    var spriteName := if name.Some? then name.value else fileStem;
    var originalWidth, originalHeight := alpha.Length1, alpha.Length0;
    var trimBounds := FullBounds(originalWidth, originalHeight);
    if trim {
      trimBounds := CalculateTrimBounds(alpha);
    }
    var region := FullBounds(originalWidth, originalHeight);
    if trim && (trimBounds.x > 0 || trimBounds.y > 0 || trimBounds.width < originalWidth || trimBounds.height < originalHeight) {
      region := trimBounds;
    }
    WasTrimmedIffSmaller(trim, trimBounds, originalWidth, originalHeight);
    info := SpriteInfo(spriteName, Picture(region, false), originalWidth, originalHeight,
                       trimBounds.x, trimBounds.y, WasTrimmed(trim, trimBounds, originalWidth, originalHeight));
  }

  // ---------------------------------------------------------------------------
  // Sprite sheets.
  // ---------------------------------------------------------------------------

  function PrefixedName(prefix: Option<string>, name: string): (r: string)
    ensures prefix.None? ==> r == name
    ensures prefix.Some? ==> r == prefix.value + name && r[|prefix.value|..] == name
  {
    if prefix.Some? then prefix.value + name else name
  }

  /** The sprite cut out for one entry of a sprite sheet's description, or
      nothing when its rectangle misses the image. */
  function ExtractOne(d: SpriteData, imageWidth: int, imageHeight: int, prefix: Option<string>): (r: Option<SpriteInfo>)
    ensures var bounds := Intersect(Rectangle(d.x, d.y, d.width, d.height), FullBounds(imageWidth, imageHeight));
      r.None? <==> bounds.width <= 0 || bounds.height <= 0
    ensures r.Some? ==> var s := r.value;
      s.picture.region.width > 0 && s.picture.region.height > 0 &&
      0 <= s.picture.region.x && s.picture.region.x + s.picture.region.width <= imageWidth &&
      0 <= s.picture.region.y && s.picture.region.y + s.picture.region.height <= imageHeight &&
      (forall px, py :: Contains(s.picture.region, px, py) <==>
         Contains(Rectangle(d.x, d.y, d.width, d.height), px, py) && 0 <= px < imageWidth && 0 <= py < imageHeight) &&
      s.picture.rotated == d.rotated &&
      s.name == PrefixedName(prefix, d.name) &&
      s.originalWidth == (if d.sourceWidth.Some? then d.sourceWidth.value else d.width) &&
      s.originalHeight == (if d.sourceHeight.Some? then d.sourceHeight.value else d.height) &&
      s.trimX == (if d.trimX.Some? then d.trimX.value else 0) &&
      s.trimY == (if d.trimY.Some? then d.trimY.value else 0) &&
      (s.wasTrimmed <==> d.trimX.Some? || d.trimY.Some?)
  {
    var bounds := Intersect(Rectangle(d.x, d.y, d.width, d.height), FullBounds(imageWidth, imageHeight));
    if bounds.width <= 0 || bounds.height <= 0 then None
    else
      IntersectWithin(Rectangle(d.x, d.y, d.width, d.height), FullBounds(imageWidth, imageHeight));
      Some(SpriteInfo(
        PrefixedName(prefix, d.name),
        Picture(bounds, d.rotated),
        if d.sourceWidth.Some? then d.sourceWidth.value else d.width,
        if d.sourceHeight.Some? then d.sourceHeight.value else d.height,
        if d.trimX.Some? then d.trimX.value else 0,
        if d.trimY.Some? then d.trimY.value else 0,
        d.trimX.Some? || d.trimY.Some?))
  }

  /** The sprites cut out for all entries, in order, skipping those that miss the image. */
  function ExtractAll(data: seq<SpriteData>, imageWidth: int, imageHeight: int, prefix: Option<string>): seq<SpriteInfo> {
    if data == [] then []
    else
      var rest := ExtractAll(data[..|data| - 1], imageWidth, imageHeight, prefix);
      match ExtractOne(data[|data| - 1], imageWidth, imageHeight, prefix)
      case Some(s) => rest + [s]
      case None => rest
  }

  /** Every sprite cut out comes from an entry, entries that hit the image are
      all cut out, and there are no more sprites than entries. */
  lemma {:induction false} ExtractAllSpec(data: seq<SpriteData>, imageWidth: int, imageHeight: int, prefix: Option<string>)
    ensures |ExtractAll(data, imageWidth, imageHeight, prefix)| <= |data|
    ensures forall s :: s in ExtractAll(data, imageWidth, imageHeight, prefix) ==>
      exists i :: 0 <= i < |data| && ExtractOne(data[i], imageWidth, imageHeight, prefix) == Some(s)
    ensures forall i :: 0 <= i < |data| && ExtractOne(data[i], imageWidth, imageHeight, prefix).Some? ==>
      ExtractOne(data[i], imageWidth, imageHeight, prefix).value in ExtractAll(data, imageWidth, imageHeight, prefix)
  {
    if data != [] {
      var m := |data| - 1;
      ExtractAllSpec(data[..m], imageWidth, imageHeight, prefix);
      assert forall i :: 0 <= i < m ==> data[..m][i] == data[i];
    }
  }

  /** Which entries of a sheet's description hit the image. */
  function HitMask(data: seq<SpriteData>, imageWidth: int, imageHeight: int, prefix: Option<string>): (m: seq<bool>)
    ensures |m| == |data|
    ensures forall k :: 0 <= k < |data| ==> m[k] == ExtractOne(data[k], imageWidth, imageHeight, prefix).Some?
  {
    seq(|data|, k requires 0 <= k < |data| => ExtractOne(data[k], imageWidth, imageHeight, prefix).Some?)
  }

  /** The sprites cut out are those of exactly the entries that hit the
      image, one per such entry, in the order of the entries. */
  lemma {:induction false} ExtractAllOrder(data: seq<SpriteData>, imageWidth: int, imageHeight: int, prefix: Option<string>)
    ensures var idx := Positions(HitMask(data, imageWidth, imageHeight, prefix));
      var out := ExtractAll(data, imageWidth, imageHeight, prefix);
      |idx| == |out| &&
      forall j :: 0 <= j < |idx| ==> ExtractOne(data[idx[j]], imageWidth, imageHeight, prefix) == Some(out[j])
  {
    if data != [] {
      var n := |data| - 1;
      var prefixData := data[..n];
      ExtractAllOrder(prefixData, imageWidth, imageHeight, prefix);
      var mask := HitMask(data, imageWidth, imageHeight, prefix);
      assert mask[..n] == HitMask(prefixData, imageWidth, imageHeight, prefix);
      var before := Positions(mask[..n]);
      forall j | 0 <= j < |before|
        ensures ExtractOne(data[before[j]], imageWidth, imageHeight, prefix) ==
          Some(ExtractAll(data, imageWidth, imageHeight, prefix)[j])
      {
        assert prefixData[before[j]] == data[before[j]];
      }
    }
  }

  /** Without a prefix, a sheet whose entries all lie inside the image yields
      one sprite per entry, named after it. */
  lemma {:induction false} ExtractAllInside(data: seq<SpriteData>, imageWidth: int, imageHeight: int)
    requires forall i :: 0 <= i < |data| ==>
      0 <= data[i].x && 0 < data[i].width && data[i].x + data[i].width <= imageWidth &&
      0 <= data[i].y && 0 < data[i].height && data[i].y + data[i].height <= imageHeight
    ensures var out := ExtractAll(data, imageWidth, imageHeight, None);
      |out| == |data| &&
      forall i :: 0 <= i < |data| ==>
        out[i].name == data[i].name &&
        out[i].picture.region == Rectangle(data[i].x, data[i].y, data[i].width, data[i].height)
  {
    if data != [] {
      var m := |data| - 1;
      assert forall i :: 0 <= i < m ==> data[..m][i] == data[i];
      ExtractAllInside(data[..m], imageWidth, imageHeight);
    }
  }

  lemma ExtractAllStep(data: seq<SpriteData>, i: nat, imageWidth: int, imageHeight: int, prefix: Option<string>)
    requires i < |data|
    ensures ExtractAll(data[..i + 1], imageWidth, imageHeight, prefix) ==
      ExtractAll(data[..i], imageWidth, imageHeight, prefix) +
      (match ExtractOne(data[i], imageWidth, imageHeight, prefix) case Some(s) => [s] case None => [])
  {
    assert data[..i + 1][..i] == data[..i];
  }

  /** Cuts the sprites described by `spriteData` out of an image of the given
      size; entries outside the image are skipped. */
  method ExtractSprites(imageWidth: int, imageHeight: int, spriteData: seq<SpriteData>, prefix: Option<string>)
    returns (sprites: seq<SpriteInfo>)
    ensures sprites == ExtractAll(spriteData, imageWidth, imageHeight, prefix)
  {
    sprites := [];
    var i := 0;
    while i < |spriteData|
      invariant 0 <= i <= |spriteData|
      invariant sprites == ExtractAll(spriteData[..i], imageWidth, imageHeight, prefix)
    {
      var sprite := spriteData[i];
      var bounds := Intersect(Rectangle(sprite.x, sprite.y, sprite.width, sprite.height), FullBounds(imageWidth, imageHeight));
      ExtractAllStep(spriteData, i, imageWidth, imageHeight, prefix);
      if bounds.width <= 0 || bounds.height <= 0 {
        i := i + 1;
        continue;
      }
      var spriteName := PrefixedName(prefix, sprite.name);
      var extracted := SpriteInfo(
        spriteName,
        Picture(bounds, sprite.rotated),
        if sprite.sourceWidth.Some? then sprite.sourceWidth.value else sprite.width,
        if sprite.sourceHeight.Some? then sprite.sourceHeight.value else sprite.height,
        if sprite.trimX.Some? then sprite.trimX.value else 0,
        if sprite.trimY.Some? then sprite.trimY.value else 0,
        sprite.trimX.Some? || sprite.trimY.Some?);
      sprites := sprites + [extracted];
      i := i + 1;
    }
    assert spriteData[..i] == spriteData;
  }

  // ---------------------------------------------------------------------------
  // Final atlas size.
  // ---------------------------------------------------------------------------

  lemma RoundedUp(value: int32)
    ensures 1 <= value as int <= Pow2(30) ==>
      IsPowerOfTwo(NextPowerOfTwoValue(value) as int) && value <= NextPowerOfTwoValue(value)
  {
    if 1 <= value as int <= Pow2(30) {
      NextPowerOfTwoIsLeast(value);
    }
  }

  /** The atlas size: unchanged, or each side rounded up to a power of two. */
  function CalculateFinalDimensions(width: int32, height: int32, powerOfTwo: bool): (r: (int32, int32))
    ensures !powerOfTwo ==> r == (width, height)
    ensures powerOfTwo ==>
      (width <= 0 ==> r.0 == 1) && (height <= 0 ==> r.1 == 1) &&
      (1 <= width as int <= Pow2(30) ==> IsPowerOfTwo(r.0 as int) && width <= r.0) &&
      (1 <= height as int <= Pow2(30) ==> IsPowerOfTwo(r.1 as int) && height <= r.1)
  {
    if !powerOfTwo then (width, height)
    else
      RoundedUp(width);
      RoundedUp(height);
      (NextPowerOfTwoValue(width), NextPowerOfTwoValue(height))
  }
}
