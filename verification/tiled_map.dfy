/** The parts of a Tiled map that the converter turns into its own map
    description: custom properties, map objects and their geometry, and the
    image files that the map and its tilesets refer to. */
module TiledMap {
  import opened Common
  import TiledLayer

  // ---------------------------------------------------------------------------
  // Custom properties.
  // ---------------------------------------------------------------------------

  /** A <property> element.  `propertyType` defaults to "string"; the value is
      either an attribute or the element's text. */
  datatype TiledProperty = TiledProperty(name: string, propertyType: string, value: Option<string>, content: Option<string>)

  /** A converted property value: a 32-bit integer, a float, a Boolean or text.
      Floats are kept as reals. */
  datatype PropertyValue = IntValue(i: int32) | FloatValue(f: real) | BoolValue(b: bool) | StringValue(s: string)

  /** The runtime's `TryParse` methods for int, float and bool. */
  datatype Parsers = Parsers(
    tryInt: string -> Option<int32>,
    tryFloat: string -> Option<real>,
    tryBool: string -> Option<bool>)

  /** A property's text: the value attribute, else the element text, else "". */
  function RawValue(p: TiledProperty): (s: string)
    ensures p.value.Some? ==> s == p.value.value
    ensures p.value.None? && p.content.Some? ==> s == p.content.value
    ensures p.value.None? && p.content.None? ==> s == ""
  {
    match p.value
    case Some(v) => v
    case None => match p.content case Some(c) => c case None => ""
  }

  /** The typed value of a property, by its lower-cased type name: "int" and
      "object" hold the parsed integer, "float" the parsed float, "bool" the
      parsed Boolean, and failed parses give 0, 0 and false; every other type
      keeps the text. */
  function TypedValue(p: TiledProperty, parsers: Parsers): (v: PropertyValue)
    ensures var t := TiledLayer.ToLower(p.propertyType);
      (t == "int" || t == "object") ==>
        (parsers.tryInt(RawValue(p)).Some? ==> v == IntValue(parsers.tryInt(RawValue(p)).value)) &&
        (parsers.tryInt(RawValue(p)).None? ==> v == IntValue(0))
    ensures var t := TiledLayer.ToLower(p.propertyType);
      t == "float" ==>
        (parsers.tryFloat(RawValue(p)).Some? ==> v == FloatValue(parsers.tryFloat(RawValue(p)).value)) &&
        (parsers.tryFloat(RawValue(p)).None? ==> v == FloatValue(0.0))
    ensures var t := TiledLayer.ToLower(p.propertyType);
      t == "bool" ==>
        (parsers.tryBool(RawValue(p)).Some? ==> v == BoolValue(parsers.tryBool(RawValue(p)).value)) &&
        (parsers.tryBool(RawValue(p)).None? ==> v == BoolValue(false))
    ensures var t := TiledLayer.ToLower(p.propertyType);
      t !in {"int", "object", "float", "bool"} ==> v == StringValue(RawValue(p))
  {
    var raw := RawValue(p);
    match TiledLayer.ToLower(p.propertyType)
    case "int" => IntValue(match parsers.tryInt(raw) case Some(i) => i case None => 0)
    case "float" => FloatValue(match parsers.tryFloat(raw) case Some(f) => f case None => 0.0)
    case "bool" => BoolValue(match parsers.tryBool(raw) case Some(b) => b case None => false)
    case "object" => IntValue(match parsers.tryInt(raw) case Some(i) => i case None => 0)
    case _ => StringValue(raw)
  }

  /** The dictionary after storing each property in turn under its name. */
  function Assign(props: seq<TiledProperty>, parsers: Parsers): map<string, PropertyValue> {
    if props == [] then map[]
    else
      var last := props[|props| - 1];
      Assign(props[..|props| - 1], parsers)[last.name := TypedValue(last, parsers)]
  }

  /** The property dictionary of an element; no <properties> element gives an
      empty dictionary. */
  function PropertiesOf(properties: Option<seq<TiledProperty>>, parsers: Parsers): map<string, PropertyValue> {
    match properties
    case None => map[]
    case Some(props) => Assign(props, parsers)
  }

  /** The dictionary has exactly one key per distinct property name. */
  lemma {:induction false} AssignKeys(props: seq<TiledProperty>, parsers: Parsers)
    ensures Assign(props, parsers).Keys == set i | 0 <= i < |props| :: props[i].name
  {
    if props != [] {
      var n := |props| - 1;
      AssignKeys(props[..n], parsers);
      assert forall i :: 0 <= i < n ==> props[..n][i] == props[i];
      var before := set i | 0 <= i < n :: props[i].name;
      var after := set i | 0 <= i < |props| :: props[i].name;
      assert after == before + {props[n].name} by {
        forall x | x in after ensures x in before + {props[n].name} {
          var i :| 0 <= i < |props| && props[i].name == x;
          if i < n {
            assert x in before;
          }
        }
      }
    }
  }

  /** A later property with the same name overwrites an earlier one: each
      name holds the value of its last property. */
  lemma {:induction false} LastWriteWins(props: seq<TiledProperty>, parsers: Parsers, i: int)
    requires 0 <= i < |props|
    requires forall j :: i < j < |props| ==> props[j].name != props[i].name
    ensures props[i].name in Assign(props, parsers)
    ensures Assign(props, parsers)[props[i].name] == TypedValue(props[i], parsers)
  {
    var n := |props| - 1;
    if i < n {
      assert forall j :: i < j < n ==> props[..n][j] == props[j];
      LastWriteWins(props[..n], parsers, i);
      assert props[..n][i] == props[i];
    }
  }

  /** The dictionary as built: one insertion per property, in order. */
  method ParseProperties(properties: Option<seq<TiledProperty>>, parsers: Parsers)
    returns (result: map<string, PropertyValue>)
    ensures result == PropertiesOf(properties, parsers)
  {
    result := map[];
    if properties.None? {
      return;
    }
    var props := properties.value;
    var i := 0;
    while i < |props|
      invariant 0 <= i <= |props|
      invariant result == Assign(props[..i], parsers)
    {
      var prop := props[i];
      var parsed := TypedValue(prop, parsers);
      result := result[prop.name := parsed];
      assert props[..i + 1][..i] == props[..i];
      i := i + 1;
    }
    assert props[..|props|] == props;
  }

  // ---------------------------------------------------------------------------
  // Map objects.
  // ---------------------------------------------------------------------------

  datatype TiledText = TiledText(
    fontFamily: Option<string>,
    pixelSize: int,
    color: Option<string>,
    bold: int,
    italic: int,
    content: string)

  /** An <object> element.  `polygon` and `polyline` hold the `points` text of
      those child elements; `ellipse` and `point` say whether those (empty)
      child elements are present.  Coordinates are reals. */
  datatype TiledObject = TiledObject(
    id: int,
    name: Option<string>,
    objectClass: Option<string>,
    x: real,
    y: real,
    width: real,
    height: real,
    rotation: real,
    gid: uint32,
    visible: int,
    polygon: Option<string>,
    polyline: Option<string>,
    ellipse: bool,
    point: bool,
    text: Option<TiledText>,
    properties: Option<seq<TiledProperty>>)

  datatype MapText = MapText(
    fontFamily: Option<string>,
    pixelSize: int,
    color: Option<string>,
    bold: bool,
    italic: bool,
    content: string)

  /** A converted object.  `objectType` names its geometry; the polygon and
      polyline point lists are kept as their `points` text. */
  datatype MapObject = MapObject(
    id: int,
    name: Option<string>,
    objectClass: Option<string>,
    objectType: string,
    x: real,
    y: real,
    width: real,
    height: real,
    rotation: real,
    gid: uint32,
    visible: bool,
    polygon: Option<string>,
    polyline: Option<string>,
    text: Option<MapText>,
    properties: map<string, PropertyValue>)

  /** Width and height within a thousandth of each other. */
  predicate NearlyEqual(a: real, b: real) {
    -0.001 < a - b < 0.001
  }

  predicate HasPoints(points: Option<string>) {
    points.Some? && points.value != ""
  }

  /** The geometry of an object, by the first rule that applies. */
  function ObjectType(obj: TiledObject): string {
    if obj.point then "point"
    else if obj.ellipse then (if NearlyEqual(obj.width, obj.height) then "circle" else "ellipse")
    else if HasPoints(obj.polygon) then "polygon"
    else if HasPoints(obj.polyline) then "polyline"
    else if obj.text.Some? then "text"
    else if obj.gid > 0 then "tile"
    else "rectangle"
  }

  /** Each geometry name is given exactly when its element is present and no
      element of an earlier rule is: point, ellipse (a circle when width and
      height agree), polygon and polyline with points, text, tile, and
      rectangle for everything else. */
  lemma ObjectTypePrecedence(obj: TiledObject)
    ensures ObjectType(obj) == "point" <==> obj.point
    ensures ObjectType(obj) == "circle" <==> !obj.point && obj.ellipse && NearlyEqual(obj.width, obj.height)
    ensures ObjectType(obj) == "ellipse" <==> !obj.point && obj.ellipse && !NearlyEqual(obj.width, obj.height)
    ensures ObjectType(obj) == "polygon" <==> !obj.point && !obj.ellipse && HasPoints(obj.polygon)
    ensures ObjectType(obj) == "polyline" <==>
      !obj.point && !obj.ellipse && !HasPoints(obj.polygon) && HasPoints(obj.polyline)
    ensures ObjectType(obj) == "text" <==>
      !obj.point && !obj.ellipse && !HasPoints(obj.polygon) && !HasPoints(obj.polyline) && obj.text.Some?
    ensures ObjectType(obj) == "tile" <==>
      !obj.point && !obj.ellipse && !HasPoints(obj.polygon) && !HasPoints(obj.polyline) && obj.text.None? && obj.gid > 0
    ensures ObjectType(obj) == "rectangle" <==>
      !obj.point && !obj.ellipse && !HasPoints(obj.polygon) && !HasPoints(obj.polyline) && obj.text.None? && obj.gid == 0
  {
  }

  /** Converts one object: the common fields are copied, `visible` becomes a
      Boolean, and only the element matching the geometry is carried over. */
  function ConvertObject(obj: TiledObject, parsers: Parsers): (m: MapObject)
    ensures m.objectType == ObjectType(obj)
    ensures m.id == obj.id && m.name == obj.name && m.objectClass == obj.objectClass
    ensures m.x == obj.x && m.y == obj.y && m.width == obj.width && m.height == obj.height
    ensures m.rotation == obj.rotation && m.gid == obj.gid
    ensures m.visible <==> obj.visible == 1
    ensures m.properties == PropertiesOf(obj.properties, parsers)
    ensures m.polygon.Some? <==> m.objectType == "polygon"
    ensures m.polygon.Some? ==> m.polygon == obj.polygon
    ensures m.polyline.Some? <==> m.objectType == "polyline"
    ensures m.polyline.Some? ==> m.polyline == obj.polyline
    ensures m.text.Some? <==> m.objectType == "text"
    ensures m.text.Some? ==> var t := obj.text.value;
      m.text.value == MapText(t.fontFamily, t.pixelSize, t.color, t.bold == 1, t.italic == 1, t.content)
  {
    var base := MapObject(obj.id, obj.name, obj.objectClass, "rectangle", obj.x, obj.y, obj.width, obj.height,
                          obj.rotation, obj.gid, obj.visible == 1, None, None, None,
                          PropertiesOf(obj.properties, parsers));
    ObjectTypePrecedence(obj);
    var kind := ObjectType(obj);
    if kind == "polygon" then base.(objectType := kind, polygon := obj.polygon)
    else if kind == "polyline" then base.(objectType := kind, polyline := obj.polyline)
    else if kind == "text" then
      var t := obj.text.value;
      base.(objectType := kind, text := Some(MapText(t.fontFamily, t.pixelSize, t.color, t.bold == 1, t.italic == 1, t.content)))
    else base.(objectType := kind)
  }

  /** A plain object with the given size and none of the geometry elements. */
  function PlainObject(name: string, width: real, height: real): TiledObject {
    TiledObject(1, Some(name), None, 0.0, 0.0, width, height, 0.0, 0, 1, None, None, false, false, None, None)
  }

  /** The seven objects of the object-type test map: a rectangle, an ellipse,
      a circle, a point, a polygon, a polyline and a bold red text. */
  lemma ObjectTypeExamples(parsers: Parsers)
    ensures ConvertObject(PlainObject("Rectangle", 64.0, 48.0), parsers).objectType == "rectangle"
    ensures ConvertObject(PlainObject("Ellipse", 64.0, 48.0).(ellipse := true), parsers).objectType == "ellipse"
    ensures ConvertObject(PlainObject("Circle", 48.0, 48.0).(ellipse := true), parsers).objectType == "circle"
    ensures ConvertObject(PlainObject("Point", 0.0, 0.0).(point := true), parsers).objectType == "point"
    ensures var m := ConvertObject(PlainObject("Polygon", 80.0, 60.0).(polygon := Some("0,0 80,0 60,30 20,60 0,60")), parsers);
      m.objectType == "polygon" && m.polygon == Some("0,0 80,0 60,30 20,60 0,60")
    ensures ConvertObject(PlainObject("Polyline", 0.0, 0.0).(polyline := Some("0,0 40,20 80,10 120,30")), parsers).objectType
      == "polyline"
    ensures var t := TiledText(Some("Arial"), 14, Some("#ff0000"), 1, 0, "Hello World!");
      var m := ConvertObject(PlainObject("Text", 96.0, 32.0).(text := Some(t)), parsers);
      m.objectType == "text" && m.text == Some(MapText(Some("Arial"), 14, Some("#ff0000"), true, false, "Hello World!"))
  {
  }

  // ---------------------------------------------------------------------------
  // Image paths.
  // ---------------------------------------------------------------------------

  datatype TiledImage = TiledImage(source: string)

  datatype TiledTile = TiledTile(image: Option<TiledImage>)

  /** A <tileset> reference in a map: external when `source` names a TSX file. */
  datatype TilesetRef = TilesetRef(
    source: Option<string>,
    name: Option<string>,
    image: Option<TiledImage>,
    tiles: seq<TiledTile>)

  datatype ImageLayer = ImageLayer(image: Option<TiledImage>)

  /** The parts of a map that refer to image files. */
  datatype MapFile = MapFile(tilesets: seq<TilesetRef>, imageLayers: seq<ImageLayer>)

  /** `Path.Combine` and `Path.GetDirectoryName`. */
  datatype PathOps = PathOps(combine: (string, string) -> string, directoryName: string -> Option<string>)

  /** The directory a tileset's images are relative to: the TSX file's
      directory for an external tileset, else the map's. */
  function BaseDirectory(t: TilesetRef, mapDirectory: string, ops: PathOps): string {
    if HasText(t.source) then
      match ops.directoryName(ops.combine(mapDirectory, t.source.value))
      case Some(d) => d
      case None => mapDirectory
    else mapDirectory
  }

  /** The path of an image with a non-empty source, under `directory`. */
  function ImagePath(image: Option<TiledImage>, directory: string, ops: PathOps): seq<string> {
    if image.Some? && image.value.source != "" then [ops.combine(directory, image.value.source)] else []
  }

  function TileImages(tiles: seq<TiledTile>, directory: string, ops: PathOps): seq<string> {
    if tiles == [] then []
    else TileImages(tiles[..|tiles| - 1], directory, ops) + ImagePath(tiles[|tiles| - 1].image, directory, ops)
  }

  /** One tileset's images: its own image, then its tiles' images. */
  function TilesetImages(t: TilesetRef, mapDirectory: string, ops: PathOps): seq<string> {
    var base := BaseDirectory(t, mapDirectory, ops);
    ImagePath(t.image, base, ops) + TileImages(t.tiles, base, ops)
  }

  function AllTilesetImages(tilesets: seq<TilesetRef>, mapDirectory: string, ops: PathOps): seq<string> {
    if tilesets == [] then []
    else AllTilesetImages(tilesets[..|tilesets| - 1], mapDirectory, ops) + TilesetImages(tilesets[|tilesets| - 1], mapDirectory, ops)
  }

  function LayerImages(layers: seq<ImageLayer>, mapDirectory: string, ops: PathOps): seq<string> {
    if layers == [] then []
    else LayerImages(layers[..|layers| - 1], mapDirectory, ops) + ImagePath(layers[|layers| - 1].image, mapDirectory, ops)
  }

  /** Every image reference, duplicates included: tilesets in order, then
      image layers (always relative to the map). */
  function CollectedImages(m: MapFile, mapDirectory: string, ops: PathOps): seq<string> {
    AllTilesetImages(m.tilesets, mapDirectory, ops) + LayerImages(m.imageLayers, mapDirectory, ops)
  }

  /** Name to TSX path for every external tileset that has a name; a later
      tileset with the same name wins. */
  function TilesetSources(tilesets: seq<TilesetRef>, mapDirectory: string, ops: PathOps): map<string, string> {
    if tilesets == [] then map[]
    else
      var before := TilesetSources(tilesets[..|tilesets| - 1], mapDirectory, ops);
      var t := tilesets[|tilesets| - 1];
      if HasText(t.source) && HasText(t.name) then before[t.name.value := ops.combine(mapDirectory, t.source.value)]
      else before
  }

  /** The keys are the names of the named external tilesets. */
  lemma {:induction false} TilesetSourcesKeys(tilesets: seq<TilesetRef>, mapDirectory: string, ops: PathOps)
    ensures TilesetSources(tilesets, mapDirectory, ops).Keys ==
      set i | 0 <= i < |tilesets| && HasText(tilesets[i].source) && HasText(tilesets[i].name) :: tilesets[i].name.value
  {
    if tilesets != [] {
      var n := |tilesets| - 1;
      TilesetSourcesKeys(tilesets[..n], mapDirectory, ops);
      assert forall i :: 0 <= i < n ==> tilesets[..n][i] == tilesets[i];
      var before := set i | 0 <= i < n && HasText(tilesets[i].source) && HasText(tilesets[i].name) :: tilesets[i].name.value;
      var after := set i | 0 <= i < |tilesets| && HasText(tilesets[i].source) && HasText(tilesets[i].name) :: tilesets[i].name.value;
      var t := tilesets[n];
      assert after == before + (if HasText(t.source) && HasText(t.name) then {t.name.value} else {}) by {
        forall x | x in after ensures x in before + (if HasText(t.source) && HasText(t.name) then {t.name.value} else {}) {
          var i :| 0 <= i < |tilesets| && HasText(tilesets[i].source) && HasText(tilesets[i].name) && tilesets[i].name.value == x;
          if i < n {
            assert x in before;
          }
        }
      }
    }
  }

  lemma AllTilesetImagesStep(tilesets: seq<TilesetRef>, i: nat, mapDirectory: string, ops: PathOps)
    requires i < |tilesets|
    ensures AllTilesetImages(tilesets[..i + 1], mapDirectory, ops) ==
      AllTilesetImages(tilesets[..i], mapDirectory, ops) + TilesetImages(tilesets[i], mapDirectory, ops)
  {
    assert tilesets[..i + 1][..i] == tilesets[..i];
  }

  lemma TilesetSourcesStep(tilesets: seq<TilesetRef>, i: nat, mapDirectory: string, ops: PathOps)
    requires i < |tilesets|
    ensures HasText(tilesets[i].source) && HasText(tilesets[i].name) ==>
      TilesetSources(tilesets[..i + 1], mapDirectory, ops) ==
      TilesetSources(tilesets[..i], mapDirectory, ops)[tilesets[i].name.value := ops.combine(mapDirectory, tilesets[i].source.value)]
    ensures !(HasText(tilesets[i].source) && HasText(tilesets[i].name)) ==>
      TilesetSources(tilesets[..i + 1], mapDirectory, ops) == TilesetSources(tilesets[..i], mapDirectory, ops)
  {
    assert tilesets[..i + 1][..i] == tilesets[..i];
  }

  lemma TileImagesStep(tiles: seq<TiledTile>, j: nat, directory: string, ops: PathOps)
    requires j < |tiles|
    ensures TileImages(tiles[..j + 1], directory, ops) == TileImages(tiles[..j], directory, ops) + ImagePath(tiles[j].image, directory, ops)
  {
    assert tiles[..j + 1][..j] == tiles[..j];
  }

  lemma LayerImagesStep(layers: seq<ImageLayer>, k: nat, mapDirectory: string, ops: PathOps)
    requires k < |layers|
    ensures LayerImages(layers[..k + 1], mapDirectory, ops) == LayerImages(layers[..k], mapDirectory, ops) + ImagePath(layers[k].image, mapDirectory, ops)
  {
    assert layers[..k + 1][..k] == layers[..k];
  }

  // ---------------------------------------------------------------------------
  // Removing duplicates.
  // ---------------------------------------------------------------------------

  /** `Distinct()`: the first occurrence of each element, in order. */
  function Distinct<T(==)>(s: seq<T>): seq<T> {
    if s == [] then []
    else
      var d := Distinct(s[..|s| - 1]);
      if s[|s| - 1] in d then d else d + [s[|s| - 1]]
  }

  predicate NoDuplicates<T(==)>(s: seq<T>) {
    forall i, j :: 0 <= i < j < |s| ==> s[i] != s[j]
  }

  /** Position of the first occurrence of x. */
  function IndexOf<T(==)>(s: seq<T>, x: T): (k: nat)
    requires x in s
    ensures k < |s| && s[k] == x
    ensures forall j :: 0 <= j < k ==> s[j] != x
  {
    if s[0] == x then 0 else 1 + IndexOf(s[1..], x)
  }

  /** The result has the same elements and no duplicates. */
  lemma {:induction false} DistinctElements<T>(s: seq<T>)
    ensures forall x :: x in Distinct(s) <==> x in s
    ensures NoDuplicates(Distinct(s))
  {
    if s != [] {
      var n := |s| - 1;
      DistinctElements(s[..n]);
      assert s == s[..n] + [s[n]];
    }
  }

  lemma IndexOfPrefix<T>(s: seq<T>, x: T, y: T)
    requires y in s
    ensures IndexOf(s + [x], y) == IndexOf(s, y)
  {
    var k := IndexOf(s, y);
    var t := s + [x];
    assert t[k] == y;
    assert forall j :: 0 <= j < k ==> t[j] == s[j];
  }

  /** Every element of `r` occurs in `s`, and an element earlier in `r` first
      occurs earlier in `s`. */
  ghost predicate InFirstOccurrenceOrder<T>(r: seq<T>, s: seq<T>) {
    (forall x :: x in r ==> x in s) &&
    forall i, j :: 0 <= i < j < |r| ==> r[i] in s && r[j] in s && IndexOf(s, r[i]) < IndexOf(s, r[j])
  }

  /** Appending to the input keeps the order of elements already present. */
  lemma OrderAppend<T>(r: seq<T>, s: seq<T>, x: T)
    requires InFirstOccurrenceOrder(r, s)
    ensures InFirstOccurrenceOrder(r, s + [x])
  {
    forall i, j | 0 <= i < j < |r| ensures IndexOf(s + [x], r[i]) < IndexOf(s + [x], r[j]) {
      IndexOfPrefix(s, x, r[i]);
      IndexOfPrefix(s, x, r[j]);
    }
  }

  /** An element new to the input goes after everything already there. */
  lemma OrderAppendNew<T>(r: seq<T>, s: seq<T>, x: T)
    requires InFirstOccurrenceOrder(r, s)
    requires x !in s
    ensures InFirstOccurrenceOrder(r + [x], s + [x])
  {
    OrderAppend(r, s, x);
    var t := s + [x];
    assert IndexOf(t, x) == |s|;
    forall i, j | 0 <= i < j < |r + [x]| ensures (r + [x])[i] in t && (r + [x])[j] in t &&
      IndexOf(t, (r + [x])[i]) < IndexOf(t, (r + [x])[j])
    {
      assert (r + [x])[i] == r[i];
      IndexOfPrefix(s, x, r[i]);
      if j < |r| {
        assert (r + [x])[j] == r[j];
      }
    }
  }

  /** First occurrences keep their order: an element earlier in the result
      first occurs earlier in the input. */
  lemma {:induction false} DistinctKeepsFirstOccurrences<T>(s: seq<T>)
    ensures InFirstOccurrenceOrder(Distinct(s), s)
  {
    if s != [] {
      var n := |s| - 1;
      var p := s[..n];
      DistinctKeepsFirstOccurrences(p);
      DistinctElements(p);
      assert s == p + [s[n]];
      if s[n] in Distinct(p) {
        OrderAppend(Distinct(p), p, s[n]);
      } else {
        OrderAppendNew(Distinct(p), p, s[n]);
      }
    }
  }

  /** A list without duplicates is left as it is. */
  lemma {:induction false} DistinctOfDistinct<T>(s: seq<T>)
    requires NoDuplicates(s)
    ensures Distinct(s) == s
  {
    if s != [] {
      var n := |s| - 1;
      DistinctOfDistinct(s[..n]);
      assert s[n] !in s[..n];
      assert s[..n] + [s[n]] == s;
    }
  }

  /** Removing duplicates twice is removing them once. */
  lemma DistinctIdempotent<T>(s: seq<T>)
    ensures Distinct(Distinct(s)) == Distinct(s)
  {
    DistinctElements(s);
    DistinctOfDistinct(Distinct(s));
  }

  // ---------------------------------------------------------------------------
  // Collecting the image paths.
  // ---------------------------------------------------------------------------

  /** Appends a tileset's own image and its tiles' images, all under
      `baseDirectory`. */
  method AppendTilesetImages(collected: seq<string>, tileset: TilesetRef, baseDirectory: string, ops: PathOps)
    returns (result: seq<string>)
    ensures result == collected + ImagePath(tileset.image, baseDirectory, ops) + TileImages(tileset.tiles, baseDirectory, ops)
  {
    result := collected;
    if tileset.image.Some? && tileset.image.value.source != "" {
      result := result + [ops.combine(baseDirectory, tileset.image.value.source)];
    }
    var j := 0;
    while j < |tileset.tiles|
      invariant 0 <= j <= |tileset.tiles|
      invariant result == collected + ImagePath(tileset.image, baseDirectory, ops) + TileImages(tileset.tiles[..j], baseDirectory, ops)
    {
      var tile := tileset.tiles[j];
      if tile.image.Some? && tile.image.value.source != "" {
        result := result + [ops.combine(baseDirectory, tile.image.value.source)];
      }
      TileImagesStep(tileset.tiles, j, baseDirectory, ops);
      j := j + 1;
    }
    assert tileset.tiles[..j] == tileset.tiles;
  }

  /** Appends the images of the image layers, relative to the map. */
  method AppendLayerImages(collected: seq<string>, layers: seq<ImageLayer>, mapDirectory: string, ops: PathOps)
    returns (result: seq<string>)
    ensures result == collected + LayerImages(layers, mapDirectory, ops)
  {
    result := collected;
    var k := 0;
    while k < |layers|
      invariant 0 <= k <= |layers|
      invariant result == collected + LayerImages(layers[..k], mapDirectory, ops)
    {
      var layer := layers[k];
      if layer.image.Some? && layer.image.value.source != "" {
        result := result + [ops.combine(mapDirectory, layer.image.value.source)];
      }
      LayerImagesStep(layers, k, mapDirectory, ops);
      k := k + 1;
    }
    assert layers[..k] == layers;
  }

  /** One pass of the tileset loop: records an external tileset's TSX path
      under its name, then gathers its images relative to its base directory. */
  method VisitTileset(tileset: TilesetRef, mapDirectory: string, ops: PathOps,
                      collected: seq<string>, tilesetSources: map<string, string>)
    returns (collected': seq<string>, tilesetSources': map<string, string>)
    ensures collected' == collected + TilesetImages(tileset, mapDirectory, ops)
    ensures HasText(tileset.source) && HasText(tileset.name) ==>
      tilesetSources' == tilesetSources[tileset.name.value := ops.combine(mapDirectory, tileset.source.value)]
    ensures !(HasText(tileset.source) && HasText(tileset.name)) ==> tilesetSources' == tilesetSources
  {
    tilesetSources' := tilesetSources;
    var baseDirectory := mapDirectory;
    if HasText(tileset.source) {
      var tsxPath := ops.combine(mapDirectory, tileset.source.value);
      var directory := ops.directoryName(tsxPath);
      if directory.Some? {
        baseDirectory := directory.value;
      }
      if HasText(tileset.name) {
        tilesetSources' := tilesetSources'[tileset.name.value := tsxPath];
      }
    }
    assert baseDirectory == BaseDirectory(tileset, mapDirectory, ops);
    collected' := AppendTilesetImages(collected, tileset, baseDirectory, ops);
  }

  /** Walks the tilesets (their image, then their tiles' images) and the image
      layers, recording each external tileset's TSX path under its name, and
      returns the distinct image paths with that dictionary. */
  method ExtractImagePathsWithTilesetInfo(m: MapFile, mapDirectory: string, ops: PathOps)
    returns (imagePaths: seq<string>, tilesetSources: map<string, string>)
    ensures imagePaths == Distinct(CollectedImages(m, mapDirectory, ops))
    ensures tilesetSources == TilesetSources(m.tilesets, mapDirectory, ops)
  {
    var collected: seq<string> := [];
    tilesetSources := map[];
    var i := 0;
    while i < |m.tilesets|
      invariant 0 <= i <= |m.tilesets|
      invariant collected == AllTilesetImages(m.tilesets[..i], mapDirectory, ops)
      invariant tilesetSources == TilesetSources(m.tilesets[..i], mapDirectory, ops)
    {
      collected, tilesetSources := VisitTileset(m.tilesets[i], mapDirectory, ops, collected, tilesetSources);
      AllTilesetImagesStep(m.tilesets, i, mapDirectory, ops);
      TilesetSourcesStep(m.tilesets, i, mapDirectory, ops);
      i := i + 1;
    }
    assert m.tilesets[..i] == m.tilesets;
    collected := AppendLayerImages(collected, m.imageLayers, mapDirectory, ops);
    imagePaths := Distinct(collected);
  }

  /** The four-image map of the tests: two tilesets (the second with one
      tile image of its own) and one image layer. */
  function FourImagesMap(): MapFile {
    MapFile(
      [TilesetRef(None, None, Some(TiledImage("tileset1.png")), []),
       TilesetRef(None, None, Some(TiledImage("tileset2.png")), [TiledTile(Some(TiledImage("tile_individual.png")))])],
      [ImageLayer(Some(TiledImage("background.png")))])
  }

  lemma FourImagesCollected(mapDirectory: string, ops: PathOps)
    ensures CollectedImages(FourImagesMap(), mapDirectory, ops) ==
      [ops.combine(mapDirectory, "tileset1.png"), ops.combine(mapDirectory, "tileset2.png"),
       ops.combine(mapDirectory, "tile_individual.png"), ops.combine(mapDirectory, "background.png")]
  {
    var m := FourImagesMap();
    var t1 := m.tilesets[0];
    var t2 := m.tilesets[1];
    var c1 := ops.combine(mapDirectory, "tileset1.png");
    var c2 := ops.combine(mapDirectory, "tileset2.png");
    var c3 := ops.combine(mapDirectory, "tile_individual.png");
    assert TilesetImages(t1, mapDirectory, ops) == [c1];
    assert TileImages(t2.tiles, mapDirectory, ops) == [c3];
    assert TilesetImages(t2, mapDirectory, ops) == [c2, c3];
    assert m.tilesets[..1] == [t1];
    assert [t1][..0] == [];
    assert AllTilesetImages([t1], mapDirectory, ops) == [c1];
    assert AllTilesetImages(m.tilesets, mapDirectory, ops) == [c1, c2, c3];
    assert LayerImages(m.imageLayers, mapDirectory, ops) == [ops.combine(mapDirectory, "background.png")];
  }

  /** Two inline tilesets (one with an extra tile image) and one image layer:
      when the four combined paths differ, all four come out, in order. */
  lemma FourImagesExample(mapDirectory: string, ops: PathOps)
    requires NoDuplicates([ops.combine(mapDirectory, "tileset1.png"), ops.combine(mapDirectory, "tileset2.png"),
                           ops.combine(mapDirectory, "tile_individual.png"), ops.combine(mapDirectory, "background.png")])
    ensures Distinct(CollectedImages(FourImagesMap(), mapDirectory, ops)) ==
      [ops.combine(mapDirectory, "tileset1.png"), ops.combine(mapDirectory, "tileset2.png"),
       ops.combine(mapDirectory, "tile_individual.png"), ops.combine(mapDirectory, "background.png")]
  {
    FourImagesCollected(mapDirectory, ops);
    DistinctOfDistinct(CollectedImages(FourImagesMap(), mapDirectory, ops));
  }
}
