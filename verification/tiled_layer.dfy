/** Decoding of the <data> element of a tile layer in the Tiled TMX map format:
    explicit <tile> children, comma-separated text, or base64 text that may be
    compressed with gzip or zlib.  Each form yields one global tile id (gid)
    per cell.  The base64 decoder and the two decompressors are library calls;
    they are parameters of the model. */
module TiledLayer {
  import opened Common
  import PowerOfTwo

  /** The exceptions the decoding can raise. */
  datatype DecodeError =
    | InvalidNumber            // a CSV entry that is not a decimal number
    | NumberOverflow           // a CSV entry outside the range of `uint`
    | NegativeLength           // width * height is negative after 32-bit wrap-around
    | InvalidBase64            // the base64 decoder rejected the text
    | DecompressionFailed      // the gzip or zlib stream is corrupt
    | CompressionNotSupported  // "zstd"

  /** The library decoders: base64 text to bytes, gzip and zlib streams to
      bytes; `None` when the input is malformed. */
  datatype Codecs = Codecs(
    base64: string -> Option<seq<byte>>,
    gzip: seq<byte> -> Option<seq<byte>>,
    zlib: seq<byte> -> Option<seq<byte>>)

  /** The <data> element: its attributes, its text and its <tile> children's gids. */
  datatype LayerData = LayerData(
    encoding: Option<string>,
    compression: Option<string>,
    content: string,
    tiles: seq<uint32>)

  // ---------------------------------------------------------------------------
  // Characters and strings.
  // ---------------------------------------------------------------------------

  /** .NET `char.IsWhiteSpace`: the control characters U+0009 to U+000D, U+0085,
      and the space, line and paragraph separators of Unicode. */
  predicate IsWhiteSpace(c: char) {
    var n := c as int;
    (9 <= n <= 13) || n == 0x20 || n == 0x85 || n == 0xA0 || n == 0x1680 ||
    (0x2000 <= n <= 0x200A) || n == 0x2028 || n == 0x2029 || n == 0x202F ||
    n == 0x205F || n == 0x3000
  }

  /** `string.IsNullOrWhiteSpace`. */
  predicate IsBlank(s: string) {
    forall i :: 0 <= i < |s| ==> IsWhiteSpace(s[i])
  }

  /** Drops leading white space. */
  function TrimStart(s: string): (r: string)
    ensures |r| <= |s| && r == s[|s| - |r|..]
    ensures IsBlank(s[..|s| - |r|])
    ensures r == [] || !IsWhiteSpace(r[0])
  {
    if s != [] && IsWhiteSpace(s[0]) then
      var r := TrimStart(s[1..]);
      assert s[..|s| - |r|] == [s[0]] + s[1..][..|s| - 1 - |r|];
      BlankJoin([s[0]], s[1..][..|s| - 1 - |r|]);
      r
    else s
  }

  lemma BlankJoin(a: string, b: string)
    requires IsBlank(a) && IsBlank(b)
    ensures IsBlank(a + b)
  {
    forall i | 0 <= i < |a + b| ensures IsWhiteSpace((a + b)[i]) {
      if i < |a| {
        assert (a + b)[i] == a[i];
      } else {
        assert (a + b)[i] == b[i - |a|];
      }
    }
  }

  /** Drops trailing white space. */
  function TrimEnd(s: string): (r: string)
    ensures |r| <= |s| && r == s[..|r|]
    ensures IsBlank(s[|r|..])
    ensures r == [] || !IsWhiteSpace(r[|r| - 1])
  {
    if s != [] && IsWhiteSpace(s[|s| - 1]) then
      var r := TrimEnd(s[..|s| - 1]);
      assert s[|r|..] == s[..|s| - 1][|r|..] + [s[|s| - 1]];
      BlankJoin(s[..|s| - 1][|r|..], [s[|s| - 1]]);
      r
    else s
  }

  /** `string.Trim()`: a blank string trims to empty, anything else to a
      string that starts and ends with a non-white character. */
  function Trim(s: string): (r: string)
    ensures r == [] <==> IsBlank(s)
    ensures r != [] ==> !IsWhiteSpace(r[0]) && !IsWhiteSpace(r[|r| - 1])
  {
    var t := TrimStart(s);
    var r := TrimEnd(t);
    assert IsBlank(s) ==> t == [] by {
      if t != [] {
        assert t[0] == s[|s| - |t|];
      }
    }
    assert |r| == 0 ==> t[|r|..] == t;
    assert t != [] ==> IsWhiteSpace(t[0]) || !IsBlank(t);
    assert s[..|s|] == s;
    assert r != [] ==> r[0] == t[0];
    r
  }

  /** ASCII lower-casing of one character. */
  function LowerChar(c: char): char {
    if 'A' <= c <= 'Z' then (c as int + 32) as char else c
  }

  /** `string.ToLower()` under a culture whose lowering of A to Z is plain ASCII. */
  function ToLower(s: string): (r: string)
    ensures |r| == |s|
    ensures forall i :: 0 <= i < |s| ==> r[i] == LowerChar(s[i])
    ensures forall i :: 0 <= i < |s| ==> !('A' <= r[i] <= 'Z')
    ensures forall i :: 0 <= i < |s| && !('A' <= s[i] <= 'Z') ==> r[i] == s[i]
  {
    if s == [] then [] else [LowerChar(s[0])] + ToLower(s[1..])
  }

  // ---------------------------------------------------------------------------
  // Splitting on commas.
  // ---------------------------------------------------------------------------

  /** `s.Split(',')`: the pieces between commas, empty pieces included. */
  function Split(s: string): (pieces: seq<string>)
    ensures |pieces| >= 1
    ensures forall i :: 0 <= i < |pieces| ==> ',' !in pieces[i]
  {
    if s == [] then [""]
    else
      var rest := Split(s[1..]);
      if s[0] == ',' then [""] + rest
      else [[s[0]] + rest[0]] + rest[1..]
  }

  /** The pieces joined with commas. */
  function Join(pieces: seq<string>): string {
    if pieces == [] then ""
    else if |pieces| == 1 then pieces[0]
    else pieces[0] + "," + Join(pieces[1..])
  }

  /** Joining the pieces of a split gives the text back. */
  lemma {:induction false} JoinSplit(s: string)
    ensures Join(Split(s)) == s
  {
    if s != [] {
      var rest := Split(s[1..]);
      JoinSplit(s[1..]);
      if s[0] == ',' {
        assert ([""] + rest)[1..] == rest;
      } else if |rest| > 1 {
        assert ([[s[0]] + rest[0]] + rest[1..])[1..] == rest[1..];
      }
    }
  }

  /** A text without commas is a single piece. */
  lemma {:induction false} SplitNoComma(a: string)
    requires ',' !in a
    ensures Split(a) == [a]
  {
    if a != [] {
      SplitNoComma(a[1..]);
      assert [a[0]] + a[1..] == a;
    }
  }

  /** A comma-free head is split off as the first piece. */
  lemma {:induction false} SplitAfter(a: string, t: string)
    requires ',' !in a
    ensures Split(a + "," + t) == [a] + Split(t)
  {
    if a == [] {
      assert (a + "," + t)[1..] == t;
    } else {
      assert (a + "," + t)[1..] == a[1..] + "," + t;
      SplitAfter(a[1..], t);
      assert [a[0]] + a[1..] == a;
    }
  }

  /** Splitting joined comma-free pieces gives the pieces back. */
  lemma {:induction false} SplitJoin(pieces: seq<string>)
    requires |pieces| >= 1
    requires forall i :: 0 <= i < |pieces| ==> ',' !in pieces[i]
    ensures Split(Join(pieces)) == pieces
  {
    if |pieces| == 1 {
      SplitNoComma(pieces[0]);
    } else {
      SplitJoin(pieces[1..]);
      SplitAfter(pieces[0], Join(pieces[1..]));
      assert [pieces[0]] + pieces[1..] == pieces;
    }
  }

  lemma {:induction false} JoinAppend(pieces: seq<string>, x: string)
    requires pieces != []
    ensures Join(pieces + [x]) == Join(pieces) + "," + x
  {
    if |pieces| == 1 {
      assert (pieces + [x])[1..] == [x];
    } else {
      assert (pieces + [x])[1..] == pieces[1..] + [x];
      JoinAppend(pieces[1..], x);
    }
  }

  // ---------------------------------------------------------------------------
  // Unsigned decimal numbers.
  // ---------------------------------------------------------------------------

  predicate IsDigit(c: char) {
    '0' <= c <= '9'
  }

  predicate AllDigits(s: string) {
    forall i :: 0 <= i < |s| ==> IsDigit(s[i])
  }

  /** The value of a string of decimal digits. */
  function DigitsValue(s: string): nat
    requires AllDigits(s)
  {
    if s == [] then 0 else 10 * DigitsValue(s[..|s| - 1]) + (s[|s| - 1] as int - '0' as int)
  }

  /** The shortest decimal spelling of `v`. */
  function Decimal(v: nat): (s: string)
    ensures s != [] && AllDigits(s)
  {
    (if v < 10 then [] else Decimal(v / 10)) + [('0' as int + v % 10) as char]
  }

  /** `uint.Parse` on a trimmed entry: an optional sign and at least one
      decimal digit; a negative sign is accepted only in front of zero. */
  function ParseUInt(s: string): Result<uint32, DecodeError> {
    var unsigned := if s != [] && (s[0] == '+' || s[0] == '-') then s[1..] else s;
    if unsigned == [] || !AllDigits(unsigned) then Err(InvalidNumber)
    else
      var v := DigitsValue(unsigned);
      if v > UINT32_MAX || (s[0] == '-' && v != 0) then Err(NumberOverflow)
      else Ok(v as uint32)
  }

  lemma {:induction false} DecimalValue(v: nat)
    ensures DigitsValue(Decimal(v)) == v
  {
    if v >= 10 {
      DecimalValue(v / 10);
      assert Decimal(v)[..|Decimal(v)| - 1] == Decimal(v / 10);
    }
  }

  /** Parsing the decimal spelling of a `uint` gives it back. */
  lemma ParseUIntDecimal(v: uint32)
    ensures ParseUInt(Decimal(v as nat)) == Ok(v)
  {
    DecimalValue(v as nat);
  }

  /** What a successful parse says about the text: its digits spell the value,
      and a '-' sign only ever stands before zero. */
  lemma ParseUIntOk(s: string)
    requires ParseUInt(s).Ok?
    ensures var unsigned := if s[0] == '+' || s[0] == '-' then s[1..] else s;
      unsigned != [] && AllDigits(unsigned) && DigitsValue(unsigned) == ParseUInt(s).value as nat
    ensures s[0] == '-' ==> ParseUInt(s).value == 0
  {
  }

  // ---------------------------------------------------------------------------
  // CSV layer data.
  // ---------------------------------------------------------------------------

  /** The entries that survive the blank filter, in order. */
  function NonBlank(pieces: seq<string>): seq<string> {
    if pieces == [] then []
    else (if IsBlank(pieces[0]) then [] else [pieces[0]]) + NonBlank(pieces[1..])
  }

  /** One entry: trimmed, then parsed. */
  function ParseEntry(piece: string): Result<uint32, DecodeError> {
    ParseUInt(Trim(piece))
  }

  /** Parse every non-blank entry with `parse`; the first bad entry raises. */
  function ParseEntries(pieces: seq<string>, parse: string -> Result<uint32, DecodeError>): Result<seq<uint32>, DecodeError> {
    if pieces == [] then Ok([])
    else if IsBlank(pieces[0]) then ParseEntries(pieces[1..], parse)
    else
      match parse(pieces[0])
      case Err(e) => Err(e)
      case Ok(v) =>
        match ParseEntries(pieces[1..], parse)
        case Err(e) => Err(e)
        case Ok(vs) => Ok([v] + vs)
  }

  /** The CSV form: trim the text, split it on commas, drop blank entries and
      parse the rest. */
  function ParseCsvData(content: string): Result<seq<uint32>, DecodeError> {
    ParseEntries(Split(Trim(content)), ParseEntry)
  }

  /** Parsing succeeds iff every non-blank entry parses, and then yields one
      value per non-blank entry, in order. */
  lemma {:induction false} ParseEntriesOk(pieces: seq<string>, parse: string -> Result<uint32, DecodeError>)
    ensures var entries := NonBlank(pieces);
      ParseEntries(pieces, parse).Ok? <==> forall i :: 0 <= i < |entries| ==> parse(entries[i]).Ok?
    ensures var entries := NonBlank(pieces);
      ParseEntries(pieces, parse).Ok? ==>
        (|ParseEntries(pieces, parse).value| == |entries| &&
         forall i :: 0 <= i < |entries| ==> parse(entries[i]) == Ok(ParseEntries(pieces, parse).value[i]))
  {
    if pieces != [] {
      ParseEntriesOk(pieces[1..], parse);
      var tail := NonBlank(pieces[1..]);
      var entries := NonBlank(pieces);
      if !IsBlank(pieces[0]) {
        assert entries == [pieces[0]] + tail;
        assert forall i :: 0 <= i < |tail| ==> entries[i + 1] == tail[i];
        var head := parse(pieces[0]);
        var rest := ParseEntries(pieces[1..], parse);
        if head.Ok? && rest.Ok? {
          var vs := [head.value] + rest.value;
          assert ParseEntries(pieces, parse) == Ok(vs);
          forall i | 0 <= i < |entries| ensures parse(entries[i]) == Ok(vs[i]) {
            if i > 0 {
              assert entries[i] == tail[i - 1] && vs[i] == rest.value[i - 1];
            }
          }
        } else if head.Ok? {
          var k :| 0 <= k < |tail| && !parse(tail[k]).Ok?;
          assert !parse(entries[k + 1]).Ok?;
        } else {
          assert entries[0] == pieces[0];
        }
      } else {
        assert entries == tail;
      }
    }
  }

  /** Entry i is the first of `entries` that does not parse, and fails with e. */
  predicate FirstFailure(entries: seq<string>, parse: string -> Result<uint32, DecodeError>, i: int, e: DecodeError) {
    0 <= i < |entries| && parse(entries[i]) == Err(e) &&
    forall j :: 0 <= j < i ==> parse(entries[j]).Ok?
  }

  /** A failure is the failure of the first entry that does not parse. */
  lemma {:induction false} ParseEntriesFirstError(pieces: seq<string>, parse: string -> Result<uint32, DecodeError>)
    requires ParseEntries(pieces, parse).Err?
    ensures exists i :: FirstFailure(NonBlank(pieces), parse, i, ParseEntries(pieces, parse).error)
  {
    var tail := NonBlank(pieces[1..]);
    var entries := NonBlank(pieces);
    var e := ParseEntries(pieces, parse).error;
    if IsBlank(pieces[0]) {
      assert entries == tail;
      ParseEntriesFirstError(pieces[1..], parse);
    } else {
      assert entries == [pieces[0]] + tail;
      var head := parse(pieces[0]);
      if head.Err? {
        assert ParseEntries(pieces, parse) == Err(head.error);
        assert entries[0] == pieces[0];
        assert FirstFailure(entries, parse, 0, e);
      } else {
        ParseEntriesFirstError(pieces[1..], parse);
        var k :| FirstFailure(tail, parse, k, e);
        assert entries[k + 1] == tail[k];
        forall j | 0 <= j < k + 1 ensures parse(entries[j]).Ok? {
          if j > 0 {
            assert entries[j] == tail[j - 1];
          }
        }
        assert FirstFailure(entries, parse, k + 1, e);
      }
    }
  }

  /** A blank last entry changes nothing: a trailing comma is harmless. */
  lemma {:induction false} ParseEntriesBlankTail(pieces: seq<string>, b: string, parse: string -> Result<uint32, DecodeError>)
    requires IsBlank(b)
    ensures ParseEntries(pieces + [b], parse) == ParseEntries(pieces, parse)
  {
    if pieces == [] {
      assert ParseEntries([b], parse) == ParseEntries([], parse);
    } else {
      assert (pieces + [b])[0] == pieces[0];
      assert (pieces + [b])[1..] == pieces[1..] + [b];
      ParseEntriesBlankTail(pieces[1..], b, parse);
    }
  }

  /** White space in front of a number is trimmed away. */
  lemma {:induction false} TrimStartPadded(w: string, d: string)
    requires IsBlank(w) && d != [] && !IsWhiteSpace(d[0])
    ensures TrimStart(w + d) == d
  {
    if w != [] {
      assert (w + d)[1..] == w[1..] + d;
      TrimStartPadded(w[1..], d);
    } else {
      assert w + d == d;
    }
  }

  lemma TrimPadded(w: string, d: string)
    requires IsBlank(w) && d != [] && !IsWhiteSpace(d[0]) && !IsWhiteSpace(d[|d| - 1])
    ensures Trim(w + d) == d
  {
    TrimStartPadded(w, d);
  }

  /** Trailing white space after a non-white character is trimmed away. */
  lemma {:induction false} TrimEndPadded(a: string, w: string)
    requires a != [] && !IsWhiteSpace(a[|a| - 1]) && IsBlank(w)
    ensures TrimEnd(a + w) == a
    decreases |w|
  {
    if w != [] {
      assert (a + w)[..|a + w| - 1] == a + w[..|w| - 1];
      TrimEndPadded(a, w[..|w| - 1]);
    } else {
      assert a + w == a;
    }
  }

  /** A gap and then a number: neither holds a comma. */
  lemma GapNumberCommaFree(w: string, d: string)
    requires IsBlank(w) && AllDigits(d)
    ensures ',' !in w + d
  {
    forall k | 0 <= k < |w + d| ensures (w + d)[k] != ',' {
      if k < |w| {
        assert (w + d)[k] == w[k];
      } else {
        assert (w + d)[k] == d[k - |w|];
      }
    }
  }

  /** Numbers each preceded by the gap: the second and later entries of CSV text. */
  function GapPieces(values: seq<uint32>, gap: string): (pieces: seq<string>)
    ensures |pieces| == |values|
  {
    seq(|values|, i requires 0 <= i < |values| => gap + Decimal(values[i] as nat))
  }

  /** The entries of the CSV text of a non-empty list of gids, before the
      optional trailing comma. */
  function CsvPieces(values: seq<uint32>, gap: string): (pieces: seq<string>)
    requires values != []
    ensures |pieces| == |values|
  {
    [Decimal(values[0] as nat)] + GapPieces(values[1..], gap)
  }

  /** The CSV text of a non-empty list of gids: decimal numbers separated by a
      comma and the white space `gap`, optionally followed by one more comma
      and gap. */
  function CsvText(values: seq<uint32>, gap: string, trailingComma: bool): string
    requires values != []
  {
    Join(CsvPieces(values, gap) + (if trailingComma then [gap] else []))
  }

  /** Non-blank entries that parse one by one give the list of their values. */
  lemma {:induction false} ParseEntriesAll(pieces: seq<string>, parse: string -> Result<uint32, DecodeError>, values: seq<uint32>)
    requires |pieces| == |values|
    requires forall i :: 0 <= i < |pieces| ==> !IsBlank(pieces[i]) && parse(pieces[i]) == Ok(values[i])
    ensures ParseEntries(pieces, parse) == Ok(values)
  {
    if pieces != [] {
      ParseEntriesAll(pieces[1..], parse, values[1..]);
      assert [values[0]] + values[1..] == values;
    }
  }

  /** Each entry of CSV text parses to its gid. */
  lemma CsvPiecesParse(values: seq<uint32>, gap: string)
    requires values != [] && IsBlank(gap)
    ensures ParseEntries(CsvPieces(values, gap), ParseEntry) == Ok(values)
  {
    var pieces := CsvPieces(values, gap);
    forall i | 0 <= i < |pieces| ensures !IsBlank(pieces[i]) && ParseEntry(pieces[i]) == Ok(values[i]) {
      var d := Decimal(values[i] as nat);
      var w := if i == 0 then "" else gap;
      assert pieces[i] == w + d;
      assert (w + d)[|w|] == d[0];
      assert IsDigit(d[0]) && IsDigit(d[|d| - 1]);
      TrimPadded(w, d);
      ParseUIntDecimal(values[i]);
    }
    ParseEntriesAll(pieces, ParseEntry, values);
  }

  /** Every entry of CSV text is a number, possibly after the gap. */
  lemma CsvPiecesShape(values: seq<uint32>, gap: string)
    requires values != [] && IsBlank(gap)
    ensures forall i :: 0 <= i < |values| ==> CsvPieces(values, gap)[i] != [] && ',' !in CsvPieces(values, gap)[i]
    ensures !IsWhiteSpace(CsvPieces(values, gap)[0][0])
    ensures var last := CsvPieces(values, gap)[|values| - 1]; IsDigit(last[|last| - 1])
  {
    var pieces := CsvPieces(values, gap);
    forall i | 0 <= i < |values| ensures pieces[i] != [] && ',' !in pieces[i] {
      var d := Decimal(values[i] as nat);
      if i == 0 {
        GapNumberCommaFree("", d);
        assert pieces[i] == "" + d;
      } else {
        GapNumberCommaFree(gap, d);
        assert pieces[i] == gap + d;
      }
    }
    var n := |values| - 1;
    var d := Decimal(values[n] as nat);
    var w := if n == 0 then "" else gap;
    assert pieces[n] == w + d;
    assert pieces[n][|pieces[n]| - 1] == d[|d| - 1];
  }

  /** The first character of a join is that of the first piece. */
  lemma JoinFirst(pieces: seq<string>)
    requires pieces != [] && pieces[0] != []
    ensures Join(pieces) != [] && Join(pieces)[0] == pieces[0][0]
  {
  }

  /** The last character of a join is that of the last piece. */
  lemma {:induction false} JoinLast(pieces: seq<string>)
    requires pieces != [] && forall i :: 0 <= i < |pieces| ==> pieces[i] != []
    ensures var j := Join(pieces); var p := pieces[|pieces| - 1];
      j != [] && j[|j| - 1] == p[|p| - 1]
  {
    if |pieces| > 1 {
      JoinLast(pieces[1..]);
    }
  }

  /** Text that starts and ends with a non-white character is its own trim. */
  lemma TrimFixed(s: string)
    requires s != [] && !IsWhiteSpace(s[0]) && !IsWhiteSpace(s[|s| - 1])
    ensures Trim(s) == s
  {
  }

  /** Trimming CSV text removes at most the gap after a trailing comma. */
  lemma CsvTextTrim(values: seq<uint32>, gap: string, trailingComma: bool)
    requires values != [] && IsBlank(gap)
    ensures Trim(CsvText(values, gap, trailingComma)) ==
      Join(CsvPieces(values, gap) + (if trailingComma then [""] else []))
  {
    var pieces := CsvPieces(values, gap);
    CsvPiecesShape(values, gap);
    JoinFirst(pieces);
    JoinLast(pieces);
    var body := Join(pieces);
    if trailingComma {
      JoinAppend(pieces, gap);
      JoinAppend(pieces, "");
      var s := body + "," + gap;
      assert s[0] == body[0];
      assert TrimStart(s) == s;
      assert s == (body + ",") + gap;
      TrimEndPadded(body + ",", gap);
    } else {
      assert pieces + [] == pieces;
      TrimFixed(body);
    }
  }

  /** The entries of trimmed CSV text: the numbers, and an empty entry after a
      trailing comma. */
  function TrimmedEntries(values: seq<uint32>, gap: string, trailingComma: bool): seq<string>
    requires values != []
  {
    CsvPieces(values, gap) + (if trailingComma then [""] else [])
  }

  lemma TrimmedEntriesCommaFree(values: seq<uint32>, gap: string, trailingComma: bool)
    requires values != [] && IsBlank(gap)
    ensures forall i :: 0 <= i < |TrimmedEntries(values, gap, trailingComma)| ==>
      ',' !in TrimmedEntries(values, gap, trailingComma)[i]
  {
    var pieces := CsvPieces(values, gap);
    var q := TrimmedEntries(values, gap, trailingComma);
    CsvPiecesShape(values, gap);
    forall i | 0 <= i < |q| ensures ',' !in q[i] {
      if i < |pieces| {
        assert q[i] == pieces[i];
      }
    }
  }

  lemma TrimmedEntriesParse(values: seq<uint32>, gap: string, trailingComma: bool)
    requires values != [] && IsBlank(gap)
    ensures ParseEntries(TrimmedEntries(values, gap, trailingComma), ParseEntry) == Ok(values)
  {
    var pieces := CsvPieces(values, gap);
    CsvPiecesParse(values, gap);
    if trailingComma {
      ParseEntriesBlankTail(pieces, "", ParseEntry);
    } else {
      assert TrimmedEntries(values, gap, trailingComma) == pieces;
    }
  }

  /** CSV text written from a non-empty list of gids parses back to that list,
      whatever white space follows each comma and whether or not a comma ends
      the text. */
  lemma CsvRoundTrip(values: seq<uint32>, gap: string, trailingComma: bool)
    requires values != [] && IsBlank(gap)
    ensures ParseCsvData(CsvText(values, gap, trailingComma)) == Ok(values)
  {
    var q := TrimmedEntries(values, gap, trailingComma);
    CsvTextTrim(values, gap, trailingComma);
    assert Trim(CsvText(values, gap, trailingComma)) == Join(q);
    TrimmedEntriesCommaFree(values, gap, trailingComma);
    SplitJoin(q);
    TrimmedEntriesParse(values, gap, trailingComma);
  }

  /** The layer "1,2,...,12" holds the gids 1 to 12. */
  lemma CsvTwelveTiles()
    ensures ParseCsvData("1,2,3,4,5,6,7,8,9,10,11,12") == Ok([1, 2, 3, 4, 5, 6, 7, 8, 9, 10, 11, 12])
  {
    TwelveText();
    CsvTextParses([1, 2, 3, 4, 5, 6, 7, 8, 9, 10, 11, 12], "1,2,3,4,5,6,7,8,9,10,11,12");
  }

  lemma CsvTextParses(values: seq<uint32>, text: string)
    requires values != [] && text == CsvText(values, "", false)
    ensures ParseCsvData(text) == Ok(values)
  {
    CsvRoundTrip(values, "", false);
  }

  lemma TwelveText()
    ensures CsvText([1, 2, 3, 4, 5, 6, 7, 8, 9, 10, 11, 12], "", false) == "1,2,3,4,5,6,7,8,9,10,11,12"
  {
    var values: seq<uint32> := [1, 2, 3, 4, 5, 6, 7, 8, 9, 10, 11, 12];
    TwelvePieces();
    TwelveJoined();
    assert CsvPieces(values, "") + [] == CsvPieces(values, "");
  }

  lemma TwelvePieces()
    ensures CsvPieces([1, 2, 3, 4, 5, 6, 7, 8, 9, 10, 11, 12], "") ==
      ["1", "2", "3", "4", "5", "6", "7", "8", "9", "10", "11", "12"]
  {
    var values: seq<uint32> := [1, 2, 3, 4, 5, 6, 7, 8, 9, 10, 11, 12];
    var pieces := CsvPieces(values, "");
    forall i | 1 <= i < 12 ensures pieces[i] == Decimal(values[i] as nat) {
      assert pieces[i] == "" + Decimal(values[i] as nat);
    }
    assert pieces == [Decimal(1), Decimal(2), Decimal(3), Decimal(4), Decimal(5), Decimal(6),
                      Decimal(7), Decimal(8), Decimal(9), Decimal(10), Decimal(11), Decimal(12)];
    SmallDecimals();
  }

  lemma SmallDecimals()
    ensures Decimal(1) == "1" && Decimal(2) == "2" && Decimal(3) == "3" && Decimal(4) == "4"
    ensures Decimal(5) == "5" && Decimal(6) == "6" && Decimal(7) == "7" && Decimal(8) == "8"
    ensures Decimal(9) == "9" && Decimal(10) == "10" && Decimal(11) == "11" && Decimal(12) == "12"
  {
    assert Decimal(1) == "1";
  }

  /** Joining two non-empty lists joins their joins. */
  lemma {:induction false} JoinConcat(a: seq<string>, b: seq<string>)
    requires a != [] && b != []
    ensures Join(a + b) == Join(a) + "," + Join(b)
  {
    if |a| == 1 {
      assert (a + b)[1..] == b;
    } else {
      assert (a + b)[1..] == a[1..] + b;
      JoinConcat(a[1..], b);
    }
  }

  lemma TwelveJoined()
    ensures Join(["1", "2", "3", "4", "5", "6", "7", "8", "9", "10", "11", "12"]) == "1,2,3,4,5,6,7,8,9,10,11,12"
  {
    var a := ["1", "2", "3", "4", "5", "6"];
    var b := ["7", "8", "9", "10", "11", "12"];
    FirstSixJoined();
    LastSixJoined();
    JoinConcat(a, b);
    TwelveHalves();
  }

  lemma TwelveHalves()
    ensures ["1", "2", "3", "4", "5", "6"] + ["7", "8", "9", "10", "11", "12"] ==
      ["1", "2", "3", "4", "5", "6", "7", "8", "9", "10", "11", "12"]
    ensures "1,2,3,4,5,6" + "," + "7,8,9,10,11,12" == "1,2,3,4,5,6,7,8,9,10,11,12"
  {
  }

  lemma FirstSixJoined()
    ensures Join(["1", "2", "3", "4", "5", "6"]) == "1,2,3,4,5,6"
  {
    var pieces := ["1", "2", "3", "4", "5", "6"];
    assert Join(pieces[5..]) == "6";
    assert Join(pieces[4..]) == "5,6";
    assert Join(pieces[3..]) == "4,5,6";
    assert Join(pieces[2..]) == "3,4,5,6";
    assert Join(pieces[1..]) == "2,3,4,5,6";
  }

  lemma LastSixJoined()
    ensures Join(["7", "8", "9", "10", "11", "12"]) == "7,8,9,10,11,12"
  {
    var pieces := ["7", "8", "9", "10", "11", "12"];
    assert Join(pieces[5..]) == "12";
    assert Join(pieces[4..]) == "11,12";
    assert Join(pieces[3..]) == "10,11,12";
    assert Join(pieces[2..]) == "9,10,11,12";
    assert Join(pieces[1..]) == "8,9,10,11,12";
  }

  // ---------------------------------------------------------------------------
  // Base64 layer data.
  // ---------------------------------------------------------------------------

  /** The unsigned 32-bit little-endian word at byte offset k. */
  function WordAt(bytes: seq<byte>, k: nat): uint32
    requires k + 4 <= |bytes|
  {
    (bytes[k] as int + 0x100 * bytes[k + 1] as int + 0x1_0000 * bytes[k + 2] as int +
     0x100_0000 * bytes[k + 3] as int) as uint32
  }

  /** The words of a byte string, four bytes each; trailing bytes are dropped. */
  function LittleEndianWords(bytes: seq<byte>): (words: seq<uint32>)
    ensures |words| == |bytes| / 4
    ensures forall i :: 0 <= i < |words| ==> words[i] == WordAt(bytes, 4 * i)
  {
    if |bytes| < 4 then []
    else
      var rest := LittleEndianWords(bytes[4..]);
      assert forall i :: 0 <= i < |rest| ==> rest[i] == WordAt(bytes, 4 * (i + 1));
      [WordAt(bytes, 0)] + rest
  }

  /** The four little-endian bytes of a word. */
  function WordBytes(w: uint32): (b: seq<byte>)
    ensures |b| == 4
  {
    [(w % 0x100) as byte, (w / 0x100 % 0x100) as byte, (w / 0x1_0000 % 0x100) as byte, (w / 0x100_0000) as byte]
  }

  /** The byte string of a sequence of words. */
  function Serialize(words: seq<uint32>): (bytes: seq<byte>)
    ensures |bytes| == 4 * |words|
  {
    if words == [] then [] else WordBytes(words[0]) + Serialize(words[1..])
  }

  /** The first word depends only on the first four bytes. */
  lemma WordAtPrefix(a: seq<byte>, b: seq<byte>)
    requires |a| == 4
    ensures WordAt(a + b, 0) == WordAt(a, 0)
  {
    assert (a + b)[0] == a[0] && (a + b)[1] == a[1] && (a + b)[2] == a[2] && (a + b)[3] == a[3];
  }

  lemma WordRoundTrip(w: uint32)
    ensures WordAt(WordBytes(w), 0) == w
  {
    var x := w as int;
    var b := WordBytes(w);
    assert b[0] as int == x % 0x100 && b[1] as int == x / 0x100 % 0x100;
    assert b[2] as int == x / 0x1_0000 % 0x100 && b[3] as int == x / 0x100_0000;
    assert x / 0x100 == x / 0x100 % 0x100 + 0x100 * (x / 0x1_0000);
    assert x / 0x1_0000 == x / 0x1_0000 % 0x100 + 0x100 * (x / 0x100_0000);
  }

  /** The bytes of a word give the word back, and any bytes after the last
      whole word are ignored. */
  lemma {:induction false} LittleEndianRoundTrip(words: seq<uint32>, tail: seq<byte>)
    requires |tail| < 4
    ensures LittleEndianWords(Serialize(words) + tail) == words
  {
    if words != [] {
      var bytes := Serialize(words) + tail;
      assert bytes == WordBytes(words[0]) + (Serialize(words[1..]) + tail);
      assert bytes[4..] == Serialize(words[1..]) + tail;
      LittleEndianRoundTrip(words[1..], tail);
      WordAtPrefix(WordBytes(words[0]), Serialize(words[1..]) + tail);
      WordRoundTrip(words[0]);
    }
  }

  /** Only the whole words count: trailing bytes make no difference. */
  lemma TrailingBytesIgnored(bytes: seq<byte>)
    ensures LittleEndianWords(bytes) == LittleEndianWords(bytes[..|bytes| / 4 * 4])
  {
    var whole := bytes[..|bytes| / 4 * 4];
    assert forall i :: 0 <= i < |bytes| / 4 ==> WordAt(whole, 4 * i) == WordAt(bytes, 4 * i);
  }

  /** The decompression step, dispatched on the lower-cased name: gzip and
      zlib decompress, zstd is refused, any other name leaves the bytes as
      they are, and no name (or an empty one) skips the step. */
  function Decompress(bytes: seq<byte>, compression: Option<string>, codecs: Codecs): (r: Result<seq<byte>, DecodeError>)
    ensures compression.None? || compression.value == "" ==> r == Ok(bytes)
    ensures compression.Some? && ToLower(compression.value) == "zstd" ==> r == Err(CompressionNotSupported)
    ensures compression.Some? && ToLower(compression.value) !in {"gzip", "zlib", "zstd"} ==> r == Ok(bytes)
    ensures compression.Some? && ToLower(compression.value) == "gzip" ==>
      (codecs.gzip(bytes).Some? ==> r == Ok(codecs.gzip(bytes).value)) &&
      (codecs.gzip(bytes).None? ==> r == Err(DecompressionFailed))
    ensures compression.Some? && ToLower(compression.value) == "zlib" ==>
      (codecs.zlib(bytes).Some? ==> r == Ok(codecs.zlib(bytes).value)) &&
      (codecs.zlib(bytes).None? ==> r == Err(DecompressionFailed))
    ensures r.Err? ==> r.error in {CompressionNotSupported, DecompressionFailed}
  {
    if compression.None? || compression.value == "" then Ok(bytes)
    else
      match ToLower(compression.value)
      case "gzip" => (match codecs.gzip(bytes) case Some(b) => Ok(b) case None => Err(DecompressionFailed))
      case "zlib" => (match codecs.zlib(bytes) case Some(b) => Ok(b) case None => Err(DecompressionFailed))
      case "zstd" => Err(CompressionNotSupported)
      case _ => Ok(bytes)
  }

  /** The compression name is matched without regard to case. */
  lemma CompressionIgnoresCase(bytes: seq<byte>, a: string, b: string, codecs: Codecs)
    requires ToLower(a) == ToLower(b)
    ensures Decompress(bytes, Some(a), codecs) == Decompress(bytes, Some(b), codecs)
  {
    if a == "" || b == "" {
      assert |a| == |b|;
    }
  }

  /** The base64 form: decode the trimmed text, decompress, read words. */
  function Base64Gids(content: string, compression: Option<string>, codecs: Codecs): Result<seq<uint32>, DecodeError> {
    match codecs.base64(Trim(content))
    case None => Err(InvalidBase64)
    case Some(decoded) =>
      match Decompress(decoded, compression, codecs)
      case Err(e) => Err(e)
      case Ok(bytes) => Ok(LittleEndianWords(bytes))
  }

  /** The base64 decoding as written: the decoded bytes are copied word by
      word into a fresh array of |bytes| / 4 gids. */
  method ParseBase64Data(content: string, compression: Option<string>, codecs: Codecs)
    returns (r: Result<seq<uint32>, DecodeError>)
    ensures r == Base64Gids(content, compression, codecs)
  {
    var decoded := codecs.base64(Trim(content));
    if decoded.None? {
      return Err(InvalidBase64);
    }
    var bytes := Decompress(decoded.value, compression, codecs);
    if bytes.Err? {
      return Err(bytes.error);
    }
    var words := ReadWords(bytes.value);
    r := Ok(words);
  }

  /** The loop over the decompressed bytes: one little-endian word per four
      bytes, into an array of `|bytes| / 4` entries. */
  method ReadWords(bytes: seq<byte>) returns (words: seq<uint32>)
    ensures words == LittleEndianWords(bytes)
  {
    var result := new uint32[|bytes| / 4];
    var i := 0;
    while i < result.Length
      invariant 0 <= i <= result.Length
      invariant forall j :: 0 <= j < i ==> result[j] == WordAt(bytes, 4 * j)
    {
      result[i] := WordAt(bytes, 4 * i);
      i := i + 1;
    }
    words := result[..];
    assert words == LittleEndianWords(bytes);
  }

  // ---------------------------------------------------------------------------
  // Layer data.
  // ---------------------------------------------------------------------------

  /** A layer without tile children or text: `width * height` zeros, the
      product taken in 32-bit arithmetic. */
  function EmptyLayer(width: int32, height: int32): Result<seq<uint32>, DecodeError> {
    var n := PowerOfTwo.Wrap32(width as int * height as int);
    if n < 0 then Err(NegativeLength) else Ok(seq(n, _ => 0))
  }

  /** The gids of a layer: tile children first, then empty text, then the
      text in the encoding named (case-insensitively), CSV by default. */
  function ParseLayerData(data: LayerData, width: int32, height: int32, codecs: Codecs): Result<seq<uint32>, DecodeError> {
    if data.tiles != [] then Ok(data.tiles)
    else if data.content == "" then EmptyLayer(width, height)
    else if data.encoding.Some? && ToLower(data.encoding.value) == "base64" then
      Base64Gids(data.content, data.compression, codecs)
    else ParseCsvData(data.content)
  }

  /** Tile children win over everything else, in order; without them an empty
      text gives one zero gid per cell. */
  lemma LayerSourceSelection(data: LayerData, width: int32, height: int32, codecs: Codecs)
    ensures data.tiles != [] ==> ParseLayerData(data, width, height, codecs) == Ok(data.tiles)
    ensures data.tiles == [] && data.content == "" && 0 <= width as int * height as int <= INT32_MAX ==>
      var r := ParseLayerData(data, width, height, codecs);
      r.Ok? && |r.value| == width as int * height as int &&
      forall i :: 0 <= i < |r.value| ==> r.value[i] == 0
    ensures data.tiles == [] && data.content == "" && INT32_MIN <= width as int * height as int < 0 ==>
      ParseLayerData(data, width, height, codecs) == Err(NegativeLength)
  {
  }

  /** "base64" in any case selects the base64 form; "csv", any other name and
      no name select the CSV form. */
  lemma EncodingDispatch(data: LayerData, width: int32, height: int32, codecs: Codecs)
    requires data.tiles == [] && data.content != ""
    ensures data.encoding.Some? && ToLower(data.encoding.value) == "base64" ==>
      ParseLayerData(data, width, height, codecs) == Base64Gids(data.content, data.compression, codecs)
    ensures data.encoding.None? || ToLower(data.encoding.value) != "base64" ==>
      ParseLayerData(data, width, height, codecs) == ParseCsvData(data.content)
  {
  }

  /** The encoding name is matched without regard to case. */
  lemma EncodingIgnoresCase(data: LayerData, a: string, b: string, width: int32, height: int32, codecs: Codecs)
    requires ToLower(a) == ToLower(b)
    ensures ParseLayerData(data.(encoding := Some(a)), width, height, codecs) ==
            ParseLayerData(data.(encoding := Some(b)), width, height, codecs)
  {
  }

  /** A CSV layer written from its gids reads back to them. */
  lemma CsvLayerRoundTrip(values: seq<uint32>, gap: string, trailingComma: bool,
                          encoding: Option<string>, compression: Option<string>,
                          width: int32, height: int32, codecs: Codecs)
    requires values != [] && IsBlank(gap)
    requires encoding.None? || ToLower(encoding.value) != "base64"
    ensures ParseLayerData(LayerData(encoding, compression, CsvText(values, gap, trailingComma), []), width, height, codecs)
      == Ok(values)
  {
    CsvRoundTrip(values, gap, trailingComma);
    var text := CsvText(values, gap, trailingComma);
    assert text != "" by {
      var pieces := CsvPieces(values, gap) + (if trailingComma then [gap] else []);
      assert pieces[0] == Decimal(values[0] as nat);
      JoinFirst(pieces);
    }
  }

  /** A base64 layer whose decoded and decompressed bytes encode some gids
      reads back to those gids; stray bytes after the last word are ignored. */
  lemma Base64LayerRoundTrip(data: LayerData, width: int32, height: int32, codecs: Codecs,
                             decoded: seq<byte>, words: seq<uint32>, tail: seq<byte>)
    requires data.tiles == [] && data.content != ""
    requires data.encoding.Some? && ToLower(data.encoding.value) == "base64"
    requires codecs.base64(Trim(data.content)) == Some(decoded)
    requires Decompress(decoded, data.compression, codecs) == Ok(Serialize(words) + tail)
    requires |tail| < 4
    ensures ParseLayerData(data, width, height, codecs) == Ok(words)
  {
    LittleEndianRoundTrip(words, tail);
  }

  /** A zstd-compressed layer is refused once its text decodes. */
  lemma ZstdRefused(data: LayerData, width: int32, height: int32, codecs: Codecs)
    requires data.tiles == [] && data.content != ""
    requires data.encoding.Some? && ToLower(data.encoding.value) == "base64"
    requires data.compression.Some? && ToLower(data.compression.value) == "zstd"
    requires codecs.base64(Trim(data.content)).Some?
    ensures ParseLayerData(data, width, height, codecs) == Err(CompressionNotSupported)
  {
  }
}
