/** The decisions generate_legend takes around each rendered feature: the file id and file
    name, the zoom, the layer list reset, the background check and the renderer error text. */
module Legendary {
  import opened Errors
  import opened Strings
  import opened Entries
  import opened Styles

  /** ASCII whitespace as Python's \s sees it: \t \n \v \f \r, \x1c-\x1f and space. */
  predicate IsSpace(c: char) {
    9 <= c as int <= 13 || 0x1c <= c as int <= 0x20
  }

  /** The characters mapnik_legendary.clean_name keeps: \w, \s, '_' and '-' (ASCII part). */
  predicate IsNameChar(c: char) {
    'a' <= c <= 'z' || 'A' <= c <= 'Z' || '0' <= c <= '9' || c == '_' || c == '-' || IsSpace(c)
  }

  /** clean_name: removes every other character, keeping the order of the rest. */
  function CleanName(s: string): (r: string)
    ensures forall i :: 0 <= i < |r| ==> IsNameChar(r[i])
  {
    Keep(s, IsNameChar)
  }

  /** A clean name is returned unchanged, and only a clean name is; cleaning is idempotent
      and works piece by piece. */
  lemma CleanNameLaws(s: string, t: string, c: char)
    ensures CleanName(s) == s <==> forall i :: 0 <= i < |s| ==> IsNameChar(s[i])
    ensures CleanName(CleanName(s)) == CleanName(s)
    ensures CleanName(s + t) == CleanName(s) + CleanName(t)
    ensures CleanName([c]) == if IsNameChar(c) then [c] else []
  {
    KeepUnchanged(s, IsNameChar);
    KeepIdempotent(s, IsNameChar);
    KeepConcat(s, t, IsNameChar);
    assert [c][1..] == [];
  }

  /** The map being rendered; only its layer list matters here. */
  class RenderMap {
    var layers: seq<RenderLayer>

    constructor (layers: seq<RenderLayer>)
      ensures this.layers == layers
    {
      this.layers := layers;
    }
  }

  /** clear_layers: deletes the layers by index, last first, until none is left. */
  method ClearLayers(m: RenderMap)
    modifies m
    ensures m.layers == []
  {
    var length := |m.layers|;
    var i := length - 1;
    while i >= 0
      invariant -1 <= i < length
      invariant m.layers == old(m.layers)[..i + 1]
    {
      m.layers := m.layers[..i] + m.layers[i + 1..];
      i := i - 1;
    }
  }

  const BackgroundMessage := "Background color format not supported. Use #RRGGBB or #RRGGBBAA instead."

  /** The colour text after the '#' is ensured. */
  function WithHash(bc: string): string {
    if bc == "transparent" then "#ffffff00"
    else if |bc| > 0 && bc[0] == '#' then bc
    else "#" + bc
  }

  /** The background colour normalisation of image_only_background: "transparent" becomes
      #ffffff00, a missing '#' is added, #RRGGBB gains an opaque alpha "ff"; other lengths fail. */
  function NormaliseBackground(bc: string): (r: Result<string>)
    ensures r.Err? <==> |WithHash(bc)| != 7 && |WithHash(bc)| != 9
    ensures r.Err? ==> r.error == LegendaryError(BackgroundMessage)
    ensures r.Ok? ==> |r.value| == 9 && r.value[0] == '#'
    ensures r.Ok? && |WithHash(bc)| == 7 ==> r.value == WithHash(bc) + "ff"
    ensures r.Ok? && |WithHash(bc)| == 9 ==> r.value == WithHash(bc)
  {
    var c := WithHash(bc);
    if |c| != 7 && |c| != 9 then Err(LegendaryError(BackgroundMessage))
    else if |c| == 7 then Ok(c + "ff")
    else Ok(c)
  }

  /** A normalised colour normalises to itself. */
  lemma NormaliseIdempotent(bc: string)
    requires NormaliseBackground(bc).Ok?
    ensures NormaliseBackground(NormaliseBackground(bc).value) == NormaliseBackground(bc)
  {
    var r := NormaliseBackground(bc).value;
    assert r != "transparent" by {
      assert |"transparent"| == 11;
    }
    assert WithHash(r) == r;
  }

  /** The pixel test of image_only_background: the background colour itself, a fully
      transparent pixel, or any pixel whose alpha equals the background's alpha. */
  predicate BackgroundPixel(p: Rgba, c: Rgba) {
    p == c || p.a == 0 || p.a == c.a
  }

  predicate OnlyBackground(img: Image, c: Rgba)
    requires Grid(img)
  {
    forall x, y :: 0 <= x < img.width && 0 <= y < img.height ==> BackgroundPixel(Pixel(img, x, y), c)
  }

  /** The value of one hexadecimal digit, either case, or None for any other character. */
  function HexDigit(c: char): (v: Option<nat>)
    ensures v.Some? ==> v.value < 16
  {
    if '0' <= c <= '9' then Some(c as int - '0' as int)
    else if 'a' <= c <= 'f' then Some(c as int - 'a' as int + 10)
    else if 'A' <= c <= 'F' then Some(c as int - 'A' as int + 10)
    else None
  }

  /** The byte written by the two hexadecimal digits s[i] s[i + 1]. */
  function HexByte(s: string, i: nat): Option<Byte>
    requires i + 1 < |s|
  {
    match (HexDigit(s[i]), HexDigit(s[i + 1]))
    case (Some(h), Some(l)) => Some(16 * h + l)
    case _ => None
  }

  /** ImageColor.getcolor(bc, "RGBA") on a normalised colour "#RRGGBBAA": the four bytes,
      or None (PIL's ValueError) when one of the eight characters is not a hex digit. */
  function ParseColour(bc: string): Option<Rgba>
    requires |bc| == 9 && bc[0] == '#'
  {
    match (HexByte(bc, 1), HexByte(bc, 3), HexByte(bc, 5), HexByte(bc, 7))
    case (Some(r), Some(g), Some(b), Some(a)) => Some(Rgba(r, g, b, a))
    case _ => None
  }

  /** getcolor accepts the colour exactly when all eight characters after '#' are hex
      digits; any other character is its ValueError. */
  lemma ParseColourAccepts(bc: string)
    requires |bc| == 9 && bc[0] == '#'
    ensures ParseColour(bc).Some? <==> forall i :: 1 <= i < 9 ==> HexDigit(bc[i]).Some?
  {
    if forall i :: 1 <= i < 9 ==> HexDigit(bc[i]).Some? {
    } else {
      var i :| 1 <= i < 9 && HexDigit(bc[i]).None?;
      assert HexByte(bc, if i % 2 == 1 then i else i - 1).None?;
    }
  }

  /** Hex digits are read in either case: upper-casing a colour text keeps its value. */
  lemma ParseColourCaseless(bc: string)
    requires |bc| == 9 && bc[0] == '#'
    ensures Upper(bc)[0] == '#'
    ensures ParseColour(Upper(bc)) == ParseColour(bc)
  {
    forall i | 0 <= i < 9
      ensures HexDigit(Upper(bc)[i]) == HexDigit(bc[i])
    {
      assert Upper(bc)[i] == UpperChar(bc[i]);
    }
    assert HexByte(Upper(bc), 1) == HexByte(bc, 1);
    assert HexByte(Upper(bc), 3) == HexByte(bc, 3);
    assert HexByte(Upper(bc), 5) == HexByte(bc, 5);
    assert HexByte(Upper(bc), 7) == HexByte(bc, 7);
  }

  /** The lower-case hex digit for d. */
  function HexChar(d: nat): (c: char)
    requires d < 16
    ensures HexDigit(c) == Some(d)
  {
    if d < 10 then ('0' as int + d) as char else ('a' as int + d - 10) as char
  }

  /** A byte as two lower-case hex digits. */
  function HexPair(b: Byte): string {
    [HexChar(b / 16), HexChar(b % 16)]
  }

  /** A colour written as "#rrggbbaa". */
  function ColourText(c: Rgba): (s: string)
    ensures |s| == 9 && s[0] == '#'
  {
    "#" + HexPair(c.r) + HexPair(c.g) + HexPair(c.b) + HexPair(c.a)
  }

  lemma HexPairRoundTrip(s: string, i: nat, b: Byte)
    requires i + 1 < |s| && s[i..i + 2] == HexPair(b)
    ensures HexByte(s, i) == Some(b)
  {
    assert s[i] == HexChar(b / 16) && s[i + 1] == HexChar(b % 16);
  }

  /** Parsing a colour written as "#rrggbbaa" gives the colour back. */
  lemma ParseColourRoundTrip(c: Rgba)
    ensures ParseColour(ColourText(c)) == Some(c)
  {
    var s := ColourText(c);
    assert s[1..3] == HexPair(c.r) && s[3..5] == HexPair(c.g) && s[5..7] == HexPair(c.b) && s[7..9] == HexPair(c.a);
    HexPairRoundTrip(s, 1, c.r);
    HexPairRoundTrip(s, 3, c.g);
    HexPairRoundTrip(s, 5, c.b);
    HexPairRoundTrip(s, 7, c.a);
  }

  /** What image_only_background answers: the file is opened first, then the colour is
      normalised and parsed; the image shows background only when every pixel does. */
  function BackgroundCheck(files: ImageFiles, path: string, backgroundColor: string): Result<bool>
    requires FilesWellFormed(files)
  {
    if path !in files then Err(FileNotFoundError(path))
    else match NormaliseBackground(backgroundColor)
      case Err(e) => Err(e)
      case Ok(bc) =>
        match ParseColour(bc)
        case None => Err(ValueError(bc))
        case Some(c) => Ok(OnlyBackground(files[path], c))
  }

  /** image_only_background(path, background_color): the pixel scan, column by column,
      stopping at the first pixel that is not background. */
  method ImageOnlyBackground(files: ImageFiles, path: string, backgroundColor: string) returns (r: Result<bool>)
    requires FilesWellFormed(files)
    ensures r == BackgroundCheck(files, path, backgroundColor)
  {
    if path !in files {
      return Err(FileNotFoundError(path));
    }
    var image := files[path];
    var bc := NormaliseBackground(backgroundColor);
    if bc.Err? {
      return Err(bc.error);
    }
    var parsed := ParseColour(bc.value);
    if parsed.None? {
      return Err(ValueError(bc.value));
    }
    var c := parsed.value;
    var x := 0;
    while x < image.width
      invariant 0 <= x <= image.width
      invariant forall i, j :: 0 <= i < x && 0 <= j < image.height ==> BackgroundPixel(Pixel(image, i, j), c)
    {
      var y := 0;
      while y < image.height
        invariant 0 <= y <= image.height
        invariant forall j :: 0 <= j < y ==> BackgroundPixel(Pixel(image, x, j), c)
      {
        var p := Pixel(image, x, y);
        if p != c && (p.a != 0 && p.a != c.a) {
          return Ok(false);
        }
        y := y + 1;
      }
      x := x + 1;
    }
    return Ok(true);
  }

  /** "transparent" is read as white with alpha 0. */
  lemma TransparentColour()
    ensures NormaliseBackground("transparent") == Ok("#ffffff00")
    ensures ParseColour("#ffffff00") == Some(Rgba(255, 255, 255, 0))
  {
    assert HexByte("#ffffff00", 1) == Some(255);
    assert HexByte("#ffffff00", 7) == Some(0);
  }

  /** A six-digit colour is read fully opaque. */
  lemma SixDigitColourIsOpaque(backgroundColor: string)
    requires |WithHash(backgroundColor)| == 7 && NormaliseBackground(backgroundColor).Ok?
    requires ParseColour(NormaliseBackground(backgroundColor).value).Some?
    ensures ParseColour(NormaliseBackground(backgroundColor).value).value.a == 255
  {
    var bc := NormaliseBackground(backgroundColor).value;
    assert bc[7] == 'f' && bc[8] == 'f';
  }

  /** With the default background, an image counts as empty exactly when every pixel is transparent. */
  lemma TransparentSetting(files: ImageFiles, path: string)
    requires FilesWellFormed(files) && path in files
    ensures BackgroundCheck(files, path, "transparent")
            == Ok(forall x, y :: 0 <= x < files[path].width && 0 <= y < files[path].height ==> Pixel(files[path], x, y).a == 0)
  {
    TransparentColour();
    TransparentBackground(files[path], Rgba(255, 255, 255, 0));
  }

  /** With a six-digit background colour, every fully opaque image counts as empty, whatever it shows. */
  lemma OpaqueSetting(files: ImageFiles, path: string, backgroundColor: string)
    requires FilesWellFormed(files) && path in files
    requires |WithHash(backgroundColor)| == 7
    requires NormaliseBackground(backgroundColor).Ok? && ParseColour(NormaliseBackground(backgroundColor).value).Some?
    requires forall x, y :: 0 <= x < files[path].width && 0 <= y < files[path].height ==> Pixel(files[path], x, y).a == 255
    ensures BackgroundCheck(files, path, backgroundColor) == Ok(true)
  {
    SixDigitColourIsOpaque(backgroundColor);
    OpaqueBackgroundHidesOpaquePixels(files[path], ParseColour(NormaliseBackground(backgroundColor).value).value);
  }

  /** On a transparent background the check reports an image empty exactly when every pixel is transparent. */
  lemma TransparentBackground(img: Image, c: Rgba)
    requires Grid(img) && c.a == 0
    ensures OnlyBackground(img, c) <==> forall x, y :: 0 <= x < img.width && 0 <= y < img.height ==> Pixel(img, x, y).a == 0
  {
  }

  /** On an opaque background every fully opaque image counts as background only, whatever it shows. */
  lemma OpaqueBackgroundHidesOpaquePixels(img: Image, c: Rgba)
    requires Grid(img) && c.a == 255
    requires forall x, y :: 0 <= x < img.width && 0 <= y < img.height ==> Pixel(img, x, y).a == 255
    ensures OnlyBackground(img, c)
  {
  }

  const DefaultZoom := 17

  /** The zoom of a feature: the override when given, else the feature's `zoom`, else 17. */
  function ChooseZoom(zoomOverride: Option<int>, featureZoom: Option<int>): (z: int)
    ensures zoomOverride.Some? ==> z == zoomOverride.value
    ensures zoomOverride.None? && featureZoom.Some? ==> z == featureZoom.value
    ensures zoomOverride.None? && featureZoom.None? ==> z == DefaultZoom
  {
    if zoomOverride.Some? then zoomOverride.value
    else if featureZoom.Some? then featureZoom.value
    else DefaultZoom
  }

  /** The file id: the feature name, or "legend-<idx>" when the name is empty, then cleaned. */
  function FileId(name: string, idx: nat): (fid: string)
    ensures forall i :: 0 <= i < |fid| ==> IsNameChar(fid[i])
  {
    CleanName(if name == "" then "legend-" + NatToString(idx) else name)
  }

  /** An empty name yields "legend-<idx>" untouched; any other name is cleaned, so a clean
      name is its own id. */
  lemma FileIdFallback(name: string, idx: nat)
    ensures name == "" ==> FileId(name, idx) == "legend-" + NatToString(idx)
    ensures name != "" ==> FileId(name, idx) == CleanName(name)
    ensures name != "" && (forall i :: 0 <= i < |name| ==> IsNameChar(name[i])) ==> FileId(name, idx) == name
  {
    var s := "legend-" + NatToString(idx);
    assert forall i :: 0 <= i < |s| ==> IsNameChar(s[i]);
    CleanNameLaws(s, "", '-');
    CleanNameLaws(name, "", '-');
  }

  /** The i-th candidate image name: "<fid>-<z>.png", then "<fid>-<z>-<i>.png" for i >= 1. */
  function CandidateName(fid: string, z: int, i: nat): string {
    if i == 0 then fid + "-" + IntToString(z) + ".png"
    else fid + "-" + IntToString(z) + "-" + NatToString(i) + ".png"
  }

  function Candidate(outDir: string, fid: string, z: int, i: nat): string {
    JoinPath(outDir, CandidateName(fid, z, i))
  }

  /** Different suffix numbers give different paths. */
  lemma CandidateInjective(outDir: string, fid: string, z: int, i: nat, j: nat)
    requires Candidate(outDir, fid, z, i) == Candidate(outDir, fid, z, j)
    ensures i == j
  {
    var p := fid + "-" + IntToString(z);
    var a, b := CandidateName(fid, z, i), CandidateName(fid, z, j);
    assert a[0] == p[0] && b[0] == p[0];
    JoinPathInjective(outDir, a, b);
    if i != 0 && j != 0 {
      var q := p + "-";
      assert a == q + NatToString(i) + ".png" && b == q + NatToString(j) + ".png";
      assert a[|q|..|a| - 4] == NatToString(i);
      assert b[|q|..|b| - 4] == NatToString(j);
      NatToStringInjective(i, j);
    }
  }

  lemma CandidateDistinct(outDir: string, fid: string, z: int, i: nat, j: nat)
    requires i != j
    ensures Candidate(outDir, fid, z, i) != Candidate(outDir, fid, z, j)
  {
    if Candidate(outDir, fid, z, i) == Candidate(outDir, fid, z, j) {
      CandidateInjective(outDir, fid, z, i, j);
    }
  }

  /** The first n candidate paths. */
  ghost function Candidates(outDir: string, fid: string, z: int, n: nat): set<string> {
    if n == 0 then {} else Candidates(outDir, fid, z, n - 1) + {Candidate(outDir, fid, z, n - 1)}
  }

  /** Candidate k is among the first n exactly when k < n. */
  lemma {:induction false} CandidatesMembers(outDir: string, fid: string, z: int, n: nat, k: nat)
    ensures Candidate(outDir, fid, z, k) in Candidates(outDir, fid, z, n) <==> k < n
  {
    if n > 0 {
      CandidatesMembers(outDir, fid, z, n - 1, k);
      if k != n - 1 {
        CandidateDistinct(outDir, fid, z, k, n - 1);
      }
    }
  }

  /** One more attempt, after a taken candidate, keeps every attempt taken and leaves fewer
      existing files untried. */
  lemma CandidatesStep(outDir: string, fid: string, z: int, n: nat, existing: set<string>)
    requires Candidates(outDir, fid, z, n) <= existing && Candidate(outDir, fid, z, n) in existing
    ensures Candidates(outDir, fid, z, n + 1) <= existing
    ensures existing - Candidates(outDir, fid, z, n + 1) < existing - Candidates(outDir, fid, z, n)
  {
    CandidatesMembers(outDir, fid, z, n, n);
    var c := Candidate(outDir, fid, z, n);
    assert c in existing - Candidates(outDir, fid, z, n);
    assert c !in existing - Candidates(outDir, fid, z, n + 1);
  }

  /** Every candidate before the n-th is taken when the first n are. */
  lemma CandidatesTaken(outDir: string, fid: string, z: int, n: nat, existing: set<string>)
    requires Candidates(outDir, fid, z, n) <= existing
    ensures forall j :: 0 <= j < n ==> Candidate(outDir, fid, z, j) in existing
  {
    forall j | 0 <= j < n ensures Candidate(outDir, fid, z, j) in existing {
      CandidatesMembers(outDir, fid, z, n, j);
    }
  }

  /** The file name search of generate_legend: with overwrite the base name; otherwise the
      first candidate that is not an existing file, every earlier candidate being taken. */
  method PickFileName(outDir: string, fid: string, z: int, overwrite: bool, existing: set<string>)
    returns (filename: string, suffix: nat)
    ensures filename == Candidate(outDir, fid, z, suffix)
    ensures overwrite ==> suffix == 0
    ensures !overwrite ==> filename !in existing
    ensures forall j :: 0 <= j < suffix ==> Candidate(outDir, fid, z, j) in existing
  {
    filename := Candidate(outDir, fid, z, 0);
    suffix := 0;
    if overwrite {
      return;
    }
    // overwrite is fixed, so the loop guard reduces to the file test
    while filename in existing
      invariant filename == Candidate(outDir, fid, z, suffix)
      invariant Candidates(outDir, fid, z, suffix) <= existing
      decreases existing - Candidates(outDir, fid, z, suffix)
    {
      CandidatesStep(outDir, fid, z, suffix, existing);
      suffix := suffix + 1;
      filename := Candidate(outDir, fid, z, suffix);
    }
    CandidatesTaken(outDir, fid, z, suffix, existing);
  }

  const CsvPrefix := "CSV Plugin: no attribute '"

  /** Index of the first quote in s, or |s| when there is none. */
  function FirstQuote(s: string): (k: nat)
    ensures k <= |s|
    ensures forall i :: 0 <= i < k ==> s[i] != '\''
    ensures k < |s| ==> s[k] == '\''
  {
    if s == [] || s[0] == '\'' then 0 else 1 + FirstQuote(s[1..])
  }

  /** The key captured by ^CSV Plugin: no attribute '([^']+)' when the message matches. */
  function MissingAttribute(message: string): Option<string> {
    if |message| >= |CsvPrefix| && message[..|CsvPrefix|] == CsvPrefix then
      var rest := message[|CsvPrefix|..];
      var k := FirstQuote(rest);
      if 0 < k < |rest| then Some(rest[..k]) else None
    else None
  }

  /** Every message of the shape prefix, a quote-free non-empty key, a quote yields that key. */
  lemma MissingAttributeFinds(key: string, rest: string)
    requires |key| > 0 && forall i :: 0 <= i < |key| ==> key[i] != '\''
    ensures MissingAttribute(CsvPrefix + key + "'" + rest) == Some(key)
  {
    var m := CsvPrefix + key + "'" + rest;
    var tail := m[|CsvPrefix|..];
    assert tail == key + "'" + rest;
    var k := FirstQuote(tail);
    assert tail[|key|] == '\'';
    assert k == |key|;
    assert tail[..k] == key;
  }

  /** A key is found only in a message of that shape: the key is non-empty, quote-free, and
      the message starts with the prefix, the key and a quote. */
  lemma MissingAttributeSound(message: string)
    requires MissingAttribute(message).Some?
    ensures var key := MissingAttribute(message).value;
            && |key| > 0 && (forall i :: 0 <= i < |key| ==> key[i] != '\'')
            && |message| > |CsvPrefix| + |key|
            && message[..|CsvPrefix| + |key| + 1] == CsvPrefix + key + "'"
  {
    var rest := message[|CsvPrefix|..];
    var k := FirstQuote(rest);
    assert message[..|CsvPrefix| + k + 1] == message[..|CsvPrefix|] + rest[..k] + [rest[k]];
  }

  function MissingTagMessage(key: string, feature: string, z: int): string {
    key + " is a key needed for feature \"" + feature + "\" on zoom level " + IntToString(z)
    + ". Try adding " + key + " to the extra_tags list.\n"
  }

  /** The handler around render_to_file: a missing-attribute message becomes a
      MapnikLegendaryError naming the key, the feature and the zoom; anything else is re-raised. */
  function ClassifyRenderError(message: string, feature: string, z: int): (e: Error)
    ensures MissingAttribute(message).None? ==> e == RendererError(message)
    ensures MissingAttribute(message).Some? ==>
              e == LegendaryError(MissingTagMessage(MissingAttribute(message).value, feature, z))
  {
    match MissingAttribute(message)
    case Some(key) => LegendaryError(MissingTagMessage(key, feature, z))
    case None => RendererError(message)
  }
}
