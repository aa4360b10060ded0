/** The owner manifest of a managed account home: its text format and its codec.
    Strings are their UTF-8 bytes, as in Rust. */
module OwnerManifest {
  import opened Wrappers
  import opened Utf8

  const NEWLINE: byte := 10
  const OWNER_MANIFEST_LIMIT: nat := 4 * 1024

  function Ascii(s: string): (bytes: seq<byte>) {
    seq(|s|, i requires 0 <= i < |s| => if s[i] as int < 0x80 then s[i] as int else 0)
  }

  /** The fixed text around a manifest's two fields. */
  datatype Format = Format(header: seq<byte>, provider: seq<byte>, name: seq<byte>) {
    ghost predicate Sound() {
      && NEWLINE !in header && NEWLINE !in provider && NEWLINE !in name
      && Valid(header) && Valid(provider) && Valid(name)
    }
  }

  const V1: Format := Format(Ascii("thegn-account-home v1"), Ascii("provider="), Ascii("name="))

  // --------------------------------------------------------------------- hex

  function HexDigit(v: nat): (b: byte)
    requires v < 16
  {
    if v < 10 then 0x30 + v else 0x61 + v - 10
  }

  function DigitValue(b: byte): (v: Option<nat>)
    ensures v.Some? ==> v.value < 16
  {
    if 0x30 <= b <= 0x39 then Some(b - 0x30)
    else if 0x61 <= b <= 0x66 then Some(b - 0x61 + 10)
    else None
  }

  function EncodeHex(bytes: seq<byte>): (h: seq<byte>) {
    if bytes == [] then []
    else [HexDigit(bytes[0] / 16), HexDigit(bytes[0] % 16)] + EncodeHex(bytes[1..])
  }

  function DecodeHex(h: seq<byte>): (bytes: Option<seq<byte>>) {
    if h == [] then Some([])
    else if |h| == 1 then None
    else
      var high, low, rest := DigitValue(h[0]), DigitValue(h[1]), DecodeHex(h[2..]);
      if high.Some? && low.Some? && rest.Some? then Some([high.value * 16 + low.value] + rest.value) else None
  }

  lemma DigitsRoundTrip(b: byte)
    ensures DigitValue(HexDigit(b / 16)) == Some(b / 16) && DigitValue(HexDigit(b % 16)) == Some(b % 16)
    ensures b / 16 * 16 + b % 16 == b
  {
  }

  lemma DecodeOne(b: byte, h: seq<byte>)
    requires DecodeHex(h).Some?
    ensures DecodeHex([HexDigit(b / 16), HexDigit(b % 16)] + h) == Some([b] + DecodeHex(h).value)
  {
    var s := [HexDigit(b / 16), HexDigit(b % 16)] + h;
    DigitsRoundTrip(b);
    assert s[0] == HexDigit(b / 16) && s[1] == HexDigit(b % 16) && s[2..] == h;
  }

  lemma {:induction false} DecodeInvertsEncode(bytes: seq<byte>)
    ensures DecodeHex(EncodeHex(bytes)) == Some(bytes)
  {
    if bytes != [] {
      DecodeInvertsEncode(bytes[1..]);
      DecodeOne(bytes[0], EncodeHex(bytes[1..]));
      assert bytes == [bytes[0]] + bytes[1..];
    }
  }

  lemma {:induction false} EncodeInvertsDecode(h: seq<byte>)
    requires DecodeHex(h).Some?
    ensures EncodeHex(DecodeHex(h).value) == h
  {
    if h != [] {
      EncodeInvertsDecode(h[2..]);
      var bytes := DecodeHex(h).value;
      assert bytes[1..] == DecodeHex(h[2..]).value;
      assert h == [h[0], h[1]] + h[2..];
    }
  }

  const HEX: string := "0123456789abcdef"

  /** The two digits of byte `i`, high nibble first, in lower case. */
  lemma {:induction false} HexDigitsAre(bytes: seq<byte>, i: nat)
    requires i < |bytes|
    ensures |EncodeHex(bytes)| == 2 * |bytes|
    ensures EncodeHex(bytes)[2 * i] == HEX[bytes[i] / 16] as int
    ensures EncodeHex(bytes)[2 * i + 1] == HEX[bytes[i] % 16] as int
  {
    HexIsPlain(bytes);
    HexIsPlain(bytes[1..]);
    DigitIs(bytes[i] / 16);
    DigitIs(bytes[i] % 16);
    if i > 0 {
      HexDigitsAre(bytes[1..], i - 1);
      assert EncodeHex(bytes)[2..] == EncodeHex(bytes[1..]);
    }
  }

  lemma DigitIs(v: nat)
    requires v < 16
    ensures HexDigit(v) == HEX[v] as int
  {
  }

  lemma {:induction false} HexIsPlain(bytes: seq<byte>)
    ensures forall i | 0 <= i < |EncodeHex(bytes)| :: EncodeHex(bytes)[i] < 0x80 && EncodeHex(bytes)[i] != NEWLINE
    ensures |EncodeHex(bytes)| == 2 * |bytes|
  {
    if bytes != [] {
      HexIsPlain(bytes[1..]);
    }
  }

  // ------------------------------------------------------------------- lines

  function FirstNewline(s: seq<byte>): (k: nat)
    ensures k <= |s| && (k < |s| ==> s[k] == NEWLINE)
    ensures NEWLINE !in s[..k]
  {
    if s == [] || s[0] == NEWLINE then 0
    else
      assert s[..1 + FirstNewline(s[1..])] == [s[0]] + s[1..][..FirstNewline(s[1..])];
      1 + FirstNewline(s[1..])
  }

  /** `str::split_terminator('\n')`. */
  function SplitLines(s: seq<byte>): (lines: seq<seq<byte>>) {
    if s == [] then []
    else
      var k := FirstNewline(s);
      if k == |s| then [s] else [s[..k]] + SplitLines(s[k + 1..])
  }

  function Unlines(lines: seq<seq<byte>>): (s: seq<byte>) {
    if lines == [] then [] else lines[0] + [NEWLINE] + Unlines(lines[1..])
  }

  predicate Plain(lines: seq<seq<byte>>) {
    forall i | 0 <= i < |lines| :: NEWLINE !in lines[i]
  }

  lemma {:induction false} FirstNewlineAt(line: seq<byte>, rest: seq<byte>)
    requires NEWLINE !in line
    ensures FirstNewline(line + [NEWLINE] + rest) == |line|
    decreases |line|
  {
    var s := line + [NEWLINE] + rest;
    if line == [] {
      assert s[0] == NEWLINE;
    } else {
      assert s[0] == line[0] && s[1..] == line[1..] + [NEWLINE] + rest;
      FirstNewlineAt(line[1..], rest);
    }
  }

  lemma SplitFirst(line: seq<byte>, rest: seq<byte>)
    requires NEWLINE !in line
    ensures SplitLines(line + [NEWLINE] + rest) == [line] + SplitLines(rest)
  {
    var s := line + [NEWLINE] + rest;
    FirstNewlineAt(line, rest);
    assert s[..|line|] == line && s[|line| + 1..] == rest;
  }

  lemma {:induction false} SplitInvertsUnlines(lines: seq<seq<byte>>)
    requires Plain(lines)
    ensures SplitLines(Unlines(lines)) == lines
  {
    if lines != [] {
      SplitFirst(lines[0], Unlines(lines[1..]));
      SplitInvertsUnlines(lines[1..]);
    }
  }

  lemma {:induction false} NewlineReached(s: seq<byte>)
    requires s != [] && s[|s| - 1] == NEWLINE
    ensures FirstNewline(s) < |s|
  {
    if s[0] != NEWLINE {
      NewlineReached(s[1..]);
    }
  }

  lemma UnlinesFirst(line: seq<byte>, lines: seq<seq<byte>>)
    ensures Unlines([line] + lines) == line + [NEWLINE] + Unlines(lines)
  {
    assert ([line] + lines)[1..] == lines;
  }

  lemma PlainFirst(line: seq<byte>, lines: seq<seq<byte>>)
    requires NEWLINE !in line && Plain(lines)
    ensures Plain([line] + lines)
  {
  }

  /** A text that ends in a newline is its first line, a newline, and the rest. */
  lemma SplitAtFirst(s: seq<byte>) returns (line: seq<byte>, rest: seq<byte>)
    requires s != [] && s[|s| - 1] == NEWLINE
    ensures s == line + [NEWLINE] + rest && NEWLINE !in line && (rest == [] || rest[|rest| - 1] == NEWLINE)
    ensures SplitLines(s) == [line] + SplitLines(rest)
  {
    var k := FirstNewline(s);
    NewlineReached(s);
    line, rest := s[..k], s[k + 1..];
  }

  lemma {:induction false} UnlinesInvertsSplit(s: seq<byte>)
    requires s == [] || s[|s| - 1] == NEWLINE
    ensures Unlines(SplitLines(s)) == s && Plain(SplitLines(s))
    decreases |s|
  {
    if s != [] {
      var line, rest := SplitAtFirst(s);
      UnlinesInvertsSplit(rest);
      UnlinesFirst(line, SplitLines(rest));
      PlainFirst(line, SplitLines(rest));
    }
  }

  // ------------------------------------------------------------ the manifest

  function ManifestIn(f: Format, provider: seq<byte>, name: seq<byte>): (bytes: seq<byte>) {
    Unlines([f.header, f.provider + provider, f.name + EncodeHex(name)])
  }

  /** A name costs two bytes per byte, beside the fixed text and the provider. */
  lemma ManifestLength(f: Format, provider: seq<byte>, name: seq<byte>)
    ensures |ManifestIn(f, provider, name)| == |f.header| + |f.provider| + |provider| + |f.name| + 2 * |name| + 3
  {
    var a, b, c := f.header, f.provider + provider, f.name + EncodeHex(name);
    HexIsPlain(name);
    assert [a, b, c][1..] == [b, c] && [b, c][1..] == [c];
    assert Unlines([]) == [];
    assert |Unlines([c])| == |c| + 1;
    assert |Unlines([b, c])| == |b| + |c| + 2;
  }

  /** The text of a manifest, to the letter. */
  lemma ManifestText(provider: seq<byte>, name: seq<byte>)
    ensures ManifestIn(V1, provider, name) ==
            Ascii("thegn-account-home v1") + [10] + Ascii("provider=") + provider + [10]
            + Ascii("name=") + EncodeHex(name) + [10]
  {
    LinesText(Ascii("thegn-account-home v1"), Ascii("provider="), provider, Ascii("name="), EncodeHex(name));
  }

  lemma LinesText(a: seq<byte>, b: seq<byte>, p: seq<byte>, c: seq<byte>, n: seq<byte>)
    ensures Unlines([a, b + p, c + n]) == a + [10] + b + p + [10] + c + n + [10]
  {
    assert [a, b + p, c + n][1..] == [b + p, c + n] && [b + p, c + n][1..] == [c + n];
    assert Unlines([]) == [];
    assert Unlines([c + n]) == c + n + [10];
    assert Unlines([b + p, c + n]) == b + p + [10] + (c + n + [10]);
  }

  predicate HasPrefix(line: seq<byte>, prefix: seq<byte>) {
    |prefix| <= |line| && line[..|prefix|] == prefix
  }

  /** The owner that the lines of a manifest name. */
  function OwnerOf(f: Format, lines: seq<seq<byte>>): (owner: Option<(seq<byte>, seq<byte>)>) {
    if |lines| != 3 || lines[0] != f.header || !HasPrefix(lines[1], f.provider) || !HasPrefix(lines[2], f.name)
    then None
    else
      var name := DecodeHex(lines[2][|f.name|..]);
      if name.Some? && Valid(name.value) then Some((lines[1][|f.provider|..], name.value)) else None
  }

  function ParseIn(f: Format, bytes: seq<byte>): (owner: Option<(seq<byte>, seq<byte>)>) {
    if bytes == [] || bytes[|bytes| - 1] != NEWLINE || !Valid(bytes) then None else OwnerOf(f, SplitLines(bytes))
  }

  /** `owner_manifest`. */
  function Manifest(provider: seq<byte>, name: seq<byte>): (bytes: seq<byte>) {
    ManifestIn(V1, provider, name)
  }

  /** `parse_owner_manifest`. */
  function ParseManifest(bytes: seq<byte>): (owner: Option<(seq<byte>, seq<byte>)>) {
    ParseIn(V1, bytes)
  }

  predicate PlainText(s: string) {
    forall c | c in s :: c != '\n' && c as int < 0x80
  }

  lemma FieldPlain(s: string)
    requires PlainText(s)
    ensures NEWLINE !in Ascii(s) && Valid(Ascii(s))
  {
    assert forall i | 0 <= i < |s| :: s[i] in s;
    AsciiValid(Ascii(s));
  }

  lemma V1Sound()
    ensures V1.Sound()
  {
    HeaderPlain();
    FieldPlain("thegn-account-home v1");
    FieldPlain("provider=");
    FieldPlain("name=");
  }

  lemma HeaderPlain()
    ensures PlainText("thegn-account-home v1") && PlainText("provider=") && PlainText("name=")
  {
  }

  lemma {:induction false} UnlinesValid(lines: seq<seq<byte>>)
    requires forall i | 0 <= i < |lines| :: Valid(lines[i])
    ensures Valid(Unlines(lines))
  {
    if lines != [] {
      AsciiValid([NEWLINE]);
      ValidConcat(lines[0], [NEWLINE]);
      UnlinesValid(lines[1..]);
      ValidConcat(lines[0] + [NEWLINE], Unlines(lines[1..]));
    }
  }

  lemma {:induction false} UnlinesEnds(lines: seq<seq<byte>>)
    requires lines != []
    ensures var s := Unlines(lines); s != [] && s[|s| - 1] == NEWLINE
  {
    if |lines| > 1 {
      UnlinesEnds(lines[1..]);
    }
  }

  lemma ThreeLinesValid(a: seq<byte>, b: seq<byte>, c: seq<byte>)
    requires Valid(a) && Valid(b) && Valid(c)
    ensures Valid(Unlines([a, b, c]))
  {
    UnlinesValid([a, b, c]);
  }

  lemma NameLineValid(f: Format, name: seq<byte>)
    requires Valid(f.name)
    ensures Valid(f.name + EncodeHex(name))
  {
    HexIsPlain(name);
    AsciiValid(EncodeHex(name));
    ValidConcat(f.name, EncodeHex(name));
  }

  lemma ManifestValid(f: Format, provider: seq<byte>, name: seq<byte>)
    requires f.Sound() && Valid(provider)
    ensures Valid(ManifestIn(f, provider, name))
  {
    NameLineValid(f, name);
    ValidConcat(f.provider, provider);
    ThreeLinesValid(f.header, f.provider + provider, f.name + EncodeHex(name));
  }

  lemma ManifestLines(f: Format, provider: seq<byte>, name: seq<byte>)
    requires f.Sound() && NEWLINE !in provider
    ensures SplitLines(ManifestIn(f, provider, name)) == [f.header, f.provider + provider, f.name + EncodeHex(name)]
  {
    HexIsPlain(name);
    var lines := [f.header, f.provider + provider, f.name + EncodeHex(name)];
    assert Plain(lines);
    SplitInvertsUnlines(lines);
  }

  lemma ParsedProviderPlain(f: Format, bytes: seq<byte>)
    requires ParseIn(f, bytes).Some?
    ensures NEWLINE !in ParseIn(f, bytes).value.0
  {
    UnlinesInvertsSplit(bytes);
    assert NEWLINE !in SplitLines(bytes)[1];
  }

  /** Reading back what was written: exact for every provider without a newline, and
      for no other. */
  lemma ParseInvertsManifest(provider: seq<byte>, name: seq<byte>)
    requires Valid(provider) && Valid(name)
    ensures ParseManifest(Manifest(provider, name)) == Some((provider, name)) <==> NEWLINE !in provider
  {
    V1Sound();
    RoundTripIn(V1, provider, name);
  }

  lemma RoundTripIn(f: Format, provider: seq<byte>, name: seq<byte>)
    requires f.Sound() && Valid(provider) && Valid(name)
    ensures ParseIn(f, ManifestIn(f, provider, name)) == Some((provider, name)) <==> NEWLINE !in provider
  {
    if NEWLINE !in provider {
      ManifestValid(f, provider, name);
      ReadBackIn(f, provider, name);
    } else if ParseIn(f, ManifestIn(f, provider, name)).Some? {
      ParsedProviderPlain(f, ManifestIn(f, provider, name));
    }
  }

  lemma ReadBackIn(f: Format, provider: seq<byte>, name: seq<byte>)
    requires f.Sound() && Valid(ManifestIn(f, provider, name)) && Valid(name) && NEWLINE !in provider
    ensures ParseIn(f, ManifestIn(f, provider, name)) == Some((provider, name))
  {
    ManifestLines(f, provider, name);
    UnlinesEnds([f.header, f.provider + provider, f.name + EncodeHex(name)]);
    OwnerReadBack(f, provider, name);
  }

  lemma OwnerReadBack(f: Format, provider: seq<byte>, name: seq<byte>)
    requires Valid(name)
    ensures OwnerOf(f, [f.header, f.provider + provider, f.name + EncodeHex(name)]) == Some((provider, name))
  {
    DecodeInvertsEncode(name);
    assert (f.provider + provider)[|f.provider|..] == provider;
    assert (f.name + EncodeHex(name))[|f.name|..] == EncodeHex(name);
  }

  /** Writing back what was read: the format has exactly one text per owner. */
  lemma ManifestInvertsParse(bytes: seq<byte>)
    requires ParseManifest(bytes).Some?
    ensures var (provider, name) := ParseManifest(bytes).value; Manifest(provider, name) == bytes
  {
    WriteBackIn(V1, bytes);
  }

  lemma WriteBackIn(f: Format, bytes: seq<byte>)
    requires ParseIn(f, bytes).Some?
    ensures var (provider, name) := ParseIn(f, bytes).value; ManifestIn(f, provider, name) == bytes
  {
    UnlinesInvertsSplit(bytes);
    OwnerWrittenBack(f, SplitLines(bytes));
  }

  lemma OwnerWrittenBack(f: Format, lines: seq<seq<byte>>)
    requires OwnerOf(f, lines).Some?
    ensures var (provider, name) := OwnerOf(f, lines).value;
            lines == [f.header, f.provider + provider, f.name + EncodeHex(name)]
  {
    EncodeInvertsDecode(lines[2][|f.name|..]);
    assert lines[1] == lines[1][..|f.provider|] + lines[1][|f.provider|..];
    assert lines[2] == lines[2][..|f.name|] + lines[2][|f.name|..];
    assert lines == [lines[0], lines[1], lines[2]];
  }

  /** The bytes are the manifest of this owner, in valid UTF-8 and on three lines. */
  ghost predicate ManifestOf(bytes: seq<byte>, p: seq<byte>, n: seq<byte>) {
    Valid(bytes) && NEWLINE !in p && Valid(n) && bytes == Manifest(p, n)
  }

  /** What parses is exactly what is some owner's manifest. */
  lemma ParseExact(bytes: seq<byte>)
    ensures ParseManifest(bytes).Some? <==> exists p, n :: ManifestOf(bytes, p, n)
  {
    if ParseManifest(bytes).Some? {
      var (p, n) := ParseManifest(bytes).value;
      ManifestInvertsParse(bytes);
      ParsedProviderPlain(V1, bytes);
      assert ManifestOf(bytes, p, n);
    } else if exists p, n :: ManifestOf(bytes, p, n) {
      var p, n :| ManifestOf(bytes, p, n);
      V1Sound();
      ReadBackIn(V1, p, n);
    }
  }

  /** Different owners have different manifests. */
  lemma ManifestInjective(p: seq<byte>, n: seq<byte>, p': seq<byte>, n': seq<byte>)
    requires Valid(p) && Valid(n) && Valid(p') && Valid(n') && NEWLINE !in p && NEWLINE !in p'
    requires Manifest(p, n) == Manifest(p', n')
    ensures p == p' && n == n'
  {
    ParseInvertsManifest(p, n);
    ParseInvertsManifest(p', n');
  }
}
