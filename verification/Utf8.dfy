/** UTF-8 as section 3 and section 4 of RFC 3629 define it, and lossy decoding as
    section 3.9 of the Unicode Standard describes it: every maximal subpart of an
    ill-formed sequence becomes one U+FFFD. */
module Utf8 {

  type byte = b: int | 0 <= b < 256

  /** A Unicode scalar value, Rust's `char`. */
  type Scalar = c: int | 0 <= c < 0xD800 || 0xE000 <= c < 0x11_0000

  const REPLACEMENT: Scalar := 0xFFFD

  // ---------------------------------------------------------------- encoding

  function Encode(c: Scalar): (u: seq<byte>)
    ensures 1 <= |u| <= 4
  {
    if c < 0x80 then [c]
    else if c < 0x800 then [0xC0 + c / 0x40, 0x80 + c % 0x40]
    else if c < 0x1_0000 then [0xE0 + c / 0x1000, 0x80 + c / 0x40 % 0x40, 0x80 + c % 0x40]
    else [0xF0 + c / 0x4_0000, 0x80 + c / 0x1000 % 0x40, 0x80 + c / 0x40 % 0x40, 0x80 + c % 0x40]
  }

  function EncodeAll(cs: seq<Scalar>): (s: seq<byte>) {
    if cs == [] then [] else Encode(cs[0]) + EncodeAll(cs[1..])
  }

  /** The payload of a byte above its mark. */
  function Payload(b: byte, mark: int): (bits: int) {
    b as int - mark
  }

  /** Section 3 of RFC 3629 in figures: the length by the scalar's size, the lead's mark,
      and the payload bits, highest first, six to a continuation byte. */
  lemma EncodeBits(c: Scalar)
    ensures var u := Encode(c);
            && (forall i | 0 < i < |u| :: 0 <= Payload(u[i], 0x80) < 0x40)
            && (c < 0x80 ==> u == [c])
            && (0x80 <= c < 0x800 ==> |u| == 2 && Payload(u[0], 0xC0) * 0x40 + Payload(u[1], 0x80) == c)
            && (0x800 <= c < 0x1_0000 ==>
                  |u| == 3 &&
                  Payload(u[0], 0xE0) * 0x1000 + Payload(u[1], 0x80) * 0x40 + Payload(u[2], 0x80) == c)
            && (0x1_0000 <= c ==>
                  |u| == 4 &&
                  Payload(u[0], 0xF0) * 0x4_0000 + Payload(u[1], 0x80) * 0x1000
                  + Payload(u[2], 0x80) * 0x40 + Payload(u[3], 0x80) == c)
  {
    assert c / 0x40 / 0x40 == c / 0x1000;
    assert c / 0x1000 / 0x40 == c / 0x4_0000;
  }

  /** The prefix `p` can still be completed to one well-formed sequence. */
  ghost predicate StartsSequence(p: seq<byte>) {
    exists c: Scalar :: p <= Encode(c)
  }

  // ---------------------------------------------------------------- decoding

  predicate IsContinuation(b: byte) {
    0x80 <= b < 0xC0
  }

  /** Length of the sequence a lead byte announces; 0 when it can begin none. */
  function Width(lead: byte): (n: nat) {
    if lead < 0x80 then 1
    else if 0xC2 <= lead < 0xE0 then 2
    else if 0xE0 <= lead < 0xF0 then 3
    else if 0xF0 <= lead < 0xF5 then 4
    else 0
  }

  /** The table of section 4 of RFC 3629: which second bytes may follow a lead. */
  predicate SecondFits(lead: byte, b: byte) {
    && IsContinuation(b)
    && (lead == 0xE0 ==> 0xA0 <= b)
    && (lead == 0xED ==> b < 0xA0)
    && (lead == 0xF0 ==> 0x90 <= b)
    && (lead == 0xF4 ==> b < 0x90)
  }

  /** How many leading bytes of `s` the decoder accepts before it stops. */
  function Matched(s: seq<byte>): (n: nat)
    requires s != []
    ensures n <= |s|
  {
    var width := Width(s[0]);
    if width <= 1 then width
    else if |s| < 2 || !SecondFits(s[0], s[1]) then 1
    else if width == 2 || |s| < 3 || !IsContinuation(s[2]) then 2
    else if width == 3 || |s| < 4 || !IsContinuation(s[3]) then 3
    else 4
  }

  predicate UnitValid(s: seq<byte>)
    requires s != []
  {
    Matched(s) == Width(s[0]) != 0
  }

  /** Bytes the decoder consumes for its next character. */
  function UnitLen(s: seq<byte>): (n: nat)
    requires s != []
    ensures 1 <= n <= |s| && n <= 4
  {
    if Matched(s) == 0 then 1 else Matched(s)
  }

  /** The scalar value that a complete well-formed sequence denotes. */
  function Assemble(u: seq<byte>): (c: int)
    requires 1 <= |u| <= 4
  {
    if |u| == 1 then u[0]
    else if |u| == 2 then Join(u[0] as int - 0xC0, u[1])
    else if |u| == 3 then Join(Join(u[0] as int - 0xE0, u[1]), u[2])
    else Join(Join(Join(u[0] as int - 0xF0, u[1]), u[2]), u[3])
  }

  /** Append the six payload bits of a continuation byte. */
  function Join(high: int, b: byte): (c: int) {
    high * 0x40 + (b as int - 0x80)
  }

  function UnitChar(s: seq<byte>): (c: Scalar)
    requires s != []
  {
    if UnitValid(s) then Assemble(s[..Matched(s)]) else REPLACEMENT
  }

  /** `String::from_utf8_lossy`. */
  function Lossy(s: seq<byte>): (cs: seq<Scalar>) {
    if s == [] then [] else [UnitChar(s)] + Lossy(s[UnitLen(s)..])
  }

  /** `str::from_utf8` succeeds. */
  predicate Valid(s: seq<byte>) {
    s == [] || (UnitValid(s) && Valid(s[UnitLen(s)..]))
  }

  // ------------------------------------------- the decoder against the encoder

  lemma JoinSplits(high: int, b: byte)
    requires IsContinuation(b)
    ensures Join(high, b) / 0x40 == high && 0x80 + Join(high, b) % 0x40 == b
  {
  }

  lemma SplitJoins(c: int)
    ensures Join(c / 0x40, 0x80 + c % 0x40) == c
  {
  }

  lemma EncodedAssembles(c: Scalar)
    ensures Assemble(Encode(c)) == c
  {
    SplitJoins(c);
    SplitJoins(c / 0x40);
    SplitJoins(c / 0x1000);
    assert c / 0x40 / 0x40 == c / 0x1000;
    assert c / 0x1000 / 0x40 == c / 0x4_0000;
  }

  lemma EncodedMatches(c: Scalar)
    ensures var u := Encode(c); Width(u[0]) == |u| && (|u| > 1 ==> SecondFits(u[0], u[1]))
  {
    assert c / 0x40 / 0x40 == c / 0x1000;
    assert c / 0x1000 / 0x40 == c / 0x4_0000;
  }

  /** The decoder's first step read back through the encoder: when a well-formed
      sequence begins `s` it is the one decoded, whatever follows it. */
  lemma EncodedUnit(c: Scalar, rest: seq<byte>)
    ensures var s := Encode(c) + rest;
            UnitValid(s) && UnitLen(s) == |Encode(c)| && UnitChar(s) == c
  {
    var u := Encode(c);
    var s := u + rest;
    assert s[..|u|] == u;
    EncodedMatches(c);
    EncodedAssembles(c);
    assert forall i | 0 < i < |u| :: IsContinuation(u[i]);
    assert forall i | 0 <= i < |u| :: s[i] == u[i];
  }

  lemma ValidUnitIsEncoded(s: seq<byte>)
    requires s != [] && UnitValid(s)
    ensures Encode(UnitChar(s)) == s[..UnitLen(s)]
  {
    var n := UnitLen(s);
    if n >= 2 {
      var base := if n == 2 then 0xC0 else if n == 3 then 0xE0 else 0xF0;
      var c1 := Join(s[0] as int - base, s[1]);
      JoinSplits(s[0] as int - base, s[1]);
      if n >= 3 {
        var c2 := Join(c1, s[2]);
        JoinSplits(c1, s[2]);
        assert c2 / 0x1000 == c2 / 0x40 / 0x40;
        if n == 4 {
          var c3 := Join(c2, s[3]);
          JoinSplits(c2, s[3]);
          assert c3 / 0x1000 == c3 / 0x40 / 0x40;
          assert c3 / 0x4_0000 == c3 / 0x1000 / 0x40;
        }
      }
    }
  }

  /** The accepted bytes can be completed, and one byte more cannot. */
  lemma MatchedIsMaximal(s: seq<byte>, k: nat)
    requires s != [] && k <= |s|
    ensures StartsSequence(s[..k]) <==> k <= Matched(s)
  {
    if k <= Matched(s) {
      var n := Matched(s);
      var fill: seq<byte> := [0x80, 0x80];
      var u := if n < 2 && Width(s[0]) >= 2 then s[..n] + [Second(s[0])] + fill else s[..n] + fill;
      if n > 0 {
        assert u[..n] == s[..n];
        assert SecondFits(s[0], Second(s[0]));
        assert UnitValid(u) && Width(u[0]) == Width(s[0]) && n <= UnitLen(u);
        ValidUnitIsEncoded(u);
        assert s[..k] <= Encode(UnitChar(u));
      } else {
        assert s[..k] <= Encode(0);
      }
    } else {
      forall c: Scalar | s[..k] <= Encode(c) ensures false {
        var u := Encode(c);
        assert forall i | 0 <= i < k :: u[i] == s[..k][i] == s[i];
        EncodedMatches(c);
      }
    }
  }

  /** Some second byte that may follow `lead`. */
  function Second(lead: byte): (b: byte) {
    if lead == 0xE0 then 0xA0 else if lead == 0xF0 then 0x90 else 0x80
  }

  /** Lossy decoding substitutes maximal subparts (Unicode Standard, section 3.9):
      the next character is the scalar whose encoding begins `s` when there is one;
      otherwise U+FFFD replaces the longest prefix that could begin a well-formed
      sequence, or a single byte when there is none. */
  lemma UnitIsMaximalSubpart(s: seq<byte>)
    requires s != []
    ensures forall c: Scalar :: Encode(c) <= s ==> UnitChar(s) == c && UnitLen(s) == |Encode(c)|
    ensures (forall c: Scalar :: !(Encode(c) <= s)) ==>
              && UnitChar(s) == REPLACEMENT
              && (StartsSequence(s[..UnitLen(s)]) || (UnitLen(s) == 1 && !StartsSequence(s[..1])))
              && forall k: nat | UnitLen(s) < k <= |s| :: !StartsSequence(s[..k])
  {
    forall c: Scalar | Encode(c) <= s ensures UnitChar(s) == c && UnitLen(s) == |Encode(c)| {
      EncodedUnit(c, s[|Encode(c)|..]);
      assert Encode(c) + s[|Encode(c)|..] == s;
    }
    if forall c: Scalar :: !(Encode(c) <= s) {
      if UnitValid(s) {
        ValidUnitIsEncoded(s);
      }
      MatchedIsMaximal(s, UnitLen(s));
      MatchedIsMaximal(s, 1);
      forall k: nat | UnitLen(s) < k <= |s| ensures !StartsSequence(s[..k]) {
        MatchedIsMaximal(s, k);
      }
    }
  }

  /** Decoding undoes encoding, for every text. */
  lemma {:induction false} LossyInvertsEncode(cs: seq<Scalar>)
    ensures Lossy(EncodeAll(cs)) == cs && Valid(EncodeAll(cs))
  {
    if cs != [] {
      var s := EncodeAll(cs);
      EncodedUnit(cs[0], EncodeAll(cs[1..]));
      assert s[UnitLen(s)..] == EncodeAll(cs[1..]);
      LossyInvertsEncode(cs[1..]);
    }
  }

  /** Strict and lossy decoding agree: on valid input nothing is substituted. */
  lemma {:induction false} EncodeInvertsLossy(s: seq<byte>)
    ensures Valid(s) <==> EncodeAll(Lossy(s)) == s
    decreases |s|
  {
    if s != [] {
      var n := UnitLen(s);
      assert s == s[..n] + s[n..];
      assert Lossy(s)[1..] == Lossy(s[n..]);
      EncodeInvertsLossy(s[n..]);
      if Valid(s) {
        ValidUnitIsEncoded(s);
      } else if EncodeAll(Lossy(s)) == s {
        LossyInvertsEncode(Lossy(s));
      }
    }
  }

  lemma {:induction false} EncodeAllConcat(x: seq<Scalar>, y: seq<Scalar>)
    ensures EncodeAll(x + y) == EncodeAll(x) + EncodeAll(y)
  {
    if x == [] {
      assert x + y == y;
    } else {
      assert (x + y)[1..] == x[1..] + y;
      EncodeAllConcat(x[1..], y);
    }
  }

  lemma ValidConcat(a: seq<byte>, b: seq<byte>)
    requires Valid(a) && Valid(b)
    ensures Valid(a + b)
  {
    EncodeInvertsLossy(a);
    EncodeInvertsLossy(b);
    EncodeAllConcat(Lossy(a), Lossy(b));
    LossyInvertsEncode(Lossy(a) + Lossy(b));
  }

  lemma {:induction false} AsciiValid(s: seq<byte>)
    requires forall i | 0 <= i < |s| :: s[i] < 0x80
    ensures Valid(s)
  {
    if s != [] {
      AsciiValid(s[1..]);
    }
  }
}
