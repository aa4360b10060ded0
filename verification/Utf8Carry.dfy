/** The chunked UTF-8 decoder that recordings and replay exports feed terminal
    bytes through: each push emits what can be decided and holds a short tail. */
module Utf8Carry {
  import opened Utf8

  // ------------------------------------------------------------ the held tail

  /** Bytes the scan believes a lead byte announces. Unlike `Width` it also
      trusts leads that begin no well-formed sequence. */
  function Expected(lead: byte): (n: nat)
    ensures 2 <= n <= 4
  {
    if lead >= 0xF0 then 4 else if lead >= 0xE0 then 3 else 2
  }

  /** `keep` bytes are held back: they are a lead and fewer continuation bytes
      than it announces. */
  predicate OpenTail(buf: seq<byte>, keep: nat)
    requires 0 < keep <= |buf|
  {
    var n := |buf|;
    && buf[n - keep] >= 0xC0
    && keep < Expected(buf[n - keep])
    && forall i | n - keep < i < n :: IsContinuation(buf[i])
  }

  /** The length of the open tail, 0 when there is none. */
  function TailLen(buf: seq<byte>): (keep: nat)
    ensures keep <= |buf| && keep <= 3
    ensures keep > 0 ==> OpenTail(buf, keep)
    ensures keep == 0 ==> forall k | 0 < k <= |buf| :: !OpenTail(buf, k)
  {
    if |buf| >= 1 && OpenTail(buf, 1) then 1
    else if |buf| >= 2 && OpenTail(buf, 2) then 2
    else if |buf| >= 3 && OpenTail(buf, 3) then 3
    else 0
  }

  /** The backward scan finds exactly the open tail. */
  method IncompleteTailLen(buf: seq<byte>) returns (keep: nat)
    ensures keep == TailLen(buf)
  {
    var n := |buf|;
    var maxBack := if n < 3 then n else 3;
    var back := 1;
    while back <= maxBack
      invariant 1 <= back <= maxBack + 1
      invariant forall i | n - back < i < n :: IsContinuation(buf[i])
      invariant forall k | 0 < k < back :: !OpenTail(buf, k)
    {
      var b := buf[n - back];
      if b < 0x80 {
        assert forall k | back <= k <= n :: !OpenTail(buf, k);
        return 0;
      }
      if b >= 0xC0 {
        assert forall k | back < k <= n :: !OpenTail(buf, k);
        return if back < Expected(b) then back else 0;
      }
      back := back + 1;
    }
    return 0;
  }

  // -------------------------------------------------- where a cut is harmless

  /** No character of `a + rest` straddles the cut: nothing is pending at the end
      of `a`, or what follows cannot continue it. */
  predicate CleanCut(a: seq<byte>, rest: seq<byte>) {
    rest == [] || !IsContinuation(rest[0]) || a == [] || TailLen(a) == 0
  }

  lemma {:induction false} LossySplits(a: seq<byte>, rest: seq<byte>)
    requires CleanCut(a, rest)
    ensures Lossy(a + rest) == Lossy(a) + Lossy(rest)
    decreases |a|, 1
  {
    if a == [] {
      assert a + rest == rest;
    } else if rest == [] {
      assert a + rest == a;
    } else {
      LossySplitsNonempty(a, rest);
    }
  }

  lemma {:induction false} LossySplitsNonempty(a: seq<byte>, rest: seq<byte>)
    requires a != [] && rest != [] && CleanCut(a, rest)
    ensures Lossy(a + rest) == Lossy(a) + Lossy(rest)
    decreases |a|, 0
  {
    var n, x := UnitLen(a), UnitChar(a);
    calc {
      Lossy(a + rest);
      { FirstUnitStays(a, rest); assert (a + rest)[n..] == a[n..] + rest; }
      [x] + Lossy(a[n..] + rest);
      { CutStaysClean(a, n, rest); LossySplits(a[n..], rest); }
      [x] + (Lossy(a[n..]) + Lossy(rest));
      { Regroup(x, Lossy(a[n..]), Lossy(rest)); }
      ([x] + Lossy(a[n..])) + Lossy(rest);
    }
  }

  lemma Regroup<T>(x: T, p: seq<T>, q: seq<T>)
    ensures [x] + (p + q) == ([x] + p) + q
  {
  }

  lemma CutStaysClean(a: seq<byte>, n: nat, rest: seq<byte>)
    requires n <= |a| && CleanCut(a, rest)
    ensures CleanCut(a[n..], rest)
  {
    var keep := TailLen(a[n..]);
    if keep != 0 {
      assert OpenTail(a, keep);
    }
  }

  /** Appending after a clean cut does not change the first character of `a`. */
  lemma FirstUnitStays(a: seq<byte>, rest: seq<byte>)
    requires a != [] && rest != [] && CleanCut(a, rest)
    ensures UnitLen(a + rest) == UnitLen(a) && UnitChar(a + rest) == UnitChar(a)
  {
    var s := a + rest;
    assert forall i | 0 <= i < |a| :: s[i] == a[i];
    assert s[|a|] == rest[0];
    if Matched(a) == |a| < Width(a[0]) {
      assert a[0] >= 0xC0;
      assert forall i | 0 < i < |a| :: IsContinuation(a[i]);
      assert |a| < Expected(a[0]);
      assert OpenTail(a, |a|);
    }
    assert Matched(s) == Matched(a);
    assert s[..Matched(a)] == a[..Matched(a)];
  }

  // ------------------------------------------------------------ push and flush

  function Emitted(buf: seq<byte>): (head: seq<byte>) {
    buf[..|buf| - TailLen(buf)]
  }

  function Held(buf: seq<byte>): (tail: seq<byte>) {
    buf[|buf| - TailLen(buf)..]
  }

  /** What one push emits is final: it is a prefix of the decoding of everything
      received so far, however the stream goes on. */
  lemma PushIsFinal(buf: seq<byte>, rest: seq<byte>)
    ensures Lossy(buf + rest) == Lossy(Emitted(buf)) + Lossy(Held(buf) + rest)
  {
    var head, tail := Emitted(buf), Held(buf);
    if TailLen(buf) == 0 {
      assert head == buf && tail + rest == rest;
    }
    assert buf + rest == head + (tail + rest);
    LossySplits(head, tail + rest);
  }

  lemma AlwaysFinal(buf: seq<byte>)
    ensures forall rest: seq<byte> :: Lossy(buf + rest) == Lossy(Emitted(buf)) + Lossy(Held(buf) + rest)
  {
    forall rest: seq<byte> ensures Lossy(buf + rest) == Lossy(Emitted(buf)) + Lossy(Held(buf) + rest) {
      PushIsFinal(buf, rest);
    }
  }

  /** The lead begins some well-formed sequence, and a second byte that is there may
      follow it: what the scan would have to test. */
  predicate Promising(tail: seq<byte>)
    requires tail != []
  {
    Width(tail[0]) != 0 && (|tail| >= 2 ==> SecondFits(tail[0], tail[1]))
  }

  /** The bytes held back can still be completed exactly when they are promising. */
  lemma HeldMayComplete(buf: seq<byte>)
    requires TailLen(buf) > 0
    ensures StartsSequence(Held(buf)) <==> Promising(Held(buf))
  {
    var t := Held(buf);
    assert t[..|t|] == t;
    assert forall i | 0 < i < |t| :: IsContinuation(t[i]);
    MatchedIsMaximal(t, |t|);
  }

  /** Holding is needed exactly then: a held tail that is not promising is decoded the
      same whatever follows, and could have been emitted at once. */
  lemma HeldOnlyIfNeeded(buf: seq<byte>)
    requires TailLen(buf) > 0
    ensures (forall rest: seq<byte> :: Lossy(Held(buf) + rest) == Lossy(Held(buf)) + Lossy(rest)) <==>
            !Promising(Held(buf))
  {
    var t := Held(buf);
    assert forall i | 0 < i < |t| :: IsContinuation(t[i]);
    if Promising(t) {
      HeldMayComplete(buf);
      var c: Scalar :| t <= Encode(c);
      CompletionJoins(t, c);
    } else {
      forall rest: seq<byte> ensures Lossy(t + rest) == Lossy(t) + Lossy(rest) {
        SettledSplits(t, rest);
      }
    }
  }

  /** Completed, a proper beginning of a character is one character and not two. */
  lemma CompletionJoins(t: seq<byte>, c: Scalar)
    requires t != [] && t <= Encode(c) && |t| < Expected(t[0]) && t[0] >= 0xC0
    ensures var rest := Encode(c)[|t|..]; Lossy(t + rest) != Lossy(t) + Lossy(rest)
  {
    var rest := Encode(c)[|t|..];
    EncodedMatches(c);
    assert t[0] == Encode(c)[0] && rest != [];
    assert EncodeAll([c]) == Encode(c) by {
      assert EncodeAll([]) == [];
    }
    assert t + rest == Encode(c);
    LossyInvertsEncode([c]);
    assert |Lossy(t)| >= 1 && |Lossy(rest)| >= 1;
  }

  lemma SettledSplits(t: seq<byte>, rest: seq<byte>)
    requires t != [] && !Promising(t) && forall i | 0 < i < |t| :: IsContinuation(t[i])
    ensures Lossy(t + rest) == Lossy(t) + Lossy(rest)
  {
    var s, tail := t + rest, t[1..];
    if Width(t[0]) >= 2 {
      assert s[1] == t[1];
    }
    assert s[0] == t[0] && s[1..] == tail + rest;
    assert UnitLen(s) == 1 && UnitChar(s) == REPLACEMENT && UnitLen(t) == 1 && UnitChar(t) == REPLACEMENT;
    assert TailLen(tail) == 0;
    LossySplits(tail, rest);
    Regroup(REPLACEMENT, Lossy(tail), Lossy(rest));
  }

  /** Garbage that looks open is held: all of it waits, and none of it can complete. */
  lemma OpenGarbageIsHeld(tail: seq<byte>)
    requires tail != [] && OpenTail(tail, |tail|) && !Promising(tail)
    ensures Held(tail) == tail && !StartsSequence(tail)
  {
    assert forall k | 0 < k < |tail| :: !OpenTail(tail, k);
    assert TailLen(tail) == |tail|;
    HeldMayComplete(tail);
  }

  /** Such bytes there are: a lead that begins nothing, and a lead whose second byte
      does not fit it. */
  lemma GarbageIsHeld()
    ensures Held([0xFF]) == [0xFF] && !StartsSequence([0xFF])
    ensures Held([0xE0, 0x80]) == [0xE0, 0x80] && !StartsSequence([0xE0, 0x80])
  {
    OpenGarbageIsHeld([0xFF]);
    OpenGarbageIsHeld([0xE0, 0x80]);
  }

  class Carry {
    var buf: seq<byte>

    constructor ()
      ensures buf == []
    {
      buf := [];
    }

    /** Append `bytes`; emit the decided prefix; hold at most three bytes. Nothing
        is lost, and `text` never has to be taken back whatever comes next. */
    method Push(bytes: seq<byte>) returns (text: seq<Scalar>)
      modifies this
      ensures |buf| <= 3
      ensures text == Lossy(Emitted(old(buf) + bytes)) && Emitted(old(buf) + bytes) + buf == old(buf) + bytes
      ensures forall rest: seq<byte> :: Lossy(old(buf) + bytes + rest) == text + Lossy(buf + rest)
    {
      buf := buf + bytes;
      ghost var received := buf;
      var keep := IncompleteTailLen(buf);
      var split := |buf| - keep;
      var head := buf[..split];
      buf := buf[split..];
      text := if head == [] then [] else Lossy(head);
      AlwaysFinal(received);
    }

    /** Emit whatever is still held. */
    method Flush() returns (text: seq<Scalar>)
      modifies this
      ensures text == Lossy(old(buf)) && buf == []
    {
      if buf == [] {
        text := [];
      } else {
        text := Lossy(buf);
        buf := [];
      }
    }
  }

  // ------------------------------------------------------------- whole streams

  function Concat(chunks: seq<seq<byte>>): (s: seq<byte>) {
    if chunks == [] then [] else chunks[0] + Concat(chunks[1..])
  }

  /** Everything a carry that holds `buf` emits for `chunks` and a final flush. */
  function Transcript(buf: seq<byte>, chunks: seq<seq<byte>>): (text: seq<Scalar>)
    decreases |chunks|
  {
    if chunks == [] then Lossy(buf)
    else Lossy(Emitted(buf + chunks[0])) + Transcript(Held(buf + chunks[0]), chunks[1..])
  }

  lemma TranscriptSteps(buf: seq<byte>, chunks: seq<seq<byte>>, text: seq<Scalar>)
    requires chunks != []
    ensures var received := buf + chunks[0];
            text + Lossy(Emitted(received)) + Transcript(Held(received), chunks[1..]) == text + Transcript(buf, chunks)
  {
    var received := buf + chunks[0];
    Associate(text, Lossy(Emitted(received)), Transcript(Held(received), chunks[1..]));
  }

  lemma Associate<T>(p: seq<T>, q: seq<T>, r: seq<T>)
    ensures (p + q) + r == p + (q + r)
  {
  }

  /** Chunking is unobservable: for every byte string, valid or not, and every way
      of cutting it, the emitted text is the lossy decoding of the whole. */
  lemma {:induction false} ChunkingUnobservable(buf: seq<byte>, chunks: seq<seq<byte>>)
    ensures Transcript(buf, chunks) == Lossy(buf + Concat(chunks))
    decreases |chunks|
  {
    if chunks == [] {
      assert buf + Concat(chunks) == buf;
    } else {
      var received, rest := buf + chunks[0], Concat(chunks[1..]);
      calc {
        Transcript(buf, chunks);
        Lossy(Emitted(received)) + Transcript(Held(received), chunks[1..]);
        { ChunkingUnobservable(Held(received), chunks[1..]); }
        Lossy(Emitted(received)) + Lossy(Held(received) + rest);
        { PushIsFinal(received, rest); }
        Lossy(received + rest);
        { assert buf + Concat(chunks) == received + rest; }
        Lossy(buf + Concat(chunks));
      }
    }
  }

  /** A text that reaches the carry as UTF-8 comes out unchanged, however it was
      cut: no glyph is ever torn into replacement characters. */
  lemma TextSurvivesChunking(text: seq<Scalar>, chunks: seq<seq<byte>>)
    requires Concat(chunks) == EncodeAll(text)
    ensures Transcript([], chunks) == text
  {
    ChunkingUnobservable([], chunks);
    assert [] + Concat(chunks) == Concat(chunks);
    LossyInvertsEncode(text);
  }

  /** The class run end to end over a chunked stream. */
  method Record(chunks: seq<seq<byte>>) returns (text: seq<Scalar>)
    ensures text == Lossy(Concat(chunks))
  {
    var carry := new Carry();
    text := [];
    var i := 0;
    while i < |chunks|
      invariant 0 <= i <= |chunks|
      invariant text + Transcript(carry.buf, chunks[i..]) == Transcript([], chunks)
    {
      ghost var before := carry.buf;
      var piece := carry.Push(chunks[i]);
      assert carry.buf == Held(before + chunks[i]);
      TranscriptSteps(before, chunks[i..], text);
      assert chunks[i..][1..] == chunks[i + 1..];
      text := text + piece;
      i := i + 1;
    }
    var last := carry.Flush();
    text := text + last;
    ChunkingUnobservable([], chunks);
    assert [] + Concat(chunks) == Concat(chunks);
  }
}
