/** UTF-8 well-formedness (sections 3 and 4 of RFC 3629) and what cutting at newlines does to it. */
module Utf8 {
  import opened SseFraming

  predicate Tail(b: byte) {
    0x80 <= b <= 0xBF
  }

  /** The second byte allowed after a three- or four-byte lead. */
  predicate SecondByte(lead: byte, b: byte) {
    if lead == 0xE0 then 0xA0 <= b <= 0xBF
    else if lead == 0xED then 0x80 <= b <= 0x9F
    else if lead == 0xF0 then 0x90 <= b <= 0xBF
    else if lead == 0xF4 then 0x80 <= b <= 0x8F
    else Tail(b)
  }

  /** Length of the well-formed character at the front of `s`; 0 when there is none. */
  function CharLength(s: Bytes): nat {
    if |s| >= 1 && s[0] <= 0x7F then 1
    else if |s| >= 2 && 0xC2 <= s[0] <= 0xDF && Tail(s[1]) then 2
    else if |s| >= 3 && 0xE0 <= s[0] <= 0xEF && SecondByte(s[0], s[1]) && Tail(s[2]) then 3
    else if |s| >= 4 && 0xF0 <= s[0] <= 0xF4 && SecondByte(s[0], s[1]) && Tail(s[2]) && Tail(s[3]) then 4
    else 0
  }

  predicate WellFormed(s: Bytes) {
    s == [] || (CharLength(s) > 0 && WellFormed(s[CharLength(s)..]))
  }

  /** No character spans a newline. */
  lemma CharStopsAtNewline(a: Bytes, b: Bytes)
    requires a != []
    ensures CharLength(a + [NEWLINE] + b) == CharLength(a)
  {
  }

  lemma {:induction false} NewlineSplitsText(a: Bytes, b: Bytes)
    ensures WellFormed(a + [NEWLINE] + b) <==> WellFormed(a) && WellFormed(b)
    decreases |a|
  {
    var s := a + [NEWLINE] + b;
    if a == [] {
      assert s[1..] == b;
    } else {
      CharStopsAtNewline(a, b);
      var n := CharLength(a);
      if n > 0 {
        assert s[n..] == a[n..] + [NEWLINE] + b;
        NewlineSplitsText(a[n..], b);
      }
    }
  }

  lemma BlankLineSplitsText(f: Bytes, tail: Bytes)
    ensures WellFormed(f + BLANK_LINE + tail) <==> WellFormed(f) && WellFormed(tail)
  {
    assert f + BLANK_LINE + tail == f + [NEWLINE] + ([NEWLINE] + tail);
    NewlineSplitsText(f, [NEWLINE] + tail);
    assert [NEWLINE] + tail == [] + [NEWLINE] + tail;
    NewlineSplitsText([], tail);
  }

  /** A stream is well-formed exactly when all its frames and its unfinished tail are. */
  lemma {:induction false} FramesAreWellFormed(s: Bytes)
    ensures WellFormed(s) <==> WellFormed(Rest(s)) && forall f | f in Frames(s) :: WellFormed(f)
    decreases |s|
  {
    var end := FindFrameEnd(s);
    if end.Some? {
      FrameIsClean(s);
      var f, tail := s[..end.value], s[end.value + 2..];
      BlankLineSplitsText(f, tail);
      FramesAreWellFormed(tail);
      assert Frames(s) == [f] + Frames(tail);
      assert forall x :: x in Frames(s) <==> x == f || x in Frames(tail);
    }
  }

  /**
   On a well-formed stream the lossy decoder loses nothing, however chunks split characters: any
   decoder that fixes well-formed text renders exactly what the identity would.
   */
  lemma LossyDecodingIsHarmless(rw: Rewriter, items: seq<Item>)
    requires WellFormed(Received(items))
    requires forall s | WellFormed(s) :: rw.lossy(s) == s
    ensures Chunks(Run(rw, [], items)) == Chunks(Run(rw.(lossy := s => s), [], items))
  {
    var exact := rw.(lossy := s => s);
    OutputIgnoresChunking(rw, items);
    OutputIgnoresChunking(exact, items);
    FramesAreWellFormed(Received(items));
    SameTextSameRendering(rw, exact, Frames(Received(items)));
  }

  lemma {:induction false} SameTextSameRendering(rw: Rewriter, other: Rewriter, frames: seq<Bytes>)
    requires other.blank == rw.blank && other.rewrite == rw.rewrite
    requires forall f | f in frames :: rw.lossy(f) == other.lossy(f)
    ensures Rendered(rw, frames) == Rendered(other, frames)
  {
    if frames != [] {
      SameTextSameRendering(rw, other, frames[1..]);
    }
  }

  // ---- Against the encoding itself ----

  predicate Scalar(c: nat) {
    c <= 0x10FFFF && !(0xD800 <= c <= 0xDFFF)
  }

  /** The bytes of one character: section 3 of RFC 3629. */
  function Encode(c: nat): (s: Bytes)
    requires Scalar(c)
    ensures 1 <= |s| <= 4
  {
    if c < 0x80 then [c]
    else if c < 0x800 then [0xC0 + c / 64, 0x80 + c % 64]
    else if c < 0x10000 then [0xE0 + c / 4096, 0x80 + c / 64 % 64, 0x80 + c % 64]
    else [0xF0 + c / 262144, 0x80 + c / 4096 % 64, 0x80 + c / 64 % 64, 0x80 + c % 64]
  }

  lemma EncodedIsOneCharacter(c: nat, later: Bytes)
    requires Scalar(c)
    ensures CharLength(Encode(c) + later) == |Encode(c)|
  {
    var s := Encode(c) + later;
    if 0x80 <= c < 0x800 {
      assert 2 <= c / 64 < 32;
    } else if 0x800 <= c < 0x10000 {
      ThreeBytes(c);
      assert s[0] == 0xE0 + c / 4096 && s[1] == 0x80 + c / 64 % 64 && s[2] == 0x80 + c % 64;
    } else if c >= 0x10000 {
      FourBytes(c);
      assert s[0] == 0xF0 + c / 262144 && s[1] == 0x80 + c / 4096 % 64;
      assert s[2] == 0x80 + c / 64 % 64 && s[3] == 0x80 + c % 64;
    }
  }

  /** Neither overlong nor a surrogate. */
  lemma ThreeBytes(c: nat)
    requires 0x800 <= c < 0x10000 && Scalar(c)
    ensures c / 4096 < 16 && SecondByte(0xE0 + c / 4096, 0x80 + c / 64 % 64)
  {
  }

  /** Neither overlong nor beyond the last character. */
  lemma FourBytes(c: nat)
    requires 0x10000 <= c && Scalar(c)
    ensures c / 262144 <= 4 && SecondByte(0xF0 + c / 262144, 0x80 + c / 4096 % 64)
  {
  }

  function Decoded(s: Bytes): nat
    requires CharLength(s) > 0
  {
    if CharLength(s) == 1 then s[0]
    else if CharLength(s) == 2 then (s[0] as int - 0xC0) * 64 + (s[1] as int - 0x80)
    else if CharLength(s) == 3 then
      (s[0] as int - 0xE0) * 4096 + (s[1] as int - 0x80) * 64 + (s[2] as int - 0x80)
    else
      (s[0] as int - 0xF0) * 262144 + (s[1] as int - 0x80) * 4096 + (s[2] as int - 0x80) * 64 + (s[3] as int - 0x80)
  }

  lemma CharacterIsEncoded(s: Bytes)
    requires CharLength(s) > 0
    ensures Scalar(Decoded(s)) && Encode(Decoded(s)) == s[..CharLength(s)]
  {
    if CharLength(s) == 2 {
      TwoDigits(Decoded(s), s[0] - 0xC0, s[1] - 0x80);
    } else if CharLength(s) == 3 {
      ThreeDigits(Decoded(s), s[0] - 0xE0, s[1] - 0x80, s[2] - 0x80);
    } else if CharLength(s) == 4 {
      FourDigits(Decoded(s), s[0] - 0xF0, s[1] - 0x80, s[2] - 0x80, s[3] - 0x80);
    }
  }

  // A character's bits are its digits to the base 64.

  lemma TwoDigits(c: nat, a: nat, b: nat)
    requires b < 64 && c == a * 64 + b
    ensures c / 64 == a && c % 64 == b
  {
  }

  lemma ThreeDigits(c: nat, a: nat, b: nat, d: nat)
    requires b < 64 && d < 64 && c == a * 4096 + b * 64 + d
    ensures c / 4096 == a && c / 64 % 64 == b && c % 64 == d
  {
    TwoDigits(c, a * 64 + b, d);
    TwoDigits(c / 64, a, b);
  }

  lemma FourDigits(c: nat, a: nat, b: nat, d: nat, e: nat)
    requires b < 64 && d < 64 && e < 64 && c == a * 262144 + b * 4096 + d * 64 + e
    ensures c / 262144 == a && c / 4096 % 64 == b && c / 64 % 64 == d && c % 64 == e
  {
    ThreeDigits(c, a * 64 + b, d, e);
    TwoDigits(c / 4096, a, b);
  }

  ghost predicate AllScalar(cs: seq<nat>) {
    forall i | 0 <= i < |cs| :: Scalar(cs[i])
  }

  function EncodeAll(cs: seq<nat>): Bytes
    requires AllScalar(cs)
  {
    if cs == [] then [] else Encode(cs[0]) + EncodeAll(cs[1..])
  }

  /** The well-formed byte strings are exactly the encodings of character strings. */
  lemma WellFormedIffEncoded(s: Bytes)
    ensures WellFormed(s) <==> exists cs :: AllScalar(cs) && EncodeAll(cs) == s
  {
    if WellFormed(s) {
      var cs := DecodeAll(s);
    }
    if cs :| AllScalar(cs) && EncodeAll(cs) == s {
      EncodedIsWellFormed(cs);
    }
  }

  lemma {:induction false} EncodedIsWellFormed(cs: seq<nat>)
    requires AllScalar(cs)
    ensures WellFormed(EncodeAll(cs))
  {
    if cs != [] {
      var first, later := Encode(cs[0]), EncodeAll(cs[1..]);
      EncodedIsOneCharacter(cs[0], later);
      EncodedIsWellFormed(cs[1..]);
      assert (first + later)[|first|..] == later;
    }
  }

  lemma {:induction false} DecodeAll(s: Bytes) returns (cs: seq<nat>)
    requires WellFormed(s)
    ensures AllScalar(cs) && EncodeAll(cs) == s
    decreases |s|
  {
    cs := [];
    if s != [] {
      var n := CharLength(s);
      var later := DecodeAll(s[n..]);
      CharacterIsEncoded(s);
      cs := [Decoded(s)] + later;
      assert cs[1..] == later && s == s[..n] + s[n..];
    }
  }
}
