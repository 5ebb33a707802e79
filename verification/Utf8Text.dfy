/** UTF-8: the byte-wise test, and the encoding of Unicode scalar values that it recognises. */
module Utf8Text {
  import opened ByteStrings

  // ---------------------------------------------------------------------------
  // The test

  predicate Continuation(b: Byte) { 0x80 <= b < 0xC0 }

  // `Path::to_str` succeeds exactly on UTF-8.
  predicate Utf8(s: Bytes) {
    if s == [] then true
    else if s[0] < 0x80 then Utf8(s[1..])
    else if 0xC2 <= s[0] < 0xE0 then |s| >= 2 && Continuation(s[1]) && Utf8(s[2..])
    else if 0xE0 <= s[0] < 0xF0 then
      && |s| >= 3 && Continuation(s[1]) && Continuation(s[2])
      && (s[0] == 0xE0 ==> s[1] >= 0xA0) && (s[0] == 0xED ==> s[1] < 0xA0)
      && Utf8(s[3..])
    else if 0xF0 <= s[0] < 0xF5 then
      && |s| >= 4 && Continuation(s[1]) && Continuation(s[2]) && Continuation(s[3])
      && (s[0] == 0xF0 ==> s[1] >= 0x90) && (s[0] == 0xF4 ==> s[1] < 0x90)
      && Utf8(s[4..])
    else false
  }

  // ---------------------------------------------------------------------------
  // The encoding

  // A code point that is not a surrogate.
  type Scalar = c: int | 0 <= c < 0xD800 || 0xE000 <= c < 0x11_0000

  // A continuation byte with the six low bits of c.
  function Low(c: nat): Byte { 0x80 + c % 64 }

  function Encode(c: Scalar): (r: Bytes)
    ensures |r| > 0
  {
    if c < 0x80 then [c]
    else if c < 0x800 then [0xC0 + c / 64, Low(c)]
    else if c < 0x1_0000 then [0xE0 + c / 64 / 64, Low(c / 64), Low(c)]
    else [0xF0 + c / 64 / 64 / 64, Low(c / 64 / 64), Low(c / 64), Low(c)]
  }

  function EncodeAll(text: seq<Scalar>): Bytes {
    if text == [] then [] else Encode(text[0]) + EncodeAll(text[1..])
  }

  ghost predicate IsText(s: Bytes) { exists text :: EncodeAll(text) == s }

  // ---------------------------------------------------------------------------
  // They agree

  lemma {:induction false} EncodedPasses(c: Scalar, rest: Bytes)
    ensures Utf8(Encode(c) + rest) == Utf8(rest)
  {
    var e := Encode(c);
    var s := e + rest;
    assert s[|e|..] == rest;
    assert forall i :: 0 <= i < |e| ==> s[i] == e[i];
  }

  lemma {:induction false} TwoBytes(a: Byte, b: Byte) returns (c: Scalar)
    requires 0xC2 <= a < 0xE0 && Continuation(b)
    ensures Encode(c) == [a, b]
  {
    c := (a - 0xC0) * 64 + (b - 0x80);
  }

  lemma {:induction false} ThreeBytes(a: Byte, b: Byte, d: Byte) returns (c: Scalar)
    requires 0xE0 <= a < 0xF0 && Continuation(b) && Continuation(d)
    requires (a == 0xE0 ==> b >= 0xA0) && (a == 0xED ==> b < 0xA0)
    ensures Encode(c) == [a, b, d]
  {
    var high := (a - 0xE0) * 64 + (b - 0x80);
    c := high * 64 + (d - 0x80);
    assert c / 64 == high;
  }

  lemma {:induction false} FourBytes(a: Byte, b: Byte, d: Byte, e: Byte) returns (c: Scalar)
    requires 0xF0 <= a < 0xF5 && Continuation(b) && Continuation(d) && Continuation(e)
    requires (a == 0xF0 ==> b >= 0x90) && (a == 0xF4 ==> b < 0x90)
    ensures Encode(c) == [a, b, d, e]
  {
    var top := (a - 0xF0) * 64 + (b - 0x80);
    var high := top * 64 + (d - 0x80);
    c := high * 64 + (e - 0x80);
    assert c / 64 == high && high / 64 == top;
  }

  // The scalar value that a passing text starts with.
  lemma {:induction false} FirstScalar(s: Bytes) returns (c: Scalar)
    requires s != [] && Utf8(s)
    ensures |Encode(c)| <= |s| && s[..|Encode(c)|] == Encode(c) && Utf8(s[|Encode(c)|..])
  {
    if s[0] < 0x80 {
      c := s[0];
      assert s[..1] == [s[0]];
    } else if s[0] < 0xE0 {
      c := TwoBytes(s[0], s[1]);
      assert s[..2] == [s[0], s[1]];
    } else if s[0] < 0xF0 {
      c := ThreeBytes(s[0], s[1], s[2]);
      assert s[..3] == [s[0], s[1], s[2]];
    } else {
      c := FourBytes(s[0], s[1], s[2], s[3]);
      assert s[..4] == [s[0], s[1], s[2], s[3]];
    }
  }

  lemma {:induction false} Decoded(s: Bytes) returns (text: seq<Scalar>)
    requires Utf8(s)
    ensures EncodeAll(text) == s
    decreases |s|
  {
    if s == [] {
      text := [];
    } else {
      var c := FirstScalar(s);
      hide Utf8, Encode;
      var n := |Encode(c)|;
      var rest := Decoded(s[n..]);
      text := [c] + rest;
      assert text[1..] == rest;
      assert s == s[..n] + s[n..];
    }
  }

  lemma {:induction false} EncodedTextPasses(text: seq<Scalar>)
    ensures Utf8(EncodeAll(text))
  {
    if text != [] {
      EncodedTextPasses(text[1..]);
      EncodedPasses(text[0], EncodeAll(text[1..]));
    }
  }

  /** The test passes exactly on the encodings of sequences of Unicode scalar values. */
  lemma {:induction false} Utf8Iff(s: Bytes)
    ensures Utf8(s) <==> IsText(s)
  {
    if Utf8(s) {
      var text := Decoded(s);
    }
    if text :| EncodeAll(text) == s { EncodedTextPasses(text); }
  }
}
