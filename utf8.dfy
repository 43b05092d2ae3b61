/**
 * `bytes.decode("utf-8")` as the message decoders use it: the bytes are kept
 * as they are, and the call fails when they are not well-formed UTF-8 in the
 * strict sense of the Unicode Standard, Table 3-7 (no overlong forms, no
 * surrogates, nothing above U+10FFFF).
 */
module Utf8 {
  import opened Wrappers
  import opened Wire

  predicate Between(b: Byte, lo: int, hi: int) {
    lo <= b <= hi
  }

  predicate Continuation(b: Byte) {
    Between(b, 0x80, 0xBF)
  }

  /** The length of the well-formed character at the front of `s`, or 0 when there is none. */
  function CharLength(s: Bytes): (n: nat)
    requires |s| > 0
    ensures n <= |s| && n <= 4
  {
    var b := s[0];
    if b <= 0x7F then 1
    else if Between(b, 0xC2, 0xDF) then
      if |s| >= 2 && Continuation(s[1]) then 2 else 0
    else if Between(b, 0xE0, 0xEF) then
      var lo := if b == 0xE0 then 0xA0 else 0x80;
      var hi := if b == 0xED then 0x9F else 0xBF;
      if |s| >= 3 && Between(s[1], lo, hi) && Continuation(s[2]) then 3 else 0
    else if Between(b, 0xF0, 0xF4) then
      var lo := if b == 0xF0 then 0x90 else 0x80;
      var hi := if b == 0xF4 then 0x8F else 0xBF;
      if |s| >= 4 && Between(s[1], lo, hi) && Continuation(s[2]) && Continuation(s[3]) then 4 else 0
    else 0
  }

  /** `s` is a sequence of well-formed characters. */
  predicate WellFormed(s: Bytes)
    decreases |s|
  {
    |s| == 0 || (CharLength(s) > 0 && WellFormed(s[CharLength(s)..]))
  }

  /** The string a field decodes to, or the error `decode` raises. */
  function DecodeUtf8(raw: Bytes): (r: Result<Bytes, DecodeError>)
    ensures r.Ok? <==> WellFormed(raw)
    ensures r.Ok? ==> r.value == raw
    ensures r.Err? ==> r.error == MalformedString
  {
    if WellFormed(raw) then Ok(raw) else Err(MalformedString)
  }

  /** Text made of bytes below 0x80 (ASCII, such as stop and trip identifiers) always decodes. */
  lemma {:induction false} AsciiIsWellFormed(s: Bytes)
    requires forall k | 0 <= k < |s| :: s[k] < 0x80
    ensures WellFormed(s)
    decreases |s|
  {
    if |s| > 0 {
      assert CharLength(s) == 1;
      AsciiIsWellFormed(s[1..]);
    }
  }

  /** A character at the front of `s` is still the character at the front of `s + t`. */
  lemma CharLengthExtends(s: Bytes, t: Bytes)
    requires |s| > 0 && CharLength(s) > 0
    ensures CharLength(s + t) == CharLength(s)
  {
    var u := s + t;
    assert u[0] == s[0];
    if |s| >= 2 { assert u[1] == s[1]; }
    if |s| >= 3 { assert u[2] == s[2]; }
    if |s| >= 4 { assert u[3] == s[3]; }
  }

  /** A character followed by well-formed text is well-formed text. */
  lemma WellFormedCons(s: Bytes, n: nat)
    requires |s| > 0 && n == CharLength(s) && n > 0 && WellFormed(s[n..])
    ensures WellFormed(s)
  {
  }

  lemma DropAppend(a: Bytes, b: Bytes, n: nat)
    requires n <= |a|
    ensures (a + b)[n..] == a[n..] + b
  {
  }

  /** Well-formed texts concatenate to a well-formed text. */
  lemma {:induction false} ConcatWellFormed(a: Bytes, b: Bytes)
    requires WellFormed(a) && WellFormed(b)
    ensures WellFormed(a + b)
    decreases |a|
  {
    if |a| > 0 {
      var n := CharLength(a);
      assert n > 0 && WellFormed(a[n..]);
      assert CharLength(a + b) == n by { CharLengthExtends(a, b); }
      assert WellFormed((a + b)[n..]) by {
        ConcatWellFormed(a[n..], b);
        DropAppend(a, b, n);
      }
      WellFormedCons(a + b, n);
    } else {
      assert a + b == b;
    }
  }

  /** A lone continuation byte is never well-formed, so such a field makes the decode fail. */
  lemma StrayContinuationFails(b: Byte)
    requires Continuation(b)
    ensures DecodeUtf8([b]) == Err(MalformedString)
  {
    assert CharLength([b]) == 0;
  }
}
