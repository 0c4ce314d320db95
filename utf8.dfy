/**
 * UTF-8 decoding as Rust's `String::from_utf8` (strict) and
 * `String::from_utf8_lossy` do it: well-formed sequences become their scalar
 * value, and each maximal ill-formed prefix becomes one U+FFFD.
 */
module Utf8 {
  import opened Wrappers
  import opened Text

  newtype byte = x: int | 0 <= x < 256

  const REPLACEMENT: char := '\U{FFFD}'

  predicate IsAsciiByte(b: byte) {
    b < 0x80
  }

  predicate IsContinuation(b: byte) {
    0x80 <= b <= 0xBF
  }

  /** The byte at `i`, or 0 past the end (0 never passes a continuation test). */
  function ByteAt(s: seq<byte>, i: nat): byte {
    if i < |s| then s[i] else 0
  }

  /** The admissible second byte of a three-byte sequence led by `b`. */
  predicate SecondOfThree(b: byte, c: byte) {
    || (b == 0xE0 && 0xA0 <= c <= 0xBF)
    || (0xE1 <= b <= 0xEC && 0x80 <= c <= 0xBF)
    || (b == 0xED && 0x80 <= c <= 0x9F)
    || (0xEE <= b <= 0xEF && 0x80 <= c <= 0xBF)
  }

  /** The admissible second byte of a four-byte sequence led by `b`. */
  predicate SecondOfFour(b: byte, c: byte) {
    || (b == 0xF0 && 0x90 <= c <= 0xBF)
    || (0xF1 <= b <= 0xF3 && 0x80 <= c <= 0xBF)
    || (b == 0xF4 && 0x80 <= c <= 0x8F)
  }

  /** The first unit of a byte sequence: a scalar value, or an ill-formed prefix. */
  datatype Unit = Scalar(c: char, len: nat) | IllFormed(len: nat)

  predicate IsScalarValue(n: int) {
    (0 <= n < 0xD800) || (0xE000 <= n < 0x11_0000)
  }

  function FirstUnit(s: seq<byte>): (u: Unit)
    requires |s| > 0
    ensures 1 <= u.len <= |s| && u.len <= 4
    ensures u.Scalar? && s[0] < 0x80 ==> u.len == 1 && u.c as int == s[0] as int
    ensures s[0] >= 0x80 ==> forall k :: 0 <= k < u.len ==> s[k] >= 0x80
    ensures u.Scalar? && s[0] >= 0x80 ==> u.c as int >= 0x80
    ensures s[0] < 0x80 ==> u.Scalar?
  {
    var b := s[0];
    if b < 0x80 then Scalar(b as int as char, 1)
    else if 0xC2 <= b <= 0xDF then
      if IsContinuation(ByteAt(s, 1)) then
        var n := (b as int - 0xC0) * 64 + (s[1] as int - 0x80);
        assert 0x80 <= n < 0x800;
        Scalar(n as char, 2)
      else IllFormed(1)
    else if 0xE0 <= b <= 0xEF then
      if !SecondOfThree(b, ByteAt(s, 1)) then IllFormed(1)
      else if !IsContinuation(ByteAt(s, 2)) then IllFormed(2)
      else
        var n := (b as int - 0xE0) * 4096 + (s[1] as int - 0x80) * 64 + (s[2] as int - 0x80);
        assert IsScalarValue(n) && n >= 0x800;
        Scalar(n as char, 3)
    else if 0xF0 <= b <= 0xF4 then
      if !SecondOfFour(b, ByteAt(s, 1)) then IllFormed(1)
      else if !IsContinuation(ByteAt(s, 2)) then IllFormed(2)
      else if !IsContinuation(ByteAt(s, 3)) then IllFormed(3)
      else
        var n := (b as int - 0xF0) * 262144 + (s[1] as int - 0x80) * 4096
                 + (s[2] as int - 0x80) * 64 + (s[3] as int - 0x80);
        assert 0x1_0000 <= n < 0x11_0000;
        Scalar(n as char, 4)
    else IllFormed(1)
  }

  /** `String::from_utf8_lossy`. */
  function DecodeLossy(s: seq<byte>): (r: string)
    ensures |r| <= |s|
    decreases |s|
  {
    if s == [] then []
    else
      var u := FirstUnit(s);
      (if u.Scalar? then [u.c] else [REPLACEMENT]) + DecodeLossy(s[u.len..])
  }

  /** Well-formed UTF-8: no ill-formed unit anywhere. */
  predicate IsWellFormed(s: seq<byte>)
    decreases |s|
  {
    s == [] || (FirstUnit(s).Scalar? && IsWellFormed(s[FirstUnit(s).len..]))
  }

  /** `String::from_utf8`: the decoded text, or an error for ill-formed input. */
  function DecodeStrict(s: seq<byte>): (r: Option<string>)
    ensures r.Some? <==> IsWellFormed(s)
    ensures r.Some? ==> r.value == DecodeLossy(s)
  {
    if IsWellFormed(s) then Some(DecodeLossy(s)) else None
  }

  // ---------------------------------------------------------------------
  // Encoding, the partner of decoding

  function EncodeChar(c: char): (r: seq<byte>)
    ensures 1 <= |r| <= 4
  {
    var n := c as int;
    if n < 0x80 then [n as byte]
    else if n < 0x800 then [(0xC0 + n / 64) as byte, (0x80 + n % 64) as byte]
    else if n < 0x1_0000 then
      [(0xE0 + n / 4096) as byte, (0x80 + (n / 64) % 64) as byte, (0x80 + n % 64) as byte]
    else
      [(0xF0 + n / 262144) as byte, (0x80 + (n / 4096) % 64) as byte,
       (0x80 + (n / 64) % 64) as byte, (0x80 + n % 64) as byte]
  }

  function Encode(t: string): seq<byte> {
    if t == [] then [] else EncodeChar(t[0]) + Encode(t[1..])
  }

  lemma FirstUnitOfEncoded(c: char, rest: seq<byte>)
    ensures FirstUnit(EncodeChar(c) + rest) == Scalar(c, |EncodeChar(c)|)
  {
    var n := c as int;
    if n < 0x80 {
    } else if n < 0x800 {
      FirstUnitOfTwo(c, rest);
    } else if n < 0x1_0000 {
      FirstUnitOfThree(c, rest);
    } else {
      FirstUnitOfFour(c, rest);
    }
  }

  lemma FirstUnitOfTwo(c: char, rest: seq<byte>)
    requires 0x80 <= c as int < 0x800
    ensures FirstUnit(EncodeChar(c) + rest) == Scalar(c, 2)
  {
    var n := c as int;
    var s := EncodeChar(c) + rest;
    var q, r := n / 64, n % 64;
    assert n == q * 64 + r;
    assert s[0] as int == 0xC0 + q && s[1] as int == 0x80 + r;
  }

  lemma FirstUnitOfThree(c: char, rest: seq<byte>)
    requires 0x800 <= c as int < 0x1_0000
    ensures FirstUnit(EncodeChar(c) + rest) == Scalar(c, 3)
  {
    var n := c as int;
    var s := EncodeChar(c) + rest;
    var q, r := n / 64, n % 64;
    var q2, r2 := q / 64, q % 64;
    assert n == q * 64 + r && q == q2 * 64 + r2;
    assert n / 4096 == q2;
    assert s[0] as int == 0xE0 + q2 && s[1] as int == 0x80 + r2 && s[2] as int == 0x80 + r;
    assert SecondOfThree(s[0], s[1]);
  }

  lemma FirstUnitOfFour(c: char, rest: seq<byte>)
    requires 0x1_0000 <= c as int
    ensures FirstUnit(EncodeChar(c) + rest) == Scalar(c, 4)
  {
    var n := c as int;
    var s := EncodeChar(c) + rest;
    var q, r := n / 64, n % 64;
    var q2, r2 := q / 64, q % 64;
    var q3, r3 := q2 / 64, q2 % 64;
    assert n == q * 64 + r && q == q2 * 64 + r2 && q2 == q3 * 64 + r3;
    assert n / 4096 == q2 && n / 262144 == q3;
    assert s[0] as int == 0xF0 + q3 && s[1] as int == 0x80 + r3;
    assert s[2] as int == 0x80 + r2 && s[3] as int == 0x80 + r;
    assert SecondOfFour(s[0], s[1]);
  }

  /** Decoding undoes encoding, and encoded text is well-formed. */
  lemma {:induction false} DecodeEncode(t: string)
    ensures IsWellFormed(Encode(t))
    ensures DecodeLossy(Encode(t)) == t
  {
    if t != [] {
      var e := Encode(t);
      FirstUnitOfEncoded(t[0], Encode(t[1..]));
      assert e[|EncodeChar(t[0])|..] == Encode(t[1..]);
      DecodeEncode(t[1..]);
    }
  }

  // ---------------------------------------------------------------------
  // ASCII markers survive lossy decoding

  predicate IsAscii(m: seq<byte>) {
    forall k :: 0 <= k < |m| ==> m[k] < 0x80
  }

  /** The text of an ASCII byte string. */
  function AsciiText(m: seq<byte>): (r: string)
    requires IsAscii(m)
    ensures |r| == |m| && forall k :: 0 <= k < |m| ==> r[k] as int == m[k] as int
  {
    if m == [] then [] else [m[0] as int as char] + AsciiText(m[1..])
  }

  lemma ContainsStep<T>(s: seq<T>, m: seq<T>)
    requires |m| > 0 && |s| > 0
    ensures Contains(s, m) <==> m <= s || Contains(s[1..], m)
  {
    if Contains(s, m) && !(m <= s) {
      var i :| 0 <= i <= |s| - |m| && OccursAt(s, m, i);
      assert i != 0;
      assert s[1..][i - 1..i - 1 + |m|] == s[i..i + |m|];
      ContainsIntro(s[1..], m, i - 1);
    }
    if Contains(s[1..], m) {
      var i :| 0 <= i <= |s[1..]| - |m| && OccursAt(s[1..], m, i);
      assert s[1..][i..i + |m|] == s[i + 1..i + 1 + |m|];
      ContainsIntro(s, m, i + 1);
    }
    if m <= s {
      assert s[0..|m|] == m;
      ContainsIntro(s, m, 0);
    }
  }

  /** A marker that starts with an ASCII byte cannot start inside a non-ASCII run. */
  lemma ContainsSkipNonAscii(s: seq<byte>, m: seq<byte>, k: nat)
    requires |m| > 0 && m[0] < 0x80
    requires k <= |s| && forall j :: 0 <= j < k ==> s[j] >= 0x80
    ensures Contains(s, m) <==> Contains(s[k..], m)
  {
    if Contains(s, m) {
      var i :| 0 <= i <= |s| - |m| && OccursAt(s, m, i);
      assert s[i] == m[0];
      assert s[k..][i - k..i - k + |m|] == s[i..i + |m|];
      ContainsIntro(s[k..], m, i - k);
    }
    if Contains(s[k..], m) {
      var i :| 0 <= i <= |s[k..]| - |m| && OccursAt(s[k..], m, i);
      assert s[k..][i..i + |m|] == s[i + k..i + k + |m|];
      ContainsIntro(s, m, i + k);
    }
  }

  lemma {:induction false} StartsWithDecoded(s: seq<byte>, m: seq<byte>)
    requires |m| > 0 && IsAscii(m)
    ensures AsciiText(m) <= DecodeLossy(s) <==> m <= s
    decreases |s|
  {
    if s != [] {
      var u := FirstUnit(s);
      var d := DecodeLossy(s);
      assert d == (if u.Scalar? then [u.c] else [REPLACEMENT]) + DecodeLossy(s[u.len..]);
      if s[0] < 0x80 {
        assert d == [u.c] + DecodeLossy(s[1..]);
        if |m| > 1 {
          StartsWithDecoded(s[1..], m[1..]);
          assert AsciiText(m) == [AsciiText(m)[0]] + AsciiText(m[1..]);
          assert AsciiText(m) <= d <==> AsciiText(m)[0] == d[0] && AsciiText(m[1..]) <= DecodeLossy(s[1..]);
          assert m <= s <==> m[0] == s[0] && m[1..] <= s[1..];
        }
      } else {
        assert d[0] as int >= 0x80;
        assert AsciiText(m)[0] as int < 0x80;
      }
    }
  }

  /** A non-empty ASCII marker occurs in the decoded text iff it occurs in the bytes. */
  lemma {:induction false} MarkerSurvivesDecoding(s: seq<byte>, m: seq<byte>)
    requires |m| > 0 && IsAscii(m)
    ensures Contains(DecodeLossy(s), AsciiText(m)) <==> Contains(s, m)
    decreases |s|
  {
    var t := AsciiText(m);
    var d := DecodeLossy(s);
    if s == [] {
      assert !Contains(d, t);
      assert !Contains(s, m);
    } else {
      var u := FirstUnit(s);
      assert d == (if u.Scalar? then [u.c] else [REPLACEMENT]) + DecodeLossy(s[u.len..]);
      assert d[1..] == DecodeLossy(s[u.len..]);
      ContainsStep(d, t);
      MarkerSurvivesDecoding(s[u.len..], m);
      StartsWithDecoded(s, m);
      if s[0] < 0x80 {
        ContainsStep(s, m);
      } else {
        ContainsSkipNonAscii(s, m, u.len);
        assert d[0] as int >= 0x80;
        assert !(t <= d);
      }
    }
  }
}
