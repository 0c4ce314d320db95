/**
 * String helpers with the meaning of the Rust standard-library operations the
 * code calls: `starts_with`, `strip_prefix`, `contains`, `trim`, `split`,
 * `lines`, itertools' `join`, `{:02}` formatting and `str::parse::<uN>`.
 * Strings are sequences of Unicode scalar values (`seq<char>`).
 */
module Text {
  import opened Wrappers

  // ---------------------------------------------------------------------
  // Prefixes and substrings

  /** `s.strip_prefix(p)`: the rest of `s` when it starts with `p`. */
  function StripPrefix<T(==)>(s: seq<T>, p: seq<T>): (r: Option<seq<T>>)
    ensures r.Some? <==> p <= s
    ensures r.Some? ==> s == p + r.value
  {
    if p <= s then Some(s[|p|..]) else None
  }

  /** `m` occurs in `s` at position `i`. */
  predicate OccursAt<T(==)>(s: seq<T>, m: seq<T>, i: int) {
    0 <= i && i + |m| <= |s| && s[i..i + |m|] == m
  }

  /** `s.contains(m)` on strings and on byte slices. */
  predicate Contains<T(==)>(s: seq<T>, m: seq<T>) {
    exists i :: 0 <= i <= |s| - |m| && OccursAt(s, m, i)
  }

  lemma ContainsIntro<T>(s: seq<T>, m: seq<T>, i: int)
    requires OccursAt(s, m, i)
    ensures Contains(s, m)
  {
  }

  /** An occurrence inside a part is an occurrence inside the whole. */
  lemma {:induction false} ContainsInConcat<T>(a: seq<T>, b: seq<T>, c: seq<T>, m: seq<T>)
    requires Contains(b, m)
    ensures Contains(a + b + c, m)
  {
    var i :| 0 <= i <= |b| - |m| && OccursAt(b, m, i);
    assert (a + b + c)[|a| + i..|a| + i + |m|] == b[i..i + |m|];
    ContainsIntro(a + b + c, m, |a| + i);
  }

  // ---------------------------------------------------------------------
  // Whitespace and trimming

  /** The Unicode White_Space property, which Rust's `char::is_whitespace` tests. */
  predicate IsWhitespace(c: char) {
    ('\U{0009}' <= c <= '\U{000D}') || c == ' ' || c == '\U{0085}' || c == '\U{00A0}'
    || c == '\U{1680}' || ('\U{2000}' <= c <= '\U{200A}') || c == '\U{2028}' || c == '\U{2029}'
    || c == '\U{202F}' || c == '\U{205F}' || c == '\U{3000}'
  }

  function TrimStart(s: string): (r: string)
    ensures |r| <= |s| && r == s[|s| - |r|..]
    ensures r != [] ==> !IsWhitespace(r[0])
    ensures forall k :: 0 <= k < |s| - |r| ==> IsWhitespace(s[k])
  {
    if s != [] && IsWhitespace(s[0]) then TrimStart(s[1..]) else s
  }

  function TrimEnd(s: string): (r: string)
    ensures |r| <= |s| && r == s[..|r|]
    ensures r != [] ==> !IsWhitespace(r[|r| - 1])
    ensures forall k :: |r| <= k < |s| ==> IsWhitespace(s[k])
  {
    if s != [] && IsWhitespace(s[|s| - 1]) then TrimEnd(s[..|s| - 1]) else s
  }

  /** `s.trim()`: drop leading and trailing whitespace. */
  function Trim(s: string): (r: string)
    ensures |r| <= |s|
    ensures r != [] ==> !IsWhitespace(r[0]) && !IsWhitespace(r[|r| - 1])
    ensures (s == [] || (!IsWhitespace(s[0]) && !IsWhitespace(s[|s| - 1]))) ==> r == s
  {
    TrimEnd(TrimStart(s))
  }

  lemma TrimIdempotent(s: string)
    ensures Trim(Trim(s)) == Trim(s)
  {
  }

  // ---------------------------------------------------------------------
  // Splitting and joining

  /** Position of the first `c` in `s`, if any. */
  function IndexOf<T(==)>(s: seq<T>, c: T): (r: Option<nat>)
    ensures r.None? <==> c !in s
    ensures r.Some? ==> r.value < |s| && s[r.value] == c && c !in s[..r.value]
  {
    if s == [] then None
    else if s[0] == c then Some(0)
    else match IndexOf(s[1..], c)
      case None => None
      case Some(i) => assert s[1..][..i] == s[1..i + 1]; Some(i + 1)
  }

  /** `s.split(c)`: the pieces between the separators, always at least one. */
  function Split(s: string, c: char): (r: seq<string>)
    ensures |r| >= 1
    ensures forall k :: 0 <= k < |r| ==> c !in r[k]
    decreases |s|
  {
    match IndexOf(s, c)
    case None => [s]
    case Some(i) => [s[..i]] + Split(s[i + 1..], c)
  }

  /** itertools' `join(sep)`: the parts with `sep` between neighbours. */
  function Join(parts: seq<string>, sep: string): (r: string)
  {
    if parts == [] then ""
    else if |parts| == 1 then parts[0]
    else parts[0] + sep + Join(parts[1..], sep)
  }

  /** Splitting and joining on the same character give the input back. */
  lemma {:induction false} JoinSplit(s: string, c: char)
    ensures Join(Split(s, c), [c]) == s
    decreases |s|
  {
    match IndexOf(s, c)
    case None =>
    case Some(i) =>
      var rest := Split(s[i + 1..], c);
      assert Split(s, c) == [s[..i]] + rest;
      JoinSplit(s[i + 1..], c);
      assert Join([s[..i]] + rest, [c]) == s[..i] + [c] + Join(rest, [c]);
      assert s == s[..i] + [c] + s[i + 1..];
  }

  /** Joining parts free of the separator and splitting again gives the parts back. */
  lemma {:induction false} SplitJoin(parts: seq<string>, c: char)
    requires |parts| >= 1
    requires forall k :: 0 <= k < |parts| ==> c !in parts[k]
    ensures Split(Join(parts, [c]), c) == parts
  {
    if |parts| > 1 {
      var s := Join(parts, [c]);
      assert s == parts[0] + [c] + Join(parts[1..], [c]);
      IndexOfPrefix(parts[0], c, Join(parts[1..], [c]));
      assert s[|parts[0]| + 1..] == Join(parts[1..], [c]);
      assert s[..|parts[0]|] == parts[0];
      SplitJoin(parts[1..], c);
    } else {
      assert Join(parts, [c]) == parts[0];
      assert IndexOf(parts[0], c).None?;
    }
  }

  lemma IndexOfPrefix(a: string, c: char, b: string)
    requires c !in a
    ensures IndexOf(a + [c] + b, c) == Some(|a|)
  {
    var s := a + [c] + b;
    assert s[|a|] == c;
    assert s[..|a|] == a;
  }

  /** Drop one trailing `\r`. */
  function StripCarriageReturn(s: string): (r: string)
    ensures r == s || (s == r + "\r")
  {
    if s != [] && s[|s| - 1] == '\r' then s[..|s| - 1] else s
  }

  /**
   * `s.lines()`: the pieces between `\n`s, each without the `\r` of a `\r\n`
   * ending; a final `\n` does not start an empty last line, a last line with
   * no `\n` keeps a final `\r`, and the empty text has no lines.
   */
  function Lines(s: string): (r: seq<string>)
    ensures forall k :: 0 <= k < |r| ==> '\n' !in r[k]
    ensures s == [] <==> r == []
    decreases |s|
  {
    if s == [] then []
    else match IndexOf(s, '\n')
      case None => [s]
      case Some(i) => [StripCarriageReturn(s[..i])] + Lines(s[i + 1..])
  }

  // ---------------------------------------------------------------------
  // Decimal numbers

  predicate IsDigit(c: char) {
    '0' <= c <= '9'
  }

  /** `c` lies in the run of ten digits, zero to nine, that starts at code point `zero`. */
  predicate InDigitRun(c: char, zero: int) {
    zero <= c as int < zero + 10
  }

  /**
   * `\d` of a regular expression in Unicode mode: a character of general
   * category `Nd`. Every such character belongs to a run of ten consecutive
   * digits; these are the 68 runs of Unicode 15.0, of which only `0` to `9`
   * is ASCII.
   */
  predicate IsDecimalDigit(c: char) {
    if c as int < 0x80 then IsDigit(c) else IsNonAsciiDigit(c)
  }

  /** The 67 runs of decimal digits outside ASCII. */
  predicate IsNonAsciiDigit(c: char) {
    || InDigitRun(c, 0x0660) || InDigitRun(c, 0x06F0) || InDigitRun(c, 0x07C0)
    || InDigitRun(c, 0x0966) || InDigitRun(c, 0x09E6) || InDigitRun(c, 0x0A66) || InDigitRun(c, 0x0AE6)
    || InDigitRun(c, 0x0B66) || InDigitRun(c, 0x0BE6) || InDigitRun(c, 0x0C66) || InDigitRun(c, 0x0CE6)
    || InDigitRun(c, 0x0D66) || InDigitRun(c, 0x0DE6) || InDigitRun(c, 0x0E50) || InDigitRun(c, 0x0ED0)
    || InDigitRun(c, 0x0F20) || InDigitRun(c, 0x1040) || InDigitRun(c, 0x1090) || InDigitRun(c, 0x17E0)
    || InDigitRun(c, 0x1810) || InDigitRun(c, 0x1946) || InDigitRun(c, 0x19D0) || InDigitRun(c, 0x1A80)
    || InDigitRun(c, 0x1A90) || InDigitRun(c, 0x1B50) || InDigitRun(c, 0x1BB0) || InDigitRun(c, 0x1C40)
    || InDigitRun(c, 0x1C50) || InDigitRun(c, 0xA620) || InDigitRun(c, 0xA8D0) || InDigitRun(c, 0xA900)
    || InDigitRun(c, 0xA9D0) || InDigitRun(c, 0xA9F0) || InDigitRun(c, 0xAA50) || InDigitRun(c, 0xABF0)
    || InDigitRun(c, 0xFF10) || InDigitRun(c, 0x104A0) || InDigitRun(c, 0x10D30) || InDigitRun(c, 0x11066)
    || InDigitRun(c, 0x110F0) || InDigitRun(c, 0x11136) || InDigitRun(c, 0x111D0) || InDigitRun(c, 0x112F0)
    || InDigitRun(c, 0x11450) || InDigitRun(c, 0x114D0) || InDigitRun(c, 0x11650) || InDigitRun(c, 0x116C0)
    || InDigitRun(c, 0x11730) || InDigitRun(c, 0x118E0) || InDigitRun(c, 0x11950) || InDigitRun(c, 0x11C50)
    || InDigitRun(c, 0x11D50) || InDigitRun(c, 0x11DA0) || InDigitRun(c, 0x11F50) || InDigitRun(c, 0x16A60)
    || InDigitRun(c, 0x16AC0) || InDigitRun(c, 0x16B50) || InDigitRun(c, 0x1D7CE) || InDigitRun(c, 0x1D7D8)
    || InDigitRun(c, 0x1D7E2) || InDigitRun(c, 0x1D7EC) || InDigitRun(c, 0x1D7F6) || InDigitRun(c, 0x1E140)
    || InDigitRun(c, 0x1E2F0) || InDigitRun(c, 0x1E4F0) || InDigitRun(c, 0x1E950) || InDigitRun(c, 0x1FBF0)
  }

  /** The runs outside ASCII all lie above it, so every run of the table is counted once. */
  lemma NonAsciiRunsAboveAscii(c: char)
    ensures IsNonAsciiDigit(c) ==> c as int >= 0x660
    ensures IsDigit(c) ==> IsDecimalDigit(c)
  {
  }

  predicate AllDigits(s: string) {
    forall k :: 0 <= k < |s| ==> IsDigit(s[k])
  }

  function DigitChar(d: nat): (c: char)
    requires d < 10
    ensures IsDigit(c) && c as int - '0' as int == d
  {
    ('0' as int + d) as char
  }

  /** The value of a string of decimal digits (most significant first). */
  function DecimalValue(s: string): (n: nat)
    requires AllDigits(s)
  {
    if s == [] then 0
    else DecimalValue(s[..|s| - 1]) * 10 + (s[|s| - 1] as int - '0' as int)
  }

  /** Rust's `Display` for unsigned integers: the shortest decimal text. */
  function NatToString(n: nat): (s: string)
    ensures |s| >= 1 && AllDigits(s)
    ensures n < 10 <==> |s| == 1
    ensures |s| > 1 ==> s[0] != '0'
  {
    if n < 10 then [DigitChar(n)] else NatToString(n / 10) + [DigitChar(n % 10)]
  }

  lemma {:induction false} NatToStringValue(n: nat)
    ensures DecimalValue(NatToString(n)) == n
  {
    if n >= 10 {
      NatToStringValue(n / 10);
      var s := NatToString(n);
      assert s[..|s| - 1] == NatToString(n / 10);
    }
  }

  /** Leading zeros do not change the value. */
  lemma {:induction false} DecimalValueLeadingZero(s: string)
    requires AllDigits(s)
    ensures AllDigits("0" + s) && DecimalValue("0" + s) == DecimalValue(s)
    decreases |s|
  {
    if s != [] {
      var t := "0" + s;
      assert t[..|t| - 1] == "0" + s[..|s| - 1];
      DecimalValueLeadingZero(s[..|s| - 1]);
    }
  }

  /** `{:02}`: decimal, zero-padded to at least two digits. */
  function Pad2(n: nat): (s: string)
    ensures |s| >= 2 && AllDigits(s)
    ensures n < 100 ==> |s| == 2
  {
    if n < 10 then "0" + NatToString(n) else NatToString(n)
  }

  lemma Pad2Value(n: nat)
    ensures DecimalValue(Pad2(n)) == n
  {
    NatToStringValue(n);
    if n < 10 {
      DecimalValueLeadingZero(NatToString(n));
    }
  }

  /**
   * `s.parse::<uN>()` where `max` is the largest value of the type: an
   * optional `+`, then at least one ASCII digit and nothing else, and a value
   * that fits; anything else is an error (`None`).
   */
  function ParseUnsigned(s: string, max: nat): (r: Option<nat>)
    ensures r.Some? <==>
      (var d := if s != [] && s[0] == '+' then s[1..] else s;
       d != [] && AllDigits(d) && DecimalValue(d) <= max)
    ensures r.Some? ==>
      (var d := if s != [] && s[0] == '+' then s[1..] else s; r.value == DecimalValue(d))
  {
    var d := if s != [] && s[0] == '+' then s[1..] else s;
    if d != [] && AllDigits(d) && DecimalValue(d) <= max then Some(DecimalValue(d)) else None
  }

  /** Formatting a value that fits and parsing it back yields the value. */
  lemma ParseNatToString(n: nat, max: nat)
    requires n <= max
    ensures ParseUnsigned(NatToString(n), max) == Some(n)
  {
    NatToStringValue(n);
  }

  const U32_MAX: nat := 0xFFFF_FFFF
  const U64_MAX: nat := 0xFFFF_FFFF_FFFF_FFFF

  /** The pieces written one after another, as `format!` lays out its arguments. */
  function Concat<T>(pieces: seq<seq<T>>): seq<T> {
    if pieces == [] then [] else pieces[0] + Concat(pieces[1..])
  }

  lemma {:induction false} ConcatSplit<T>(pieces: seq<seq<T>>, k: nat)
    requires k <= |pieces|
    ensures Concat(pieces) == Concat(pieces[..k]) + Concat(pieces[k..])
  {
    if k > 0 {
      ConcatSplit(pieces[1..], k - 1);
      assert pieces[1..][..k - 1] == pieces[..k][1..];
      assert pieces[1..][k - 1..] == pieces[k..];
    } else {
      assert pieces[..0] == [];
      assert pieces[0..] == pieces;
    }
  }

  /** Piece `k` sits right after the pieces before it. */
  lemma PieceOccurs<T>(pieces: seq<seq<T>>, k: nat)
    requires k < |pieces|
    ensures OccursAt(Concat(pieces), pieces[k], |Concat(pieces[..k])|)
  {
    ConcatSplit(pieces, k);
    assert Concat(pieces[k..]) == pieces[k] + Concat(pieces[k + 1..]) by {
      assert pieces[k..][1..] == pieces[k + 1..];
    }
  }

  /** A later piece starts after an earlier one, past any non-empty piece between them. */
  lemma PiecesAdvance<T>(pieces: seq<seq<T>>, j: nat, k: nat)
    requires j < k <= |pieces| && |pieces[j]| > 0
    ensures |Concat(pieces[..j])| < |Concat(pieces[..k])|
  {
    ConcatSplit(pieces[..k], j);
    assert pieces[..k][..j] == pieces[..j];
    assert Concat(pieces[..k][j..]) == pieces[j] + Concat(pieces[..k][j + 1..]) by {
      assert pieces[..k][j..][1..] == pieces[..k][j + 1..];
    }
  }

  /** Every piece is contained in the concatenation. */
  lemma PieceContained<T>(pieces: seq<seq<T>>, k: nat)
    requires k < |pieces|
    ensures Contains(Concat(pieces), pieces[k])
  {
    PieceOccurs(pieces, k);
    ContainsIntro(Concat(pieces), pieces[k], |Concat(pieces[..k])|);
  }

  /** A piece repeated after a non-empty piece occurs at two different positions. */
  lemma PieceRepeated<T>(pieces: seq<seq<T>>, j: nat, k: nat)
    requires j + 1 < k < |pieces| && pieces[j] == pieces[k] && |pieces[j + 1]| > 0
    ensures exists a, b :: a < b && OccursAt(Concat(pieces), pieces[j], a) && OccursAt(Concat(pieces), pieces[j], b)
  {
    PieceOccurs(pieces, j);
    PieceOccurs(pieces, k);
    PiecesAdvance(pieces, j + 1, k);
    assert |Concat(pieces[..j])| <= |Concat(pieces[..j + 1])| by {
      ConcatSplit(pieces[..j + 1], j);
      assert pieces[..j + 1][..j] == pieces[..j];
    }
  }
}
