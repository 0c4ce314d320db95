/**
 * The Piped instance registry: api urls of an instance, the parser of the
 * public instance table (a markdown page of the Piped wiki), the flag-emoji
 * to country-letter conversion, and the latency ordering of probed
 * instances.
 */
module Piped {
  import opened Wrappers
  import opened Text

  const DEFAULT_PIPED_INSTANCE: string := "https://pipedapi.aeong.one"

  datatype PipedInstance = PipedInstance(apiUrl: string)

  function DefaultInstance(): (p: PipedInstance)
    ensures p.apiUrl == DEFAULT_PIPED_INSTANCE
  {
    PipedInstance(DEFAULT_PIPED_INSTANCE)
  }

  const CHANNEL_SEGMENT: string := "/channel/"
  const STREAMS_SEGMENT: string := "/streams/"

  function ChannelUrl(p: PipedInstance, channelId: string): (url: string)
    ensures url == p.apiUrl + CHANNEL_SEGMENT + channelId
  {
    p.apiUrl + CHANNEL_SEGMENT + channelId
  }

  function StreamUrl(p: PipedInstance, videoId: string): (url: string)
    ensures url == p.apiUrl + STREAMS_SEGMENT + videoId
  {
    p.apiUrl + STREAMS_SEGMENT + videoId
  }

  /** On one instance, different channel ids give different urls. */
  lemma ChannelUrlInjective(p: PipedInstance, a: string, b: string)
    requires ChannelUrl(p, a) == ChannelUrl(p, b)
    ensures a == b
  {
    var n := |p.apiUrl + CHANNEL_SEGMENT|;
    assert a == ChannelUrl(p, a)[n..];
    assert b == ChannelUrl(p, b)[n..];
  }

  /** On one instance, different video ids give different urls. */
  lemma StreamUrlInjective(p: PipedInstance, a: string, b: string)
    requires StreamUrl(p, a) == StreamUrl(p, b)
    ensures a == b
  {
    var n := |p.apiUrl + STREAMS_SEGMENT|;
    assert a == StreamUrl(p, a)[n..];
    assert b == StreamUrl(p, b)[n..];
  }

  /** The channel and stream endpoints of an instance never coincide. */
  lemma EndpointsDiffer(p: PipedInstance, channelId: string, videoId: string)
    ensures ChannelUrl(p, channelId) != StreamUrl(p, videoId)
  {
    var n := |p.apiUrl|;
    assert ChannelUrl(p, channelId)[n + 1] == 'c';
    assert StreamUrl(p, videoId)[n + 1] == 's';
  }

  // ---------------------------------------------------------------------
  // Flag emoji
  // ---------------------------------------------------------------------

  /** The regional indicator symbol for the letter A. */
  const REGIONAL_A: int := 0x1F1E6
  const U32_MODULUS: int := 0x1_0000_0000

  /** Whether `code` is a Unicode scalar value, i.e. `char::from_u32` accepts it. */
  predicate IsScalar(code: int) {
    0 <= code < 0xD800 || 0xE000 <= code < 0x11_0000
  }

  /**
   * `from_flag_emoji`: the code point, minus U+1F1E6, plus 'A', computed on
   * `u32` and so taken modulo 2^32; the input itself when the result is not
   * a scalar value.
   */
  function FlagCode(c: char): (code: int)
    ensures 0 <= code < U32_MODULUS
    ensures (code - (c as int - REGIONAL_A + 'A' as int)) % U32_MODULUS == 0
  {
    (c as int - REGIONAL_A + 'A' as int) % U32_MODULUS
  }

  function FromFlagEmoji(c: char): (r: char)
    ensures IsScalar(FlagCode(c)) ==> r as int == FlagCode(c)
    ensures !IsScalar(FlagCode(c)) ==> r == c
  {
    var code := FlagCode(c);
    if IsScalar(code) then code as char else c
  }

  /** The k-th regional indicator becomes the k-th capital letter. */
  lemma RegionalIndicatorToLetter(k: nat)
    requires k < 26
    ensures FromFlagEmoji((REGIONAL_A + k) as char) == ('A' as int + k) as char
  {
    assert FlagCode((REGIONAL_A + k) as char) == 'A' as int + k;
  }

  /**
   * Every character below U+1F1A5 (ASCII letters, commas, spaces among
   * them) wraps to a value above the Unicode range and is kept unchanged.
   */
  lemma LowCharactersKept(c: char)
    requires (c as int) < REGIONAL_A - 'A' as int
    ensures FromFlagEmoji(c) == c
  {
    assert FlagCode(c) == c as int - REGIONAL_A + 'A' as int + U32_MODULUS;
  }

  function FromFlagEmojis(s: string): (r: string)
    ensures |r| == |s|
    ensures forall k :: 0 <= k < |s| ==> r[k] == FromFlagEmoji(s[k])
  {
    if s == [] then [] else [FromFlagEmoji(s[0])] + FromFlagEmojis(s[1..])
  }

  // ---------------------------------------------------------------------
  // The instance table
  // ---------------------------------------------------------------------

  datatype PipedInstanceStat = PipedInstanceStat(
    instance: PipedInstance,
    name: string,
    countries: seq<string>,
    latency: Option<nat>)

  const START_MARKER: string := "--- | --- | --- | ---"
  const HTTPS_PREFIX: string := "https://"

  predicate IsStartLine(line: string) {
    START_MARKER <= Trim(line)
  }

  /** The lines after the first start line; none when there is no start line. */
  function InterestingLines(lines: seq<string>): (r: seq<string>)
    ensures |r| < |lines| || lines == []
    ensures (forall k :: 0 <= k < |lines| ==> !IsStartLine(lines[k])) ==> r == []
    ensures r != [] ==> exists k :: 0 <= k < |lines| && IsStartLine(lines[k]) && r == lines[k + 1..]
  {
    if lines == [] then []
    else if IsStartLine(lines[0]) then lines[1..]
    else InterestingLines(lines[1..])
  }

  function Countries(field: string): (r: seq<string>)
    ensures |r| == |Split(Trim(field), ',')|
    ensures forall k :: 0 <= k < |r| ==> r[k] == FromFlagEmojis(Trim(Split(Trim(field), ',')[k]))
  {
    var items := Split(Trim(field), ',');
    seq(|items|, k requires 0 <= k < |items| => FromFlagEmojis(Trim(items[k])))
  }

  /** One table row: its instance, or None when the loop skips the line. */
  function RowOf(line: string): (r: Option<PipedInstanceStat>)
  {
    var parts := Split(line, '|');
    if |parts| != 5 then None
    else
      var name := Trim(parts[0]);
      var url := Trim(parts[1]);
      if !(HTTPS_PREFIX <= url) then None
      else Some(PipedInstanceStat(PipedInstance(url), name, Countries(parts[2]), None))
  }

  lemma RowOfSpec(line: string)
    ensures var parts := Split(line, '|');
      RowOf(line).Some? <==> |parts| == 5 && HTTPS_PREFIX <= Trim(parts[1])
    ensures RowOf(line).Some? ==>
      var parts := Split(line, '|');
      var s := RowOf(line).value;
      && s.instance.apiUrl == Trim(parts[1])
      && s.name == Trim(parts[0])
      && s.countries == Countries(parts[2])
      && s.latency.None?
  {
  }

  /** The instances the table loop collects from `lines`, in order. */
  function Rows(lines: seq<string>): (r: seq<PipedInstanceStat>)
    ensures |r| <= |lines|
  {
    if lines == [] then []
    else
      var last := lines[|lines| - 1];
      Rows(lines[..|lines| - 1]) + (if RowOf(last).Some? then [RowOf(last).value] else [])
  }

  function TableInstances(markdown: string): (r: seq<PipedInstanceStat>)
  {
    Rows(InterestingLines(Lines(markdown)))
  }

  /**
   * `pull_latest` after the download of the page and before the shuffle:
   * the loop over the lines past the start line, skipping rows that do not
   * split into five fields or whose url is not https.
   */
  method PullLatest(markdown: string) returns (instances: seq<PipedInstanceStat>)
    ensures instances == TableInstances(markdown)
  {
    var interesting := InterestingLines(Lines(markdown));
    instances := [];
    for i := 0 to |interesting|
      invariant instances == Rows(interesting[..i])
    {
      var line := interesting[i];
      RowsStep(interesting, i);
      var parts := Split(line, '|');
      if |parts| != 5 {
        assert RowOf(line).None?;
        continue;
      }
      var name := Trim(parts[0]);
      var url := Trim(parts[1]);
      if !(HTTPS_PREFIX <= url) {
        assert RowOf(line).None?;
        continue;
      }
      var countries := Countries(parts[2]);
      var stat := PipedInstanceStat(PipedInstance(url), name, countries, None);
      assert RowOf(line) == Some(stat);
      instances := instances + [stat];
    }
    assert interesting[..|interesting|] == interesting;
  }

  lemma RowsStep(lines: seq<string>, i: nat)
    requires i < |lines|
    ensures Rows(lines[..i + 1]) ==
      Rows(lines[..i]) + (if RowOf(lines[i]).Some? then [RowOf(lines[i]).value] else [])
  {
    assert lines[..i + 1][..i] == lines[..i];
  }

  lemma {:induction false} RowsMember(lines: seq<string>, s: PipedInstanceStat)
    requires s in Rows(lines)
    ensures exists k :: 0 <= k < |lines| && RowOf(lines[k]) == Some(s)
    decreases |lines|
  {
    var last := lines[|lines| - 1];
    var init := lines[..|lines| - 1];
    if s in Rows(init) {
      RowsMember(init, s);
      var k :| 0 <= k < |init| && RowOf(init[k]) == Some(s);
      assert lines[k] == init[k];
    } else {
      assert RowOf(last) == Some(s);
    }
  }

  /** A page without a start line lists no instance. */
  lemma NoStartLineNoInstances(markdown: string)
    requires forall k :: 0 <= k < |Lines(markdown)| ==> !IsStartLine(Lines(markdown)[k])
    ensures TableInstances(markdown) == []
  {
  }

  /**
   * Every listed instance comes from a line after a start line, has an https
   * url without surrounding whitespace, and no latency yet.
   */
  lemma InstancesAreAcceptedRows(markdown: string, s: PipedInstanceStat)
    requires s in TableInstances(markdown)
    ensures exists k :: 0 <= k < |Lines(markdown)| && IsStartLine(Lines(markdown)[k])
    ensures HTTPS_PREFIX <= s.instance.apiUrl && Trim(s.instance.apiUrl) == s.instance.apiUrl
    ensures s.latency.None?
  {
    var interesting := InterestingLines(Lines(markdown));
    RowsMember(interesting, s);
    var k :| 0 <= k < |interesting| && RowOf(interesting[k]) == Some(s);
    AcceptedRow(interesting[k], s);
  }

  lemma AcceptedRow(line: string, s: PipedInstanceStat)
    requires RowOf(line) == Some(s)
    ensures HTTPS_PREFIX <= s.instance.apiUrl && Trim(s.instance.apiUrl) == s.instance.apiUrl
    ensures s.latency.None?
  {
    TrimIdempotent(Split(line, '|')[1]);
  }

  /** Everything up to and including the first start line is ignored. */
  lemma {:induction false} PreambleIgnored(preamble: seq<string>, start: string, rest: seq<string>)
    requires forall k :: 0 <= k < |preamble| ==> !IsStartLine(preamble[k])
    requires IsStartLine(start)
    ensures InterestingLines(preamble + [start] + rest) == rest
    decreases |preamble|
  {
    if preamble == [] {
      assert preamble + [start] + rest == [start] + rest;
    } else {
      assert (preamble + [start] + rest)[1..] == preamble[1..] + [start] + rest;
      PreambleIgnored(preamble[1..], start, rest);
    }
  }

  // ---------------------------------------------------------------------
  // Latency ordering
  // ---------------------------------------------------------------------

  const U64_MAX_LATENCY: nat := 0xFFFF_FFFF_FFFF_FFFF

  /** The sort key of `check_latency`: the latency, with None as `u64::MAX`. */
  function Key(s: PipedInstanceStat): nat {
    s.latency.GetOr(U64_MAX_LATENCY)
  }

  predicate SortedByKey(s: seq<PipedInstanceStat>) {
    forall i, j :: 0 <= i < j < |s| ==> Key(s[i]) <= Key(s[j])
  }

  /** Insertion of `x` into `s` after every element whose key is at most `x`'s. */
  function Insert(s: seq<PipedInstanceStat>, x: PipedInstanceStat): (r: seq<PipedInstanceStat>)
    ensures |r| == |s| + 1
  {
    if s == [] || Key(s[|s| - 1]) <= Key(x) then s + [x]
    else Insert(s[..|s| - 1], x) + [s[|s| - 1]]
  }

  /** The stable sort of `s` by key: what `sort_by_key` computes. */
  function StableSort(s: seq<PipedInstanceStat>): (r: seq<PipedInstanceStat>)
    ensures |r| == |s|
  {
    if s == [] then [] else Insert(StableSort(s[..|s| - 1]), s[|s| - 1])
  }

  /** The elements of `s` with key `k`, in order. */
  function WithKey(s: seq<PipedInstanceStat>, k: nat): (r: seq<PipedInstanceStat>)
    ensures |r| <= |s|
  {
    if s == [] then []
    else WithKey(s[..|s| - 1], k) + (if Key(s[|s| - 1]) == k then [s[|s| - 1]] else [])
  }

  lemma {:induction false} InsertAt(s: seq<PipedInstanceStat>, x: PipedInstanceStat, j: nat)
    requires j <= |s|
    requires j == 0 || Key(s[j - 1]) <= Key(x)
    requires forall k :: j <= k < |s| ==> Key(s[k]) > Key(x)
    ensures Insert(s, x) == s[..j] + [x] + s[j..]
    decreases |s|
  {
    if j == |s| {
      assert s[..j] == s;
    } else {
      var init := s[..|s| - 1];
      assert forall k :: j <= k < |init| ==> init[k] == s[k];
      InsertAt(init, x, j);
      assert init[..j] == s[..j];
      assert init[j..] + [s[|s| - 1]] == s[j..];
    }
  }

  lemma {:induction false} InsertBounded(s: seq<PipedInstanceStat>, x: PipedInstanceStat, b: nat)
    requires forall k :: 0 <= k < |s| ==> Key(s[k]) <= b
    requires Key(x) <= b
    ensures forall k :: 0 <= k < |Insert(s, x)| ==> Key(Insert(s, x)[k]) <= b
    decreases |s|
  {
    if s != [] && Key(s[|s| - 1]) > Key(x) {
      var init := s[..|s| - 1];
      assert forall k :: 0 <= k < |init| ==> init[k] == s[k];
      InsertBounded(init, x, b);
    }
  }

  lemma {:induction false} InsertSorted(s: seq<PipedInstanceStat>, x: PipedInstanceStat)
    requires SortedByKey(s)
    ensures SortedByKey(Insert(s, x))
    decreases |s|
  {
    if s != [] && Key(s[|s| - 1]) > Key(x) {
      var init := s[..|s| - 1];
      var last := s[|s| - 1];
      assert forall k :: 0 <= k < |init| ==> init[k] == s[k];
      InsertSorted(init, x);
      InsertBounded(init, x, Key(last));
      var r := Insert(init, x);
      assert Insert(s, x) == r + [last];
    }
  }

  lemma {:induction false} InsertPermutes(s: seq<PipedInstanceStat>, x: PipedInstanceStat)
    ensures multiset(Insert(s, x)) == multiset(s) + multiset{x}
    decreases |s|
  {
    if s != [] && Key(s[|s| - 1]) > Key(x) {
      var init := s[..|s| - 1];
      assert s == init + [s[|s| - 1]];
      InsertPermutes(init, x);
    }
  }

  lemma {:induction false} InsertWithKey(s: seq<PipedInstanceStat>, x: PipedInstanceStat, k: nat)
    ensures WithKey(Insert(s, x), k) == WithKey(s, k) + (if Key(x) == k then [x] else [])
    decreases |s|
  {
    if s == [] || Key(s[|s| - 1]) <= Key(x) {
      assert (s + [x])[..|s|] == s;
    } else {
      var init := s[..|s| - 1];
      var last := s[|s| - 1];
      InsertWithKey(init, x, k);
      var r := Insert(init, x);
      assert (r + [last])[..|r|] == r;
    }
  }

  lemma {:induction false} StableSortSpec(s: seq<PipedInstanceStat>)
    ensures SortedByKey(StableSort(s))
    ensures multiset(StableSort(s)) == multiset(s)
    ensures forall k: nat :: WithKey(StableSort(s), k) == WithKey(s, k)
    decreases |s|
  {
    if s != [] {
      var init := s[..|s| - 1];
      var last := s[|s| - 1];
      assert s == init + [last];
      StableSortSpec(init);
      InsertSorted(StableSort(init), last);
      InsertPermutes(StableSort(init), last);
      forall k: nat
        ensures WithKey(StableSort(s), k) == WithKey(s, k)
      {
        InsertWithKey(StableSort(init), last, k);
      }
    }
  }

  /**
   * With latencies that fit in a `u64`, an instance with no latency is
   * followed only by instances with no latency or the largest latency.
   */
  lemma UnmeasuredLast(s: seq<PipedInstanceStat>, i: nat, j: nat)
    requires forall k :: 0 <= k < |s| ==> s[k].latency.Some? ==> s[k].latency.value <= U64_MAX_LATENCY
    requires i < j < |StableSort(s)| && StableSort(s)[i].latency.None?
    ensures Key(StableSort(s)[j]) == U64_MAX_LATENCY
  {
    StableSortSpec(s);
    var r := StableSort(s);
    assert r[j] in multiset(s);
  }

  /**
   * `output.sort_by_key(|x| x.latency.unwrap_or(u64::MAX))`, as an insertion
   * sort in place: a stable sort, so it computes `StableSort`.
   */
  method SortByLatency(a: array<PipedInstanceStat>)
    modifies a
    ensures a[..] == StableSort(old(a[..]))
  {
    ghost var input := a[..];
    for i := 0 to a.Length
      invariant a[..i] == StableSort(input[..i])
      invariant a[i..] == input[i..]
    {
      InsertLast(a, i);
      SortStep(input, i);
    }
    assert input[..a.Length] == input;
    assert a[..a.Length] == a[..];
  }

  /** Sorting one more element of the input inserts it into the sorted prefix. */
  lemma SortStep(input: seq<PipedInstanceStat>, i: nat)
    requires i < |input|
    ensures StableSort(input[..i + 1]) == Insert(StableSort(input[..i]), input[i])
  {
    assert input[..i + 1][..i] == input[..i];
  }

  /** One step of the insertion sort: moves `a[i]` into the prefix `a[..i]`. */
  method InsertLast(a: array<PipedInstanceStat>, i: nat)
    requires i < a.Length
    modifies a
    ensures a[..i + 1] == Insert(old(a[..i]), old(a[i]))
    ensures a[i + 1..] == old(a[i + 1..])
  {
    ghost var sorted := a[..i];
    var x := a[i];
    var j := i;
    while j > 0 && Key(a[j - 1]) > Key(x)
      invariant 0 <= j <= i
      invariant forall k :: 0 <= k < j ==> a[k] == sorted[k]
      invariant forall k :: j < k <= i ==> a[k] == sorted[k - 1]
      invariant forall k :: i < k < a.Length ==> a[k] == old(a[k])
      invariant forall k :: j <= k < i ==> Key(sorted[k]) > Key(x)
    {
      a[j] := a[j - 1];
      j := j - 1;
    }
    a[j] := x;
    InsertAt(sorted, x, j);
    ghost var inserted := sorted[..j] + [x] + sorted[j..];
    assert forall k :: 0 <= k <= i ==> a[k] == inserted[k];
    assert a[..i + 1] == inserted;
  }
}
