/**
 * The gateway's podcast model and its rendering as an RSS channel with
 * iTunes extensions.
 */
module Podcast {
  import opened Wrappers
  import opened Text
  import opened AppConfig

  datatype Thumbnail = Thumbnail(url: string, width: nat, height: nat)

  datatype AudioInfo = AudioInfo(url: string, mimeType: string)

  datatype Episode = Episode(
    title: string,
    link: string,
    description: string,
    pubDate: string,
    author: string,
    guid: string,
    duration: nat,
    thumbnail: Thumbnail,
    audio: AudioInfo)

  datatype Podcast = Podcast(
    title: string,
    description: string,
    lastBuildDate: string,
    language: string,
    author: string,
    logoUrl: string,
    categories: seq<string>,
    channelUrl: string,
    episodes: seq<Episode>)

  // ---------------------------------------------------------------------
  // RSS output

  datatype Guid = Guid(value: string, permalink: bool)
  datatype Enclosure = Enclosure(url: string, mimeType: string)
  datatype ItunesItem = ItunesItem(summary: Option<string>, author: Option<string>, image: Option<string>, duration: Option<string>)
  datatype Item = Item(
    title: Option<string>,
    link: Option<string>,
    pubDate: Option<string>,
    guid: Option<Guid>,
    description: Option<string>,
    itunes: Option<ItunesItem>,
    enclosure: Option<Enclosure>)
  datatype ItunesCategory = ItunesCategory(text: string)
  datatype ItunesChannel = ItunesChannel(author: Option<string>, image: Option<string>, categories: seq<ItunesCategory>)
  datatype Channel = Channel(
    title: string,
    description: string,
    link: string,
    lastBuildDate: Option<string>,
    language: Option<string>,
    itunes: Option<ItunesChannel>,
    generator: Option<string>,
    items: seq<Item>)

  const ENCLOSURE_MIME: string := "audio/mpeg"

  // ---------------------------------------------------------------------
  // Durations

  /** `seconds_to_duration`: `HH:MM:SS` from one hour on, else `MM:SS`, each field at least two digits. */
  function SecondsToDuration(secs: nat): string {
    var hours := secs / 3600;
    var minutes := (secs % 3600) / 60;
    var seconds := secs % 60;
    if hours > 0 then Pad2(hours) + ":" + Pad2(minutes) + ":" + Pad2(seconds)
    else Pad2(minutes) + ":" + Pad2(seconds)
  }

  /** The three fields recombine to the seconds, with minutes and seconds below 60. */
  lemma DurationFields(secs: nat)
    ensures (secs / 3600) * 3600 + ((secs % 3600) / 60) * 60 + secs % 60 == secs
    ensures (secs % 3600) / 60 < 60 && secs % 60 < 60
  {
  }

  /** A reading of a `[HH:]MM:SS` duration, independent of how it was written. */
  function ParseDuration(s: string): Option<nat> {
    ParseFields(Split(s, ':'))
  }

  function ParseFields(parts: seq<string>): Option<nat> {
    if |parts| == 2 then
      match (ParseUnsigned(parts[0], U64_MAX), ParseUnsigned(parts[1], U64_MAX))
      case (Some(m), Some(sec)) => Some(m * 60 + sec)
      case _ => None
    else if |parts| == 3 then
      match (ParseUnsigned(parts[0], U64_MAX), ParseUnsigned(parts[1], U64_MAX), ParseUnsigned(parts[2], U64_MAX))
      case (Some(h), Some(m), Some(sec)) => Some(h * 3600 + m * 60 + sec)
      case _ => None
    else None
  }

  lemma Pad2Parses(n: nat)
    requires n <= U64_MAX
    ensures ParseUnsigned(Pad2(n), U64_MAX) == Some(n)
  {
    Pad2Value(n);
    assert IsDigit(Pad2(n)[0]);
  }

  lemma DigitsHaveNoColon(s: string)
    requires AllDigits(s)
    ensures ':' !in s
  {
  }

  /** Reading the `MM:SS` form. */
  lemma ParseTwo(m: nat, sec: nat)
    requires m <= U64_MAX && sec <= U64_MAX
    ensures Split(Pad2(m) + ":" + Pad2(sec), ':') == [Pad2(m), Pad2(sec)]
    ensures ParseDuration(Pad2(m) + ":" + Pad2(sec)) == Some(m * 60 + sec)
  {
    var a, b := Pad2(m), Pad2(sec);
    DigitsHaveNoColon(a);
    DigitsHaveNoColon(b);
    SplitTwo(a, b);
    Pad2Parses(m);
    Pad2Parses(sec);
    ParseFieldsTwo(a, b, m, sec);
  }

  lemma SplitTwo(a: string, b: string)
    requires ':' !in a && ':' !in b
    ensures Split(a + ":" + b, ':') == [a, b]
  {
    assert [a, b][1..] == [b];
    assert Join([a, b], [':']) == a + ":" + b;
    SplitJoin([a, b], ':');
  }

  lemma ParseFieldsTwo(a: string, b: string, m: nat, sec: nat)
    requires ParseUnsigned(a, U64_MAX) == Some(m) && ParseUnsigned(b, U64_MAX) == Some(sec)
    ensures ParseFields([a, b]) == Some(m * 60 + sec)
  {
  }

  lemma SplitThree(a: string, b: string, c: string)
    requires ':' !in a && ':' !in b && ':' !in c
    ensures Split(a + ":" + b + ":" + c, ':') == [a, b, c]
  {
    assert [b, c][1..] == [c];
    assert Join([c], [':']) == c;
    var j2 := Join([b, c], [':']);
    assert j2 == b + [':'] + c;
    assert [a, b, c][1..] == [b, c];
    assert Join([a, b, c], [':']) == a + [':'] + j2;
    assert a + ":" + b + ":" + c == a + [':'] + j2;
    SplitJoin([a, b, c], ':');
  }

  lemma ParseFieldsThree(a: string, b: string, c: string, h: nat, m: nat, sec: nat)
    requires ParseUnsigned(a, U64_MAX) == Some(h) && ParseUnsigned(b, U64_MAX) == Some(m)
    requires ParseUnsigned(c, U64_MAX) == Some(sec)
    ensures ParseFields([a, b, c]) == Some(h * 3600 + m * 60 + sec)
  {
  }

  /** Reading the `HH:MM:SS` form. */
  lemma ParseThree(h: nat, m: nat, sec: nat)
    requires h <= U64_MAX && m <= U64_MAX && sec <= U64_MAX
    ensures Split(Pad2(h) + ":" + Pad2(m) + ":" + Pad2(sec), ':') == [Pad2(h), Pad2(m), Pad2(sec)]
    ensures ParseDuration(Pad2(h) + ":" + Pad2(m) + ":" + Pad2(sec)) == Some(h * 3600 + m * 60 + sec)
  {
    var a, b, c := Pad2(h), Pad2(m), Pad2(sec);
    DigitsHaveNoColon(a);
    DigitsHaveNoColon(b);
    DigitsHaveNoColon(c);
    SplitThree(a, b, c);
    Pad2Parses(h);
    Pad2Parses(m);
    Pad2Parses(sec);
    ParseFieldsThree(a, b, c, h, m, sec);
  }

  /** Reading a written duration gives back the seconds; the hours field appears exactly from one hour on. */
  lemma DurationRoundTrip(secs: nat)
    requires secs <= U64_MAX
    ensures ParseDuration(SecondsToDuration(secs)) == Some(secs)
    ensures |Split(SecondsToDuration(secs), ':')| == (if secs >= 3600 then 3 else 2)
  {
    var h, m, s := secs / 3600, (secs % 3600) / 60, secs % 60;
    DurationFields(secs);
    assert h * 3600 + m * 60 + s == secs;
    var d := SecondsToDuration(secs);
    if h > 0 {
      assert d == Pad2(h) + ":" + Pad2(m) + ":" + Pad2(s);
      ParseThree(h, m, s);
      assert ParseDuration(d) == Some(h * 3600 + m * 60 + s);
    } else {
      assert d == Pad2(m) + ":" + Pad2(s);
      ParseTwo(m, s);
      assert ParseDuration(d) == Some(m * 60 + s);
    }
  }

  // ---------------------------------------------------------------------
  // Items

  /** The pieces of the item description, in the order `format!` writes them. */
  function DescriptionPieces(e: Episode): seq<string> {
    [ "<img loading=\"lazy\" class=\"size-thumbnail\"src=\"", e.thumbnail.url,
      "\" width=\"", NatToString(e.thumbnail.width),
      "\" height=\"", NatToString(e.thumbnail.height),
      "\"/>\n<p>", e.description,
      "</p>\n<p><a href=\"", e.link,
      "\">", e.link,
      "</a></p>\n" ]
  }

  /** The item description: the thumbnail, the description, and the link. */
  function DescriptionHtml(e: Episode): string {
    Concat(DescriptionPieces(e))
  }

  /** The description embeds the thumbnail's url and size, the description, and the link twice. */
  lemma DescriptionEmbeds(e: Episode)
    ensures Contains(DescriptionHtml(e), e.thumbnail.url)
    ensures Contains(DescriptionHtml(e), NatToString(e.thumbnail.width))
    ensures Contains(DescriptionHtml(e), NatToString(e.thumbnail.height))
    ensures Contains(DescriptionHtml(e), e.description)
    ensures exists i, j :: i < j && OccursAt(DescriptionHtml(e), e.link, i) && OccursAt(DescriptionHtml(e), e.link, j)
  {
    var ps := DescriptionPieces(e);
    assert ps[1] == e.thumbnail.url && ps[3] == NatToString(e.thumbnail.width);
    assert ps[5] == NatToString(e.thumbnail.height) && ps[7] == e.description;
    assert ps[9] == ps[11] == e.link && |ps[10]| > 0;
    PieceContained(ps, 1);
    PieceContained(ps, 3);
    PieceContained(ps, 5);
    PieceContained(ps, 7);
    PieceRepeated(ps, 9, 11);
  }

  /** `From<Episode> for rss::Item`. */
  function ItemOf(e: Episode): (it: Item)
    ensures it.itunes.Some? && (it.itunes.value.duration.None? <==> e.duration == 0)
    ensures e.duration > 0 ==> it.itunes.value.duration == Some(SecondsToDuration(e.duration))
    ensures it.enclosure == Some(Enclosure(e.audio.url, ENCLOSURE_MIME))
    ensures it.guid == Some(Guid(e.guid, true))
    ensures it.title == Some(e.title) && it.link == Some(e.link) && it.pubDate == Some(e.pubDate)
    ensures it.description == Some(DescriptionHtml(e))
    ensures it.itunes.value.summary == Some(e.description) && it.itunes.value.author == Some(e.author)
    ensures it.itunes.value.image == Some(e.thumbnail.url)
  {
    var itunes := ItunesItem(
      Some(e.description), Some(e.author), Some(e.thumbnail.url),
      if e.duration > 0 then Some(SecondsToDuration(e.duration)) else None);
    Item(Some(e.title), Some(e.link), Some(e.pubDate), Some(Guid(e.guid, true)),
         Some(DescriptionHtml(e)), Some(itunes), Some(Enclosure(e.audio.url, ENCLOSURE_MIME)))
  }

  /** The iTunes duration of an item is either omitted or reads back as the episode's duration. */
  lemma ItemDuration(e: Episode)
    requires e.duration <= U64_MAX
    ensures ItemOf(e).itunes.value.duration.None? ==> e.duration == 0
    ensures ItemOf(e).itunes.value.duration.Some? ==> ParseDuration(ItemOf(e).itunes.value.duration.value) == Some(e.duration)
  {
    if e.duration > 0 {
      DurationRoundTrip(e.duration);
    }
  }

  // ---------------------------------------------------------------------
  // Channel

  /** `From<Podcast> for rss::Channel`: the channel fields, then one item per episode in order. */
  method ToChannel(p: Podcast) returns (c: Channel)
    ensures c.title == p.title && c.description == p.description && c.link == p.channelUrl
    ensures c.lastBuildDate == Some(p.lastBuildDate)
    ensures c.language.None? <==> p.language == ""
    ensures c.language.Some? ==> c.language.value == p.language
    ensures c.generator == Some(GENERATOR_STR)
    ensures c.itunes.Some? && c.itunes.value.author == Some(p.author) && c.itunes.value.image == Some(p.logoUrl)
    ensures |c.itunes.value.categories| == |p.categories|
    ensures forall i :: 0 <= i < |p.categories| ==> c.itunes.value.categories[i] == ItunesCategory(p.categories[i])
    ensures |c.items| == |p.episodes|
    ensures forall i :: 0 <= i < |p.episodes| ==> c.items[i] == ItemOf(p.episodes[i])
  {
    var categories := seq(|p.categories|, i requires 0 <= i < |p.categories| => ItunesCategory(p.categories[i]));
    var itunes := ItunesChannel(Some(p.author), Some(p.logoUrl), categories);
    c := Channel(p.title, p.description, p.channelUrl, Some(p.lastBuildDate),
                 if p.language != "" then Some(p.language) else None,
                 Some(itunes), Some(GENERATOR_STR), []);
    for i := 0 to |p.episodes|
      invariant c.title == p.title && c.description == p.description && c.link == p.channelUrl
      invariant c.lastBuildDate == Some(p.lastBuildDate) && c.generator == Some(GENERATOR_STR)
      invariant c.language == (if p.language != "" then Some(p.language) else None)
      invariant c.itunes == Some(itunes)
      invariant |c.items| == i
      invariant forall j :: 0 <= j < i ==> c.items[j] == ItemOf(p.episodes[j])
    {
      c := c.(items := c.items + [ItemOf(p.episodes[i])]);
    }
  }
}
