/**
 * The yt-dlp harvester: turns the flat-playlist description of a channel
 * into a podcast. Publication dates are not in that description, so a
 * registry remembers the first time each video was seen.
 */
module HarvestYtdlp {
  import opened Wrappers
  import opened Iter
  import opened AppConfig
  import Podcast

  newtype I32 = x: int | -0x8000_0000 <= x < 0x8000_0000

  datatype Thumbnail = Thumbnail(url: string, width: I32, height: I32)

  /** The thumbnail `unwrap_or_default` falls back to. */
  const DEFAULT_THUMBNAIL: Thumbnail := Thumbnail("", 0, 0)

  /** `duration` is the whole number of seconds (the `f32` already truncated). */
  datatype Entry = Entry(
    id: string,
    title: string,
    url: string,
    description: Option<string>,
    thumbnails: seq<Thumbnail>,
    duration: nat)

  datatype Channel = Channel(
    channel: string,
    channelUrl: string,
    description: Option<string>,
    tags: seq<string>,
    entries: seq<Option<Entry>>,
    thumbnails: seq<Thumbnail>,
    uploaderId: string)

  const EPISODE_MIME: string := "audio/mpeg"
  const LANGUAGE: string := "en"

  // ---------------------------------------------------------------------
  // Thumbnails
  // ---------------------------------------------------------------------

  predicate Candidate(t: Thumbnail) {
    t.width > 0 && t.height > 0
  }

  function Candidates(ts: seq<Thumbnail>): (r: seq<Thumbnail>) {
    Filter(ts, Candidate)
  }

  function Aspect(t: Thumbnail): nat {
    var d := t.width as int - t.height as int;
    if d < 0 then -d else d
  }

  /** Rust's order on `(|w - h|, -w)`: closer to square first, then wider first. */
  predicate SquarerThan(t: Thumbnail, u: Thumbnail) {
    Aspect(t) < Aspect(u) || (Aspect(t) == Aspect(u) && t.width > u.width)
  }

  /** The tuple `(|w - h|, -w)` packed into one integer key. */
  function SquarenessKey(t: Thumbnail): int {
    Aspect(t) * 0x1_0000_0000 - t.width as int
  }

  /** On candidates the packed key orders exactly as the tuple does. */
  lemma SquarenessKeyOrder(t: Thumbnail, u: Thumbnail)
    requires Candidate(t) && Candidate(u)
    ensures SquarenessKey(t) < SquarenessKey(u) <==> SquarerThan(t, u)
    ensures SquarenessKey(t) == SquarenessKey(u) <==> Aspect(t) == Aspect(u) && t.width == u.width
  {
    if Aspect(t) < Aspect(u) {
      assert Aspect(t) * 0x1_0000_0000 + 0x1_0000_0000 <= Aspect(u) * 0x1_0000_0000;
    } else if Aspect(t) > Aspect(u) {
      assert Aspect(u) * 0x1_0000_0000 + 0x1_0000_0000 <= Aspect(t) * 0x1_0000_0000;
    }
  }

  /** `squarest_thumbnail`: the first candidate with the least key. */
  function SquarestThumbnail(ts: seq<Thumbnail>): (r: Option<Thumbnail>)
    ensures r.None? <==> forall k :: 0 <= k < |ts| ==> !Candidate(ts[k])
    ensures r.Some? ==> r.value in ts && Candidate(r.value)
  {
    var cs := Candidates(ts);
    if cs == [] then None else Some(cs[MinIndexByKey(cs, SquarenessKey)])
  }

  /**
   * No candidate is squarer than the chosen one, and every candidate listed
   * before it is strictly less square.
   */
  lemma SquarestSpec(ts: seq<Thumbnail>)
    requires SquarestThumbnail(ts).Some?
    ensures forall k :: 0 <= k < |ts| && Candidate(ts[k]) ==> !SquarerThan(ts[k], SquarestThumbnail(ts).value)
    ensures exists i ::
      && 0 <= i < |Candidates(ts)| && Candidates(ts)[i] == SquarestThumbnail(ts).value
      && forall j :: 0 <= j < i ==> SquarerThan(SquarestThumbnail(ts).value, Candidates(ts)[j])
  {
    var cs := Candidates(ts);
    var i := MinIndexByKey(cs, SquarenessKey);
    var best := cs[i];
    forall k | 0 <= k < |ts| && Candidate(ts[k])
      ensures !SquarerThan(ts[k], best)
    {
      var m :| 0 <= m < |cs| && cs[m] == ts[k];
      SquarenessKeyOrder(ts[k], best);
    }
    forall j | 0 <= j < i
      ensures SquarerThan(best, cs[j])
    {
      SquarenessKeyOrder(best, cs[j]);
    }
  }

  function Width(t: Thumbnail): int {
    t.width as int
  }

  /** The episode thumbnail: `max_by_key` on the width (the last widest), or the default. */
  function WidestThumbnail(ts: seq<Thumbnail>): (t: Thumbnail)
    ensures ts == [] ==> t == DEFAULT_THUMBNAIL
    ensures ts != [] ==> t in ts && forall k :: 0 <= k < |ts| ==> ts[k].width <= t.width
  {
    if ts == [] then DEFAULT_THUMBNAIL else ts[MaxIndexByKey(ts, Width)]
  }

  lemma WidestIsLast(ts: seq<Thumbnail>)
    requires ts != []
    ensures exists i ::
      && 0 <= i < |ts| && ts[i] == WidestThumbnail(ts)
      && forall j :: i < j < |ts| ==> ts[j].width < ts[i].width
  {
    var i := MaxIndexByKey(ts, Width);
    assert ts[i] == WidestThumbnail(ts);
  }

  /** The `as u32` cast: two's-complement reinterpretation. */
  function AsU32(x: I32): (r: nat)
    ensures r < 0x1_0000_0000
    ensures r == (x as int) % 0x1_0000_0000
  {
    if x < 0 then x as int + 0x1_0000_0000 else x as int
  }

  function ToPodcastThumbnail(t: Thumbnail): (r: Podcast.Thumbnail)
    ensures r.url == t.url
    ensures t.width >= 0 ==> r.width == t.width as int
    ensures t.height >= 0 ==> r.height == t.height as int
  {
    Podcast.Thumbnail(t.url, AsU32(t.width), AsU32(t.height))
  }

  // ---------------------------------------------------------------------
  // Episode dates
  // ---------------------------------------------------------------------

  /** The date the registry reports for `id` when the clock reads `now`. */
  function DateOf(dict: map<string, int>, id: string, now: int): (d: int)
    ensures id in dict ==> d == dict[id]
    ensures id !in dict ==> d == now
  {
    if id in dict then dict[id] else now
  }

  /** The registry after looking up every id of `ids`, in order, at time `now`. */
  function Remember(dict: map<string, int>, ids: seq<string>, now: int): (r: map<string, int>)
  {
    if ids == [] then dict
    else
      var d := Remember(dict, ids[..|ids| - 1], now);
      var id := ids[|ids| - 1];
      if id in d then d else d[id := now]
  }

  /** Lookups keep what was known and record `now` for the rest. */
  lemma {:induction false} RememberSpec(dict: map<string, int>, ids: seq<string>, now: int)
    ensures forall id :: id in Remember(dict, ids, now) <==> id in dict || id in ids
    ensures forall id :: id in Remember(dict, ids, now) ==> Remember(dict, ids, now)[id] == DateOf(dict, id, now)
    decreases |ids|
  {
    if ids != [] {
      var init := ids[..|ids| - 1];
      RememberSpec(dict, init, now);
      assert ids == init + [ids[|ids| - 1]];
    }
  }

  lemma RememberStep(dict: map<string, int>, ids: seq<string>, i: nat, now: int)
    requires i < |ids|
    ensures Remember(dict, ids[..i + 1], now) == Remember(Remember(dict, ids[..i], now), [ids[i]], now)
  {
    assert ids[..i + 1][..i] == ids[..i];
  }

  /** `EpisodeDateRegistry`: the first date each video id was looked up. */
  class Registry {
    var dict: map<string, int>

    constructor()
      ensures dict == map[]
    {
      dict := map[];
    }

    /** `get`: the stored date, or `now`, which is then stored. */
    method Get(id: string, now: int) returns (date: int)
      modifies this
      ensures date == DateOf(old(dict), id, now)
      ensures dict == Remember(old(dict), [id], now)
      ensures id in dict && dict[id] == date
    {
      if id in dict {
        return dict[id];
      }
      date := now;
      dict := dict[id := date];
    }
  }

  /** A second lookup returns the date of the first, whatever the clock then reads. */
  method SecondGetAgrees(id: string, now1: int, now2: int) returns (first: int, second: int)
    ensures first == second == now1
  {
    var registry := new Registry();
    first := registry.Get(id, now1);
    second := registry.Get(id, now2);
  }

  // ---------------------------------------------------------------------
  // Conversions
  // ---------------------------------------------------------------------

  /** The entries that are present, in order (`flatten` / `filter_map`). */
  function Present(entries: seq<Option<Entry>>): (r: seq<Entry>)
    ensures |r| <= |entries|
    ensures forall k :: 0 <= k < |r| ==> Some(r[k]) in entries
    ensures forall k :: 0 <= k < |entries| && entries[k].Some? ==> entries[k].value in r
  {
    if entries == [] then []
    else (if entries[0].Some? then [entries[0].value] else []) + Present(entries[1..])
  }

  function Ids(entries: seq<Entry>): (r: seq<string>)
    ensures |r| == |entries|
    ensures forall k :: 0 <= k < |entries| ==> r[k] == entries[k].id
  {
    seq(|entries|, k requires 0 <= k < |entries| => entries[k].id)
  }

  /** The later of two optional dates, as `max` folds them. */
  function MaxDate(dates: seq<int>): (m: Option<int>)
    ensures m.None? <==> dates == []
    ensures m.Some? ==> m.value in dates && forall k :: 0 <= k < |dates| ==> dates[k] <= m.value
  {
    if dates == [] then None
    else
      var m := MaxDate(dates[..|dates| - 1]);
      var last := dates[|dates| - 1];
      assert forall k :: 0 <= k < |dates| - 1 ==> dates[..|dates| - 1][k] == dates[k];
      if m.None? || m.value <= last then Some(last) else m
  }

  /** The dates of `ids` as seen by the registry `dict` at time `now`. */
  function Dates(dict: map<string, int>, ids: seq<string>, now: int): (r: seq<int>)
    ensures |r| == |ids|
    ensures forall k :: 0 <= k < |ids| ==> r[k] == DateOf(dict, ids[k], now)
  {
    seq(|ids|, k requires 0 <= k < |ids| => DateOf(dict, ids[k], now))
  }

  /**
   * `last_episode_date`: the latest registry date over the present entries,
   * the Unix epoch when there are none, formatted by `rfc2822`.
   */
  method LastEpisodeDate(c: Channel, registry: Registry, now: int, rfc2822: int -> string) returns (s: string)
    modifies registry
    ensures s == rfc2822(MaxDate(Dates(old(registry.dict), Ids(Present(c.entries)), now)).GetOr(0))
    ensures registry.dict == Remember(old(registry.dict), Ids(Present(c.entries)), now)
  {
    var ids := Ids(Present(c.entries));
    ghost var dict0 := registry.dict;
    var latest: Option<int> := None;
    for i := 0 to |ids|
      invariant registry.dict == Remember(dict0, ids[..i], now)
      invariant latest == MaxDate(Dates(dict0, ids[..i], now))
    {
      RememberSpec(dict0, ids[..i], now);
      RememberStep(dict0, ids, i, now);
      DatesStep(dict0, ids, i, now);
      var date := registry.Get(ids[i], now);
      assert date == DateOf(dict0, ids[i], now);
      if latest.None? || latest.value <= date {
        latest := Some(date);
      }
    }
    assert ids[..|ids|] == ids;
    s := rfc2822(latest.GetOr(0));
  }

  lemma DatesStep(dict: map<string, int>, ids: seq<string>, i: nat, now: int)
    requires i < |ids|
    ensures var m := MaxDate(Dates(dict, ids[..i], now));
      var d := DateOf(dict, ids[i], now);
      MaxDate(Dates(dict, ids[..i + 1], now)) == if m.None? || m.value <= d then Some(d) else m
  {
    var ds := Dates(dict, ids[..i + 1], now);
    assert ds[..i] == Dates(dict, ids[..i], now);
  }

  /** `From<Entry> for Episode` with the registry date `date`. */
  function EpisodeOf(e: Entry, date: int, rfc2822: int -> string): (ep: Podcast.Episode)
  {
    Podcast.Episode(
      e.title,
      e.url,
      e.description.GetOr(""),
      rfc2822(date),
      "",
      e.id,
      e.duration,
      ToPodcastThumbnail(WidestThumbnail(e.thumbnails)),
      Podcast.AudioInfo(AudioUrl(e.id), EPISODE_MIME))
  }

  method EntryToEpisode(e: Entry, registry: Registry, now: int, rfc2822: int -> string) returns (ep: Podcast.Episode)
    modifies registry
    ensures ep == EpisodeOf(e, DateOf(old(registry.dict), e.id, now), rfc2822)
    ensures registry.dict == Remember(old(registry.dict), [e.id], now)
  {
    var thumbnail := ToPodcastThumbnail(WidestThumbnail(e.thumbnails));
    var audio := Podcast.AudioInfo(AudioUrl(e.id), EPISODE_MIME);
    var date := registry.Get(e.id, now);
    ep := Podcast.Episode(e.title, e.url, e.description.GetOr(""), rfc2822(date), "", e.id, e.duration, thumbnail, audio);
  }

  function LogoUrl(c: Channel): (url: string)
    ensures SquarestThumbnail(c.thumbnails).None? ==> url == ""
    ensures SquarestThumbnail(c.thumbnails).Some? ==> url == SquarestThumbnail(c.thumbnails).value.url
  {
    match SquarestThumbnail(c.thumbnails)
    case None => ""
    case Some(t) => t.url
  }

  /** The podcast `From<Channel>` builds when the registry starts as `dict`. */
  function PodcastOf(c: Channel, dict: map<string, int>, now: int, rfc2822: int -> string): (p: Podcast.Podcast)
  {
    var entries := Present(c.entries);
    Podcast.Podcast(
      c.channel,
      c.description.GetOr(""),
      rfc2822(MaxDate(Dates(dict, Ids(entries), now)).GetOr(0)),
      LANGUAGE,
      c.uploaderId,
      LogoUrl(c),
      c.tags,
      c.channelUrl,
      EpisodesOf(entries, dict, now, rfc2822))
  }

  function EpisodesOf(entries: seq<Entry>, dict: map<string, int>, now: int, rfc2822: int -> string): (r: seq<Podcast.Episode>)
    ensures |r| == |entries|
    ensures forall k :: 0 <= k < |entries| ==> r[k] == EpisodeOf(entries[k], DateOf(dict, entries[k].id, now), rfc2822)
  {
    seq(|entries|, k requires 0 <= k < |entries| => EpisodeOf(entries[k], DateOf(dict, entries[k].id, now), rfc2822))
  }

  /**
   * `From<Channel> for Podcast`: the logo, then the last episode date (which
   * registers every present entry), then one episode per present entry.
   */
  method FromChannel(c: Channel, registry: Registry, now: int, rfc2822: int -> string) returns (p: Podcast.Podcast)
    modifies registry
    ensures p == PodcastOf(c, old(registry.dict), now, rfc2822)
    ensures registry.dict == Remember(old(registry.dict), Ids(Present(c.entries)), now)
  {
    ghost var dict0 := registry.dict;
    var logo := LogoUrl(c);
    var lastDate := LastEpisodeDate(c, registry, now, rfc2822);
    var entries := Present(c.entries);
    RememberSpec(dict0, Ids(entries), now);
    KnownAfterRemember(entries, dict0, now, rfc2822);
    var episodes := EntriesToEpisodes(entries, registry, now, rfc2822);
    p := Podcast.Podcast(c.channel, c.description.GetOr(""), lastDate, LANGUAGE, c.uploaderId, logo, c.tags, c.channelUrl, episodes);
  }

  /** The episode loop, once every id is registered: each lookup finds its date. */
  method EntriesToEpisodes(entries: seq<Entry>, registry: Registry, now: int, rfc2822: int -> string)
    returns (episodes: seq<Podcast.Episode>)
    requires forall k :: 0 <= k < |entries| ==> entries[k].id in registry.dict
    modifies registry
    ensures episodes == EpisodesOf(entries, old(registry.dict), now, rfc2822)
    ensures registry.dict == old(registry.dict)
  {
    ghost var spec := EpisodesOf(entries, registry.dict, now, rfc2822);
    episodes := [];
    for i := 0 to |entries|
      invariant registry.dict == old(registry.dict)
      invariant episodes == spec[..i]
    {
      var ep := EntryToEpisode(entries[i], registry, now, rfc2822);
      episodes := episodes + [ep];
      assert spec[..i + 1] == spec[..i] + [spec[i]];
    }
    assert spec[..|entries|] == spec;
  }

  /** Registering the entries changes none of their dates. */
  lemma KnownAfterRemember(entries: seq<Entry>, dict: map<string, int>, now: int, rfc2822: int -> string)
    ensures forall k :: 0 <= k < |entries| ==> entries[k].id in Remember(dict, Ids(entries), now)
    ensures EpisodesOf(entries, Remember(dict, Ids(entries), now), now, rfc2822) == EpisodesOf(entries, dict, now, rfc2822)
  {
    var ids := Ids(entries);
    RememberSpec(dict, ids, now);
    forall k | 0 <= k < |entries|
      ensures entries[k].id in Remember(dict, ids, now)
      ensures DateOf(Remember(dict, ids, now), entries[k].id, now) == DateOf(dict, entries[k].id, now)
    {
      assert entries[k].id == ids[k];
    }
  }

  // ---------------------------------------------------------------------
  // Properties of the conversion
  // ---------------------------------------------------------------------

  /**
   * Episodes are the present entries in order, each with its id as guid,
   * the gateway's audio url for that id, `audio/mpeg`, no author and the
   * widest thumbnail.
   */
  lemma EpisodesFollowEntries(c: Channel, dict: map<string, int>, now: int, rfc2822: int -> string)
    ensures var p := PodcastOf(c, dict, now, rfc2822);
      var entries := Present(c.entries);
      && |p.episodes| == |entries|
      && forall k :: 0 <= k < |entries| ==>
        && p.episodes[k].guid == entries[k].id
        && p.episodes[k].title == entries[k].title
        && p.episodes[k].link == entries[k].url
        && p.episodes[k].audio == Podcast.AudioInfo(INSTANCE_PUBLIC_URL + "/audio/" + entries[k].id, "audio/mpeg")
        && p.episodes[k].author == ""
        && p.episodes[k].duration == entries[k].duration
        && p.episodes[k].thumbnail == ToPodcastThumbnail(WidestThumbnail(entries[k].thumbnails))
  {
  }

  /** The channel-level fields: language `en`, the uploader as author, the squarest logo or none. */
  lemma ChannelFields(c: Channel, dict: map<string, int>, now: int, rfc2822: int -> string)
    ensures var p := PodcastOf(c, dict, now, rfc2822);
      && p.language == "en"
      && p.author == c.uploaderId
      && p.title == c.channel
      && p.categories == c.tags
      && p.channelUrl == c.channelUrl
      && p.description == (if c.description.Some? then c.description.value else "")
      && ((forall k :: 0 <= k < |c.thumbnails| ==> !Candidate(c.thumbnails[k])) ==> p.logoUrl == "")
  {
  }

  /**
   * The build date is the publication date of a latest episode, and the
   * epoch when the channel has no episodes.
   */
  lemma BuildDateIsLatestEpisode(c: Channel, dict: map<string, int>, now: int, rfc2822: int -> string)
    ensures var p := PodcastOf(c, dict, now, rfc2822);
      var entries := Present(c.entries);
      && (entries == [] ==> p.lastBuildDate == rfc2822(0))
      && (entries != [] ==>
            exists k ::
              && 0 <= k < |entries| && p.lastBuildDate == p.episodes[k].pubDate
              && forall j :: 0 <= j < |entries| ==> DateOf(dict, entries[j].id, now) <= DateOf(dict, entries[k].id, now))
  {
    var entries := Present(c.entries);
    var ds := Dates(dict, Ids(entries), now);
    if entries != [] {
      var m := MaxDate(ds).value;
      var k :| 0 <= k < |ds| && ds[k] == m;
      assert PodcastOf(c, dict, now, rfc2822).episodes[k].pubDate == rfc2822(m);
    }
  }
}
