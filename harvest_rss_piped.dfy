/**
 * The harvester that combines a channel's Atom feed with its Piped channel
 * page: entries that are not premiered yet, not listed by Piped, or shorts
 * are skipped; every other entry becomes an episode with Piped's duration.
 */
module HarvestRssPiped {
  import opened Wrappers
  import opened Text
  import opened Errors
  import opened Atom
  import opened FeedExt
  import opened AppConfig
  import Podcast

  datatype PipedStream = PipedStream(videoId: string, duration: nat, isShort: bool)

  datatype PipedChannel = PipedChannel(description: Option<string>, relatedStreams: seq<PipedStream>)

  /** The channel page's logo and tags (read from its HTML). */
  datatype ExtraInfo = ExtraInfo(logoUrl: string, tags: seq<string>)

  const EPISODE_MIME: string := "audio/mpeg"
  const WATCH_PREFIX: string := "/watch?v="

  // ---------------------------------------------------------------------
  // Piped channel
  // ---------------------------------------------------------------------

  /** `get_stream`: the first related stream with this video id. */
  function GetStream(channel: PipedChannel, videoId: string): (r: Option<PipedStream>)
    ensures r.None? <==> forall k :: 0 <= k < |channel.relatedStreams| ==> channel.relatedStreams[k].videoId != videoId
    ensures r.Some? ==> exists k ::
      && 0 <= k < |channel.relatedStreams| && channel.relatedStreams[k] == r.value
      && r.value.videoId == videoId
      && forall j :: 0 <= j < k ==> channel.relatedStreams[j].videoId != videoId
  {
    FirstWithId(channel.relatedStreams, videoId, 0)
  }

  function FirstWithId(streams: seq<PipedStream>, videoId: string, from: nat): (r: Option<PipedStream>)
    requires from <= |streams|
    requires forall j :: 0 <= j < from ==> streams[j].videoId != videoId
    ensures r.None? <==> forall k :: 0 <= k < |streams| ==> streams[k].videoId != videoId
    ensures r.Some? ==> exists k ::
      && 0 <= k < |streams| && streams[k] == r.value
      && r.value.videoId == videoId
      && forall j :: 0 <= j < k ==> streams[j].videoId != videoId
    decreases |streams| - from
  {
    if from == |streams| then None
    else if streams[from].videoId == videoId then Some(streams[from])
    else FirstWithId(streams, videoId, from + 1)
  }

  /**
   * After fetching the channel from Piped, each related stream's url
   * `/watch?v=<id>` is cut down to the id, in place; a url without that
   * prefix panics.
   */
  method StripWatchPrefixes(streams: array<PipedStream>)
    requires forall k :: 0 <= k < streams.Length ==> WATCH_PREFIX <= streams[k].videoId
    modifies streams
    ensures forall k :: 0 <= k < streams.Length ==>
      && old(streams[k]).videoId == WATCH_PREFIX + streams[k].videoId
      && streams[k] == old(streams[k]).(videoId := streams[k].videoId)
  {
    for i := 0 to streams.Length
      invariant forall k :: 0 <= k < i ==>
        && old(streams[k]).videoId == WATCH_PREFIX + streams[k].videoId
        && streams[k] == old(streams[k]).(videoId := streams[k].videoId)
      invariant forall k :: i <= k < streams.Length ==> streams[k] == old(streams[k])
    {
      var stream := streams[i];
      var id := StripPrefix(stream.videoId, WATCH_PREFIX);
      streams[i] := stream.(videoId := id.value);
    }
  }

  // ---------------------------------------------------------------------
  // Logo width
  // ---------------------------------------------------------------------

  const LOGO_WIDTH: string := "=s1400"

  /** The pattern `=s\d+` can start at `i`. */
  predicate WidthAt(s: string, i: nat) {
    i + 2 < |s| && s[i] == '=' && s[i + 1] == 's' && IsDecimalDigit(s[i + 2])
  }

  /** The end of the run of digits that starts at `j`. */
  function DigitsEnd(s: string, j: nat): (e: nat)
    requires j <= |s|
    ensures j <= e <= |s|
    ensures forall k :: j <= k < e ==> IsDecimalDigit(s[k])
    ensures e == |s| || !IsDecimalDigit(s[e])
    decreases |s| - j
  {
    if j < |s| && IsDecimalDigit(s[j]) then DigitsEnd(s, j + 1) else j
  }

  /** The leftmost match of `=s\d+` at or after `from`, with its greedy end. */
  function FindWidth(s: string, from: nat): (r: Option<(nat, nat)>)
    ensures r.None? ==> forall i :: from <= i < |s| ==> !WidthAt(s, i)
    ensures r.Some? ==>
      && from <= r.value.0 && WidthAt(s, r.value.0)
      && (forall i :: from <= i < r.value.0 ==> !WidthAt(s, i))
      && r.value.1 == DigitsEnd(s, r.value.0 + 2)
    decreases |s| - from
  {
    if from >= |s| then None
    else if WidthAt(s, from) then Some((from, DigitsEnd(s, from + 2)))
    else FindWidth(s, from + 1)
  }

  /** `Regex::replace`: only the first `=s<digits>` becomes `=s1400`. */
  function LogoWidth(url: string): (r: string)
    ensures FindWidth(url, 0).None? ==> r == url
    ensures FindWidth(url, 0).Some? ==>
      var (i, j) := FindWidth(url, 0).value;
      r == url[..i] + LOGO_WIDTH + url[j..]
  {
    match FindWidth(url, 0)
    case None => url
    case Some((i, j)) => url[..i] + LOGO_WIDTH + url[j..]
  }

  /** Rewriting an already rewritten url changes nothing. */
  lemma LogoWidthIdempotent(url: string)
    ensures LogoWidth(LogoWidth(url)) == LogoWidth(url)
  {
    match FindWidth(url, 0)
    case None =>
    case Some((i, j)) =>
      var r := url[..i] + LOGO_WIDTH + url[j..];
      assert r[..i] == url[..i];
      forall k | 0 <= k < i
        ensures !WidthAt(r, k)
      {
        assert r[i] == '=';
        if k + 2 < i {
          assert !WidthAt(url, k);
          assert r[k] == url[k] && r[k + 1] == url[k + 1] && r[k + 2] == url[k + 2];
        } else if k + 1 == i {
          assert r[k + 1] == '=';
        } else {
          assert r[k + 2] == '=';
        }
      }
      assert WidthAt(r, i);
      assert r[i + 2..i + 6] == "1400";
      assert DigitsEnd(r, i + 2) == i + 6 by {
        DigitsEndOver(r, i + 2, i + 6);
        if i + 6 < |r| {
          assert r[i + 6] == url[j];
        }
      }
      assert FindWidth(r, 0) == Some((i, i + 6)) by {
        FindWidthFirst(r, 0, i);
      }
      assert r[..i] + LOGO_WIDTH + r[i + 6..] == r;
  }

  lemma {:induction false} DigitsEndOver(s: string, j: nat, e: nat)
    requires j <= e <= |s|
    requires forall k :: j <= k < e ==> IsDecimalDigit(s[k])
    requires e == |s| || !IsDecimalDigit(s[e])
    ensures DigitsEnd(s, j) == e
    decreases e - j
  {
    if j < e {
      DigitsEndOver(s, j + 1, e);
    }
  }

  /** The match found is the first position where the pattern fits. */
  lemma FindWidthFirst(s: string, from: nat, i: nat)
    requires from <= i && WidthAt(s, i)
    requires forall k :: from <= k < i ==> !WidthAt(s, k)
    ensures FindWidth(s, from) == Some((i, DigitsEnd(s, i + 2)))
  {
    var r := FindWidth(s, from);
    assert r.Some?;
    assert r.value.0 == i;
  }

  /** A Google image url's size parameter becomes 1400, and the rest is kept. */
  lemma LogoWidthExample()
    ensures LogoWidth("ab=s88-c") == "ab=s1400-c"
  {
    var s := "ab=s88-c";
    assert !WidthAt(s, 0) && !WidthAt(s, 1) && WidthAt(s, 2);
    FindWidthFirst(s, 0, 2);
    DigitsEndOver(s, 4, 6);
    assert s[..2] + LOGO_WIDTH + s[6..] == "ab=s1400-c";
  }

  /** `\d` matches the decimal digits of every script: an Arabic-Indic digit is part of the size too. */
  lemma LogoWidthUnicodeDigits()
    ensures LogoWidth("=s\U{0663}") == "=s1400"
    ensures LogoWidth("=s1\U{0663}-c") == "=s1400-c"
  {
    var s := "=s\U{0663}";
    assert WidthAt(s, 0);
    FindWidthFirst(s, 0, 0);
    DigitsEndOver(s, 2, 3);
    var t := "=s1\U{0663}-c";
    assert WidthAt(t, 0);
    FindWidthFirst(t, 0, 0);
    DigitsEndOver(t, 2, 4);
    assert t[..0] + LOGO_WIDTH + t[4..] == "=s1400-c";
  }

  // ---------------------------------------------------------------------
  // Episodes
  // ---------------------------------------------------------------------

  /**
   * `make_episode`: `None` for a skipped entry. `notPremiered` is the
   * premiere test on the entry and `rfc2822` formats its update time.
   */
  function EpisodeOf(e: Entry, channel: PipedChannel, notPremiered: Entry -> bool, rfc2822: int -> string)
    : (r: Errors.Result<Option<Podcast.Episode>>)
    requires Readable(e)
  {
    var description :- Description(e);
    var thumbnail :- Thumbnail(e);
    var videoId :- VideoId(e);
    if notPremiered(e) then Ok(None)
    else match GetStream(channel, videoId)
      case None => Ok(None)
      case Some(stream) =>
        if stream.isShort then Ok(None)
        else
          var link :- EntryLink(e);
          Ok(Some(Podcast.Episode(
            e.title,
            link,
            description,
            rfc2822(e.updated),
            FirstAuthor(e.authors),
            e.id,
            stream.duration,
            thumbnail,
            Podcast.AudioInfo(AudioUrl(videoId), EPISODE_MIME))))
  }

  const DEFAULT_EPISODE: Podcast.Episode :=
    Podcast.Episode("", "", "", "", "", "", 0, Podcast.Thumbnail("", 0, 0), Podcast.AudioInfo("", ""))

  /** `make_episode` as written: a default episode filled in field by field. */
  method MakeEpisode(e: Entry, channel: PipedChannel, notPremiered: Entry -> bool, rfc2822: int -> string)
    returns (r: Errors.Result<Option<Podcast.Episode>>)
    requires Readable(e)
    ensures r == EpisodeOf(e, channel, notPremiered, rfc2822)
  {
    var episode := DEFAULT_EPISODE;
    var description := Description(e);
    if description.Err? {
      return Err(description.error);
    }
    var thumbnail := Thumbnail(e);
    if thumbnail.Err? {
      return Err(thumbnail.error);
    }
    var videoId := VideoId(e);
    if videoId.Err? {
      return Err(videoId.error);
    }
    if notPremiered(e) {
      return Ok(None);
    }
    var stream := GetStream(channel, videoId.value);
    if stream.None? {
      return Ok(None);
    }
    if stream.value.isShort {
      return Ok(None);
    }
    var link := EntryLink(e);
    if link.Err? {
      return Err(link.error);
    }
    var audio := Podcast.AudioInfo(AudioUrl(videoId.value), EPISODE_MIME);
    episode := episode.(title := e.title);
    episode := episode.(link := link.value);
    episode := episode.(description := description.value);
    episode := episode.(pubDate := rfc2822(e.updated));
    episode := episode.(author := FirstAuthor(e.authors));
    episode := episode.(guid := e.id);
    episode := episode.(thumbnail := thumbnail.value);
    episode := episode.(audio := audio);
    episode := episode.(duration := stream.value.duration);
    r := Ok(Some(episode));
  }

  /**
   * The accessor errors come before every skip test: an entry without a
   * description, thumbnail or video id fails even if it would be skipped.
   */
  lemma AccessorErrorsFirst(e: Entry, channel: PipedChannel, notPremiered: Entry -> bool, rfc2822: int -> string)
    requires Readable(e)
    ensures Description(e).Err? ==> EpisodeOf(e, channel, notPremiered, rfc2822) == Err(Description(e).error)
    ensures Description(e).Ok? && Thumbnail(e).Err? ==> EpisodeOf(e, channel, notPremiered, rfc2822) == Err(Thumbnail(e).error)
    ensures Description(e).Ok? && Thumbnail(e).Ok? && VideoId(e).Err? ==>
      EpisodeOf(e, channel, notPremiered, rfc2822) == Err(VideoId(e).error)
  {
  }

  /** Which entries are skipped: exactly the not premiered, the unlisted and the shorts. */
  lemma SkippedEntries(e: Entry, channel: PipedChannel, notPremiered: Entry -> bool, rfc2822: int -> string)
    requires Readable(e)
    requires Description(e).Ok? && Thumbnail(e).Ok? && VideoId(e).Ok?
    ensures var stream := GetStream(channel, VideoId(e).value);
      EpisodeOf(e, channel, notPremiered, rfc2822) == Ok(None) <==>
        notPremiered(e) || stream.None? || stream.value.isShort
    ensures EpisodeOf(e, channel, notPremiered, rfc2822).Err? ==>
      EpisodeOf(e, channel, notPremiered, rfc2822) == Err(Invalid(e, NO_LINK_FOUND))
  {
  }

  /**
   * A kept episode: the entry's title, first link, description, thumbnail,
   * id as guid and first author, Piped's duration, and the gateway's audio
   * url for the video.
   */
  lemma KeptEpisode(e: Entry, channel: PipedChannel, notPremiered: Entry -> bool, rfc2822: int -> string)
    requires Readable(e)
    requires EpisodeOf(e, channel, notPremiered, rfc2822).Ok? && EpisodeOf(e, channel, notPremiered, rfc2822).value.Some?
    ensures var ep := EpisodeOf(e, channel, notPremiered, rfc2822).value.value;
      var videoId := VideoId(e).value;
      && VideoId(e).Ok? && !notPremiered(e)
      && GetStream(channel, videoId).Some? && !GetStream(channel, videoId).value.isShort
      && ep.duration == GetStream(channel, videoId).value.duration
      && ep.audio == Podcast.AudioInfo(INSTANCE_PUBLIC_URL + "/audio/" + videoId, "audio/mpeg")
      && ep.title == e.title && ep.guid == e.id
      && ep.link == e.links[0].href
      && ep.description == Description(e).value
      && ep.thumbnail == Thumbnail(e).value
      && ep.author == FirstAuthor(e.authors)
  {
  }

  // ---------------------------------------------------------------------
  // Podcast
  // ---------------------------------------------------------------------

  /** Every entry up to the first failing one can be read. */
  predicate ReadableUntilError(entries: seq<Entry>, channel: PipedChannel, notPremiered: Entry -> bool, rfc2822: int -> string)
    decreases |entries|
  {
    entries != [] ==>
      && Readable(entries[0])
      && (EpisodeOf(entries[0], channel, notPremiered, rfc2822).Ok? ==>
            ReadableUntilError(entries[1..], channel, notPremiered, rfc2822))
  }

  /** `try_join_all` then `flatten`: the kept episodes in order, or the first error. */
  function Episodes(entries: seq<Entry>, channel: PipedChannel, notPremiered: Entry -> bool, rfc2822: int -> string)
    : (r: Errors.Result<seq<Podcast.Episode>>)
    requires ReadableUntilError(entries, channel, notPremiered, rfc2822)
    ensures r.Ok? ==> |r.value| <= |entries|
    decreases |entries|
  {
    if entries == [] then Ok([])
    else
      var first :- EpisodeOf(entries[0], channel, notPremiered, rfc2822);
      var rest :- Episodes(entries[1..], channel, notPremiered, rfc2822);
      Ok((if first.Some? then [first.value] else []) + rest)
  }

  /** The episodes of the entries that are kept, in order (a reference definition). */
  function Kept(results: seq<Option<Podcast.Episode>>): (r: seq<Podcast.Episode>)
  {
    if results == [] then [] else (if results[0].Some? then [results[0].value] else []) + Kept(results[1..])
  }

  predicate AllRead(entries: seq<Entry>, channel: PipedChannel, notPremiered: Entry -> bool, rfc2822: int -> string) {
    forall k :: 0 <= k < |entries| ==>
      Readable(entries[k]) && EpisodeOf(entries[k], channel, notPremiered, rfc2822).Ok?
  }

  /** The per-entry results, once every entry is known to succeed. */
  function Results(entries: seq<Entry>, channel: PipedChannel, notPremiered: Entry -> bool, rfc2822: int -> string)
    : (r: seq<Option<Podcast.Episode>>)
    requires AllRead(entries, channel, notPremiered, rfc2822)
    ensures |r| == |entries|
    ensures forall k :: 0 <= k < |entries| ==> r[k] == EpisodeOf(entries[k], channel, notPremiered, rfc2822).value
  {
    seq(|entries|, k requires 0 <= k < |entries| && AllRead(entries, channel, notPremiered, rfc2822) =>
      EpisodeOf(entries[k], channel, notPremiered, rfc2822).value)
  }

  /** The podcast's episodes succeed exactly when every entry does, and are then the kept ones in feed order. */
  lemma {:induction false} EpisodesOk(entries: seq<Entry>, channel: PipedChannel, notPremiered: Entry -> bool, rfc2822: int -> string)
    requires ReadableUntilError(entries, channel, notPremiered, rfc2822)
    ensures Episodes(entries, channel, notPremiered, rfc2822).Ok? <==> AllRead(entries, channel, notPremiered, rfc2822)
    ensures Episodes(entries, channel, notPremiered, rfc2822).Ok? ==>
      Episodes(entries, channel, notPremiered, rfc2822).value == Kept(Results(entries, channel, notPremiered, rfc2822))
    decreases |entries|
  {
    if entries != [] && EpisodeOf(entries[0], channel, notPremiered, rfc2822).Ok? {
      var tail := entries[1..];
      EpisodesOk(tail, channel, notPremiered, rfc2822);
      if AllRead(entries, channel, notPremiered, rfc2822) {
        assert AllRead(tail, channel, notPremiered, rfc2822) by {
          forall k | 0 <= k < |tail|
            ensures Readable(tail[k]) && EpisodeOf(tail[k], channel, notPremiered, rfc2822).Ok?
          {
            assert tail[k] == entries[k + 1];
          }
        }
        var results := Results(entries, channel, notPremiered, rfc2822);
        assert results[1..] == Results(tail, channel, notPremiered, rfc2822);
      } else {
        var k :| 0 <= k < |entries| && !(Readable(entries[k]) && EpisodeOf(entries[k], channel, notPremiered, rfc2822).Ok?);
        assert k > 0 && entries[k] == tail[k - 1];
      }
    }
  }

  /** Entry `k` is the first entry whose episode fails. */
  predicate FirstFailure(entries: seq<Entry>, channel: PipedChannel, notPremiered: Entry -> bool, rfc2822: int -> string, k: int) {
    && 0 <= k < |entries|
    && (forall j :: 0 <= j < k ==> Readable(entries[j]) && EpisodeOf(entries[j], channel, notPremiered, rfc2822).Ok?)
    && Readable(entries[k]) && EpisodeOf(entries[k], channel, notPremiered, rfc2822).Err?
  }

  lemma {:induction false} EpisodesErr(entries: seq<Entry>, channel: PipedChannel, notPremiered: Entry -> bool, rfc2822: int -> string)
    requires ReadableUntilError(entries, channel, notPremiered, rfc2822)
    requires Episodes(entries, channel, notPremiered, rfc2822).Err?
    ensures exists k ::
      && FirstFailure(entries, channel, notPremiered, rfc2822, k)
      && EpisodeOf(entries[k], channel, notPremiered, rfc2822).error == Episodes(entries, channel, notPremiered, rfc2822).error
    decreases |entries|
  {
    if EpisodeOf(entries[0], channel, notPremiered, rfc2822).Err? {
      assert FirstFailure(entries, channel, notPremiered, rfc2822, 0);
    } else {
      var tail := entries[1..];
      EpisodesErr(tail, channel, notPremiered, rfc2822);
      var k :| FirstFailure(tail, channel, notPremiered, rfc2822, k) &&
        EpisodeOf(tail[k], channel, notPremiered, rfc2822).error == Episodes(tail, channel, notPremiered, rfc2822).error;
      assert entries[k + 1] == tail[k];
      forall j | 0 <= j < k + 1
        ensures Readable(entries[j]) && EpisodeOf(entries[j], channel, notPremiered, rfc2822).Ok?
      {
        if j > 0 {
          assert entries[j] == tail[j - 1];
        }
      }
      assert FirstFailure(entries, channel, notPremiered, rfc2822, k + 1);
    }
  }

  /** The feed's first link, or the empty text. */
  function ChannelUrl(feed: Feed): (url: string)
    ensures feed.links == [] ==> url == ""
    ensures feed.links != [] ==> url == feed.links[0].href
  {
    if feed.links == [] then "" else feed.links[0].href
  }

  /** `make_podcast`. */
  function MakePodcast(feed: Feed, extra: ExtraInfo, channel: PipedChannel, notPremiered: Entry -> bool, rfc2822: int -> string)
    : (r: Errors.Result<Podcast.Podcast>)
    requires ReadableUntilError(feed.entries, channel, notPremiered, rfc2822)
    ensures r.Ok? <==> Episodes(feed.entries, channel, notPremiered, rfc2822).Ok?
    ensures r.Err? ==> r.error == Episodes(feed.entries, channel, notPremiered, rfc2822).error
    ensures r.Ok? ==>
      && r.value.title == feed.title
      && r.value.description == channel.description.GetOr("")
      && r.value.lastBuildDate == rfc2822(feed.updated)
      && r.value.language == feed.lang.GetOr("")
      && r.value.author == Join(Names(feed.authors), ", ")
      && r.value.logoUrl == extra.logoUrl
      && r.value.categories == extra.tags
      && r.value.channelUrl == ChannelUrl(feed)
      && r.value.episodes == Episodes(feed.entries, channel, notPremiered, rfc2822).value
  {
    var episodes :- Episodes(feed.entries, channel, notPremiered, rfc2822);
    Ok(Podcast.Podcast(
      feed.title,
      channel.description.GetOr(""),
      rfc2822(feed.updated),
      feed.lang.GetOr(""),
      Join(Names(feed.authors), ", "),
      extra.logoUrl,
      extra.tags,
      ChannelUrl(feed),
      episodes))
  }

  /** Any failing entry fails the whole podcast, with the first failure's error. */
  lemma MakePodcastFails(feed: Feed, extra: ExtraInfo, channel: PipedChannel, notPremiered: Entry -> bool, rfc2822: int -> string)
    requires ReadableUntilError(feed.entries, channel, notPremiered, rfc2822)
    ensures MakePodcast(feed, extra, channel, notPremiered, rfc2822).Ok? <==> AllRead(feed.entries, channel, notPremiered, rfc2822)
    ensures MakePodcast(feed, extra, channel, notPremiered, rfc2822).Err? ==>
      exists k ::
        && FirstFailure(feed.entries, channel, notPremiered, rfc2822, k)
        && EpisodeOf(feed.entries[k], channel, notPremiered, rfc2822).error == MakePodcast(feed, extra, channel, notPremiered, rfc2822).error
  {
    EpisodesOk(feed.entries, channel, notPremiered, rfc2822);
    if MakePodcast(feed, extra, channel, notPremiered, rfc2822).Err? {
      EpisodesErr(feed.entries, channel, notPremiered, rfc2822);
    }
  }
}
