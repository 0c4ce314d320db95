/**
 * The channel read from a YouTube Atom feed: one episode per entry, built
 * from the entry accessors, with the whole channel failing on the first
 * entry that fails.
 */
module Rss {
  import opened Wrappers
  import opened Text
  import opened Errors
  import opened Atom
  import opened FeedExt
  import Podcast

  datatype RssEpisode = RssEpisode(
    videoId: string,
    title: string,
    description: string,
    thumbnail: Podcast.Thumbnail,
    author: string)

  datatype RssChannel = RssChannel(
    title: string,
    updated: string,
    description: string,
    language: string,
    author: string,
    episodes: seq<RssEpisode>)

  /** `from_entry`: description, thumbnail and video id in that order, the first failure winning. */
  function FromEntry(e: Entry): (r: Errors.Result<RssEpisode>)
    requires Readable(e)
    ensures r.Ok? <==> Description(e).Ok? && Thumbnail(e).Ok? && VideoId(e).Ok?
    ensures Description(e).Err? ==> r == Err(Description(e).error)
    ensures Description(e).Ok? && Thumbnail(e).Err? ==> r == Err(Thumbnail(e).error)
    ensures Description(e).Ok? && Thumbnail(e).Ok? && VideoId(e).Err? ==> r == Err(VideoId(e).error)
    ensures r.Ok? ==>
      && r.value.description == Description(e).value
      && r.value.thumbnail == Thumbnail(e).value
      && r.value.videoId == VideoId(e).value
      && r.value.title == e.title
      && r.value.author == FirstAuthor(e.authors)
  {
    var description :- Description(e);
    var thumbnail :- Thumbnail(e);
    var videoId :- VideoId(e);
    Ok(RssEpisode(videoId, e.title, description, thumbnail, FirstAuthor(e.authors)))
  }

  /** Every entry up to the first failing one can be converted. */
  predicate ConvertibleUntilError(entries: seq<Entry>)
    decreases |entries|
  {
    entries != [] ==>
      Readable(entries[0]) && (FromEntry(entries[0]).Ok? ==> ConvertibleUntilError(entries[1..]))
  }

  /** `collect::<Result<Vec<_>>>()`: all episodes, or the first error. */
  function Collect(entries: seq<Entry>): (r: Errors.Result<seq<RssEpisode>>)
    requires ConvertibleUntilError(entries)
    decreases |entries|
  {
    if entries == [] then Ok([])
    else
      var first :- FromEntry(entries[0]);
      var rest :- Collect(entries[1..]);
      Ok([first] + rest)
  }

  predicate AllConvert(entries: seq<Entry>) {
    forall k :: 0 <= k < |entries| ==> Readable(entries[k]) && FromEntry(entries[k]).Ok?
  }

  lemma CollectOk(entries: seq<Entry>)
    requires ConvertibleUntilError(entries)
    ensures Collect(entries).Ok? <==> AllConvert(entries)
    ensures Collect(entries).Ok? ==>
      |Collect(entries).value| == |entries| &&
      forall k :: 0 <= k < |entries| ==> Collect(entries).value[k] == FromEntry(entries[k]).value
  {
    if AllConvert(entries) {
      CollectAll(entries);
    } else if Collect(entries).Ok? {
      CollectOnlyIfAll(entries);
    }
  }

  /** When every entry converts, the episodes are the converted entries. */
  lemma {:induction false} CollectAll(entries: seq<Entry>)
    requires ConvertibleUntilError(entries) && AllConvert(entries)
    ensures Collect(entries).Ok? && |Collect(entries).value| == |entries|
    ensures forall k :: 0 <= k < |entries| ==> Collect(entries).value[k] == FromEntry(entries[k]).value
    decreases |entries|
  {
    if entries != [] {
      var tail := entries[1..];
      assert AllConvert(tail) by {
        forall k | 0 <= k < |tail|
          ensures Readable(tail[k]) && FromEntry(tail[k]).Ok?
        {
          assert tail[k] == entries[k + 1];
        }
      }
      CollectAll(tail);
      var r := Collect(entries).value;
      forall k | 0 <= k < |entries|
        ensures r[k] == FromEntry(entries[k]).value
      {
        if k > 0 {
          assert entries[k] == tail[k - 1];
        }
      }
    }
  }

  /** A successful collection means every entry converted. */
  lemma {:induction false} CollectOnlyIfAll(entries: seq<Entry>)
    requires ConvertibleUntilError(entries) && Collect(entries).Ok?
    ensures AllConvert(entries)
    decreases |entries|
  {
    if entries != [] {
      var tail := entries[1..];
      CollectOnlyIfAll(tail);
      forall k | 0 <= k < |entries|
        ensures Readable(entries[k]) && FromEntry(entries[k]).Ok?
      {
        if k > 0 {
          assert entries[k] == tail[k - 1];
        }
      }
    }
  }

  /** Entry `k` is the first entry that fails to convert. */
  predicate FirstFailure(entries: seq<Entry>, k: int) {
    && 0 <= k < |entries|
    && (forall j :: 0 <= j < k ==> Readable(entries[j]) && FromEntry(entries[j]).Ok?)
    && Readable(entries[k]) && FromEntry(entries[k]).Err?
  }

  /** A failure is the error of the first entry that fails. */
  lemma {:induction false} CollectErr(entries: seq<Entry>)
    requires ConvertibleUntilError(entries)
    requires Collect(entries).Err?
    ensures exists k :: FirstFailure(entries, k) && FromEntry(entries[k]).error == Collect(entries).error
    decreases |entries|
  {
    if FromEntry(entries[0]).Err? {
      assert FirstFailure(entries, 0);
    } else {
      var tail := entries[1..];
      CollectErr(tail);
      var k :| FirstFailure(tail, k) && FromEntry(tail[k]).error == Collect(tail).error;
      assert entries[k + 1] == tail[k];
      forall j | 0 <= j < k + 1
        ensures Readable(entries[j]) && FromEntry(entries[j]).Ok?
      {
        if j > 0 {
          assert entries[j] == tail[j - 1];
        }
      }
      assert FirstFailure(entries, k + 1);
    }
  }

  /** `from_feed`; `rfc2822` formats the feed's update time. */
  function FromFeed(feed: Feed, rfc2822: int -> string): (r: Errors.Result<RssChannel>)
    requires ConvertibleUntilError(feed.entries)
    ensures r.Ok? <==> Collect(feed.entries).Ok?
    ensures r.Err? ==> r.error == Collect(feed.entries).error
    ensures r.Ok? ==>
      && r.value.title == feed.title
      && r.value.updated == rfc2822(feed.updated)
      && r.value.description == feed.subtitle.GetOr("")
      && r.value.language == feed.lang.GetOr("")
      && r.value.author == Join(Names(feed.authors), ", ")
      && r.value.episodes == Collect(feed.entries).value
  {
    var episodes :- Collect(feed.entries);
    Ok(RssChannel(
      feed.title,
      rfc2822(feed.updated),
      feed.subtitle.GetOr(""),
      feed.lang.GetOr(""),
      Join(Names(feed.authors), ", "),
      episodes))
  }

  /** The channel has one episode per entry, in entry order, exactly when every entry converts. */
  lemma FromFeedEpisodes(feed: Feed, rfc2822: int -> string)
    requires ConvertibleUntilError(feed.entries)
    ensures FromFeed(feed, rfc2822).Ok? <==> AllConvert(feed.entries)
    ensures FromFeed(feed, rfc2822).Ok? ==>
      var episodes := FromFeed(feed, rfc2822).value.episodes;
      |episodes| == |feed.entries| &&
      forall k :: 0 <= k < |episodes| ==>
        episodes[k] == FromEntry(feed.entries[k]).value && episodes[k].title == feed.entries[k].title
  {
    CollectOk(feed.entries);
  }

  /** A failed channel carries the error of its first failing entry. */
  lemma FromFeedFirstError(feed: Feed, rfc2822: int -> string)
    requires ConvertibleUntilError(feed.entries)
    requires FromFeed(feed, rfc2822).Err?
    ensures exists k ::
      FirstFailure(feed.entries, k) && FromEntry(feed.entries[k]).error == FromFeed(feed, rfc2822).error
  {
    CollectErr(feed.entries);
  }
}
