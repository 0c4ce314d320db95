# youtube-audio-feed, modelled in Dafny

youtube-audio-feed is a gateway that turns a YouTube channel into a podcast.
It answers `/channel/<id>` with an RSS feed whose items point back at the
gateway's own `/audio/<video id>` endpoint. That endpoint hands out the
audio of the video, as extracted with yt-dlp. This project models the core
of the gateway and proves properties of the model:

- **Byte-range filter** (`ByteStreams`). It skips a number of bytes and caps
  the bytes at a limit, over a stream of chunks and errors. It is a class
  whose `PollNext` is the Rust `poll_next`. Draining it is proved equal to
  one reference function, `Filtered`, and the lemmas about `Filtered` prove
  that:
  - the bytes that come out are the input's bytes from the skip offset on,
    cut at the limit;
  - no chunk that comes out is empty;
  - errors pass through;
  - the filter meets the unit-test table.
- **Ordered race** (`Util`). It returns the first success in input order,
  or the last error. The concurrency of the yt-dlp permit comes from the
  environment.
- **Audio store** (`AudioStore`, `FileSystem`). A bounded table of
  downloaded audio files (at most 30 entries) over a modelled disk.
  - An `AudioFile` is downloaded at most once.
  - An entry that leaves the table, removed or evicted, is dropped, and
    dropping it deletes its files when the final file exists.
  - The file paths are those of Rust's `join` and `with_extension` on Unix,
    for every id.
- **Extractors** (`Ytdlp`, `YtdlpProxy`, `YtdlpStream`, `YtdlpFile`):
  - the choice of audio format by yt-dlp's output;
  - the order in which the yt-dlp permit is taken and released;
  - the merged stdout and stderr stream, in which stderr only signals
    errors;
  - the download → wait → serve flow of the file extractor, with its error
    handling and its cleanup of store entries.
- **Feed building** (`Podcast`, `Rss`, `FeedExt`, `HarvestYtdlp`,
  `HarvestRssPiped`):
  - the Atom entry accessors and their exact error texts;
  - the all-or-first-error collection of entries;
  - the conversion of podcasts and episodes to RSS, including the
    `HH:MM:SS` duration, which is proved to read back as the seconds;
  - the two harvesters: the squarest logo, the widest episode thumbnail,
    the registry of first-seen dates, the rewriting of the logo's size
    parameter, and which entries are skipped.
- **Channel lookup** (`Feed`). The classification of a user's channel url
  into id, name or handle, and the feed url it leads to.
- **Piped instances** (`Piped`):
  - the API urls of an instance;
  - the flag-emoji to country-letter conversion;
  - the parsing of the instance table of the wiki page;
  - the stable sort by latency, done in place on an array and proved to
    be a sorted permutation that keeps equal-latency instances in order.

Helper modules: `Wrappers` (Option/Result), `Text` (the Rust string
operations used: `trim`, `split`, `lines`, `strip_prefix`, `contains`,
decimal parsing and printing), `Utf8` (`from_utf8` and `from_utf8_lossy`),
`Iter` (`filter`, `max_by_key`, `min_by_key`), `Errors`, `Atom` (the parts
of an Atom feed that are read), `Extractor` and `AppConfig` (the constants
of `main.rs`).

Inputs the program gets from outside become parameters of the model:
- the clock;
- the answers of yt-dlp runs;
- JSON deserialisation and url parsing;
- the HTML lookups;
- the premiere test;
- date formatting.

## Model

| member | source | states |
|---|---|---|
| ByteStreams.Filtered | src/util/byte_stream.rs:48-84 | the reference output of the filter over a whole stream; its meaning is `BytesAreWindow` and the lemmas below |
| ByteStreams.ByteStream.constructor | src/util/byte_stream.rs:19-25 | a new filter wraps the stream with skip 0 and no limit |
| ByteStreams.ByteStream.SkipBytes | src/util/byte_stream.rs:27-32 | sets the skip and keeps the stream and limit |
| ByteStreams.ByteStream.LimitBytes | src/util/byte_stream.rs:34-39 | sets the limit to `Some(n)` and keeps the stream and skip |
| ByteStreams.ByteStream.PollNext | src/util/byte_stream.rs:48-84 | one poll, case by case: an error passes through with both counters unchanged; a chunk within the remaining skip is swallowed (Pending) and lowers the skip; a longer chunk loses its first `skip` bytes, then ends the stream at limit 0, is cut to the limit and leaves limit 0, or lowers the limit by its length; an exhausted input is `Ready(None)`; every chunk returned is non-empty |
| ByteStreams.ByteStream.Collect | src/util/byte_stream.rs:48-84 | polling to the end yields exactly `Filtered` of the initial stream, skip and limit |
| ByteStreams.Apply | src/util/byte_stream.rs:127-131 | `new`, `skip_bytes`, then `limit_bytes` when a limit is given, drained, equals `Filtered` |
| ByteStreams.Window | src/util/byte_stream.rs:62-75 | the byte window never exceeds the limit |
| ByteStreams.PassThrough | src/util/byte_stream.rs:55-66 | with skip 0 and no limit the output is the input without its empty chunks |
| ByteStreams.PassThroughExact | src/util/byte_stream.rs:55-66 | with no empty chunk in the input, skip 0 and no limit return the input unchanged |
| ByteStreams.NoEmptyChunks | src/util/byte_stream.rs:56-59 | removing empty chunks from a stream without any changes nothing |
| ByteStreams.BytesAreWindow | src/util/byte_stream.rs:48-84 | the bytes that come out are the input's bytes from offset `skip` on, cut to `limit` bytes, for every stream including error items |
| ByteStreams.LongChunkWindow | src/util/byte_stream.rs:62-78 | the window property when the first chunk outlasts the skip |
| ByteStreams.ConcatenationIsWindow | src/util/byte_stream.rs:94-112 | for a stream of chunks only, every output item is a chunk and their concatenation is the window of the input's concatenation |
| ByteStreams.AtMostLimit | src/util/byte_stream.rs:65-77 | never more bytes than the limit come out |
| ByteStreams.ChunksNonEmpty | src/util/byte_stream.rs:55-79 | every chunk that comes out holds at least one byte |
| ByteStreams.ErrorsOnlyFromInput | src/util/byte_stream.rs:80 | the output's errors are a subsequence of the input's; all of them with no limit; none when the input has none |
| ByteStreams.SkipPastEnd | src/util/byte_stream.rs:56-59 | a skip at or past the end of the bytes yields no chunk |
| ByteStreams.ZeroLimit | src/util/byte_stream.rs:67 | a limit of zero yields no chunk |
| ByteStreams.EmptyInput | src/util/byte_stream.rs:109-112 | the empty stream yields nothing whatever skip and limit |
| ByteStreams.OkBytesHasChunk | src/util/byte_stream.rs:56 | each chunk's bytes are part of the stream's bytes |
| ByteStreamExamples.UnitTestTable | src/util/byte_stream.rs:94-112 | every row of the unit-test table holds for `Filtered` |
| Util.RaceOrderedFirstOk | src/util.rs:44-62 | the loop over results in input order returns the first `Ok` or else the last `Err` (the reference function) |
| Util.FirstOkOrLastErr | src/util.rs:44-62 | the reference result: the first `Ok`, or the last `Err` when none succeeds; stated by `FirstOkWins`, `AllFailLastErr`, `OkIffSomeOk` and `LaterIgnored` |
| Util.FirstOkWins | src/util.rs:52-54 | when some result is `Ok`, the earliest `Ok` in input order is returned |
| Util.AllFailLastErr | src/util.rs:55-61 | when all fail, the error of the last one is returned |
| Util.OkIffSomeOk | src/util.rs:44-62 | the race succeeds exactly when some future succeeds |
| Util.LaterIgnored | src/util.rs:52-54 | results after the first success do not matter |
| Util.RaceExample | src/util.rs:74-87 | the race's own test: `[Err(1), Ok(2), Ok(3)]` gives `Ok(2)` |
| Util.YtdlpConcurrency | src/util.rs:15-21 | `YTDLP_CONCURRENCY` parsed as a `usize`, and 1 when it is unset or does not parse |
| Util.ConcurrencyRoundTrip | src/util.rs:16-19 | any `usize` written in decimal is taken as the concurrency |
| AppConfig.AudioUrl | src/harvestor/ytdlp.rs:125-128 | an episode's audio url is the public base url, `/audio/`, and the video id |
| AppConfig.AudioUrlInjective | src/harvestor/rss_piped.rs:105-108 | distinct videos get distinct audio urls |
| Errors.StatusOf | src/error.rs:38-48 | the upstream status or 400 for `RequestUpstream`, 502 for the feed/HTML/URL/HTTP errors, 400 for `UnsupportedURL`, 500 for the rest |
| Errors.StatusClasses | src/error.rs:38-48 | apart from an upstream-reported status only 400, 500 and 502 occur, each exactly for its class of errors |
| Errors.Message | src/error.rs:8-30 | the display text of each error, from its `#[error]` format |
| Errors.IntoResponse | src/error.rs:33-51 | the response carries the error's status and its display text |
| FileSystem.Disk.constructor | src/audio_store.rs:86-88 | a disk with the given files |
| FileSystem.Disk.Create | src/extractor/ytdlp_file.rs:68-79 | a file written by an outside process is added |
| FileSystem.Disk.Remove | src/audio_store.rs:36-38 | `remove_file` succeeds exactly when the file exists, fails with a not-found IO error otherwise, and the file is gone afterwards |
| FileSystem.Disk.Rename | src/extractor/ytdlp_file.rs:82 | `rename` moves the source over the target when the source exists, and changes nothing and fails otherwise |
| AudioStore.LastIndexOf | src/audio_store.rs:118-119 | the position of the last dot, or none exactly when there is no dot |
| AudioStore.FileStem | src/audio_store.rs:118-119 | the stem `with_extension` keeps: the name up to its last dot, the whole name when it has no dot |
| AudioStore.SegmentStart | src/audio_store.rs:118-119 | the start of the path segment that ends at a position: no `/` inside it, and a `/` or the path's start before it |
| AudioStore.LastComponent | src/audio_store.rs:118-119 | the last component of the path seen from the back, skipping empty and `.` segments; never `.` |
| AudioStore.FileNameSpan | src/audio_store.rs:118-119 | the span of `file_name` within the path, absent for `..` or when no component is left |
| AudioStore.JoinedName | src/audio_store.rs:118-119 | a name without `/` is joined after the directory and its separator, and is the last segment of the joined path |
| AudioStore.SegmentStartAt | src/audio_store.rs:118-119 | a segment free of `/` that follows a `/` or the start is found as the segment |
| AudioStore.PlainPaths | src/audio_store.rs:117-119 | for a plain file name as id each path is the directory, the id's stem and the suffix |
| AudioStore.DotlessPaths | src/audio_store.rs:117-119 | for a plain id without a dot the paths are `<dir>/<id>.m4a` and `<dir>/<id>.temp.m4a` |
| AudioStore.ExtensionReplaced | src/audio_store.rs:117-119 | a plain id's existing extension is replaced, not extended |
| AudioStore.LastDot | src/audio_store.rs:118 | the dot before an extension is the last dot |
| AudioStore.PathsDiffer | src/audio_store.rs:117-123 | whenever the joined path has a file name, the final and the temporary path differ |
| AudioStore.ParentIdSharesPath | src/audio_store.rs:117-119 | for the id `..` there is no file name, so both paths are the joined path `<dir>/..` unchanged |
| AudioStore.FilePathInjective | src/audio_store.rs:117-118 | distinct plain ids without a dot are stored at distinct paths |
| AudioStore.AudioFile.constructor | src/audio_store.rs:117-127 | a new file, for any id, has its id, the two paths `join` and `with_extension` give, state `New` and the creation time |
| AudioStore.AudioFile.Open | src/audio_store.rs:129-131 | opening succeeds exactly when the final file exists, otherwise an IO error |
| AudioStore.AudioFile.GetOrDownload | src/audio_store.rs:133-153 | a `Ready` file is opened without downloading; a `New` one calls the download once; a failed download is passed on and the file stays `New`; a missing file after the download is `AudioStream(id)`; otherwise the file becomes `Ready` and is opened |
| AudioStore.AudioFile.Drop | src/audio_store.rs:29-44 | when the final file exists both it and the temporary file are deleted; otherwise nothing is deleted |
| AudioStore.MapRemoveOne | src/audio_store.rs:72-74 | removing a present key shrinks the table by one |
| AudioStore.MapAddOne | src/audio_store.rs:67 | inserting a new key grows the table by one |
| AudioStore.EvictionKeepsOthers | src/audio_store.rs:67 | evicting one entry and inserting another keeps every other entry |
| AudioStore.Store.constructor | src/audio_store.rs:78-94 | an empty table over the directory, with every file under the directory deleted |
| AudioStore.Store.GetOrAllocate | src/audio_store.rs:57-69 | an id already present returns its file with the table and disk unchanged; a new id gets a fresh `New` file that is inserted, after evicting one other entry when 30 entries are stored, and the evicted entry is dropped from the disk; the table stays within 30 entries and no other entry changes |
| AudioStore.Store.Admit | src/audio_store.rs:65-67 | inserting a new file, after evicting one entry when the table is full, keeps the table bounded; the evicted entry's files are deleted as its drop does, and without an eviction the disk is unchanged |
| AudioStore.Store.Remove | src/audio_store.rs:72-74 | the entry for the id is forgotten and the rest kept; a removed entry is dropped, deleting its files when its final file exists; removing an absent id changes no file |
| AudioStore.DroppedLeavesNoFinalFile | src/audio_store.rs:29-44 | dropping an entry deletes only its two files, leaves no final file, and keeps its temporary file exactly when there was no final file |
| Extractor.WatchUrl | src/extractor/ytdlp_file.rs:65 | the watch url is the watch prefix followed by the video id |
| Extractor.WatchUrlInjective | src/extractor/ytdlp.rs:39 | distinct videos have distinct watch urls |
| Extractor.ErrorMarkerIsText | src/extractor/ytdlp_file.rs:95 | the marker bytes are the ASCII text `ERROR:` |
| Utf8.MarkerSurvivesDecoding | src/extractor/ytdlp_file.rs:93-100 | the lossy decoding of bytes contains an ASCII marker exactly when the bytes do |
| Utf8.DecodeEncode | src/extractor/ytdlp.rs:41-42 | strict decoding of the encoding of a text gives the text back |
| YtdlpFile.WaitFailsAfterDeadline | src/extractor/ytdlp_file.rs:47-60 | a wait that fails saw the file not ready at a look taken after the 10 s deadline |
| YtdlpFile.WaitForFile | src/extractor/ytdlp_file.rs:47-60 | success exactly when the file was ready at a look; every earlier look saw it not ready within the deadline; failure only after a look past the deadline; a ready file returns at once |
| YtdlpFile.DetectError | src/extractor/ytdlp_file.rs:93-100 | `detect_error`: an `AudioStream` error with the lossily decoded text when it contains `ERROR:`; its meaning on bytes is `DetectErrorOnBytes` |
| YtdlpFile.DetectErrorOnBytes | src/extractor/ytdlp_file.rs:93-100 | stderr is an error exactly when its bytes contain `ERROR:`, and the error carries the lossily decoded text |
| YtdlpFile.DownloadEffect | src/extractor/ytdlp_file.rs:62-85 | `download_file` on a set of files: spawn or wait errors change nothing; the run may add the temporary file; the stderr check, then the rename; its meaning is `DownloadOutcome` |
| YtdlpFile.DownloadOutcome | src/extractor/ytdlp_file.rs:62-85 | the download succeeds exactly when the run finished without the error marker and left the temporary file; then the final file exists in place of it; the final file exists afterwards exactly on success |
| YtdlpFile.DownloadFile | src/extractor/ytdlp_file.rs:62-85 | the result and the disk afterwards are those of the run, the stderr check and the rename |
| YtdlpFile.ServeFile | src/extractor/ytdlp_file.rs:87-91 | succeeds exactly when the final file exists, with that file and mime type `audio/mp4` |
| YtdlpFile.Extract | src/extractor/ytdlp_file.rs:25-44 | a known id downloads nothing; a new id is downloaded once, after the eviction its allocation caused; a failed download removes the entry, drops its files and returns the error; a wait that fails removes the entry, drops its files and gives `AudioStream("file not found")`; otherwise the file is served and the disk is the download's; no other entry changes |
| YtdlpFile.DownloadCleanup | src/extractor/ytdlp_file.rs:31-41 | a successful download followed by a failed wait leaves the disk as it was; a failed download leaves no final file and keeps a temporary file yt-dlp wrote |
| Ytdlp.EligibleFormats | src/extractor/ytdlp.rs:47-53 | exactly the single-fragment, audio-only m4a formats |
| Ytdlp.SelectFormat | src/extractor/ytdlp.rs:47-55 | a selected format is eligible and from the output |
| Ytdlp.SelectFormatSpec | src/extractor/ytdlp.rs:47-55 | nothing is selected exactly when no format is eligible; the selected one has the highest truncated quality and is the last such |
| Ytdlp.ExtractErrors | src/extractor/ytdlp.rs:39-55 | a failed run passes its error on; non-UTF-8 output, unparsable output and no eligible format give `Extraction` |
| Ytdlp.ExtractSelects | src/extractor/ytdlp.rs:47-60 | a success is the fragment url and headers of an eligible format of the highest quality |
| Ytdlp.Extract | src/extractor/ytdlp.rs:15-61 | the run on the watch url, the strict UTF-8 decoding, the parse, then the selection; its outcomes are `ExtractErrors` and `ExtractSelects` |
| YtdlpProxy.EligibleFormats | src/extractor/ytdlp_proxy.rs:45-50 | exactly the audio-only m4a formats |
| YtdlpProxy.SelectFormat | src/extractor/ytdlp_proxy.rs:45-52 | none exactly when no format is eligible, else an eligible format of the highest truncated quality |
| YtdlpProxy.SelectLastOnTies | src/extractor/ytdlp_proxy.rs:51 | ties in quality go to the last eligible format |
| YtdlpProxy.Extract | src/extractor/ytdlp_proxy.rs:36-43 | the permit is acquired, yt-dlp runs on the watch url, the permit is released, and only then is the output parsed |
| YtdlpProxy.ExtractSpec | src/extractor/ytdlp_proxy.rs:36-57 | a failed run passes its error on; bad UTF-8, unparsable output or no eligible format give `Extraction`; otherwise the proxy of a highest-quality eligible format with its own url and headers |
| YtdlpStream.DetectError | src/extractor/ytdlp_stream.rs:51-58 | a stderr chunk becomes an `AudioStream` error when it contains `ERROR:`, else an empty chunk; stated by `DetectErrorSpec` |
| YtdlpStream.DetectErrorSpec | src/extractor/ytdlp_stream.rs:51-58 | a stderr chunk fails exactly when it contains `ERROR:`, with the lossily decoded text; otherwise it contributes no bytes |
| YtdlpStream.Merge | src/extractor/ytdlp_stream.rs:36-41 | each merged item is its stdout item, or its stderr item passed through the error check |
| YtdlpStream.StreamBytesAreStdout | src/extractor/ytdlp_stream.rs:36-41 | the audio bytes of the combined stream are exactly the bytes read from stdout, however the two pipes interleave |
| YtdlpStream.ErrorsExplained | src/extractor/ytdlp_stream.rs:36-41 | an error on the combined stream is a read error or a stderr chunk holding `ERROR:` |
| YtdlpStream.Extract | src/extractor/ytdlp_stream.rs:17-48 | succeeds exactly when the child starts on the watch url, with mime `audio/mp4` and the merged stream; a spawn error is passed on |
| Podcast.SecondsToDuration | src/podcast.rs:116-126 | `seconds_to_duration`: `MM:SS` below an hour, `HH:MM:SS` from an hour, fields zero-padded; `DurationRoundTrip` proves it reads back |
| Podcast.DurationFields | src/podcast.rs:116-119 | hours, minutes and seconds recombine to the seconds, minutes and seconds below 60 |
| Podcast.Pad2Parses | src/podcast.rs:122-124 | a `{:02}` field reads back as its number |
| Podcast.DigitsHaveNoColon | src/podcast.rs:122-124 | a written field holds no separator |
| Podcast.ParseTwo | src/podcast.rs:124 | `MM:SS` reads back as `60*MM + SS` |
| Podcast.SplitTwo | src/podcast.rs:124 | two colon-free fields split back apart |
| Podcast.ParseFieldsTwo | src/podcast.rs:124 | two numeric fields read as minutes and seconds |
| Podcast.SplitThree | src/podcast.rs:122 | three colon-free fields split back apart |
| Podcast.ParseFieldsThree | src/podcast.rs:122 | three numeric fields read as hours, minutes and seconds |
| Podcast.ParseThree | src/podcast.rs:122 | `HH:MM:SS` reads back as `3600*HH + 60*MM + SS` |
| Podcast.DurationRoundTrip | src/podcast.rs:116-126 | reading a written duration gives back the seconds; there are three fields exactly from one hour on |
| Podcast.DescriptionHtml | src/podcast.rs:72-83 | the item description: thumbnail, description and link pieces concatenated; stated by `DescriptionEmbeds` |
| Podcast.DescriptionEmbeds | src/podcast.rs:72-83 | the item description holds the thumbnail url, width and height, the description, and the link twice |
| Podcast.ItemOf | src/podcast.rs:69-114 | title, link, date, permalink guid, description html, iTunes summary/author/image, enclosure with mime `audio/mpeg`, and an iTunes duration present exactly for a positive duration |
| Podcast.ItemDuration | src/podcast.rs:95-97 | an item's iTunes duration is absent only for 0 seconds and otherwise reads back as the episode's duration |
| Podcast.ToChannel | src/podcast.rs:16-47 | the channel fields, language omitted exactly when empty, the generator, iTunes author/image/categories in order, and one item per episode in order |
| Feed.WordRun | src/feed.rs:116-121 | the longest run of `[a-zA-Z0-9_]` at the start |
| Feed.CapturePrefixed | src/feed.rs:116-119 | `^prefix([a-zA-Z0-9_]+)` matches exactly when a word character follows the prefix, capturing the greedy run |
| Feed.CaptureHandle | src/feed.rs:120-121 | `^@([a-zA-Z0-9_]+)$` matches exactly when the whole path is `@` and a word |
| Feed.ExtractChannelRef | src/feed.rs:115-148 | a url parse error is passed on; a host other than `www.`/`m.youtube.com` is `UnsupportedURL(.., "not youtube domain")`; an unmatched path is `UnsupportedURL(.., "invalid youtube url")` |
| Feed.ClassifyPath | src/feed.rs:130-147 | the path as an id, a name or a handle, tried in that order, or none; stated by `ClassifyPathSpec` |
| Feed.ClassifyPathSpec | src/feed.rs:130-147 | the id pattern is tried first, then name, then handle, each with its capture |
| Feed.HandleIsExact | src/feed.rs:142-145 | a handle path is recognised, and trailing text after the handle rejects it |
| Feed.IdIgnoresTrailing | src/feed.rs:132-135 | the id pattern ignores further path segments |
| Feed.ExtractChannelRefSpec | src/feed.rs:125-147 | on an accepted host the result is the path's classification or the invalid-url error |
| Feed.ChannelPageUrl | src/feed.rs:68-76 | exactly a name or a handle needs its channel page fetched; an id needs none |
| Feed.FindChannelId | src/feed.rs:67-105 | `find_youtube_channel_id` with the canonical-link lookup as a parameter; stated by `FindChannelIdSpec` |
| Feed.FindChannelIdSpec | src/feed.rs:67-105 | an id is returned as is; otherwise lookup errors pass on, a missing canonical link is `InvalidHTML`, and the href must start with the channel prefix, whose remainder is the id |
| Feed.PodcastUrlOfChannelPath | src/feed.rs:56-65 | a `/channel/<id>` url on a YouTube host leads straight to the feed url of that id |
| Feed.ChannelPodcastUrl | src/feed.rs:56-65 | `channel_podcast_url`: the channel reference, its id, then the gateway's feed url; stated by `PodcastUrlOfChannelPath` |
| Atom.Names | src/rss.rs:53 | the authors' names, in order |
| Atom.FirstAuthor | src/rss.rs:30-34 | the first author's name, or empty |
| FeedExt.Invalid | src/util/feed_ext.rs:11-14 | an `InvalidFeedEntry` error names the entry and the reason |
| FeedExt.MediaGroup | src/util/feed_ext.rs:15-18 | the first `media:group` |
| FeedExt.MediaGroupChildren | src/util/feed_ext.rs:6-27 | the named children of the first media group, or the error for a missing media extension, group or name |
| FeedExt.MediaGroupChild | src/util/feed_ext.rs:29-37 | the first of those children; an empty list is `no media group children` |
| FeedExt.Description | src/util/feed_ext.rs:39-49 | the first description child's text, or `invalid description attribute` when it has none |
| FeedExt.Dimension | src/util/feed_ext.rs:55-56 | a `u32` parsed from the text, 0 when it does not parse |
| FeedExt.Thumbnail | src/util/feed_ext.rs:51-60 | the first thumbnail child's url and parsed width and height |
| FeedExt.EntryLink | src/util/feed_ext.rs:62-70 | the first link's href, or `no link found` |
| FeedExt.VideoId | src/util/feed_ext.rs:72-94 | the first `yt:videoId` text, or the error for a missing extension, element or value |
| FeedExt.WithMediaGroup | src/util/feed_ext.rs:6-27 | builds an entry whose first media group is the given one |
| FeedExt.DescriptionIsFirstChild | src/util/feed_ext.rs:39-49 | the description is the text of the first `media:description` |
| FeedExt.LaterDescriptionsIgnored | src/util/feed_ext.rs:29-37 | later description children never matter |
| FeedExt.VideoIdIsFirst | src/util/feed_ext.rs:83-93 | the first `yt:videoId` decides the id |
| FeedExt.ErrorsNameTheEntry | src/util/feed_ext.rs:6-94 | every accessor failure is an `InvalidFeedEntry` naming the entry |
| FeedExt.DimensionOfDecimal | src/util/feed_ext.rs:55-56 | a `u32` written in decimal parses back |
| Rss.FromEntry | src/rss.rs:26-44 | description, thumbnail and video id are read in that order and the first failure wins; on success the episode holds them, the first author and the title |
| Rss.Collect | src/rss.rs:55-59 | the entries converted in order, stopping at the first error; stated by `CollectOk`, `CollectAll`, `CollectOnlyIfAll` and `CollectErr` |
| Rss.CollectOk | src/rss.rs:55-59 | collecting succeeds exactly when every entry converts |
| Rss.CollectAll | src/rss.rs:55-59 | then the episodes are the converted entries, in order |
| Rss.CollectOnlyIfAll | src/rss.rs:55-59 | a successful collection means every entry converted |
| Rss.CollectErr | src/rss.rs:55-59 | a failure is the error of the first entry that fails |
| Rss.FromFeed | src/rss.rs:48-69 | title, formatted update time, subtitle or empty, language or empty, comma-joined authors, and the collected episodes, or the collection's error |
| Rss.FromFeedEpisodes | src/rss.rs:48-69 | the channel has one episode per entry in order exactly when every entry converts |
| Rss.FromFeedFirstError | src/rss.rs:55-59 | a failed channel carries its first failing entry's error |
| HarvestYtdlp.SquarenessKeyOrder | src/harvestor/ytdlp.rs:40 | the packed key orders exactly like the tuple `(abs(w - h), -w)` |
| HarvestYtdlp.SquarestThumbnail | src/harvestor/ytdlp.rs:34-42 | none exactly when no thumbnail has positive sides; else such a thumbnail |
| HarvestYtdlp.SquarestSpec | src/harvestor/ytdlp.rs:34-42 | no candidate is squarer than the chosen one, and it is the first of the best in order |
| HarvestYtdlp.WidestThumbnail | src/harvestor/ytdlp.rs:118-123 | the default for no thumbnails, else a thumbnail of maximal width |
| HarvestYtdlp.WidestIsLast | src/harvestor/ytdlp.rs:121 | ties in width go to the last thumbnail |
| HarvestYtdlp.AsU32 | src/harvestor/ytdlp.rs:149-150 | the `i32 as u32` cast is the value modulo 2^32 |
| HarvestYtdlp.ToPodcastThumbnail | src/harvestor/ytdlp.rs:145-153 | the url is kept and non-negative sizes are unchanged |
| HarvestYtdlp.DateOf | src/harvestor/ytdlp.rs:167-175 | a known id's stored date, else the current time |
| HarvestYtdlp.RememberSpec | src/harvestor/ytdlp.rs:166-176 | after lookups the registry knows the old ids and the looked-up ones, each with its first date |
| HarvestYtdlp.RememberStep | src/harvestor/ytdlp.rs:166-176 | lookups compose one at a time |
| HarvestYtdlp.Registry.constructor | src/harvestor/ytdlp.rs:158-164 | the registry starts empty |
| HarvestYtdlp.Registry.Get | src/harvestor/ytdlp.rs:166-176 | returns the stored date or the current time, which is then stored |
| HarvestYtdlp.SecondGetAgrees | src/harvestor/ytdlp.rs:182-187 | a second lookup returns the first date, whatever the clock then reads |
| HarvestYtdlp.Present | src/harvestor/ytdlp.rs:48 | exactly the present entries |
| HarvestYtdlp.Ids | src/harvestor/ytdlp.rs:49 | the entries' ids, in order |
| HarvestYtdlp.MaxDate | src/harvestor/ytdlp.rs:50 | none exactly for no dates, else the latest |
| HarvestYtdlp.Dates | src/harvestor/ytdlp.rs:49 | each id's registry date |
| HarvestYtdlp.LastEpisodeDate | src/harvestor/ytdlp.rs:44-53 | the formatted latest registry date of the present entries, or of the epoch when there is none; every present id is registered |
| HarvestYtdlp.DatesStep | src/harvestor/ytdlp.rs:49-50 | the running maximum extends one date at a time |
| HarvestYtdlp.EpisodeOf | src/harvestor/ytdlp.rs:116-143 | the reference episode of an entry with a given date; stated by `EpisodesFollowEntries` |
| HarvestYtdlp.PodcastOf | src/harvestor/ytdlp.rs:96-114 | the reference podcast of a channel over a registry; stated by `ChannelFields` and `BuildDateIsLatestEpisode` |
| HarvestYtdlp.EntryToEpisode | src/harvestor/ytdlp.rs:116-143 | the episode of the entry with its registry date; the id is registered |
| HarvestYtdlp.LogoUrl | src/harvestor/ytdlp.rs:98 | the squarest thumbnail's url, or empty |
| HarvestYtdlp.EpisodesOf | src/harvestor/ytdlp.rs:100 | one episode per entry, in order |
| HarvestYtdlp.FromChannel | src/harvestor/ytdlp.rs:96-114 | the podcast of the channel, with the build date taken before the episodes; all present ids registered |
| HarvestYtdlp.EntriesToEpisodes | src/harvestor/ytdlp.rs:100 | once every id is registered, each episode gets its stored date and the registry is unchanged |
| HarvestYtdlp.KnownAfterRemember | src/harvestor/ytdlp.rs:99-100 | registering the entries changes none of their dates |
| HarvestYtdlp.EpisodesFollowEntries | src/harvestor/ytdlp.rs:100 | one episode per present entry, in order, each with the entry's id as guid and the gateway's audio url |
| HarvestYtdlp.ChannelFields | src/harvestor/ytdlp.rs:102-112 | title, description or empty, language `en`, the uploader as author, the tags as categories, the channel url, and an empty logo when no thumbnail has positive sides |
| HarvestYtdlp.BuildDateIsLatestEpisode | src/harvestor/ytdlp.rs:99 | the build date is the latest publication date among the episodes, or the epoch |
| HarvestRssPiped.GetStream | src/harvestor/rss_piped.rs:255-260 | the first related stream with the id, none exactly when no stream has it |
| HarvestRssPiped.FirstWithId | src/harvestor/rss_piped.rs:256-259 | the search from a position past which no match lies |
| HarvestRssPiped.StripWatchPrefixes | src/harvestor/rss_piped.rs:244-250 | each stream's id loses its `/watch?v=` prefix, in place, and nothing else changes |
| HarvestRssPiped.DigitsEnd | src/harvestor/rss_piped.rs:175-176 | the end of the greedy run of Unicode decimal digits (`\d`) |
| HarvestRssPiped.FindWidth | src/harvestor/rss_piped.rs:175-176 | the leftmost `=s\d+` match and its greedy end, or none |
| HarvestRssPiped.LogoWidth | src/harvestor/rss_piped.rs:169-170 | only the first `=s<digits>` becomes `=s1400`; without one the url is unchanged |
| HarvestRssPiped.LogoWidthIdempotent | src/harvestor/rss_piped.rs:169-170 | rewriting a rewritten url changes nothing |
| HarvestRssPiped.DigitsEndOver | src/harvestor/rss_piped.rs:176 | a maximal digit run ends where the digits end |
| HarvestRssPiped.FindWidthFirst | src/harvestor/rss_piped.rs:169-176 | the match found is the first position where the pattern fits |
| HarvestRssPiped.LogoWidthExample | src/harvestor/rss_piped.rs:169-170 | `ab=s88-c` becomes `ab=s1400-c` |
| HarvestRssPiped.LogoWidthUnicodeDigits | src/harvestor/rss_piped.rs:169-176 | `\d` matches digits of any script: `=s` and an Arabic-Indic three becomes `=s1400`, and so does `=s1` followed by one |
| HarvestRssPiped.EpisodeOf | src/harvestor/rss_piped.rs:82-126 | the reference episode of an entry: accessor errors first, then the skips, then the fields; stated by `AccessorErrorsFirst`, `SkippedEntries` and `KeptEpisode` |
| HarvestRssPiped.MakeEpisode | src/harvestor/rss_piped.rs:82-126 | the default episode filled in field by field equals the reference `EpisodeOf` |
| HarvestRssPiped.AccessorErrorsFirst | src/harvestor/rss_piped.rs:88-90 | description, thumbnail and video id errors come first, in that order |
| HarvestRssPiped.SkippedEntries | src/harvestor/rss_piped.rs:92-104 | an entry is skipped exactly when it is not premiered, has no piped stream or is a short; the only later failure is a missing link |
| HarvestRssPiped.KeptEpisode | src/harvestor/rss_piped.rs:104-125 | a kept episode has the entry's fields, the gateway's audio url and the stream's duration |
| HarvestRssPiped.Episodes | src/harvestor/rss_piped.rs:67-76 | at most one episode per entry |
| HarvestRssPiped.Results | src/harvestor/rss_piped.rs:67-70 | the per-entry results, in order |
| HarvestRssPiped.EpisodesOk | src/harvestor/rss_piped.rs:72-76 | the episodes succeed exactly when every entry does, and are then the kept ones in feed order |
| HarvestRssPiped.EpisodesErr | src/harvestor/rss_piped.rs:72-73 | a failure is the error of the first failing entry |
| HarvestRssPiped.ChannelUrl | src/harvestor/rss_piped.rs:49-53 | the feed's first link, or empty |
| HarvestRssPiped.MakePodcast | src/harvestor/rss_piped.rs:44-80 | the podcast fields from the feed, the piped channel and the extra info, or the episodes' error |
| HarvestRssPiped.MakePodcastFails | src/harvestor/rss_piped.rs:72-79 | the podcast succeeds exactly when every entry does; a failure is the first failing entry's error |
| Piped.DefaultInstance | src/piped.rs:38-42 | the default instance's url is `https://pipedapi.aeong.one` |
| Piped.ChannelUrl | src/piped.rs:29-31 | the instance url, `/channel/`, and the channel id |
| Piped.StreamUrl | src/piped.rs:33-35 | the instance url, `/streams/`, and the video id |
| Piped.ChannelUrlInjective | src/piped.rs:29-31 | distinct channel ids give distinct urls |
| Piped.StreamUrlInjective | src/piped.rs:33-35 | distinct video ids give distinct urls |
| Piped.EndpointsDiffer | src/piped.rs:29-35 | a channel url and a stream url never coincide |
| Piped.FlagCode | src/piped.rs:199 | the code computed with 32-bit wrap-around |
| Piped.FromFlagEmoji | src/piped.rs:198-201 | the character of that code when it is a scalar value, else the input character |
| Piped.RegionalIndicatorToLetter | src/piped.rs:198-201 | the k-th regional indicator becomes the k-th capital letter |
| Piped.LowCharactersKept | src/piped.rs:198-201 | characters below the indicator range are kept |
| Piped.FromFlagEmojis | src/piped.rs:144 | the conversion of each character, in place |
| Piped.InterestingLines | src/piped.rs:122-125 | the lines after the first start line; none without a start line |
| Piped.TableInstances | src/piped.rs:112-154 | the rows of the lines after the start line; stated by `InstancesAreAcceptedRows`, `NoStartLineNoInstances` and `PreambleIgnored` |
| Piped.Countries | src/piped.rs:140-145 | the trimmed comma-separated items of the trimmed field, each converted |
| Piped.RowOf | src/piped.rs:127-153 | one table line as an instance, or none; stated by `RowOfSpec` |
| Piped.RowOfSpec | src/piped.rs:127-153 | a line is kept exactly when it has five `|` fields and its trimmed url starts with `https://`; the row then holds the trimmed name, url, countries and no latency |
| Piped.Rows | src/piped.rs:127-154 | at most one instance per line |
| Piped.PullLatest | src/piped.rs:112-158 | the loop collects exactly the table's instances, in order |
| Piped.RowsStep | src/piped.rs:127-154 | the rows extend one line at a time |
| Piped.RowsMember | src/piped.rs:127-154 | every instance comes from an accepted line |
| Piped.NoStartLineNoInstances | src/piped.rs:122-125 | a page without a start line lists no instance |
| Piped.InstancesAreAcceptedRows | src/piped.rs:122-153 | every instance comes after a start line, has a trimmed `https://` url and no latency |
| Piped.AcceptedRow | src/piped.rs:134-146 | an accepted row's url is trimmed and starts with `https://`, and its latency is unset |
| Piped.PreambleIgnored | src/piped.rs:122-125 | everything up to and including the first start line is ignored |
| Piped.Insert | src/piped.rs:193 | insertion adds exactly one element |
| Piped.StableSort | src/piped.rs:193 | the sort keeps the length |
| Piped.WithKey | src/piped.rs:193 | the elements of one key, at most all of them |
| Piped.InsertAt | src/piped.rs:193 | the insertion point follows every element with a key at most the new one's |
| Piped.InsertBounded | src/piped.rs:193 | insertion keeps a common key bound |
| Piped.InsertSorted | src/piped.rs:193 | insertion keeps the order sorted |
| Piped.InsertPermutes | src/piped.rs:193 | insertion adds exactly the new element |
| Piped.InsertWithKey | src/piped.rs:193 | insertion appends to its key's group, so equal keys keep their order |
| Piped.StableSortSpec | src/piped.rs:193 | the result is sorted by latency (absent last), a permutation, and stable |
| Piped.UnmeasuredLast | src/piped.rs:193 | everything after an unmeasured instance also has the maximum key |
| Piped.SortByLatency | src/piped.rs:193 | the in-place sort leaves the stable sort of the old contents |
| Piped.InsertLast | src/piped.rs:193 | one insertion step moves the element into the sorted prefix and leaves the rest alone |
| Piped.SortStep | src/piped.rs:193 | sorting one more element of the input inserts it into the sorted prefix |
| Text.Lines | src/piped.rs:122-123 | no line holds a newline, and the empty text has no lines |
| Text.TrimIdempotent | src/piped.rs:133-134 | trimming twice is trimming once |
| Text.JoinSplit | src/piped.rs:128 | joining the split pieces gives back the text |
| Text.ParseNatToString | src/util.rs:18 | a number written in decimal parses back |
| Text.NonAsciiRunsAboveAscii | src/harvestor/rss_piped.rs:176 | the non-ASCII digit runs all lie above ASCII, so `\d` on ASCII is exactly `0` to `9` and every ASCII digit is a decimal digit |
| Iter.MaxIndexByKey | src/extractor/ytdlp.rs:54 | `max_by_key` settles on a maximum and the last one |
| Iter.MinIndexByKey | src/harvestor/ytdlp.rs:40 | `min_by_key` settles on a minimum and the first one |
| Iter.FilterConcat | src/harvestor/ytdlp.rs:38 | filtering distributes over concatenation |

## Left out

- Routing, the HTTP server, the homepage and health handlers (`src/main.rs`), the audio handler `src/audio.rs` and its Range-header parsing, and the `PipedInstance` request extractor (`src/piped.rs:49-69`): these are framework glue with no logic beyond what is modelled.
- The Piped and rustube extractors (`src/extractor/piped.rs`, `src/extractor/rustube.rs`) and the `rss_ytextract` harvester are not part of this model.
- Network requests, process spawning, JSON deserialisation, url parsing and HTML DOM queries (`find_youtube_channel_id`'s canonical link, `get_logo`'s `link[rel=image_src]`, `get_tags`) are parameters of the model. The logo's `=s<digits>` rewrite is modelled.
- Piped.PullLatest: the final `shuffle` (`src/piped.rs:156`) is randomness and is not modelled; the result is the list before shuffling.
- Piped.SortByLatency: `check_latency`'s concurrent probes, the 10 s cut-off and the arrival order of `join_next` are not modelled; only the final `sort_by_key` is, on the list it is given.
- The `auto_update_global` loop (`src/piped.rs:92-110`) is an endless loop around network calls and is left out.
- Piped.FromFlagEmoji: models the release build, where `u32` subtraction wraps; a debug build panics on characters below the regional indicators.
- AudioStore.Store.GetOrAllocate: the LRU's choice of eviction victim is arbitrary in the model (any stored entry), and the 10-minute expiry is not modelled; only the bound of 30 entries is stated.
- AudioStore.AudioFile.GetOrDownload: the mutex guarding the state is not modelled; calls are sequential.
- AudioStore.Store.Remove: the model runs requests one at a time, so the store and the running `extract` hold the only references to an entry, and an entry that leaves the table is dropped at once. A concurrent request still holding the entry would delay the deletion until it finishes; that is not modelled. The same holds for the entry `AudioStore.Store.GetOrAllocate` evicts.
- AudioStore.FilePathInjective: paths are modelled for every id with Unix path rules, but injectivity is stated only for plain file names without a dot. Ids such as `x` and `x/`, or `a.m4a` and `a.mp3`, share a path in the source as in the model.
- YtdlpFile.WaitForFile: `AudioFile::ready()` is not defined in this revision of the store; its successive answers are an input, and the clock is an input that advances by at least the 2 s sleep per look.
- YtdlpFile.Extract: the `yt-dlp` command line is not checked; only its outcome is an input. The extractor takes no yt-dlp permit in this revision.
- YtdlpProxy.Extract: the semaphore is modelled as a trace of acquire and release steps, not as concurrency.
- Ytdlp.SelectFormat: `quality.unwrap_or(0.0) as i64` is taken as an already truncated integer; floating point is not modelled.
- HarvestYtdlp.EpisodesOf: the entry `duration` `f32 as u64` is taken as an already truncated natural number.
- HarvestYtdlp.Registry.Get: the `RwLock` and the global registry's lifetime are not modelled; dates are integers and `to_rfc2822` is a parameter.
- HarvestRssPiped.LogoWidth: `\d` is modelled as the decimal digits of Unicode 15.0; a `regex` crate built on a later Unicode version also matches the digits added since.
- HarvestRssPiped.EpisodesErr: `try_join_all` runs the episodes concurrently; the model reports the first error in input order.
- HarvestRssPiped.StripWatchPrefixes: requires every id to start with `/watch?v=`, because the source's `unwrap` panics otherwise.
- FeedExt.Thumbnail: requires the `url`, `width` and `height` attributes, because indexing a missing one panics; `FeedExt.MediaGroup` requires a non-empty group list for the same reason (`expect("unreachable")`).
- Errors.IntoResponse: `AudioStream`, `Extraction` and `InvalidId`, used by the extractors and the audio store, are not declared in `src/error.rs`. They are added, map to 500 through its `_` arm, and have placeholder display texts. `RequestUpstream`'s status comes from the upstream error and is an input.
- ByteStreams.ByteStream.PollNext: the waker and `Pending` from the inner stream are not modelled. As the code does, an error does not end the stream, and an empty chunk is swallowed like a skipped one.
- Text.Lines: Rust's `lines()` is modelled with a last line that keeps a final `\r` when no `\n` follows it.
