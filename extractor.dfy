/**
 * What an extractor hands back for a video, and the values the yt-dlp
 * based extractors share.
 */
module Extractor {
  import opened Utf8
  import ByteStreams

  /** An open handle on a local file, identified by its path. */
  datatype FileHandle = FileHandle(path: string)

  /**
   * The three shapes of extraction result: a remote url to proxy with the
   * request headers to send, a byte stream of known mime type, or an open
   * local file. The struct form with `url` and `headers` is the `Proxy`
   * variant.
   */
  datatype Extraction =
    | Proxy(url: string, headers: map<string, string>)
    | Stream(mimeType: string, stream: seq<ByteStreams.Item>)
    | File(file: FileHandle, mimeType: string)

  const WATCH_URL_PREFIX: string := "https://youtube.com/watch?v="

  /** The watch page of a video, the url handed to yt-dlp. */
  function WatchUrl(videoId: string): (url: string)
    ensures WATCH_URL_PREFIX <= url && url[|WATCH_URL_PREFIX|..] == videoId
  {
    WATCH_URL_PREFIX + videoId
  }

  /** Distinct videos have distinct watch urls. */
  lemma WatchUrlInjective(a: string, b: string)
    requires WatchUrl(a) == WatchUrl(b)
    ensures a == b
  {
    assert a == WatchUrl(a)[|WATCH_URL_PREFIX|..];
  }

  /** The marker yt-dlp prints before a fatal error, as text and as bytes. */
  const ERROR_TEXT: string := "ERROR:"
  const ERROR_MARKER: seq<byte> := [0x45, 0x52, 0x52, 0x4F, 0x52, 0x3A]

  lemma ErrorMarkerIsText()
    ensures |ERROR_MARKER| > 0 && IsAscii(ERROR_MARKER)
    ensures AsciiText(ERROR_MARKER) == ERROR_TEXT
  {
    var t := AsciiText(ERROR_MARKER);
    assert |t| == 6;
    assert t[0] == 'E' && t[1] == 'R' && t[2] == 'R' && t[3] == 'O' && t[4] == 'R' && t[5] == ':';
  }

  /** The mime type both the file and the stream extractor announce. */
  const AUDIO_MP4: string := "audio/mp4"
}
