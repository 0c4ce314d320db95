/**
 * The yt-dlp stream extractor: pipes yt-dlp's stdout to the client as the
 * audio stream and turns its stderr into errors on the same stream.
 */
module YtdlpStream {
  import opened Wrappers
  import opened Text
  import opened Utf8
  import opened Errors
  import opened Extractor
  import opened ByteStreams

  /**
   * `detect_error` on one stderr chunk: the lossily decoded chunk as an
   * error when it holds the marker, otherwise an empty chunk.
   */
  function DetectError(bytes: Bytes): Item {
    var s := DecodeLossy(bytes);
    if Contains(s, ERROR_TEXT) then Err(AudioStream(s)) else Ok([])
  }

  /** A stderr chunk fails exactly when its bytes hold the marker, and otherwise adds no bytes. */
  lemma DetectErrorSpec(bytes: Bytes)
    ensures DetectError(bytes).Err? <==> Contains(bytes, ERROR_MARKER)
    ensures DetectError(bytes).Err? ==> DetectError(bytes).error == AudioStream(DecodeLossy(bytes))
    ensures DetectError(bytes).Ok? ==> DetectError(bytes).value == []
  {
    ErrorMarkerIsText();
    MarkerSurvivesDecoding(bytes, ERROR_MARKER);
  }

  /** One item read from the child, tagged with the pipe it came from. */
  datatype Piped = Stdout(item: Item) | Stderr(item: Item)

  /** An item as it appears on the combined stream. */
  function Convert(p: Piped): Item {
    match p
    case Stdout(i) => i
    case Stderr(i) => if i.Err? then i else DetectError(i.value)
  }

  function Merge(ps: seq<Piped>): (items: seq<Item>)
    ensures |items| == |ps|
    ensures forall i :: 0 <= i < |ps| ==> items[i] == Convert(ps[i])
  {
    if ps == [] then [] else [Convert(ps[0])] + Merge(ps[1..])
  }

  /** The stdout items, in order. */
  function StdoutItems(ps: seq<Piped>): seq<Item> {
    if ps == [] then [] else (if ps[0].Stdout? then [ps[0].item] else []) + StdoutItems(ps[1..])
  }

  /** The audio bytes of the combined stream are exactly those read from stdout. */
  lemma {:induction false} StreamBytesAreStdout(ps: seq<Piped>)
    ensures OkBytes(Merge(ps)) == OkBytes(StdoutItems(ps))
  {
    if ps != [] {
      StreamBytesAreStdout(ps[1..]);
      assert Merge(ps) == [Convert(ps[0])] + Merge(ps[1..]);
      assert Merge(ps)[1..] == Merge(ps[1..]);
      if ps[0].Stdout? {
        assert StdoutItems(ps) == [ps[0].item] + StdoutItems(ps[1..]);
        assert StdoutItems(ps)[1..] == StdoutItems(ps[1..]);
      } else {
        if ps[0].item.Ok? {
          DetectErrorSpec(ps[0].item.value);
        }
        assert StdoutItems(ps) == StdoutItems(ps[1..]);
      }
    }
  }

  /**
   * Every error on the combined stream is a read error of either pipe or the
   * text of a stderr chunk that held the marker.
   */
  lemma ErrorsExplained(ps: seq<Piped>, i: nat)
    requires i < |ps| && Merge(ps)[i].Err?
    ensures ps[i].item.Err? ==> Merge(ps)[i] == ps[i].item
    ensures ps[i].item.Ok? ==>
      ps[i].Stderr? && Contains(ps[i].item.value, ERROR_MARKER) &&
      Merge(ps)[i] == Err(AudioStream(DecodeLossy(ps[i].item.value)))
  {
    if ps[i].Stderr? && ps[i].item.Ok? {
      DetectErrorSpec(ps[i].item.value);
    }
  }

  /**
   * `extract`: `launch(url)` is what starting yt-dlp on `url` gives: a spawn
   * error, or the items of its two pipes in the order they arrive.
   */
  function Extract(videoId: string, launch: string -> Errors.Result<seq<Piped>>): (r: Errors.Result<Extraction>)
    ensures r.Ok? <==> launch(WatchUrl(videoId)).Ok?
    ensures r.Err? ==> r.error == launch(WatchUrl(videoId)).error
    ensures r.Ok? ==>
      r.value.Stream? && r.value.mimeType == AUDIO_MP4 && r.value.stream == Merge(launch(WatchUrl(videoId)).value)
  {
    var ps :- launch(WatchUrl(videoId));
    Ok(Stream(AUDIO_MP4, Merge(ps)))
  }
}
