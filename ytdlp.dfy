/**
 * The yt-dlp url extractor: asks yt-dlp for a video's formats and picks the
 * best single-fragment m4a audio format.
 */
module Ytdlp {
  import opened Wrappers
  import opened Utf8
  import opened Errors
  import opened Extractor
  import opened Iter

  datatype Fragment = Fragment(url: string)

  /** One entry of yt-dlp's `formats` list; `quality` is already truncated to an integer. */
  datatype Format = Format(
    quality: Option<int>,
    resolution: string,
    audioExt: string,
    fragments: seq<Fragment>,
    httpHeaders: map<string, string>)

  /** The part of yt-dlp's JSON output the extractor reads. */
  datatype Output = Output(formats: seq<Format>)

  /** The sort key: the truncated quality, 0 when absent. */
  function QualityKey(f: Format): int {
    f.quality.GetOr(0)
  }

  predicate SingleFragment(f: Format) {
    |f.fragments| == 1
  }

  predicate AudioOnlyM4a(f: Format) {
    f.resolution == "audio only" && f.audioExt == "m4a"
  }

  predicate Eligible(f: Format) {
    SingleFragment(f) && AudioOnlyM4a(f)
  }

  predicate NoneEligible(formats: seq<Format>) {
    forall i :: 0 <= i < |formats| ==> !Eligible(formats[i])
  }

  /** The eligible formats, in output order. */
  function EligibleFormats(formats: seq<Format>): (e: seq<Format>)
    ensures forall i :: 0 <= i < |e| ==> Eligible(e[i]) && e[i] in formats
    ensures forall i :: 0 <= i < |formats| && Eligible(formats[i]) ==> formats[i] in e
  {
    Filter(Filter(formats, SingleFragment), AudioOnlyM4a)
  }

  /** The two filters, then `max_by_key` on the quality. */
  function SelectFormat(formats: seq<Format>): (r: Option<Format>)
    ensures r.Some? ==> Eligible(r.value) && r.value in formats
  {
    var e := EligibleFormats(formats);
    var r := MaxByKey(e, QualityKey);
    if r.Some? then
      assert r.value in e;
      r
    else r
  }

  /**
   * No format is selected exactly when none is eligible; the selected one
   * has the highest quality among the eligible ones and is the last such in
   * output order.
   */
  lemma SelectFormatSpec(formats: seq<Format>)
    ensures SelectFormat(formats).None? <==> NoneEligible(formats)
    ensures SelectFormat(formats).Some? ==>
      forall i :: 0 <= i < |formats| && Eligible(formats[i]) ==> QualityKey(formats[i]) <= QualityKey(SelectFormat(formats).value)
    ensures SelectFormat(formats).Some? ==>
      var e := EligibleFormats(formats);
      exists i :: 0 <= i < |e| && e[i] == SelectFormat(formats).value &&
        forall j :: i < j < |e| ==> QualityKey(e[j]) < QualityKey(e[i])
  {
    var e := EligibleFormats(formats);
    if exists k :: 0 <= k < |formats| && Eligible(formats[k]) {
      var k :| 0 <= k < |formats| && Eligible(formats[k]);
      assert formats[k] in e;
      var m := MaxIndexByKey(e, QualityKey);
      assert SelectFormat(formats) == Some(e[m]);
      forall i | 0 <= i < |formats| && Eligible(formats[i])
        ensures QualityKey(formats[i]) <= QualityKey(e[m])
      {
        assert formats[i] in e;
      }
    }
  }

  /** The extraction built from a selected format: its single fragment's url and all its headers. */
  function FromFormat(f: Format): Extraction
    requires SingleFragment(f)
  {
    Proxy(f.fragments[0].url, f.httpHeaders)
  }

  /**
   * `extract`: `runJson(url)` is what running `yt-dlp -j url` gives (an I/O
   * error, or the bytes on its stdout) and `parse` the JSON deserialisation.
   */
  function Extract(videoId: string, runJson: string -> Errors.Result<seq<byte>>,
                   parse: string -> Option<Output>): Errors.Result<Extraction>
  {
    var stdout :- runJson(WatchUrl(videoId));
    match DecodeStrict(stdout)
    case None => Err(Extraction)
    case Some(text) =>
      match parse(text)
      case None => Err(Extraction)
      case Some(out) =>
        match SelectFormat(out.formats)
        case None => Err(Extraction)
        case Some(f) => Ok(FromFormat(f))
  }

  /**
   * A failed run passes its error on; output that is not UTF-8 or does not
   * parse gives `Extraction`, and so does output with no eligible format.
   */
  lemma ExtractErrors(videoId: string, runJson: string -> Errors.Result<seq<byte>>,
                      parse: string -> Option<Output>)
    ensures
      var out := runJson(WatchUrl(videoId));
      var r := Extract(videoId, runJson, parse);
      && (out.Err? ==> r == Err(out.error))
      && (out.Ok? && !IsWellFormed(out.value) ==> r == Err(Extraction))
      && (out.Ok? && IsWellFormed(out.value) && parse(DecodeLossy(out.value)).None? ==> r == Err(Extraction))
      && (out.Ok? && IsWellFormed(out.value) && parse(DecodeLossy(out.value)).Some? ==>
          var formats := parse(DecodeLossy(out.value)).value.formats;
          NoneEligible(formats) ==> r == Err(Extraction))
      && (r.Err? ==> out.Err? || r == Err(Extraction))
  {
    var out := runJson(WatchUrl(videoId));
    if out.Ok? && IsWellFormed(out.value) && parse(DecodeLossy(out.value)).Some? {
      SelectFormatSpec(parse(DecodeLossy(out.value)).value.formats);
    }
  }

  /** A successful extraction is the proxy of an eligible format of the highest quality. */
  lemma ExtractSelects(videoId: string, runJson: string -> Errors.Result<seq<byte>>,
                       parse: string -> Option<Output>)
    ensures
      var out := runJson(WatchUrl(videoId));
      var r := Extract(videoId, runJson, parse);
      r.Ok? ==>
        && out.Ok? && IsWellFormed(out.value) && parse(DecodeLossy(out.value)).Some?
        && var formats := parse(DecodeLossy(out.value)).value.formats;
           exists f :: f in formats && Eligible(f) && r == Ok(FromFormat(f)) &&
             forall i :: 0 <= i < |formats| && Eligible(formats[i]) ==> QualityKey(formats[i]) <= QualityKey(f)
  {
    var out := runJson(WatchUrl(videoId));
    if out.Ok? && IsWellFormed(out.value) && parse(DecodeLossy(out.value)).Some? {
      var formats := parse(DecodeLossy(out.value)).value.formats;
      SelectFormatSpec(formats);
      if SelectFormat(formats).Some? {
        var f := SelectFormat(formats).value;
        assert Extract(videoId, runJson, parse) == Ok(FromFormat(f));
      }
    }
  }
}
