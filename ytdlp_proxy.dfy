/**
 * The yt-dlp proxy extractor: like the url extractor, but it reads each
 * format's own url, has no fragment filter, and runs yt-dlp while holding a
 * permit of the downloader semaphore.
 */
module YtdlpProxy {
  import opened Wrappers
  import opened Utf8
  import opened Errors
  import opened Extractor
  import opened Iter

  /** One entry of yt-dlp's `formats` list; `quality` is already truncated to an integer. */
  datatype Format = Format(
    format: string,
    quality: Option<int>,
    resolution: string,
    audioExt: string,
    url: string,
    httpHeaders: map<string, string>)

  datatype Output = Output(formats: seq<Format>)

  function QualityKey(f: Format): int {
    f.quality.GetOr(0)
  }

  predicate Eligible(f: Format) {
    f.resolution == "audio only" && f.audioExt == "m4a"
  }

  predicate NoneEligible(formats: seq<Format>) {
    forall i :: 0 <= i < |formats| ==> !Eligible(formats[i])
  }

  /** The eligible formats, in output order. */
  function EligibleFormats(formats: seq<Format>): (e: seq<Format>)
    ensures forall i :: 0 <= i < |e| ==> Eligible(e[i]) && e[i] in formats
    ensures forall i :: 0 <= i < |formats| && Eligible(formats[i]) ==> formats[i] in e
  {
    Filter(formats, Eligible)
  }

  /** `filter`, then `max_by_key` on the quality. */
  function SelectFormat(formats: seq<Format>): (r: Option<Format>)
    ensures r.Some? ==> Eligible(r.value) && r.value in formats
    ensures r.None? <==> NoneEligible(formats)
    ensures r.Some? ==>
      forall i :: 0 <= i < |formats| && Eligible(formats[i]) ==> QualityKey(formats[i]) <= QualityKey(r.value)
  {
    var e := EligibleFormats(formats);
    var r := MaxByKey(e, QualityKey);
    if r.Some? then
      assert r.value in e;
      r
    else
      assert |e| == 0;
      r
  }

  /** Ties in quality go to the last eligible format in output order. */
  lemma SelectLastOnTies(formats: seq<Format>)
    requires SelectFormat(formats).Some?
    ensures
      var e := EligibleFormats(formats);
      exists i :: 0 <= i < |e| && e[i] == SelectFormat(formats).value &&
        forall j :: i < j < |e| ==> QualityKey(e[j]) < QualityKey(e[i])
  {
    var e := EligibleFormats(formats);
    var m := MaxIndexByKey(e, QualityKey);
    assert MaxByKey(e, QualityKey) == Some(e[m]);
    assert SelectFormat(formats) == Some(e[m]);
    assert forall j :: m < j < |e| ==> QualityKey(e[j]) < QualityKey(e[m]);
  }

  /** The effects around the yt-dlp run, in the order they happen. */
  datatype Step = AcquirePermit | RunYtdlp(url: string) | ReleasePermit | ParseOutput

  datatype Traced = Traced(result: Errors.Result<Extraction>, steps: seq<Step>)

  /** The result once the permit has been released. */
  function AfterRun(stdout: seq<byte>, parse: string -> Option<Output>): Errors.Result<Extraction> {
    match DecodeStrict(stdout)
    case None => Err(Extraction)
    case Some(text) =>
      match parse(text)
      case None => Err(Extraction)
      case Some(out) =>
        match SelectFormat(out.formats)
        case None => Err(Extraction)
        case Some(f) => Ok(Proxy(f.url, f.httpHeaders))
  }

  /**
   * `extract`: `runJson(url)` is what running `yt-dlp -j url` gives. The
   * permit is taken before the run and given back as soon as it returns
   * (also when it failed), so parsing happens without it.
   */
  function Extract(videoId: string, runJson: string -> Errors.Result<seq<byte>>,
                   parse: string -> Option<Output>): (t: Traced)
    ensures |t.steps| >= 3
    ensures t.steps[..3] == [AcquirePermit, RunYtdlp(WatchUrl(videoId)), ReleasePermit]
    ensures forall i :: 3 <= i < |t.steps| ==> t.steps[i] == ParseOutput
  {
    var held := [AcquirePermit, RunYtdlp(WatchUrl(videoId)), ReleasePermit];
    match runJson(WatchUrl(videoId))
    case Err(e) => Traced(Err(e), held)
    case Ok(stdout) => Traced(AfterRun(stdout, parse), held + [ParseOutput])
  }

  /**
   * A failed run passes its error on; otherwise the result is `Extraction`
   * for output that is not UTF-8, does not parse or has no eligible format,
   * and else the proxy of an eligible format of the highest quality with its
   * own url and headers.
   */
  lemma ExtractSpec(videoId: string, runJson: string -> Errors.Result<seq<byte>>,
                    parse: string -> Option<Output>)
    ensures
      var out := runJson(WatchUrl(videoId));
      var r := Extract(videoId, runJson, parse).result;
      && (out.Err? ==> r == Err(out.error))
      && (out.Ok? && !IsWellFormed(out.value) ==> r == Err(Extraction))
      && (out.Ok? && IsWellFormed(out.value) && parse(DecodeLossy(out.value)).None? ==> r == Err(Extraction))
      && (out.Ok? && IsWellFormed(out.value) && parse(DecodeLossy(out.value)).Some? ==>
          var formats := parse(DecodeLossy(out.value)).value.formats;
          && (NoneEligible(formats) ==> r == Err(Extraction))
          && (!NoneEligible(formats) ==>
                exists f :: f in formats && Eligible(f) && r == Ok(Proxy(f.url, f.httpHeaders)) &&
                  forall i :: 0 <= i < |formats| && Eligible(formats[i]) ==> QualityKey(formats[i]) <= QualityKey(f)))
  {
    var out := runJson(WatchUrl(videoId));
    if out.Ok? && IsWellFormed(out.value) && parse(DecodeLossy(out.value)).Some? {
      var formats := parse(DecodeLossy(out.value)).value.formats;
      if !NoneEligible(formats) {
        var f := SelectFormat(formats).value;
        assert Extract(videoId, runJson, parse).result == Ok(Proxy(f.url, f.httpHeaders));
      }
    }
  }
}
