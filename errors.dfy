/**
 * The gateway's error kinds, their display text and the HTTP status each is
 * answered with.
 */
module Errors {
  import opened Wrappers

  /**
   * Each variant carries what its display text shows; the foreign error
   * values of the Rust code (reqwest, atom, rss, tl, url, http, io) are
   * represented by their display text.
   */
  datatype Error =
    | RequestUpstream(upstreamStatus: Option<nat>, text: string)
    | AtomFormat(text: string)
    | RSSFormat(text: string)
    | InvalidFeedEntry(entryId: string, reason: string)
    | ParseHTML(text: string)
    | ParseURL(text: string)
    | InvalidHTML(what: string)
    | UnsupportedURL(url: string, reason: string)
    | HTTP(text: string)
    | IO(text: string)
    | Invidious(text: string)
      // used by the extractors and the audio store, absent from error.rs
    | AudioStream(text: string)
    | Extraction
    | InvalidId

  type Result<T> = Wrappers.Result<T, Error>

  const BAD_REQUEST: nat := 400
  const INTERNAL_SERVER_ERROR: nat := 500
  const BAD_GATEWAY: nat := 502

  /** Errors that blame what came back from an upstream service. */
  predicate IsGatewayClass(e: Error) {
    e.AtomFormat? || e.RSSFormat? || e.ParseHTML? || e.ParseURL? || e.InvalidHTML? || e.HTTP?
  }

  /** Errors the `_` arm of the status match catches. */
  predicate IsInternalClass(e: Error) {
    !e.RequestUpstream? && !IsGatewayClass(e) && !e.UnsupportedURL?
  }

  /** The status code of the error response. */
  function StatusOf(e: Error): (code: nat)
    ensures e.RequestUpstream? ==> code == e.upstreamStatus.GetOr(BAD_REQUEST)
    ensures IsGatewayClass(e) ==> code == BAD_GATEWAY
    ensures e.UnsupportedURL? ==> code == BAD_REQUEST
    ensures IsInternalClass(e) ==> code == INTERNAL_SERVER_ERROR
  {
    match e
    case RequestUpstream(status, _) => status.GetOr(BAD_REQUEST)
    case AtomFormat(_) => BAD_GATEWAY
    case RSSFormat(_) => BAD_GATEWAY
    case ParseHTML(_) => BAD_GATEWAY
    case ParseURL(_) => BAD_GATEWAY
    case InvalidHTML(_) => BAD_GATEWAY
    case UnsupportedURL(_, _) => BAD_REQUEST
    case HTTP(_) => BAD_GATEWAY
    case _ => INTERNAL_SERVER_ERROR
  }

  /** Apart from an upstream-reported status, only 400, 500 and 502 are ever answered. */
  lemma StatusClasses(e: Error)
    requires !(e.RequestUpstream? && e.upstreamStatus.Some?)
    ensures StatusOf(e) in {BAD_REQUEST, INTERNAL_SERVER_ERROR, BAD_GATEWAY}
    ensures StatusOf(e) == BAD_GATEWAY <==> IsGatewayClass(e)
    ensures StatusOf(e) == BAD_REQUEST <==> e.RequestUpstream? || e.UnsupportedURL?
    ensures StatusOf(e) == INTERNAL_SERVER_ERROR <==> IsInternalClass(e)
  {
  }

  /** The display text (`thiserror` messages). */
  function Message(e: Error): string {
    match e
    case RequestUpstream(_, t) => "failed parsing url: " + t
    case AtomFormat(t) => "atom feed format error: " + t
    case RSSFormat(t) => "rss feed format error: " + t
    case InvalidFeedEntry(id, reason) => "invalid feed: " + id + " (" + reason + ")"
    case ParseHTML(t) => "parse html error: " + t
    case ParseURL(t) => "parse url error: " + t
    case InvalidHTML(what) => "info not found in html: " + what
    case UnsupportedURL(url, reason) => "unsupported url: " + url + " (" + reason + ")"
    case HTTP(t) => "http error: " + t
    case IO(t) => "io error: " + t
    case Invidious(t) => "request invidious error: " + t
    case AudioStream(t) => "AudioStream: " + t
    case Extraction => "Extraction"
    case InvalidId => "InvalidId"
  }

  datatype Response = Response(status: nat, body: string)

  /** `IntoResponse for Error`: the status of its class and its display text as body. */
  function IntoResponse(e: Error): (r: Response)
    ensures r.status == StatusOf(e) && r.body == Message(e)
    ensures e.UnsupportedURL? ==>
              r.status == BAD_REQUEST && r.body == "unsupported url: " + e.url + " (" + e.reason + ")"
  {
    Response(StatusOf(e), Message(e))
  }
}
