/**
 * Resolving a YouTube channel url pasted by a user to the gateway url of
 * the channel's podcast.
 */
module Feed {
  import opened Wrappers
  import opened Text
  import opened Errors
  import opened AppConfig

  /** A parsed url: its serialisation, its host, and its path. */
  datatype Url = Url(serialized: string, host: Option<string>, path: string)

  /** The three ways a channel url names a channel. */
  datatype ChannelRef = Id(id: string) | Name(name: string) | Handle(handle: string)

  /** The class `[a-zA-Z0-9_]`. */
  predicate IsWordChar(c: char) {
    ('a' <= c <= 'z') || ('A' <= c <= 'Z') || ('0' <= c <= '9') || c == '_'
  }

  predicate IsWord(s: string) {
    |s| > 0 && forall i :: 0 <= i < |s| ==> IsWordChar(s[i])
  }

  /** The length of the longest run of word characters `s` starts with. */
  function WordRun(s: string): (n: nat)
    ensures n <= |s|
    ensures forall i :: 0 <= i < n ==> IsWordChar(s[i])
    ensures n < |s| ==> !IsWordChar(s[n])
  {
    if s != [] && IsWordChar(s[0]) then 1 + WordRun(s[1..]) else 0
  }

  /** A regex `^<prefix>([a-zA-Z0-9_]+)`: the greedy capture after the prefix. */
  function CapturePrefixed(path: string, prefix: string): (r: Option<string>)
    ensures r.Some? <==> prefix <= path && |path| > |prefix| && IsWordChar(path[|prefix|])
    ensures r.Some? ==>
      IsWord(r.value) && prefix + r.value <= path &&
      (|path| == |prefix| + |r.value| || !IsWordChar(path[|prefix| + |r.value|]))
  {
    if prefix <= path && WordRun(path[|prefix|..]) > 0 then
      var w := path[|prefix|..][..WordRun(path[|prefix|..])];
      assert path[..|prefix| + |w|] == prefix + w;
      Some(w)
    else None
  }

  /** The regex `^@([a-zA-Z0-9_]+)$`: the whole path must be `@` and a word. */
  function CaptureHandle(path: string): (r: Option<string>)
    ensures r.Some? <==> |path| > 1 && path[0] == '@' && IsWord(path[1..])
    ensures r.Some? ==> path == "@" + r.value
  {
    if |path| > 1 && path[0] == '@' && IsWord(path[1..]) then Some(path[1..]) else None
  }

  const YOUTUBE_HOST: string := "www.youtube.com"
  const MOBILE_YOUTUBE_HOST: string := "m.youtube.com"

  /** The path without its leading `/`; a path that has none is treated as empty. */
  function RelativePath(u: Url): string {
    if |u.path| > 0 && u.path[0] == '/' then u.path[1..] else ""
  }

  /** The patterns tried in order on the relative path. */
  function ClassifyPath(path: string): Option<ChannelRef> {
    match CapturePrefixed(path, "channel/")
    case Some(id) => Some(Id(id))
    case None =>
      match CapturePrefixed(path, "c/")
      case Some(name) => Some(Name(name))
      case None =>
        match CaptureHandle(path)
        case Some(handle) => Some(Handle(handle))
        case None => None
  }

  /**
   * `extract_youtube_channel_ref`; `parse` is the url parser, an error
   * being its message.
   */
  function ExtractChannelRef(url: string, parse: string -> Wrappers.Result<Url, string>): (r: Errors.Result<ChannelRef>)
    ensures parse(url).Err? ==> r == Err(ParseURL(parse(url).error))
    ensures parse(url).Ok? && parse(url).value.host != Some(YOUTUBE_HOST) && parse(url).value.host != Some(MOBILE_YOUTUBE_HOST) ==>
      r == Err(UnsupportedURL(parse(url).value.serialized, "not youtube domain"))
  {
    match parse(url)
    case Err(e) => Err(ParseURL(e))
    case Ok(u) =>
      if u.host != Some(YOUTUBE_HOST) && u.host != Some(MOBILE_YOUTUBE_HOST) then
        Err(UnsupportedURL(u.serialized, "not youtube domain"))
      else
        match ClassifyPath(RelativePath(u))
        case Some(ref) => Ok(ref)
        case None => Err(UnsupportedURL(u.serialized, "invalid youtube url"))
  }

  /**
   * `channel/` and a word gives that word as the id, whatever follows it;
   * otherwise `c/` and a word gives the name; otherwise the whole path must
   * be `@` and a word; anything else matches no pattern.
   */
  lemma ClassifyPathSpec(path: string)
    ensures ClassifyPath(path).Some? && ClassifyPath(path).value.Id? <==> CapturePrefixed(path, "channel/").Some?
    ensures ClassifyPath(path).Some? && ClassifyPath(path).value.Id? ==>
      var id := ClassifyPath(path).value.id;
      IsWord(id) && "channel/" + id <= path &&
      (|path| == |"channel/" + id| || !IsWordChar(path[|"channel/" + id|]))
    ensures ClassifyPath(path).Some? && ClassifyPath(path).value.Name? <==>
      CapturePrefixed(path, "channel/").None? && CapturePrefixed(path, "c/").Some?
    ensures ClassifyPath(path).Some? && ClassifyPath(path).value.Name? ==>
      var name := ClassifyPath(path).value.name;
      IsWord(name) && "c/" + name <= path && (|path| == |"c/" + name| || !IsWordChar(path[|"c/" + name|]))
    ensures ClassifyPath(path).Some? && ClassifyPath(path).value.Handle? <==>
      CapturePrefixed(path, "channel/").None? && CapturePrefixed(path, "c/").None? && CaptureHandle(path).Some?
    ensures ClassifyPath(path).Some? && ClassifyPath(path).value.Handle? ==>
      path == "@" + ClassifyPath(path).value.handle && IsWord(ClassifyPath(path).value.handle)
  {
  }

  /** A handle path never also matches the id or name pattern, and trailing text rejects it. */
  lemma HandleIsExact(handle: string, rest: string)
    requires IsWord(handle) && rest != [] && !IsWordChar(rest[0])
    ensures ClassifyPath("@" + handle) == Some(Handle(handle))
    ensures ClassifyPath("@" + handle + rest).None?
  {
    var p := "@" + handle + rest;
    assert p[1..] == handle + rest;
    assert p[1..][|handle|] == rest[0];
    assert !("c/" <= p) && !("channel/" <= p) by {
      assert p[0] == '@';
    }
    assert ("@" + handle)[1..] == handle;
  }

  /** The id pattern ignores trailing path segments. */
  lemma IdIgnoresTrailing(id: string, rest: string)
    requires IsWord(id) && (rest == [] || !IsWordChar(rest[0]))
    ensures ClassifyPath("channel/" + id + rest) == Some(Id(id))
  {
    var p := "channel/" + id + rest;
    var tail := p[|"channel/"|..];
    assert tail == id + rest;
    assert "channel/" <= p;
    assert forall i :: 0 <= i < |id| ==> tail[i] == id[i];
    assert |id| < |tail| ==> tail[|id|] == rest[0];
    assert WordRun(tail) == |id|;
    assert tail[..|id|] == id;
  }

  /** The accepted hosts, and the classification once a host is accepted. */
  lemma ExtractChannelRefSpec(url: string, parse: string -> Wrappers.Result<Url, string>)
    requires parse(url).Ok?
    requires parse(url).value.host == Some(YOUTUBE_HOST) || parse(url).value.host == Some(MOBILE_YOUTUBE_HOST)
    ensures ClassifyPath(RelativePath(parse(url).value)).Some? ==>
      ExtractChannelRef(url, parse) == Ok(ClassifyPath(RelativePath(parse(url).value)).value)
    ensures ClassifyPath(RelativePath(parse(url).value)).None? ==>
      ExtractChannelRef(url, parse) == Err(UnsupportedURL(parse(url).value.serialized, "invalid youtube url"))
  {
  }

  // ---------------------------------------------------------------------
  // Resolving to a channel id

  const CHANNEL_URL_PREFIX: string := "https://www.youtube.com/channel/"

  /** The page whose canonical link gives the channel id; an id needs none. */
  function ChannelPageUrl(ref: ChannelRef): (u: Option<string>)
    ensures u.None? <==> ref.Id?
  {
    match ref
    case Id(_) => None
    case Name(name) => Some("https://www.youtube.com/c/" + name)
    case Handle(handle) => Some("https://www.youtube.com/@" + handle)
  }

  /**
   * `find_youtube_channel_id`. `canonicalHref(url)` is the fetch of the page
   * and the lookup of its `link[rel=canonical]` href: an error of the
   * request or of the HTML parse, or the href if there is one.
   */
  function FindChannelId(ref: ChannelRef, canonicalHref: string -> Errors.Result<Option<string>>): (r: Errors.Result<string>)
  {
    match ref
    case Id(id) => Ok(id)
    case _ =>
      var href :- canonicalHref(ChannelPageUrl(ref).value);
      match href
      case None => Err(InvalidHTML("link[rel=canonical]"))
      case Some(link) =>
        match StripPrefix(link, CHANNEL_URL_PREFIX)
        case None => Err(InvalidHTML("link[rel=canonical] url prefix"))
        case Some(id) => Ok(id)
  }

  /**
   * An id resolves to itself whatever the lookup would answer; a name or a
   * handle resolves to the canonical href of its page without the channel
   * prefix, and fails when there is no href or it lacks the prefix.
   */
  lemma FindChannelIdSpec(ref: ChannelRef, canonicalHref: string -> Errors.Result<Option<string>>)
    ensures ref.Id? ==> FindChannelId(ref, canonicalHref) == Ok(ref.id)
    ensures !ref.Id? && canonicalHref(ChannelPageUrl(ref).value).Err? ==>
      FindChannelId(ref, canonicalHref) == Err(canonicalHref(ChannelPageUrl(ref).value).error)
    ensures !ref.Id? && canonicalHref(ChannelPageUrl(ref).value) == Ok(None) ==>
      FindChannelId(ref, canonicalHref) == Err(InvalidHTML("link[rel=canonical]"))
    ensures !ref.Id? && canonicalHref(ChannelPageUrl(ref).value).Ok? && canonicalHref(ChannelPageUrl(ref).value).value.Some? ==>
      var link := canonicalHref(ChannelPageUrl(ref).value).value.value;
      (CHANNEL_URL_PREFIX <= link ==> FindChannelId(ref, canonicalHref) == Ok(link[|CHANNEL_URL_PREFIX|..])) &&
      (!(CHANNEL_URL_PREFIX <= link) ==> FindChannelId(ref, canonicalHref) == Err(InvalidHTML("link[rel=canonical] url prefix")))
  {
  }

  /** `channel_podcast_url`: the gateway's feed url for the channel a user url names. */
  function ChannelPodcastUrl(url: string, parse: string -> Wrappers.Result<Url, string>,
                             canonicalHref: string -> Errors.Result<Option<string>>): Errors.Result<string>
  {
    var ref :- ExtractChannelRef(url, parse);
    var id :- FindChannelId(ref, canonicalHref);
    Ok(INSTANCE_PUBLIC_URL + "/channel/" + id)
  }

  /** A `/channel/<id>` url on a YouTube host leads to the feed url of that id with no lookup. */
  lemma PodcastUrlOfChannelPath(url: string, parse: string -> Wrappers.Result<Url, string>,
                                canonicalHref: string -> Errors.Result<Option<string>>, id: string, rest: string)
    requires IsWord(id) && (rest == [] || !IsWordChar(rest[0]))
    requires parse(url).Ok? && parse(url).value.path == "/channel/" + id + rest
    requires parse(url).value.host == Some(YOUTUBE_HOST) || parse(url).value.host == Some(MOBILE_YOUTUBE_HOST)
    ensures ChannelPodcastUrl(url, parse, canonicalHref) == Ok(INSTANCE_PUBLIC_URL + "/channel/" + id)
  {
    assert RelativePath(parse(url).value) == "channel/" + id + rest;
    IdIgnoresTrailing(id, rest);
  }
}
