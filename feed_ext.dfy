/**
 * Accessors on an Atom entry of a YouTube channel feed: the children of its
 * `<media:group>`, the description, the thumbnail, the link and the
 * `<yt:videoId>`, each failing with `InvalidFeedEntry` naming the level that
 * is missing.
 */
module FeedExt {
  import opened Wrappers
  import opened Text
  import opened Errors
  import opened Atom
  import Podcast

  const NOT_MEDIA_EXTENSION: string := "not media extension"
  const NOT_MEDIA_GROUP: string := "not media group"
  const NO_MEDIA_GROUP_CHILDREN: string := "no media group children"
  const INVALID_DESCRIPTION: string := "invalid description attribute"
  const NO_LINK_FOUND: string := "no link found"
  const NOT_YT_EXTENSION: string := "not yt extension"
  const NO_VIDEO_ID_FOUND: string := "no yt:videoId found"
  const NO_VIDEO_ID_VALUE: string := "no yt:videoId value"

  function Invalid(e: Entry, reason: string): (err: Error)
    ensures err.InvalidFeedEntry? && err.entryId == e.id && err.reason == reason
  {
    InvalidFeedEntry(e.id, reason)
  }

  predicate HasMediaGroup(e: Entry) {
    "media" in e.extensions && "group" in e.extensions["media"]
  }

  /**
   * The accessors take the first `<media:group>` and panic when the list
   * under that name is empty; the feed parser never produces one.
   */
  predicate GroupsNonEmpty(e: Entry) {
    HasMediaGroup(e) ==> |e.extensions["media"]["group"]| > 0
  }

  function MediaGroup(e: Entry): (g: Extension)
    requires HasMediaGroup(e) && GroupsNonEmpty(e)
    ensures g == e.extensions["media"]["group"][0]
  {
    e.extensions["media"]["group"][0]
  }

  /** `media_group_children`: the children named `name` of the first media group. */
  function MediaGroupChildren(e: Entry, name: string): (r: Errors.Result<seq<Extension>>)
    requires GroupsNonEmpty(e)
    ensures r.Ok? <==> HasMediaGroup(e) && name in MediaGroup(e).children
    ensures r.Ok? ==> r.value == MediaGroup(e).children[name]
    ensures "media" !in e.extensions ==> r == Err(Invalid(e, NOT_MEDIA_EXTENSION))
    ensures "media" in e.extensions && !HasMediaGroup(e) ==> r == Err(Invalid(e, NOT_MEDIA_GROUP))
    ensures HasMediaGroup(e) && name !in MediaGroup(e).children ==> r == Err(Invalid(e, NO_MEDIA_GROUP_CHILDREN))
  {
    if "media" !in e.extensions then Err(Invalid(e, NOT_MEDIA_EXTENSION))
    else if "group" !in e.extensions["media"] then Err(Invalid(e, NOT_MEDIA_GROUP))
    else
      var group := e.extensions["media"]["group"][0];
      if name !in group.children then Err(Invalid(e, NO_MEDIA_GROUP_CHILDREN))
      else Ok(group.children[name])
  }

  /** `media_group_child`: the first of those children; an empty list is the same error as a missing name. */
  function MediaGroupChild(e: Entry, name: string): (r: Errors.Result<Extension>)
    requires GroupsNonEmpty(e)
    ensures r.Ok? <==> MediaGroupChildren(e, name).Ok? && |MediaGroupChildren(e, name).value| > 0
    ensures r.Ok? ==> r.value == MediaGroupChildren(e, name).value[0]
    ensures MediaGroupChildren(e, name).Ok? && MediaGroupChildren(e, name).value == [] ==>
      r == Err(Invalid(e, NO_MEDIA_GROUP_CHILDREN))
    ensures MediaGroupChildren(e, name).Err? ==> r == Err(MediaGroupChildren(e, name).error)
  {
    var children :- MediaGroupChildren(e, name);
    if children == [] then Err(Invalid(e, NO_MEDIA_GROUP_CHILDREN)) else Ok(children[0])
  }

  function Description(e: Entry): (r: Errors.Result<string>)
    requires GroupsNonEmpty(e)
    ensures r.Ok? <==> MediaGroupChild(e, "description").Ok? && MediaGroupChild(e, "description").value.value.Some?
    ensures r.Ok? ==> r.value == MediaGroupChild(e, "description").value.value.value
    ensures MediaGroupChild(e, "description").Ok? && r.Err? ==> r == Err(Invalid(e, INVALID_DESCRIPTION))
  {
    var child :- MediaGroupChild(e, "description");
    if child.value.None? then Err(Invalid(e, INVALID_DESCRIPTION)) else Ok(child.value.value)
  }

  /** Indexing the thumbnail's attributes panics on a missing `url`, `width` or `height`. */
  predicate ThumbnailAttrsPresent(e: Entry)
    requires GroupsNonEmpty(e)
  {
    MediaGroupChild(e, "thumbnail").Ok? ==>
      var attrs := MediaGroupChild(e, "thumbnail").value.attrs;
      "url" in attrs && "width" in attrs && "height" in attrs
  }

  /**
   * What reading the description, then the thumbnail, needs to run without
   * a panic: a non-empty media group list, and the thumbnail attributes once
   * the description is there.
   */
  predicate Readable(e: Entry) {
    GroupsNonEmpty(e) && (Description(e).Ok? ==> ThumbnailAttrsPresent(e))
  }

  /** A `u32` dimension; text that does not parse gives 0. */
  function Dimension(text: string): (n: nat)
    ensures n <= U32_MAX
    ensures ParseUnsigned(text, U32_MAX).Some? ==> n == ParseUnsigned(text, U32_MAX).value
    ensures ParseUnsigned(text, U32_MAX).None? ==> n == 0
  {
    ParseUnsigned(text, U32_MAX).GetOr(0)
  }

  function Thumbnail(e: Entry): (r: Errors.Result<Podcast.Thumbnail>)
    requires GroupsNonEmpty(e) && ThumbnailAttrsPresent(e)
    ensures r.Ok? <==> MediaGroupChild(e, "thumbnail").Ok?
    ensures r.Err? ==> r.error == MediaGroupChild(e, "thumbnail").error
    ensures r.Ok? ==>
      var attrs := MediaGroupChild(e, "thumbnail").value.attrs;
      r.value == Podcast.Thumbnail(attrs["url"], Dimension(attrs["width"]), Dimension(attrs["height"]))
  {
    var child :- MediaGroupChild(e, "thumbnail");
    var attrs := child.attrs;
    Ok(Podcast.Thumbnail(attrs["url"], Dimension(attrs["width"]), Dimension(attrs["height"])))
  }

  function EntryLink(e: Entry): (r: Errors.Result<string>)
    ensures r.Ok? <==> e.links != []
    ensures r.Ok? ==> r.value == e.links[0].href
    ensures r.Err? ==> r == Err(Invalid(e, NO_LINK_FOUND))
  {
    if e.links == [] then Err(Invalid(e, NO_LINK_FOUND)) else Ok(e.links[0].href)
  }

  function VideoId(e: Entry): (r: Errors.Result<string>)
    ensures r.Ok? <==>
      && "yt" in e.extensions && "videoId" in e.extensions["yt"]
      && e.extensions["yt"]["videoId"] != []
      && e.extensions["yt"]["videoId"][0].value.Some?
    ensures r.Ok? ==> r.value == e.extensions["yt"]["videoId"][0].value.value
    ensures "yt" !in e.extensions ==> r == Err(Invalid(e, NOT_YT_EXTENSION))
    ensures "yt" in e.extensions && "videoId" !in e.extensions["yt"] ==> r == Err(Invalid(e, NO_VIDEO_ID_FOUND))
    ensures "yt" in e.extensions && "videoId" in e.extensions["yt"] && r.Err? ==> r == Err(Invalid(e, NO_VIDEO_ID_VALUE))
  {
    if "yt" !in e.extensions then Err(Invalid(e, NOT_YT_EXTENSION))
    else if "videoId" !in e.extensions["yt"] then Err(Invalid(e, NO_VIDEO_ID_FOUND))
    else
      var ids := e.extensions["yt"]["videoId"];
      if ids == [] || ids[0].value.None? then Err(Invalid(e, NO_VIDEO_ID_VALUE)) else Ok(ids[0].value.value)
  }

  // ---------------------------------------------------------------------
  // Properties
  // ---------------------------------------------------------------------

  /** An entry carrying one media group whose children are `children`. */
  function WithMediaGroup(e: Entry, group: Extension): (r: Entry)
    ensures HasMediaGroup(r) && GroupsNonEmpty(r) && MediaGroup(r) == group
    ensures r.id == e.id
  {
    e.(extensions := e.extensions["media" := map["group" := [group]]])
  }

  /** The description is the text of the first `<media:description>` of the group. */
  lemma DescriptionIsFirstChild(e: Entry, group: Extension, d: Extension, rest: seq<Extension>)
    requires group.children == map["description" := [d] + rest]
    ensures Description(WithMediaGroup(e, group)) ==
      if d.value.Some? then Ok(d.value.value) else Err(Invalid(e, INVALID_DESCRIPTION))
  {
  }

  /** Only the first `<media:description>` matters; later ones are never inspected. */
  lemma LaterDescriptionsIgnored(e: Entry, group: Extension, d: Extension, rest1: seq<Extension>, rest2: seq<Extension>)
    requires "description" in group.children && group.children["description"] == [d] + rest1
    ensures Description(WithMediaGroup(e, group.(children := group.children["description" := [d] + rest2]))) ==
      Description(WithMediaGroup(e, group))
  {
  }

  /** The video id is the text of the first `<yt:videoId>`; later ones are ignored. */
  lemma VideoIdIsFirst(e: Entry, v: Extension, rest: seq<Extension>)
    requires "yt" in e.extensions && "videoId" in e.extensions["yt"]
    requires e.extensions["yt"]["videoId"] == [v] + rest
    ensures VideoId(e) == if v.value.Some? then Ok(v.value.value) else Err(Invalid(e, NO_VIDEO_ID_VALUE))
  {
  }

  /** Every accessor failure names the entry and is one of the listed reasons. */
  lemma ErrorsNameTheEntry(e: Entry)
    requires GroupsNonEmpty(e) && ThumbnailAttrsPresent(e)
    ensures Description(e).Err? ==> Description(e).error.InvalidFeedEntry? && Description(e).error.entryId == e.id
    ensures Thumbnail(e).Err? ==> Thumbnail(e).error.InvalidFeedEntry? && Thumbnail(e).error.entryId == e.id
    ensures EntryLink(e).Err? ==> EntryLink(e).error.entryId == e.id
    ensures VideoId(e).Err? ==>
      && VideoId(e).error.InvalidFeedEntry? && VideoId(e).error.entryId == e.id
      && VideoId(e).error.reason in {NOT_YT_EXTENSION, NO_VIDEO_ID_FOUND, NO_VIDEO_ID_VALUE}
  {
  }

  /** A thumbnail dimension round-trips through its decimal text. */
  lemma DimensionOfDecimal(n: nat)
    requires n <= U32_MAX
    ensures Dimension(NatToString(n)) == n
  {
    ParseNatToString(n, U32_MAX);
  }
}
