/** The Bluesky source adapter of src/bluesky.ts: media extraction from the
    embed views (lines 18-80), normalisation (82-104) and the search page with
    its date filter (106-147). The HTTP request itself is a parameter. */
module BlueskyAdapter {
  import opened Common
  import opened Model
  import opened DateWindow

  datatype AspectRatio = AspectRatio(width: int, height: int)

  /** One image of an `app.bsky.embed.images#view`. */
  datatype ImageView = ImageView(thumb: string, fullsize: string, alt: Option<string>, aspectRatio: Option<AspectRatio>)

  /** An embed view, read through the members the adapter looks at:
      `$type`, `images`, `thumbnail`, `playlist`, `aspectRatio` and, for a
      record-with-media view, the wrapped `media` view. */
  datatype Embed = Embed(
    typ: string,
    images: Option<seq<ImageView>>,
    thumbnail: Option<string>,
    playlist: Option<string>,
    aspectRatio: Option<AspectRatio>,
    media: Option<Embed>)

  /** `{ media, mediaType }`, what extraction yields. */
  datatype Extracted = Extracted(media: MediaInfo, mediaType: MediaType)

  datatype Author = Author(did: string, handle: string, displayName: Option<string>)

  /** The post record; `createdAt` is already the creation time in Unix seconds. */
  datatype PostRecord = PostRecord(text: Option<string>, createdAt: int)

  datatype BlueskyPost = BlueskyPost(uri: string, cid: string, author: Author, record: PostRecord, embed: Option<Embed>)

  /** The answer of the search endpoint: a failed request or the posts with the continuation cursor. */
  datatype SearchResult = Failed | Found(posts: seq<BlueskyPost>, cursor: Option<string>)

  /** The upstream search endpoint, per `cursor` parameter. */
  type Upstream = Option<string> -> SearchResult

  const IMAGES_VIEW: string := "app.bsky.embed.images#view"
  const VIDEO_VIEW: string := "app.bsky.embed.video#view"
  const RECORD_WITH_MEDIA_VIEW: string := "app.bsky.embed.recordWithMedia#view"

  const DEFAULT_TITLE: string := "Bluesky Post"
  const PERMALINK_PREFIX: string := "https://bsky.app/profile/"
  const ID_PREFIX: string := "bsky_"

  // ------------------------------------------------------ extractFromImages

  /** `aspectRatio?.width || 0`. */
  function WidthOf(ar: Option<AspectRatio>): int {
    if ar.Some? then ar.value.width else 0
  }

  /** `aspectRatio?.height || 0`. */
  function HeightOf(ar: Option<AspectRatio>): int {
    if ar.Some? then ar.value.height else 0
  }

  function EntryOf(img: ImageView): GalleryEntry {
    GalleryEntry(img.fullsize, WidthOf(img.aspectRatio), HeightOf(img.aspectRatio))
  }

  /** The well-formedness every extracted attachment has: a gallery exactly
      when it is labelled one, of at least two images, led by the image shown
      in the grid; a video with a thumbnail and something to play. */
  predicate WellFormed(x: Extracted) {
    && (x.mediaType == Gallery <==> x.media.gallery.Some?)
    && (x.media.gallery.Some? ==>
          var g := x.media.gallery.value;
          |g| > 1 && x.media.url == g[0].url && x.media.width == g[0].width && x.media.height == g[0].height)
    && (x.mediaType == Video ==> x.media.thumbnail != "" && x.media.url != "")
  }

  /** `extractFromImages`: nothing for no images; the first image as an image,
      or, with more than one, as the cover of a gallery of all of them in order. */
  function ExtractFromImages(images: seq<ImageView>): (r: Option<Extracted>)
    ensures r.None? <==> images == []
    ensures r.Some? ==>
      var m := r.value.media;
      && m.url == images[0].fullsize && m.thumbnail == images[0].thumb
      && m.width == WidthOf(images[0].aspectRatio) && m.height == HeightOf(images[0].aspectRatio)
    ensures r.Some? ==> (r.value.mediaType == Gallery <==> |images| > 1)
    ensures r.Some? ==> r.value.mediaType != Video
    ensures r.Some? && |images| > 1 ==>
      var g := r.value.media.gallery;
      g.Some? && |g.value| == |images| && forall i :: 0 <= i < |images| ==> g.value[i] == EntryOf(images[i])
    ensures r.Some? && |images| == 1 ==> r.value.media.gallery.None?
    ensures r.Some? ==> WellFormed(r.value)
  {
    if |images| == 0 then None
    else
      var first := images[0];
      var width := WidthOf(first.aspectRatio);
      var height := HeightOf(first.aspectRatio);
      if |images| > 1 then
        var gallery := seq(|images|, i requires 0 <= i < |images| => EntryOf(images[i]));
        Some(Extracted(MediaInfo(first.fullsize, first.thumb, width, height, Some(gallery)), Gallery))
      else
        Some(Extracted(MediaInfo(first.fullsize, first.thumb, width, height, None), Image))
  }

  // ------------------------------------------------------------ extractMedia

  predicate ImagesCase(e: Embed) {
    e.typ == IMAGES_VIEW && e.images.Some? && |e.images.value| > 0
  }

  predicate VideoCase(e: Embed) {
    e.typ == VIDEO_VIEW && Truthy(e.thumbnail)
  }

  predicate WrapperCase(e: Embed) {
    e.typ == RECORD_WITH_MEDIA_VIEW && e.media.Some?
  }

  /** `extractMedia`: an images view, a video view with a thumbnail, or a
      record-with-media view whose wrapped view is extracted in turn. */
  function ExtractMedia(embed: Option<Embed>): (r: Option<Extracted>)
    ensures embed.None? ==> r.None?
    ensures embed.Some? && ImagesCase(embed.value) ==> r == ExtractFromImages(embed.value.images.value)
    ensures embed.Some? && VideoCase(embed.value) ==>
      var e := embed.value;
      r.Some? && r.value.mediaType == Video && r.value.media.gallery.None?
      && r.value.media.thumbnail == e.thumbnail.value
      && r.value.media.url == OrElse(e.playlist, e.thumbnail.value)
      && r.value.media.width == WidthOf(e.aspectRatio) && r.value.media.height == HeightOf(e.aspectRatio)
    ensures embed.Some? && WrapperCase(embed.value) ==> r == ExtractMedia(embed.value.media)
    ensures embed.Some? && !ImagesCase(embed.value) && !VideoCase(embed.value) && !WrapperCase(embed.value) ==> r.None?
    ensures r.Some? ==> WellFormed(r.value)
    decreases embed
  {
    match embed
    case None => None
    case Some(e) =>
      if ImagesCase(e) then ExtractFromImages(e.images.value)
      else if VideoCase(e) then
        var thumbnail := e.thumbnail.value;
        var media := MediaInfo(OrElse(e.playlist, thumbnail), thumbnail, WidthOf(e.aspectRatio), HeightOf(e.aspectRatio), None);
        Some(Extracted(media, Video))
      else if WrapperCase(e) then ExtractMedia(e.media)
      else None
  }

  /** A record-with-media view is transparent however deeply it is nested. */
  lemma WrapperTransparent(inner: Embed, depth: nat)
    ensures ExtractMedia(Some(Wrap(inner, depth))) == ExtractMedia(Some(inner))
  {
    if depth > 0 {
      WrapperTransparent(inner, depth - 1);
    }
  }

  /** `inner` wrapped in `depth` record-with-media views. */
  function Wrap(inner: Embed, depth: nat): Embed {
    if depth == 0 then inner
    else Embed(RECORD_WITH_MEDIA_VIEW, None, None, None, None, Some(Wrap(inner, depth - 1)))
  }

  // ----------------------------------------------------------- normalizePost

  /** The last `/`-separated segment of `s`, `s.split('/').at(-1)`. */
  function LastSegment(s: string): (r: string)
    ensures '/' !in r
    ensures |r| <= |s| && s[|s| - |r|..] == r
    ensures |r| < |s| ==> s[|s| - |r| - 1] == '/'
  {
    if s == [] then []
    else if s[|s| - 1] == '/' then []
    else
      var init := s[..|s| - 1];
      var r := LastSegment(init);
      assert s[|s| - |r| - 1..] == init[|init| - |r|..] + [s[|s| - 1]];
      r + [s[|s| - 1]]
  }

  /** `text?.slice(0, n)`. */
  function Sliced(text: Option<string>, n: nat): (r: Option<string>)
    ensures r.Some? <==> text.Some?
    ensures r.Some? ==> r.value <= text.value && |r.value| == if |text.value| < n then |text.value| else n
  {
    if text.Some? then Some(Take(text.value, n)) else None
  }

  /** `text?.slice(0, 120) || 'Bluesky Post'`: a non-empty text gives its first
      120 characters, a missing or empty one the fixed title. */
  function Title(text: Option<string>): (t: string)
    ensures Truthy(text) ==> t <= text.value && |t| == (if |text.value| < 120 then |text.value| else 120) && t != ""
    ensures !Truthy(text) ==> t == DEFAULT_TITLE
  {
    OrElse(Sliced(text, 120), DEFAULT_TITLE)
  }

  /** `text?.slice(0, 200) || ''`. */
  function Description(text: Option<string>): (d: string)
    ensures text.Some? ==> d <= text.value && |d| == if |text.value| < 200 then |text.value| else 200
    ensures text.None? ==> d == ""
  {
    OrElse(Sliced(text, 200), "")
  }

  /** `https://bsky.app/profile/${handle}/post/${rkey}` with the record key taken from the URI. */
  function Permalink(handle: string, uri: string): string {
    PERMALINK_PREFIX + handle + "/post/" + LastSegment(uri)
  }

  /** `normalizePost`: nothing without extractable media; otherwise a post
      prefixed `bsky_`, titled and described by its text, attributed to the
      display name or else the handle, and linked to its web page. */
  function Normalize(post: BlueskyPost): (r: Option<NormalizedPost>)
    ensures r.None? <==> ExtractMedia(post.embed).None?
    ensures r.Some? ==>
      var p := r.value;
      && p.media == ExtractMedia(post.embed).value.media
      && p.mediaType == ExtractMedia(post.embed).value.mediaType
      && p.id == ID_PREFIX + post.cid
      && p.subreddit == "bsky"
      && p.source == Some(Bluesky)
      && p.date == post.record.createdAt
      && p.author == OrElse(post.author.displayName, post.author.handle)
      && p.permalink == Permalink(post.author.handle, post.uri)
      && p.title == Title(post.record.text)
      && p.description == Description(post.record.text)
  {
    match ExtractMedia(post.embed)
    case None => None
    case Some(extracted) =>
      Some(NormalizedPost(
        id := ID_PREFIX + post.cid,
        title := Title(post.record.text),
        description := Description(post.record.text),
        author := OrElse(post.author.displayName, post.author.handle),
        subreddit := "bsky",
        date := post.record.createdAt,
        permalink := Permalink(post.author.handle, post.uri),
        mediaType := extracted.mediaType,
        media := extracted.media,
        source := Some(Bluesky)))
  }

  /** Whatever precedes it, a slash-free key after the last `/` is the record key. */
  lemma RecordKey(prefix: string, key: string)
    requires '/' !in key
    ensures LastSegment(prefix + "/" + key) == key
  {
    var s := prefix + "/" + key;
    var r := LastSegment(s);
    assert s[|s| - |key| - 1] == '/';
    assert s[|s| - |key|..] == key;
  }

  // ------------------------------------------------------- fetchBlueskyPosts

  /** The page `fetchBlueskyPosts` returns, as a function of what the endpoint answered. */
  function SearchPage(cursor: Option<string>, dateFrom: Bound, dateTo: Bound, upstream: Upstream): SourcePage {
    match upstream(OrNull(cursor))
    case Failed => SourcePage([], None)
    case Found(posts, next) => SourcePage(Kept(posts, Normalize, dateFrom, dateTo), OrNull(next))
  }

  /** The loop of lines 138-144. */
  method FilterPosts(items: seq<BlueskyPost>, dateFrom: Bound, dateTo: Bound) returns (posts: seq<NormalizedPost>)
    ensures posts == Kept(items, Normalize, dateFrom, dateTo)
    ensures forall p :: p in posts ==> InWindow(p.date, dateFrom, dateTo) && p.source == Some(Bluesky)
  {
    posts := [];
    var i := 0;
    while i < |items|
      invariant 0 <= i <= |items|
      invariant posts == Kept(items[..i], Normalize, dateFrom, dateTo)
    {
      KeptStep(items, i, Normalize, dateFrom, dateTo);
      var normalized := Normalize(items[i]);
      if normalized.Some? && InWindow(normalized.value.date, dateFrom, dateTo) {
        posts := posts + [normalized.value];
      }
      i := i + 1;
    }
    assert items[..|items|] == items;
    KeptFromBluesky(items, dateFrom, dateTo);
  }

  /** Every post the filter keeps lies in the window and comes from Bluesky. */
  lemma KeptFromBluesky(items: seq<BlueskyPost>, dateFrom: Bound, dateTo: Bound)
    ensures forall p :: p in Kept(items, Normalize, dateFrom, dateTo) ==> InWindow(p.date, dateFrom, dateTo) && p.source == Some(Bluesky)
  {
    KeptInWindow(items, Normalize, dateFrom, dateTo);
    forall p | p in Kept(items, Normalize, dateFrom, dateTo) ensures p.source == Some(Bluesky) {
      KeptMember(items, Normalize, dateFrom, dateTo, p);
    }
  }

  /** `fetchBlueskyPosts`: the request carries the cursor only when it is
      truthy; a failed request gives an empty, exhausted page; otherwise the
      filtered posts and the cursor, an empty one read as none. */
  method FetchBlueskyPosts(cursor: Option<string>, dateFrom: Bound, dateTo: Bound, upstream: Upstream)
    returns (page: SourcePage)
    ensures page == SearchPage(cursor, dateFrom, dateTo, upstream)
    ensures upstream(OrNull(cursor)).Failed? ==> page == SourcePage([], None)
    ensures upstream(OrNull(cursor)).Found? ==> page.after == OrNull(upstream(OrNull(cursor)).cursor)
    ensures page.after.Some? ==> page.after.value != ""
    ensures forall p :: p in page.posts ==> InWindow(p.date, dateFrom, dateTo) && p.source == Some(Bluesky)
  {
    var param := if Truthy(cursor) then cursor else None;
    var json := upstream(param);
    if json.Failed? {
      return SourcePage([], None);
    }
    var posts := FilterPosts(json.posts, dateFrom, dateTo);
    var after := if Truthy(json.cursor) then json.cursor else None;
    page := SourcePage(posts, after);
  }
}
