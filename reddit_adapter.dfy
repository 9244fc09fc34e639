/** The Reddit source adapter of src/reddit.ts: media extraction
    (lines 22-91), normalisation (93-113) and the per-subreddit page
    with its date filter (115-153). The HTTP request itself is a parameter. */
module RedditAdapter {
  import opened Common
  import opened Model
  import opened DateWindow
  import opened HtmlEntities

  /** `media_metadata[id].s`: the full-size source of a gallery image. */
  datatype MetaSource = MetaSource(u: Option<string>, x: int, y: int)

  /** One entry of `media_metadata`. */
  datatype MediaMeta = MediaMeta(status: string, s: Option<MetaSource>)

  /** `media.reddit_video`. */
  datatype RedditVideo = RedditVideo(fallbackUrl: string, width: int, height: int)

  /** `media`: only its `reddit_video` member is read. */
  datatype PostMedia = PostMedia(redditVideo: Option<RedditVideo>)

  /** A preview source or one of its resolutions. */
  datatype ImageRef = ImageRef(url: string, width: int, height: int)

  /** One element of `preview.images`; a missing `resolutions` is the empty list. */
  datatype PreviewImage = PreviewImage(source: Option<ImageRef>, resolutions: seq<ImageRef>)

  /** A raw Reddit post (`RedditPost['data']`). Absent booleans are false, an
      absent `thumbnail` is "", absent thumbnail dimensions are 0, and
      `gallery_data.items` is kept as its list of media ids. */
  datatype RedditPost = RedditPost(
    id: string,
    title: string,
    selftext: string,
    author: string,
    subreddit: string,
    createdUtc: int,
    permalink: string,
    url: string,
    postHint: Option<string>,
    isVideo: bool,
    isGallery: bool,
    galleryData: Option<seq<string>>,
    mediaMetadata: Option<map<string, MediaMeta>>,
    media: Option<PostMedia>,
    preview: Option<seq<PreviewImage>>,
    thumbnail: string,
    thumbnailWidth: int,
    thumbnailHeight: int)

  /** The answer of the search endpoint: a non-2xx status or a listing with
      its continuation token. */
  datatype Listing = Failed | Listing(children: seq<RedditPost>, after: Option<string>)

  /** The upstream search endpoint, per subreddit and `after` parameter. */
  type Upstream = (string, Option<string>) -> Listing

  /** The subreddits searched, in the order their results are concatenated. */
  const SUBREDDITS: seq<string> := ["gamedev", "indiegaming", "IndieDev", "screenshotsaturday"]

  const MIN_THUMB_WIDTH: int := 320

  const PERMALINK_PREFIX: string := "https://www.reddit.com"

  // ---------------------------------------------------------------- gallery

  /** `meta?.status === 'valid' && meta.s?.u`. */
  predicate ValidItem(id: string, metadata: map<string, MediaMeta>) {
    && id in metadata
    && metadata[id].status == "valid"
    && metadata[id].s.Some?
    && Truthy(metadata[id].s.value.u)
  }

  function EntryOf(id: string, metadata: map<string, MediaMeta>): GalleryEntry
    requires ValidItem(id, metadata)
  {
    var src := metadata[id].s.value;
    GalleryEntry(DecodeHtmlEntities(src.u.value), src.x, src.y)
  }

  /** The gallery the loop of lines 25-34 builds from the first `|ids|` items. */
  function GalleryOf(ids: seq<string>, metadata: map<string, MediaMeta>): seq<GalleryEntry> {
    if ids == [] then []
    else
      var last := ids[|ids| - 1];
      GalleryOf(ids[..|ids| - 1], metadata)
        + (if ValidItem(last, metadata) then [EntryOf(last, metadata)] else [])
  }

  /** The loop of lines 24-34, pushing one entry per valid item. */
  method CollectGallery(ids: seq<string>, metadata: map<string, MediaMeta>) returns (gallery: seq<GalleryEntry>)
    ensures gallery == GalleryOf(ids, metadata)
  {
    gallery := [];
    var i := 0;
    while i < |ids|
      invariant 0 <= i <= |ids|
      invariant gallery == GalleryOf(ids[..i], metadata)
    {
      assert ids[..i + 1][..i] == ids[..i];
      if ValidItem(ids[i], metadata) {
        gallery := gallery + [EntryOf(ids[i], metadata)];
      }
      i := i + 1;
    }
    assert ids[..|ids|] == ids;
  }

  /** The gallery keeps `gallery_data` order: it is a homomorphism over concatenation. */
  lemma {:induction false} GalleryOfAppend(a: seq<string>, b: seq<string>, metadata: map<string, MediaMeta>)
    ensures GalleryOf(a + b, metadata) == GalleryOf(a, metadata) + GalleryOf(b, metadata)
    decreases |b|
  {
    if b == [] {
      assert a + b == a;
    } else {
      var b' := b[..|b| - 1];
      assert (a + b)[..|a + b| - 1] == a + b';
      assert (a + b)[|a + b| - 1] == b[|b| - 1];
      GalleryOfAppend(a, b', metadata);
    }
  }

  /** An entry is in the gallery exactly when some valid item produces it. */
  lemma {:induction false} GalleryOfMember(ids: seq<string>, metadata: map<string, MediaMeta>, e: GalleryEntry)
    ensures e in GalleryOf(ids, metadata)
        <==> exists i :: 0 <= i < |ids| && ValidItem(ids[i], metadata) && EntryOf(ids[i], metadata) == e
  {
    if ids != [] {
      var init := ids[..|ids| - 1];
      GalleryOfMember(init, metadata, e);
      if exists i :: 0 <= i < |ids| && ValidItem(ids[i], metadata) && EntryOf(ids[i], metadata) == e {
        var i :| 0 <= i < |ids| && ValidItem(ids[i], metadata) && EntryOf(ids[i], metadata) == e;
        if i < |init| {
          assert init[i] == ids[i];
        }
      }
      if exists i :: 0 <= i < |init| && ValidItem(init[i], metadata) && EntryOf(init[i], metadata) == e {
        var i :| 0 <= i < |init| && ValidItem(init[i], metadata) && EntryOf(init[i], metadata) == e;
        assert ids[i] == init[i];
      }
    }
  }

  /** The gallery is empty exactly when no item is valid, and never longer than `gallery_data`. */
  lemma {:induction false} GalleryOfEmpty(ids: seq<string>, metadata: map<string, MediaMeta>)
    ensures |GalleryOf(ids, metadata)| <= |ids|
    ensures GalleryOf(ids, metadata) == [] <==> forall i :: 0 <= i < |ids| ==> !ValidItem(ids[i], metadata)
  {
    if ids != [] {
      var init := ids[..|ids| - 1];
      GalleryOfEmpty(init, metadata);
      assert forall i :: 0 <= i < |init| ==> init[i] == ids[i];
    }
  }

  // ------------------------------------------------------------ thumbnails

  /** `resolutions.find((r) => r.width >= 320)`, as an index. */
  function FirstWide(rs: seq<ImageRef>): (k: Option<nat>)
    ensures k.None? <==> forall i :: 0 <= i < |rs| ==> rs[i].width < MIN_THUMB_WIDTH
    ensures k.Some? ==> k.value < |rs| && rs[k.value].width >= MIN_THUMB_WIDTH
    ensures k.Some? ==> forall j :: 0 <= j < k.value ==> rs[j].width < MIN_THUMB_WIDTH
  {
    if rs == [] then None
    else if rs[0].width >= MIN_THUMB_WIDTH then Some(0)
    else match FirstWide(rs[1..])
      case None => None
      case Some(k) => Some(k + 1)
  }

  /** `find(width >= 320) || resolutions[resolutions.length - 1]`. */
  function ThumbnailRes(rs: seq<ImageRef>): (r: Option<ImageRef>)
    ensures r.None? <==> rs == []
    ensures r.Some? ==> r.value in rs
    ensures (exists i :: 0 <= i < |rs| && rs[i].width >= MIN_THUMB_WIDTH) ==> r == Some(rs[FirstWide(rs).value])
    ensures (forall i :: 0 <= i < |rs| ==> rs[i].width < MIN_THUMB_WIDTH) && rs != [] ==> r == Some(rs[|rs| - 1])
  {
    match FirstWide(rs)
    case Some(k) => Some(rs[k])
    case None => if rs == [] then None else Some(rs[|rs| - 1])
  }

  // ------------------------------------------------------------ bare links

  const IMAGE_EXTENSIONS: seq<string> := ["jpg", "jpeg", "png", "gif", "webp"]

  /** ASCII lower-casing, which is all the `i` flag does for these letters. */
  function LowerAscii(c: char): char {
    if 'A' <= c <= 'Z' then (c as int + 32) as char else c
  }

  /** `t` equals the lower-case word `e` ignoring ASCII case. */
  predicate EqualsIgnoreCase(t: string, e: string) {
    |t| == |e| && forall k :: 0 <= k < |t| ==> LowerAscii(t[k]) == e[k]
  }

  /** The characters `.` does not match. */
  predicate LineTerminator(c: char) {
    c == '\n' || c == '\r' || c == '\U{2028}' || c == '\U{2029}'
  }

  /** `(\?.*)?$`: nothing, or a `?` followed by anything up to the end without a line break. */
  predicate QueryTail(t: string) {
    t == "" || (t[0] == '?' && forall k :: 1 <= k < |t| ==> !LineTerminator(t[k]))
  }

  /** A match of `\.(ext)(\?.*)?$` starting at position `i`. */
  predicate ExtensionAt(s: string, i: int, e: string) {
    && 0 <= i < |s|
    && s[i] == '.'
    && i + 1 + |e| <= |s|
    && EqualsIgnoreCase(s[i + 1..i + 1 + |e|], e)
    && QueryTail(s[i + 1 + |e|..])
  }

  /** `/\.(jpg|jpeg|png|gif|webp)(\?.*)?$/i.test(s)`: some position starts a match. */
  predicate IsImageUrl(s: string) {
    exists i, k :: 0 <= i < |s| && 0 <= k < |IMAGE_EXTENSIONS| && ExtensionAt(s, i, IMAGE_EXTENSIONS[k])
  }

  /** Upper-case extensions and a query string are accepted. */
  lemma ImageUrlWithQuery()
    ensures IsImageUrl("a.PNG?w=1")
  {
    var s := "a.PNG?w=1";
    assert s[2..5] == "PNG";
    assert EqualsIgnoreCase(s[2..5], "png");
    assert s[5..] == "?w=1";
    assert ExtensionAt(s, 1, IMAGE_EXTENSIONS[2]);
  }

  /** An extension followed by a path segment is not a bare image link. */
  lemma NotImageUrlWithPath()
    ensures !IsImageUrl("a.png/b")
  {
    var s := "a.png/b";
    forall i, k | 0 <= i < |s| && 0 <= k < |IMAGE_EXTENSIONS|
      ensures !ExtensionAt(s, i, IMAGE_EXTENSIONS[k])
    {
      if i != 1 {
        assert s[i] != '.';
      } else {
        var e := IMAGE_EXTENSIONS[k];
        if k == 2 {
          assert s[5..][0] == '/';
        } else if i + 1 + |e| <= |s| {
          assert s[2] == 'p';
          assert LowerAscii(s[2..2 + |e|][0]) != e[0];
        }
      }
    }
  }

  // -------------------------------------------------------- extractMedia

  /** First element of `preview.images`, when there is one. */
  function FirstPreview(post: RedditPost): Option<PreviewImage> {
    if post.preview.Some? && |post.preview.value| > 0 then Some(post.preview.value[0]) else None
  }

  /** `post.preview?.images?.[0]?.source`. */
  function PreviewSource(post: RedditPost): Option<ImageRef> {
    if FirstPreview(post).Some? then FirstPreview(post).value.source else None
  }

  /** `post.is_gallery && post.gallery_data && post.media_metadata`. */
  predicate GalleryCase(post: RedditPost) {
    post.isGallery && post.galleryData.Some? && post.mediaMetadata.Some?
  }

  /** `post.is_video && post.media?.reddit_video`. */
  predicate VideoCase(post: RedditPost) {
    post.isVideo && post.media.Some? && post.media.value.redditVideo.Some?
  }

  /** `post.post_hint === 'image' || (post.preview?.images?.[0] && !post.is_video && !post.is_gallery)`. */
  predicate ImageCase(post: RedditPost) {
    post.postHint == Some("image") || (FirstPreview(post).Some? && !post.isVideo && !post.isGallery)
  }

  /** `post.url && /…/i.test(post.url)`. */
  predicate LinkCase(post: RedditPost) {
    post.url != "" && IsImageUrl(post.url)
  }

  /** The gallery the first branch builds, for a post in that branch. */
  function PostGallery(post: RedditPost): seq<GalleryEntry>
    requires GalleryCase(post)
  {
    GalleryOf(post.galleryData.value, post.mediaMetadata.value)
  }

  /** The video thumbnail: the decoded first preview source when its url is truthy, else `post.thumbnail || ''`. */
  function VideoThumbnail(post: RedditPost): (t: string)
    ensures PreviewSource(post).Some? && PreviewSource(post).value.url != ""
      ==> t == DecodeHtmlEntities(PreviewSource(post).value.url)
    ensures !(PreviewSource(post).Some? && PreviewSource(post).value.url != "") ==> t == post.thumbnail
  {
    var src := PreviewSource(post);
    if src.Some? && src.value.url != "" then DecodeHtmlEntities(src.value.url) else post.thumbnail
  }

  /** `extractMedia`: the four branches in order of precedence; a branch that is
      entered and fails returns null without trying the later ones. */
  function ExtractMedia(post: RedditPost): (r: Option<MediaInfo>)
    // 1. gallery
    ensures GalleryCase(post) ==> (r.None? <==> PostGallery(post) == [])
    ensures GalleryCase(post) && r.Some? ==>
      var g := PostGallery(post);
      && r.value.gallery == Some(g)
      && r.value.url == g[0].url && r.value.thumbnail == g[0].url
      && r.value.width == g[0].width && r.value.height == g[0].height
    // 2. video
    ensures !GalleryCase(post) && VideoCase(post) ==>
      var v := post.media.value.redditVideo.value;
      r == Some(MediaInfo(DecodeHtmlEntities(v.fallbackUrl), VideoThumbnail(post), v.width, v.height, None))
    // 3. preview image
    ensures !GalleryCase(post) && !VideoCase(post) && ImageCase(post) ==> (r.None? <==> PreviewSource(post).None?)
    ensures !GalleryCase(post) && !VideoCase(post) && ImageCase(post) && r.Some? ==>
      var src := PreviewSource(post).value;
      var res := ThumbnailRes(FirstPreview(post).value.resolutions);
      && r.value.url == DecodeHtmlEntities(src.url)
      && r.value.thumbnail == (if res.Some? then DecodeHtmlEntities(res.value.url) else r.value.url)
      && r.value.width == src.width && r.value.height == src.height
      && r.value.gallery.None?
    // 4. bare image link
    ensures !GalleryCase(post) && !VideoCase(post) && !ImageCase(post) ==>
      r == if LinkCase(post)
           then Some(MediaInfo(post.url, post.url, post.thumbnailWidth, post.thumbnailHeight, None))
           else None
    // only the gallery branch produces a gallery
    ensures r.Some? && r.value.gallery.Some? ==> GalleryCase(post) && r.value.gallery.value != []
  {
    if GalleryCase(post) then
      var g := PostGallery(post);
      if g == [] then None
      else Some(MediaInfo(g[0].url, g[0].url, g[0].width, g[0].height, Some(g)))
    else if VideoCase(post) then
      var v := post.media.value.redditVideo.value;
      Some(MediaInfo(DecodeHtmlEntities(v.fallbackUrl), VideoThumbnail(post), v.width, v.height, None))
    else if ImageCase(post) then
      match PreviewSource(post)
      case None => None
      case Some(src) =>
        var url := DecodeHtmlEntities(src.url);
        var res := ThumbnailRes(FirstPreview(post).value.resolutions);
        Some(MediaInfo(url, if res.Some? then DecodeHtmlEntities(res.value.url) else url, src.width, src.height, None))
    else if LinkCase(post) then
      Some(MediaInfo(post.url, post.url, post.thumbnailWidth, post.thumbnailHeight, None))
    else None
  }

  // ------------------------------------------------------- normalizePost

  /** The `mediaType` rule of lines 98-100. */
  function MediaTypeOf(post: RedditPost, media: MediaInfo): MediaType {
    if post.isVideo then Video
    else if post.isGallery && media.gallery.Some? then Gallery
    else Image
  }

  /** `normalizePost`. */
  function Normalize(post: RedditPost): (r: Option<NormalizedPost>)
    ensures r.None? <==> ExtractMedia(post).None?
    ensures r.Some? ==>
      var p := r.value;
      && p.media == ExtractMedia(post).value
      && p.mediaType == MediaTypeOf(post, p.media)
      && p.id == post.id && p.title == post.title && p.author == post.author
      && p.subreddit == post.subreddit && p.date == post.createdUtc
      && p.description <= post.selftext
      && |p.description| == (if |post.selftext| < 200 then |post.selftext| else 200)
      && p.permalink == PERMALINK_PREFIX + post.permalink
      && p.source.None?
  {
    match ExtractMedia(post)
    case None => None
    case Some(media) =>
      Some(NormalizedPost(
        id := post.id,
        title := post.title,
        description := Take(post.selftext, 200),
        author := post.author,
        subreddit := post.subreddit,
        date := post.createdUtc,
        permalink := PERMALINK_PREFIX + post.permalink,
        mediaType := MediaTypeOf(post, media),
        media := media,
        source := None))
  }

  /** A post is labelled `gallery` exactly when it carries a gallery and is not a video;
      a post flagged both `is_gallery` and `is_video` keeps its gallery but is labelled `video`. */
  lemma GalleryLabel(post: RedditPost)
    requires Normalize(post).Some?
    ensures var p := Normalize(post).value;
      p.mediaType == Gallery <==> p.media.gallery.Some? && !post.isVideo
    ensures var p := Normalize(post).value;
      p.mediaType == Gallery ==> p.media.gallery.value != [] && p.media.url == p.media.gallery.value[0].url
  {
  }

  /** A post that is both a gallery and a video: the media is the gallery, the label says `video`. */
  lemma VideoLabelledGallery(meta: MediaMeta)
    requires meta == MediaMeta("valid", Some(MetaSource(Some("u"), 4, 3)))
    ensures var post := RedditPost("id", "t", "", "a", "gamedev", 100, "/r/x", "", None, true, true,
                                   Some(["m"]), Some(map["m" := meta]), None, None, "", 0, 0);
      && Normalize(post).Some?
      && Normalize(post).value.mediaType == Video
      && Normalize(post).value.media.gallery == Some([GalleryEntry("u", 4, 3)])
  {
    var ids := ["m"];
    var md := map["m" := meta];
    assert ids[..0] == [];
    assert GalleryOf(ids, md) == [EntryOf("m", md)];
    DecodeWithoutAmpersand("u");
  }

  // ------------------------------------------------------ fetchSubreddit

  /** The page `fetchSubreddit` returns, as a function of what the endpoint answered. */
  function SubredditPage(sub: string, after: Option<string>, dateFrom: Bound, dateTo: Bound, upstream: Upstream): SourcePage {
    match upstream(sub, OrNull(after))
    case Failed => SourcePage([], None)
    case Listing(children, next) => SourcePage(Kept(children, Normalize, dateFrom, dateTo), next)
  }

  /** The loop of lines 144-150. */
  method FilterChildren(children: seq<RedditPost>, dateFrom: Bound, dateTo: Bound) returns (posts: seq<NormalizedPost>)
    ensures posts == Kept(children, Normalize, dateFrom, dateTo)
    ensures forall p :: p in posts ==> InWindow(p.date, dateFrom, dateTo)
  {
    posts := [];
    var i := 0;
    while i < |children|
      invariant 0 <= i <= |children|
      invariant posts == Kept(children[..i], Normalize, dateFrom, dateTo)
    {
      KeptStep(children, i, Normalize, dateFrom, dateTo);
      var normalized := Normalize(children[i]);
      if normalized.Some? && InWindow(normalized.value.date, dateFrom, dateTo) {
        posts := posts + [normalized.value];
      }
      i := i + 1;
    }
    assert children[..|children|] == children;
    KeptInWindow(children, Normalize, dateFrom, dateTo);
  }

  /** `fetchSubreddit`: the request carries `after` only when it is truthy; a failed
      request gives an empty, exhausted page; otherwise the filtered children and the listing's `after`. */
  method FetchSubreddit(sub: string, after: Option<string>, dateFrom: Bound, dateTo: Bound, upstream: Upstream)
    returns (page: SourcePage)
    ensures page == SubredditPage(sub, after, dateFrom, dateTo, upstream)
    ensures upstream(sub, OrNull(after)).Failed? ==> page == SourcePage([], None)
    ensures upstream(sub, OrNull(after)).Listing? ==> page.after == upstream(sub, OrNull(after)).after
    ensures forall p :: p in page.posts ==> InWindow(p.date, dateFrom, dateTo)
  {
    var param := if Truthy(after) then after else None;
    var json := upstream(sub, param);
    if json.Failed? {
      return SourcePage([], None);
    }
    var posts := FilterChildren(json.children, dateFrom, dateTo);
    page := SourcePage(posts, json.after);
  }
}
