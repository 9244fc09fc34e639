/** The canonical data model of src/types.ts: one media attachment, the
    normalised post every adapter produces, and the page the API returns. */
module Model {
  import opened Common

  datatype MediaType = Image | Video | Gallery

  datatype Source = Reddit | Bluesky

  /** One image of a multi-image post. */
  datatype GalleryEntry = GalleryEntry(url: string, width: int, height: int)

  /** `MediaInfo`: width and height are pixels, 0 when unknown. */
  datatype MediaInfo = MediaInfo(
    url: string,
    thumbnail: string,
    width: int,
    height: int,
    gallery: Option<seq<GalleryEntry>>)

  /** `NormalizedPost`. `source` is optional because the Reddit adapter never sets it. */
  datatype NormalizedPost = NormalizedPost(
    id: string,
    title: string,
    description: string,
    author: string,
    subreddit: string,
    date: int,
    permalink: string,
    mediaType: MediaType,
    media: MediaInfo,
    source: Option<Source>)

  /** What one source adapter returns for one page: `{ posts, after }`. */
  datatype SourcePage = SourcePage(posts: seq<NormalizedPost>, after: Option<string>)

  /** `ApiResponse`, the page the aggregator hands to its caller. */
  datatype ApiResponse = ApiResponse(posts: seq<NormalizedPost>, nextCursor: Option<string>, hasMore: bool)
}
