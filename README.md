# Screenshot Saturday feed — a Dafny model

This project models the core of a feed aggregator for "Screenshot Saturday" game-development
posts. The model has three parts:

- **Server, Reddit.** It searches four subreddits and turns each raw Reddit post that carries
  an image, a video or a gallery into a `NormalizedPost`. It keeps the posts inside an optional
  date window, merges the four pages newest first, and hands back one opaque composite cursor
  (base64 over JSON) for the next page.
- **Server, Bluesky.** A second adapter normalises and date-filters the posts of a Bluesky
  hashtag search the same way, and passes the service's own cursor through.
- **Browser.** The client keeps a small `state` object. It loads further pages, deduplicates
  them by id, resets the feed when the date filter changes, and drives a post viewer
  (`modalIndex` / `galleryIndex`) from clicks and the keyboard.

The modules follow the source files:

| module | file | models |
|---|---|---|
| `Common` | common.dfy | `Option`, `s.slice(0, n)`, string truthiness and its two fallbacks |
| `Model` | model.dfy | the records of src/types.ts |
| `DateWindow` | date_window.dfy | the date-bound guards both adapters share |
| `HtmlEntities` | html_entities.dfy | `decodeHtmlEntities` |
| `RedditAdapter` | reddit_adapter.dfy | `extractMedia`, `normalizePost`, `fetchSubreddit` |
| `Base64` | base64.dfy | `btoa` and the forgiving `atob` (RFC 4648 section 4; the WHATWG forgiving-base64 decode) |
| `CursorJson` | cursor_json.dfy | `JSON.stringify` / `JSON.parse` for an object whose values are strings |
| `CursorCodec` | cursor_codec.dfy | the composite cursor of `fetchPosts` |
| `PostOrder` | post_order.dfy | the stable newest-first sort |
| `Aggregator` | aggregator.dfy | `fetchPosts` |
| `BlueskyAdapter` | bluesky_adapter.dfy | `extractFromImages`, `extractMedia`, `normalizePost`, `fetchBlueskyPosts` |
| `FeedClient` | feed_client.dfy | the client's `state` and handlers, as the class `Feed` |

Every HTTP request is a function parameter: `RedditAdapter.Upstream`,
`BlueskyAdapter.Upstream` and `FeedClient.Api`. It maps the request's parameters either to a
response or to a failure. The client's clock is the argument `now`. JavaScript truthiness is
written out everywhere: an empty string counts as absent, and a date bound of 0 counts as no
bound.

Behaviour of the code worth noting:

- For a single preview image, the code picks the first resolution at least 320 px wide, or
  else the last resolution, as the thumbnail (src/reddit.ts:69), not the smallest or the
  largest.
- A post with a gallery is not always labelled `gallery`. The code labels a
  Reddit post flagged both `is_gallery` and `is_video` as `video`, though it keeps its gallery
  (src/reddit.ts:23-44, 99). `RedditAdapter.VideoLabelledGallery` exhibits such a post.
- Reddit posts never set `source` (src/reddit.ts:102-112).
- A subreddit enters the next cursor only when its `after` is truthy (src/reddit.ts:183). An
  empty string counts as absent there.
- `fetchPosts` queries only the four subreddits. The Bluesky adapter exists but is not called
  from it.
- An exhausted subreddit is not left out of later rounds. Missing from the cursor, it is
  queried again from its first page (`Aggregator.ResumeFromCursor`). This is why the client
  deduplicates by id.

## Model

| member | source | states |
|---|---|---|
| Common.Take | src/reddit.ts:105 | `slice(0, n)` has length min(len(s), n) and is a prefix of `s` |
| HtmlEntities.ReplaceAllAbsent | src/reddit.ts:15-19 | a global replacement leaves alone a string without the pattern's first character |
| HtmlEntities.ReplaceAllNoMatch | src/reddit.ts:15-19 | a global replacement leaves alone a string in which the pattern never occurs |
| HtmlEntities.ReplaceAllShortens | src/reddit.ts:15-19 | replacing with text no longer than the pattern never lengthens the string |
| HtmlEntities.DecodeWithoutAmpersand | src/reddit.ts:13-20 | text without `&` decodes to itself |
| HtmlEntities.DecodeShortens | src/reddit.ts:13-20 | decoding never lengthens a string |
| HtmlEntities.DecodeDoublyEscaped | src/reddit.ts:15-16 | since `&amp;` is replaced first, `&amp;lt;` decodes all the way to `<` |
| HtmlEntities.DecodeQuerySeparator | src/reddit.ts:15 | `a&amp;b` decodes to `a&b` |
| HtmlEntities.EscapeAmpersands | src/reddit.ts:15 | an independent reference definition, escaping every `&` as `&amp;`, against which `UnescapeAmpersands` proves the first replacement an exact inverse |
| HtmlEntities.UnescapeAmpersands | src/reddit.ts:15 | the first replacement exactly undoes the escaping of every `&` as `&amp;` |
| HtmlEntities.DecodeEscaped | src/reddit.ts:13-20 | the decoder restores any escaped URL in which none of the other four entities occurs |
| DateWindow.KeptInWindow | src/reddit.ts:147-148 | every kept post satisfies `date >= dateFrom` and `date <= dateTo` for each truthy bound |
| DateWindow.KeptAppend | src/reddit.ts:144-150 | filtering a concatenation concatenates the filtered parts, so input order is kept |
| DateWindow.KeptMember | src/reddit.ts:144-150 | a post is kept iff some item normalises to it and it lies in the window |
| DateWindow.KeptUnbounded | src/reddit.ts:147-148 | bounds that are absent or 0 filter exactly as no bounds at all, so only the items that do not normalise are dropped; when every item normalises, all are kept, one to one and in order |
| RedditAdapter.CollectGallery | src/reddit.ts:24-34 | the gallery loop pushes exactly the entries `GalleryOf` describes |
| RedditAdapter.GalleryOfAppend | src/reddit.ts:25-34 | the gallery follows `gallery_data` order (it respects concatenation) |
| RedditAdapter.GalleryOfMember | src/reddit.ts:26-33 | an entry is in the gallery iff some item has metadata with status `valid` and a truthy source URL, whose decoded URL and size it carries |
| RedditAdapter.GalleryOfEmpty | src/reddit.ts:25-35 | the gallery is no longer than `gallery_data` and is empty iff no item is valid |
| RedditAdapter.FirstWide | src/reddit.ts:69 | `find(r => r.width >= 320)`: absent iff every resolution is narrower; otherwise the first index that is wide enough |
| RedditAdapter.ThumbnailRes | src/reddit.ts:67-69 | the first resolution at least 320 wide, else the last resolution, else none; always one of the resolutions |
| RedditAdapter.ImageUrlWithQuery | src/reddit.ts:80 | the extension test ignores case and allows a query string |
| RedditAdapter.NotImageUrlWithPath | src/reddit.ts:80 | an extension followed by a path segment is not accepted |
| RedditAdapter.ExtractMedia | src/reddit.ts:22-91 | gallery, video, preview image and bare image link, in that precedence; a gallery or preview branch that is entered and fails gives null without trying later branches; the fields of each result as the code builds them |
| RedditAdapter.Normalize | src/reddit.ts:93-113 | null exactly when extraction is; id, title, author, subreddit and date copied; description the first min(len(selftext), 200) characters of `selftext`; permalink prefixed with `https://www.reddit.com`; no `source` |
| RedditAdapter.GalleryLabel | src/reddit.ts:98-100 | labelled `gallery` iff the media has a gallery and the post is not a video; such a gallery is non-empty and leads with the top-level URL |
| RedditAdapter.VideoLabelledGallery | src/reddit.ts:23-44 | a post flagged both gallery and video is labelled `video` and keeps its gallery |
| RedditAdapter.FilterChildren | src/reddit.ts:142-150 | the loop pushes exactly the kept children, all in the window |
| RedditAdapter.FetchSubreddit | src/reddit.ts:115-153 | `after` is sent only when truthy; a non-2xx answer gives an empty page with no `after`; otherwise the filtered children and the listing's `after` |
| Base64.Unpadded | src/reddit.ts:191 | the unpadded encoding uses only alphabet characters: four per full group of three bytes, then two or three for a final partial group |
| Base64.UnpaddedMod | src/reddit.ts:191 | the unpadded length leaves 0, 2 or 3 over a multiple of four, never 1 |
| Base64.EncodeStripPadding | src/reddit.ts:165-191 | the forgiving decoder's padding removal undoes exactly the padding `btoa` adds |
| Base64.Btoa | src/reddit.ts:191 | `btoa` output has a length that is a multiple of 4 |
| Base64.Atob | src/reddit.ts:165 | what `atob` yields is a binary string |
| Base64.AtobBtoa | src/reddit.ts:165 | `atob(btoa(s)) == s` for every binary string |
| Base64.AtobRejectsForeign | src/reddit.ts:165 | a character that is neither whitespace, `=` nor a digit makes `atob` throw |
| CursorJson.Parse | src/reddit.ts:165 | whatever the parser accepts is a well-formed object text, namely the serialisation of its result |
| CursorJson.ParseStringify | src/reddit.ts:165 | `JSON.parse(JSON.stringify(es))` gives back `es` |
| CursorCodec.ToMap | src/reddit.ts:166 | the keys of the object built by `Object.assign` are exactly the member names |
| CursorCodec.ToMapDistinct | src/reddit.ts:166 | with distinct names, every member is found under its own name |
| CursorCodec.EncodeCursor | src/reddit.ts:191 | the encoded cursor is never empty, so the next request carries it |
| CursorCodec.DecodeCursor | src/reddit.ts:162-171 | an absent or empty `after` gives the empty map |
| CursorCodec.CursorRoundTrip | src/reddit.ts:162-171 | reading an emitted cursor back gives the map it encoded |
| CursorCodec.BareTokenFallback | src/reddit.ts:167-170 | a token with a non-base64 character (such as `t3_abc`) is `{gamedev: token}` |
| CursorCodec.NonJsonFallback | src/reddit.ts:165-170 | a token that decodes to text no JSON value can begin with is `{gamedev: token}` |
| CursorCodec.AtobClean | src/reddit.ts:165 | clean base64 text of length 3 modulo 4 decodes, with its first byte made of its first two digits |
| CursorCodec.LegacyTokenBytes | src/reddit.ts:165 | `atob("rawToken123")` succeeds and starts with byte 0xAD |
| CursorCodec.LegacyTokenFallback | src/reddit.ts:162-171 | the legacy cursor `rawToken123` resumes the first subreddit |
| PostOrder.InsertSorted | src/reddit.ts:189 | inserting into a newest-first list keeps it newest first |
| PostOrder.InsertPermutes | src/reddit.ts:189 | insertion is a permutation |
| PostOrder.InsertStable | src/reddit.ts:189 | insertion keeps the relative order of equal dates |
| PostOrder.SortCorrect | src/reddit.ts:189 | the sort is newest first, a permutation, and stable (for every date, the posts of that date keep their order) |
| PostOrder.SortUnique | src/reddit.ts:189 | those three properties determine the result |
| PostOrder.TwoSourceExample | src/reddit.ts:181-189 | pages dated [100, 50] and [75] merge to [100, 75, 50] |
| Aggregator.Results | src/reddit.ts:173-175 | one page per subreddit, each queried with its own slice of the decoded cursor |
| Aggregator.ConcatMember | src/reddit.ts:182 | a post is in the concatenation iff it is in some page |
| Aggregator.NextEntriesMember | src/reddit.ts:183-186 | an entry `(sub, token)` is in `nextCursors` iff that subreddit's page returned the truthy `after` token |
| Aggregator.NextEntriesDistinct | src/reddit.ts:183-186 | `nextCursors` names each subreddit once |
| Aggregator.NextEntriesEmpty | src/reddit.ts:181-188 | `nextCursors` is empty (so `hasMore` is false) iff no page returned a truthy `after` |
| Aggregator.NextMapExact | src/reddit.ts:181-186 | the next-cursor map has exactly the subreddits with a truthy `after`, each mapped to that token |
| Aggregator.NextCursorExact | src/reddit.ts:181-191 | the same holds for the map the next request decodes from the emitted cursor |
| Aggregator.SingleContinuation | src/reddit.ts:181-191 | when only one subreddit continues, the next cursor decodes to that single entry |
| Aggregator.ResumeFromCursor | src/reddit.ts:162-191 | following the emitted cursor, each subreddit resumes from its own token, and the others restart from their first page |
| Aggregator.ResultsInWindow | src/reddit.ts:173-175 | every post of every page lies in the requested window |
| Aggregator.FetchPages | src/reddit.ts:173-175 | one `fetchSubreddit` per subreddit in order, each with its own entry of the decoded cursor |
| Aggregator.CollectPages | src/reddit.ts:181-188 | the loop appends every page's posts in order, records one entry per truthy `after`, and sets `hasMore` iff there is one |
| Aggregator.SortedPages | src/reddit.ts:182-189 | no page's post is lost by the sort, and every sorted post lies in the window |
| Aggregator.FetchPosts | src/reddit.ts:155-194 | posts newest first, a stable permutation of the concatenated pages, all in the window, none of any page's posts lost; `hasMore` iff some page returned a truthy `after`; `nextCursor` absent iff not `hasMore`, else the encoding of `nextCursors` |
| BlueskyAdapter.ExtractFromImages | src/bluesky.ts:18-50 | no images give null; one image gives `image` with no gallery; several give `gallery`, with every image in order; the URL, thumbnail and size come from the first image, and a missing aspect ratio means 0 |
| BlueskyAdapter.ExtractMedia | src/bluesky.ts:53-80 | an images view delegates to `ExtractFromImages`; a video view with a thumbnail gives `video` with the playlist as URL, or else the thumbnail; a record-with-media view is its wrapped view; anything else gives null; every result is well formed |
| BlueskyAdapter.WrapperTransparent | src/bluesky.ts:74-77 | any depth of record-with-media wrapping extracts like the innermost view |
| BlueskyAdapter.LastSegment | src/bluesky.ts:86-87 | the last `/`-separated segment is a slash-free suffix preceded by `/` or by nothing |
| BlueskyAdapter.RecordKey | src/bluesky.ts:86-87 | whatever precedes it, a slash-free key after the last `/` is the record key |
| BlueskyAdapter.Sliced | src/bluesky.ts:89 | `text?.slice(0, n)` is absent iff the text is, and otherwise the prefix of length min(len(text), n) |
| BlueskyAdapter.Title | src/bluesky.ts:89 | a non-empty text gives its prefix of length min(len(text), 120), which is non-empty; a missing or empty text gives `Bluesky Post` |
| BlueskyAdapter.Description | src/bluesky.ts:95 | a present text gives its prefix of length min(len(text), 200); a missing one the empty string |
| BlueskyAdapter.Normalize | src/bluesky.ts:82-104 | null exactly when extraction is; id `bsky_<cid>`, subreddit `bsky`, source Bluesky, the extractor's media and type unchanged, author is the display name or else the handle, permalink through the handle and the URI's record key, title and description as `Title` and `Description` give them |
| BlueskyAdapter.FilterPosts | src/bluesky.ts:136-144 | the loop pushes exactly the kept posts, all in the window and all from Bluesky |
| BlueskyAdapter.FetchBlueskyPosts | src/bluesky.ts:106-147 | the cursor is sent only when truthy; a failure gives an empty page with no cursor; otherwise the filtered posts and the returned cursor, an empty one read as none |
| FeedClient.GetDateRange | public/static/app.js:24-36 | `week`, `month` and `3months` give `[now - 7, 30 or 90 days, now]`; any other value gives no bounds |
| FeedClient.QueryWindow | public/static/app.js:39-44 | the window the server applies to a client query keeps exactly the dates in the chosen span up to `now` (all dates for other filters) |
| FeedClient.NewPosts | public/static/app.js:112-113 | a fetched post is kept iff its id is not already loaded; never more posts than fetched |
| FeedClient.NewPostsAllFresh | public/static/app.js:112-113 | a response with no loaded id is kept whole |
| FeedClient.NewPostsAppend | public/static/app.js:113 | the filter keeps response order (it respects concatenation) |
| FeedClient.AppendKeepsDistinct | public/static/app.js:112-115 | appending the deduplicated response keeps the feed's ids distinct when the response's are |
| FeedClient.FindIndex | public/static/app.js:245 | `findIndex`: -1 iff no post has the id, else the first post with it |
| FeedClient.Navigate | public/static/app.js:216-237 | with a gallery open and the new image in range, it moves to that image; otherwise, with the neighbouring post in range, to that post's first image; otherwise nothing moves; `ViewerValid` is kept |
| FeedClient.ForwardBackInGallery | public/static/app.js:221-227 | next then previous inside a gallery returns to the same image |
| FeedClient.ForwardBackAcrossPosts | public/static/app.js:231-236 | leaving a post forward and coming back lands on its first image |
| FeedClient.AppendKeepsViewer | public/static/app.js:115 | appending posts keeps the viewer's position valid |
| FeedClient.Feed.constructor | public/static/app.js:4-12 | the state is seeded from the initial page; `hasMore` defaults to true; the viewer is closed |
| FeedClient.Feed.BeginLoad | public/static/app.js:105-106 | a load starts only when none is in flight and more pages exist; otherwise nothing changes |
| FeedClient.Feed.CompleteLoad | public/static/app.js:109-138 | on success the new posts are appended to the unchanged old list and the cursor and `hasMore` are replaced; on failure the feed is kept; `loading` is false either way |
| FeedClient.Feed.LoadMore | public/static/app.js:104-139 | `BeginLoad` then `CompleteLoad` on the API's answer to the current cursor and filter; ids stay distinct |
| FeedClient.Feed.ResetGrid | public/static/app.js:142-149 | the feed is emptied and `hasMore` set, then the first page is loaded unless a load is already in flight |
| FeedClient.Feed.SelectDateFilter | public/static/app.js:161-164 | the new filter is stored and the grid reset under it |
| FeedClient.Feed.OpenModal | public/static/app.js:167-173 | `modalIndex = index` and `galleryIndex = 0` |
| FeedClient.Feed.CloseModal | public/static/app.js:175-181 | `modalIndex = -1`, everything else unchanged |
| FeedClient.Feed.NavigateModal | public/static/app.js:216-237 | the viewer moves as `Navigate` says; nothing else changes |
| FeedClient.Feed.ClickCard | public/static/app.js:240-247 | opens the first post with the clicked id, or does nothing when there is none |
| FeedClient.Feed.KeyDown | public/static/app.js:255-260 | keys are ignored while the viewer is closed; Escape closes it; the arrow keys navigate by -1 and +1 |

`FeedClient.Feed.Valid` and `FeedClient.ViewerValid` state when a viewer position is
meaningful. A gallery position other than the first always lies inside the gallery of the
post being viewed. Every handler preserves this. `ResetGrid` preserves it only when the
viewer was closed or on its first image, because emptying the feed can leave a stale gallery
position behind. The code never renders that stale position: every render follows an
`openModal` or a `navigateModal` step, and both set the position first.

## Left out

- HTTP itself is not modelled. That covers URL building, the fixed query parameters (page
  size 25, `sort`, `q`, `restrict_sr`), the User-Agent header, the Cloudflare cache hints,
  `res.json()` and `console.error`. Each request is a function parameter that answers a page
  or a failure.
- A Reddit request can also fail with a transport error. No `catch` surrounds that `fetch`
  (src/reddit.ts:131), so the error rejects all of `fetchPosts`. The Reddit model knows only
  the non-2xx failure. The Bluesky adapter catches both kinds, and its `Failed` stands for
  both.
- `Promise.all` concurrency is not modelled. The four requests share no state, so they run as
  a sequential map.
- FetchPosts: requires every continuation token to be JSON-plain and within Latin-1. Reddit
  fullnames such as `t3_1abc` are. `btoa` throws on other characters, and escaped characters
  are not modelled.
- FetchPosts: the in-place `allPosts.sort` is modelled as the value `SortNewestFirst(allPosts)`
  given to the same variable. Order and stability are modelled; in-place mutation is not.
- CursorJson.Parse: accepts only an object of plain strings, with no escapes and no
  whitespace. This is the form `JSON.stringify` emits for the cursor map.
- DecodeCursor: treats any other JSON text as a bare token for the first subreddit. The code
  instead copies whatever `JSON.parse` produced: nothing for numbers, booleans and `null`;
  index keys for arrays and strings; the members of objects with other values. In each case
  the code does not fall back. `CursorCodec.NonJsonFallback` and `LegacyTokenFallback` are
  stated only for texts that are not JSON, where model and code agree.
- Timestamps are integers in Unix seconds. Reddit's `created_utc` is used as given. For
  Bluesky, parsing the ISO-8601 `createdAt` and the possibly fractional `getTime() / 1000`
  (src/bluesky.ts:90) are left out; an unparsable date yields `NaN` in the code, which every
  bound comparison then lets through.
- The client reads `now` from `Math.floor(Date.now() / 1000)` (public/static/app.js:25). Here
  it is a parameter.
- The server's `Number(...)` parsing of the query parameters is not modelled; the client's
  bounds arrive as sent.
- Rendering is out of scope: `createCardHTML`, `esc`, `renderModal`, the spinner and the
  empty-state element, the IntersectionObserver, event wiring, and the DOM lookup from a click
  to the card's id. `ClickCard` receives the id.
- LoadMore: runs its two halves back to back. In the browser, other handlers may run between
  them while the request is pending. `BeginLoad` and `CompleteLoad` are separate methods so
  that interleaving can be expressed; `BeginLoad` during a pending load changes nothing.
- Common.Take: counts characters as Unicode code points, where JavaScript's `slice` and
  `length` count UTF-16 code units. So `Title`, `Description`, `BlueskyAdapter.Normalize` and
  `RedditAdapter.Normalize` truncate differently for text outside the Basic Multilingual
  Plane, and a surrogate pair split by the cut (a lone surrogate in the code) is not modelled:
  Dafny strings hold only whole code points.
- The `p` and `gif` members of Reddit's `media_metadata`, and every field of the raw records
  the code does not read, are not modelled.
