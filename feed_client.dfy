/** The browser client of public/static/app.js: the `state` object and the
    handlers that update it (loading more posts, resetting the grid on a new
    date filter, and the post viewer). Rendering, the DOM and the clock are
    not modelled; the API call is a parameter and `now` an argument. */
module FeedClient {
  import opened Common
  import opened Model
  import opened DateWindow

  /** `{ date_from, date_to }` as `getDateRange` returns it. */
  datatype DateRange = DateRange(dateFrom: Bound, dateTo: Bound)

  const DAY: int := 86400

  /** `getDateRange`: the last 7, 30 or 90 days up to `now` (Unix seconds), or no bounds. */
  function GetDateRange(filter: string, now: int): (r: DateRange)
    ensures filter == "week" ==> r == DateRange(Some(now - 7 * DAY), Some(now))
    ensures filter == "month" ==> r == DateRange(Some(now - 30 * DAY), Some(now))
    ensures filter == "3months" ==> r == DateRange(Some(now - 90 * DAY), Some(now))
    ensures filter !in {"week", "month", "3months"} ==> r == DateRange(None, None)
  {
    match filter
    case "week" => DateRange(Some(now - 7 * DAY), Some(now))
    case "month" => DateRange(Some(now - 30 * DAY), Some(now))
    case "3months" => DateRange(Some(now - 90 * DAY), Some(now))
    case _ => DateRange(None, None)
  }

  /** The window length in days a filter value names, if any. */
  function WindowDays(filter: string): Option<int> {
    if filter == "week" then Some(7)
    else if filter == "month" then Some(30)
    else if filter == "3months" then Some(90)
    else None
  }

  /** A query parameter is sent only for a truthy bound (`if (range.date_from)`). */
  function Sent(b: Bound): (r: Bound)
    ensures r.Some? <==> Active(b)
    ensures r.Some? ==> r == b
  {
    if Active(b) then b else None
  }

  /** What the client asks the API for: `after`, `date_from`, `date_to`. */
  datatype Query = Query(after: Option<string>, dateFrom: Bound, dateTo: Bound)

  function QueryFor(cursor: Option<string>, filter: string, now: int): Query {
    var range := GetDateRange(filter, now);
    Query(OrNull(cursor), Sent(range.dateFrom), Sent(range.dateTo))
  }

  /** On a clock past the first 90 days of the epoch, the window the server
      applies to a client query keeps exactly the dates within the chosen
      number of days up to `now`, and every date for any other filter. */
  lemma QueryWindow(cursor: Option<string>, filter: string, now: int, date: int)
    requires now > 90 * DAY
    ensures var q := QueryFor(cursor, filter, now);
      (InWindow(date, q.dateFrom, q.dateTo)
       <==> (WindowDays(filter).None? || (now - WindowDays(filter).value * DAY <= date <= now)))
  {
  }

  /** The API as the client sees it: a response, or `None` when the request
      throws (network error or a non-2xx status). */
  type Api = Query -> Option<ApiResponse>

  /** The set of ids in `posts` (`new Set(state.posts.map((p) => p.id))`). */
  function Ids(posts: seq<NormalizedPost>): set<string> {
    set p | p in posts :: p.id
  }

  predicate DistinctIds(posts: seq<NormalizedPost>) {
    forall i, j :: 0 <= i < j < |posts| ==> posts[i].id != posts[j].id
  }

  /** `data.posts.filter((p) => !existingIds.has(p.id))`. */
  function NewPosts(existing: seq<NormalizedPost>, fetched: seq<NormalizedPost>): (r: seq<NormalizedPost>)
    ensures |r| <= |fetched|
    ensures forall p :: p in r <==> p in fetched && p.id !in Ids(existing)
  {
    if fetched == [] then []
    else
      var last := fetched[|fetched| - 1];
      var init := NewPosts(existing, fetched[..|fetched| - 1]);
      assert fetched == fetched[..|fetched| - 1] + [last];
      if last.id in Ids(existing) then init else init + [last]
  }

  /** A response none of whose ids is loaded yet is appended whole. */
  lemma {:induction false} NewPostsAllFresh(existing: seq<NormalizedPost>, fetched: seq<NormalizedPost>)
    requires forall p :: p in fetched ==> p.id !in Ids(existing)
    ensures NewPosts(existing, fetched) == fetched
  {
    if fetched != [] {
      var init := fetched[..|fetched| - 1];
      assert fetched == init + [fetched[|fetched| - 1]];
      NewPostsAllFresh(existing, init);
    }
  }

  /** The filter keeps response order: it works piece by piece. */
  lemma {:induction false} NewPostsAppend(existing: seq<NormalizedPost>, a: seq<NormalizedPost>, b: seq<NormalizedPost>)
    ensures NewPosts(existing, a + b) == NewPosts(existing, a) + NewPosts(existing, b)
    decreases |b|
  {
    if b == [] {
      assert a + b == a;
    } else {
      var b' := b[..|b| - 1];
      assert (a + b)[..|a + b| - 1] == a + b';
      assert (a + b)[|a + b| - 1] == b[|b| - 1];
      NewPostsAppend(existing, a, b');
    }
  }

  lemma DistinctPrefix(s: seq<NormalizedPost>, n: int)
    requires DistinctIds(s) && 0 <= n <= |s|
    ensures DistinctIds(s[..n])
  {
    forall i, j | 0 <= i < j < n ensures s[..n][i].id != s[..n][j].id {
      assert s[..n][i] == s[i] && s[..n][j] == s[j];
    }
  }

  lemma DistinctSnoc(s: seq<NormalizedPost>, x: NormalizedPost)
    requires DistinctIds(s) && forall q :: q in s ==> q.id != x.id
    ensures DistinctIds(s + [x])
  {
    forall i, j | 0 <= i < j < |s| + 1 ensures (s + [x])[i].id != (s + [x])[j].id {
      assert (s + [x])[i] == s[i];
      if j == |s| {
        assert (s + [x])[j] == x;
      } else {
        assert (s + [x])[j] == s[j];
      }
    }
  }

  /** Appending the deduplicated response keeps the ids of the feed distinct
      whenever the feed and the response have distinct ids. */
  lemma {:induction false} AppendKeepsDistinct(existing: seq<NormalizedPost>, fetched: seq<NormalizedPost>)
    requires DistinctIds(existing) && DistinctIds(fetched)
    ensures DistinctIds(existing + NewPosts(existing, fetched))
  {
    if fetched != [] {
      var n := |fetched| - 1;
      var init, last := fetched[..n], fetched[n];
      DistinctPrefix(fetched, n);
      AppendKeepsDistinct(existing, init);
      var before := existing + NewPosts(existing, init);
      if last.id !in Ids(existing) {
        FreshAgainst(existing, fetched);
        DistinctSnoc(before, last);
        assert NewPosts(existing, fetched) == NewPosts(existing, init) + [last];
        assert existing + NewPosts(existing, fetched) == before + [last];
      } else {
        assert NewPosts(existing, fetched) == NewPosts(existing, init);
      }
    }
  }

  /** The last fetched post, when it is not loaded, clashes with nothing appended before it. */
  lemma FreshAgainst(existing: seq<NormalizedPost>, fetched: seq<NormalizedPost>)
    requires DistinctIds(fetched) && fetched != []
    requires fetched[|fetched| - 1].id !in Ids(existing)
    ensures forall q :: q in existing + NewPosts(existing, fetched[..|fetched| - 1]) ==> q.id != fetched[|fetched| - 1].id
  {
    var n := |fetched| - 1;
    var init := fetched[..n];
    forall q | q in existing + NewPosts(existing, init) ensures q.id != fetched[n].id {
      if q in NewPosts(existing, init) {
        var j :| 0 <= j < |init| && init[j] == q;
        assert fetched[j] == q;
      } else {
        assert q.id in Ids(existing);
      }
    }
  }

  /** `state.posts.findIndex((p) => p.id === id)`. */
  function FindIndex(posts: seq<NormalizedPost>, id: string): (i: int)
    ensures -1 <= i < |posts|
    ensures i == -1 <==> forall k :: 0 <= k < |posts| ==> posts[k].id != id
    ensures i >= 0 ==> posts[i].id == id && forall k :: 0 <= k < i ==> posts[k].id != id
  {
    if posts == [] then -1
    else if posts[0].id == id then 0
    else
      var i := FindIndex(posts[1..], id);
      assert forall k :: 1 <= k < |posts| ==> posts[k] == posts[1..][k - 1];
      if i == -1 then -1 else i + 1
  }

  // ------------------------------------------------------------ post viewer

  /** The post viewer's position: `modalIndex` (-1 when closed) and `galleryIndex`. */
  datatype Viewer = Viewer(index: int, image: int)

  /** The viewer shows a gallery post whose images are then browsed one by one. */
  predicate OnGallery(posts: seq<NormalizedPost>, v: Viewer) {
    0 <= v.index < |posts| && posts[v.index].mediaType == Gallery && posts[v.index].media.gallery.Some?
  }

  function GalleryLength(posts: seq<NormalizedPost>, v: Viewer): nat
    requires OnGallery(posts, v)
  {
    |posts[v.index].media.gallery.value|
  }

  /** A gallery position other than the first always lies inside the open post's gallery. */
  predicate ViewerValid(posts: seq<NormalizedPost>, v: Viewer) {
    && 0 <= v.image
    && (v.index != -1 && v.image > 0 ==> OnGallery(posts, v) && v.image < GalleryLength(posts, v))
  }

  /** The gallery guard of `navigateModal`: a gallery post is open and the new image index is in range. */
  predicate GalleryStep(posts: seq<NormalizedPost>, v: Viewer, dir: int) {
    OnGallery(posts, v) && 0 <= v.image + dir < GalleryLength(posts, v)
  }

  /** `navigateModal(dir)`: inside a gallery, step through its images; past
      either end of it, or on any other post, step to the neighbouring post
      and its first image; out of range, nothing changes. */
  function Navigate(posts: seq<NormalizedPost>, v: Viewer, dir: int): (r: Viewer)
    ensures ViewerValid(posts, v) ==> ViewerValid(posts, r)
    // inside a gallery, a step that stays in it moves to the neighbouring image
    ensures GalleryStep(posts, v, dir) ==> r == Viewer(v.index, v.image + dir)
    // otherwise, a neighbouring post in range is opened at its first image
    ensures 0 <= v.index < |posts| && !GalleryStep(posts, v, dir) && 0 <= v.index + dir < |posts|
      ==> r == Viewer(v.index + dir, 0)
    // no open post, or no neighbour in that direction: nothing moves
    ensures !(0 <= v.index < |posts|) || (!GalleryStep(posts, v, dir) && !(0 <= v.index + dir < |posts|))
      ==> r == v
  {
    if !(0 <= v.index < |posts|) then v
    else if GalleryStep(posts, v, dir) then Viewer(v.index, v.image + dir)
    else if 0 <= v.index + dir < |posts| then Viewer(v.index + dir, 0)
    else v
  }

  /** Stepping forward and back inside a gallery returns to the same image. */
  lemma ForwardBackInGallery(posts: seq<NormalizedPost>, v: Viewer)
    requires ViewerValid(posts, v) && OnGallery(posts, v) && v.image + 1 < GalleryLength(posts, v)
    ensures Navigate(posts, Navigate(posts, v, 1), -1) == v
  {
  }

  /** Leaving a post forward and coming back lands on its first image. */
  lemma ForwardBackAcrossPosts(posts: seq<NormalizedPost>, v: Viewer)
    requires ViewerValid(posts, v) && 0 <= v.index && v.index + 1 < |posts|
    requires !OnGallery(posts, v) || v.image + 1 >= GalleryLength(posts, v)
    ensures Navigate(posts, Navigate(posts, v, 1), -1) == Viewer(v.index, 0)
  {
    var w := Navigate(posts, v, 1);
    assert w == Viewer(v.index + 1, 0);
  }

  /** Appending posts keeps the open post and its position meaningful. */
  lemma AppendKeepsViewer(posts: seq<NormalizedPost>, more: seq<NormalizedPost>, v: Viewer)
    requires ViewerValid(posts, v)
    ensures ViewerValid(posts + more, v)
  {
    if v.index != -1 && v.image > 0 {
      assert (posts + more)[v.index] == posts[v.index];
    }
  }

  /** The `state` object of the page script. */
  class Feed {
    var posts: seq<NormalizedPost>
    var nextCursor: Option<string>
    var hasMore: bool
    var loading: bool
    var modalIndex: int
    var galleryIndex: int
    var dateFilter: string

    predicate Valid()
      reads this
    {
      ViewerValid(posts, Viewer(modalIndex, galleryIndex))
    }

    /** The initial state, seeded from the server-rendered first page when there is one. */
    constructor(initial: Option<ApiResponse>)
      ensures initial.Some? ==> posts == initial.value.posts && nextCursor == OrNull(initial.value.nextCursor) && hasMore == initial.value.hasMore
      ensures initial.None? ==> posts == [] && nextCursor.None? && hasMore
      ensures !loading && modalIndex == -1 && galleryIndex == 0 && dateFilter == "all"
      ensures Valid()
    {
      if initial.Some? {
        posts := initial.value.posts;
        nextCursor := OrNull(initial.value.nextCursor);
        hasMore := initial.value.hasMore;
      } else {
        posts := [];
        nextCursor := None;
        hasMore := true;
      }
      loading := false;
      modalIndex := -1;
      galleryIndex := 0;
      dateFilter := "all";
    }

    /** The guard and first step of `loadMore`: a load starts only when none
        is in flight and more pages exist; otherwise nothing changes. */
    method BeginLoad() returns (started: bool)
      modifies this
      ensures started == (!old(loading) && old(hasMore))
      ensures started ==> loading
      ensures loading == (old(loading) || started)
      ensures posts == old(posts) && nextCursor == old(nextCursor) && hasMore == old(hasMore)
      ensures modalIndex == old(modalIndex) && galleryIndex == old(galleryIndex) && dateFilter == old(dateFilter)
    {
      if loading || !hasMore {
        return false;
      }
      loading := true;
      started := true;
    }

    /** The rest of `loadMore` once the request has settled: on success the new
        posts are appended and the cursor replaced; on failure the feed is kept;
        either way `loading` is cleared (the `finally` block). */
    method CompleteLoad(data: Option<ApiResponse>)
      modifies this
      ensures data.Some? ==>
        && posts == old(posts) + NewPosts(old(posts), data.value.posts)
        && nextCursor == data.value.nextCursor && hasMore == data.value.hasMore
      ensures data.None? ==> posts == old(posts) && nextCursor == old(nextCursor) && hasMore == old(hasMore)
      ensures !loading
      ensures modalIndex == old(modalIndex) && galleryIndex == old(galleryIndex) && dateFilter == old(dateFilter)
      ensures old(Valid()) ==> Valid()
    {
      if data.Some? {
        var existing := posts;
        var added := NewPosts(existing, data.value.posts);
        posts := posts + added;
        nextCursor := data.value.nextCursor;
        hasMore := data.value.hasMore;
        if ViewerValid(existing, Viewer(modalIndex, galleryIndex)) {
          AppendKeepsViewer(existing, added, Viewer(modalIndex, galleryIndex));
        }
      }
      loading := false;
    }

    /** `loadMore`, run to completion against `api` with the clock reading `now`. */
    method LoadMore(api: Api, now: int)
      modifies this
      ensures old(loading) || !old(hasMore) ==>
        posts == old(posts) && nextCursor == old(nextCursor) && hasMore == old(hasMore) && loading == old(loading)
      ensures !old(loading) && old(hasMore) ==>
        var data := api(QueryFor(old(nextCursor), old(dateFilter), now));
        && !loading
        && (data.Some? ==>
              && posts == old(posts) + NewPosts(old(posts), data.value.posts)
              && nextCursor == data.value.nextCursor && hasMore == data.value.hasMore)
        && (data.None? ==> posts == old(posts) && nextCursor == old(nextCursor) && hasMore == old(hasMore))
      ensures modalIndex == old(modalIndex) && galleryIndex == old(galleryIndex) && dateFilter == old(dateFilter)
      ensures old(Valid()) ==> Valid()
      ensures DistinctIds(old(posts)) && (forall r :: api(r).Some? ==> DistinctIds(api(r).value.posts)) ==> DistinctIds(posts)
    {
      var started := BeginLoad();
      if !started {
        return;
      }
      var data := api(QueryFor(nextCursor, dateFilter, now));
      ghost var before := posts;
      CompleteLoad(data);
      if data.Some? && DistinctIds(before) && DistinctIds(data.value.posts) {
        AppendKeepsDistinct(before, data.value.posts);
      }
    }

    /** `resetGrid`: empty the feed, then load its first page. A load already
        in flight makes that second step a no-op. */
    method ResetGrid(api: Api, now: int)
      modifies this
      ensures old(loading) ==> posts == [] && nextCursor.None? && hasMore && loading
      ensures !old(loading) ==>
        var data := api(QueryFor(None, old(dateFilter), now));
        && !loading
        && (data.Some? ==> posts == data.value.posts && nextCursor == data.value.nextCursor && hasMore == data.value.hasMore)
        && (data.None? ==> posts == [] && nextCursor.None? && hasMore)
      ensures modalIndex == old(modalIndex) && galleryIndex == old(galleryIndex) && dateFilter == old(dateFilter)
      ensures old(Valid()) && (old(modalIndex) == -1 || old(galleryIndex) == 0) ==> Valid()
    {
      posts := [];
      nextCursor := None;
      hasMore := true;
      LoadMore(api, now);
      if !old(loading) {
        var data := api(QueryFor(None, dateFilter, now));
        if data.Some? {
          NewPostsAllFresh([], data.value.posts);
        }
      }
    }

    /** The date filter's `change` handler. */
    method SelectDateFilter(value: string, api: Api, now: int)
      modifies this
      ensures dateFilter == value
      ensures !old(loading) ==>
        var data := api(QueryFor(None, value, now));
        && !loading
        && (data.Some? ==> posts == data.value.posts && nextCursor == data.value.nextCursor && hasMore == data.value.hasMore)
        && (data.None? ==> posts == [] && nextCursor.None? && hasMore)
      ensures old(loading) ==> posts == [] && nextCursor.None? && hasMore && loading
      ensures modalIndex == old(modalIndex) && galleryIndex == old(galleryIndex)
    {
      dateFilter := value;
      ResetGrid(api, now);
    }

    /** `openModal(index)`: show a post from its first image. */
    method OpenModal(index: int)
      modifies this
      ensures modalIndex == index && galleryIndex == 0
      ensures posts == old(posts) && nextCursor == old(nextCursor) && hasMore == old(hasMore)
      ensures loading == old(loading) && dateFilter == old(dateFilter)
      ensures Valid()
    {
      modalIndex := index;
      galleryIndex := 0;
    }

    /** `closeModal`: the gallery position is left as it was. */
    method CloseModal()
      modifies this
      ensures modalIndex == -1 && galleryIndex == old(galleryIndex)
      ensures posts == old(posts) && nextCursor == old(nextCursor) && hasMore == old(hasMore)
      ensures loading == old(loading) && dateFilter == old(dateFilter)
      ensures old(Valid()) ==> Valid()
    {
      modalIndex := -1;
    }

    /** `navigateModal(dir)`. */
    method NavigateModal(dir: int)
      modifies this
      ensures Viewer(modalIndex, galleryIndex) == Navigate(posts, Viewer(old(modalIndex), old(galleryIndex)), dir)
      ensures posts == old(posts) && nextCursor == old(nextCursor) && hasMore == old(hasMore)
      ensures loading == old(loading) && dateFilter == old(dateFilter)
      ensures old(Valid()) ==> Valid()
    {
      if !(0 <= modalIndex < |posts|) {
        return;
      }
      var post := posts[modalIndex];
      if post.mediaType == Gallery && post.media.gallery.Some? {
        var newIdx := galleryIndex + dir;
        if 0 <= newIdx < |post.media.gallery.value| {
          galleryIndex := newIdx;
          return;
        }
      }
      var newIndex := modalIndex + dir;
      if 0 <= newIndex < |posts| {
        modalIndex := newIndex;
        galleryIndex := 0;
      }
    }

    /** The grid's `click` handler on the card of the post with `id`. */
    method ClickCard(id: string)
      modifies this
      ensures var i := FindIndex(old(posts), id);
        if i == -1 then modalIndex == old(modalIndex) && galleryIndex == old(galleryIndex)
        else modalIndex == i && galleryIndex == 0
      ensures posts == old(posts) && nextCursor == old(nextCursor) && hasMore == old(hasMore)
      ensures loading == old(loading) && dateFilter == old(dateFilter)
      ensures old(Valid()) ==> Valid()
    {
      var idx := FindIndex(posts, id);
      if idx != -1 {
        OpenModal(idx);
      }
    }

    /** The `keydown` handler: ignored while the viewer is closed; Escape
        closes it and the arrow keys step back and forth. */
    method KeyDown(key: string)
      modifies this
      ensures old(modalIndex) == -1 ==> modalIndex == old(modalIndex) && galleryIndex == old(galleryIndex)
      ensures old(modalIndex) != -1 && key == "Escape" ==> modalIndex == -1 && galleryIndex == old(galleryIndex)
      ensures old(modalIndex) != -1 && key == "ArrowLeft" ==>
        Viewer(modalIndex, galleryIndex) == Navigate(posts, Viewer(old(modalIndex), old(galleryIndex)), -1)
      ensures old(modalIndex) != -1 && key == "ArrowRight" ==>
        Viewer(modalIndex, galleryIndex) == Navigate(posts, Viewer(old(modalIndex), old(galleryIndex)), 1)
      ensures key !in {"Escape", "ArrowLeft", "ArrowRight"} ==> modalIndex == old(modalIndex) && galleryIndex == old(galleryIndex)
      ensures posts == old(posts) && nextCursor == old(nextCursor) && hasMore == old(hasMore)
      ensures loading == old(loading) && dateFilter == old(dateFilter)
      ensures old(Valid()) ==> Valid()
    {
      if modalIndex == -1 {
        return;
      }
      if key == "Escape" {
        CloseModal();
      }
      if key == "ArrowLeft" {
        NavigateModal(-1);
      }
      if key == "ArrowRight" {
        NavigateModal(1);
      }
    }
  }
}
