/** `fetchPosts` of src/reddit.ts:155-194: decode the composite cursor, query
    every subreddit with its own slice of it, concatenate the pages, sort them
    newest first, and encode the next composite cursor from the subreddits that
    reported a continuation token. `Promise.all` is modelled as a sequential
    map: the fetches share no state. */
module Aggregator {
  import opened Common
  import opened Model
  import opened DateWindow
  import opened RedditAdapter
  import opened CursorJson
  import opened CursorCodec
  import opened PostOrder

  /** `cursors[sub]`: absent when the map has no such key. */
  function CursorFor(cursors: map<string, string>, sub: string): (c: Option<string>)
    ensures c.Some? <==> sub in cursors
    ensures c.Some? ==> c.value == cursors[sub]
  {
    if sub in cursors then Some(cursors[sub]) else None
  }

  /** What `Promise.all(SUBREDDITS.map(...))` resolves to, one page per subreddit. */
  function Results(after: Option<string>, dateFrom: Bound, dateTo: Bound, upstream: Upstream): (rs: seq<SourcePage>)
    ensures |rs| == |SUBREDDITS|
    ensures forall i :: 0 <= i < |SUBREDDITS| ==>
      rs[i] == SubredditPage(SUBREDDITS[i], CursorFor(DecodeCursor(after), SUBREDDITS[i]), dateFrom, dateTo, upstream)
  {
    var cursors := DecodeCursor(after);
    seq(|SUBREDDITS|, i requires 0 <= i < |SUBREDDITS| =>
      SubredditPage(SUBREDDITS[i], CursorFor(cursors, SUBREDDITS[i]), dateFrom, dateTo, upstream))
  }

  /** `allPosts` after the pages of `rs` have been pushed, in subreddit order. */
  function Concat(rs: seq<SourcePage>): seq<NormalizedPost> {
    if rs == [] then [] else Concat(rs[..|rs| - 1]) + rs[|rs| - 1].posts
  }

  /** `nextCursors` after visiting the pages of `rs`: one member per truthy `after`. */
  function NextEntries(rs: seq<SourcePage>): seq<Entry>
    requires |rs| <= |SUBREDDITS|
  {
    if rs == [] then []
    else
      var i := |rs| - 1;
      NextEntries(rs[..i]) + (if Truthy(rs[i].after) then [(SUBREDDITS[i], rs[i].after.value)] else [])
  }

  /** Every continuation token the endpoint can return is one the encoder writes verbatim. */
  ghost predicate SafeTokens(upstream: Upstream) {
    forall sub, c :: upstream(sub, c).Listing? && upstream(sub, c).after.Some? ==> IsSafeToken(upstream(sub, c).after.value)
  }

  predicate SafePages(rs: seq<SourcePage>) {
    forall i :: 0 <= i < |rs| && rs[i].after.Some? ==> IsSafeToken(rs[i].after.value)
  }

  lemma {:induction false} ConcatMember(rs: seq<SourcePage>, p: NormalizedPost)
    ensures p in Concat(rs) <==> exists i :: 0 <= i < |rs| && p in rs[i].posts
  {
    if rs != [] {
      var init := rs[..|rs| - 1];
      ConcatMember(init, p);
      assert forall i :: 0 <= i < |init| ==> init[i] == rs[i];
    }
  }

  lemma {:induction false} NextEntriesMember(rs: seq<SourcePage>, e: Entry)
    requires |rs| <= |SUBREDDITS|
    ensures e in NextEntries(rs)
        <==> exists i :: 0 <= i < |rs| && Truthy(rs[i].after) && e == (SUBREDDITS[i], rs[i].after.value)
  {
    if rs != [] {
      var init := rs[..|rs| - 1];
      NextEntriesMember(init, e);
      assert forall i :: 0 <= i < |init| ==> init[i] == rs[i];
    }
  }

  lemma SubredditsDistinct()
    ensures forall i, j :: 0 <= i < j < |SUBREDDITS| ==> SUBREDDITS[i] != SUBREDDITS[j]
  {
    assert |SUBREDDITS[0]| == 7 && |SUBREDDITS[1]| == 11 && |SUBREDDITS[2]| == 8 && |SUBREDDITS[3]| == 18;
  }

  lemma {:induction false} NextEntriesDistinct(rs: seq<SourcePage>)
    requires |rs| <= |SUBREDDITS|
    ensures DistinctKeys(NextEntries(rs))
  {
    if rs != [] {
      var i := |rs| - 1;
      var init := rs[..i];
      NextEntriesDistinct(init);
      SubredditsDistinct();
      forall e | e in NextEntries(init) ensures e.0 != SUBREDDITS[i] {
        NextEntriesMember(init, e);
      }
    }
  }

  lemma SubredditsSafe()
    ensures forall i :: 0 <= i < |SUBREDDITS| ==> IsSafeToken(SUBREDDITS[i])
  {
    forall i | 0 <= i < |SUBREDDITS| ensures IsSafeToken(SUBREDDITS[i]) {
      var s := SUBREDDITS[i];
      assert forall k :: 0 <= k < |s| ==> 'A' <= s[k] <= 'z';
    }
  }

  lemma NextEntriesSafe(rs: seq<SourcePage>)
    requires |rs| <= |SUBREDDITS| && SafePages(rs)
    ensures IsSafeRecord(NextEntries(rs))
  {
    SubredditsSafe();
    forall j | 0 <= j < |NextEntries(rs)|
      ensures IsSafeToken(NextEntries(rs)[j].0) && IsSafeToken(NextEntries(rs)[j].1)
    {
      NextEntriesMember(rs, NextEntries(rs)[j]);
    }
  }

  /** The map built from the entries holds exactly the subreddits whose page
      reported a truthy `after`, each with that token. */
  lemma NextMapExact(rs: seq<SourcePage>)
    requires |rs| == |SUBREDDITS|
    ensures var m := ToMap(NextEntries(rs));
      && (forall k :: k in m ==> k in SUBREDDITS)
      && (forall i :: 0 <= i < |SUBREDDITS| ==> (SUBREDDITS[i] in m <==> Truthy(rs[i].after)))
      && (forall i :: 0 <= i < |SUBREDDITS| && Truthy(rs[i].after) ==> m[SUBREDDITS[i]] == rs[i].after.value)
  {
    NextMapKeys(rs);
    forall i | 0 <= i < |SUBREDDITS|
      ensures SUBREDDITS[i] in ToMap(NextEntries(rs)) <==> Truthy(rs[i].after)
      ensures Truthy(rs[i].after) ==> ToMap(NextEntries(rs))[SUBREDDITS[i]] == rs[i].after.value
    {
      NextMapEntry(rs, i);
    }
  }

  /** Every key of the next-cursor map is a subreddit. */
  lemma NextMapKeys(rs: seq<SourcePage>)
    requires |rs| == |SUBREDDITS|
    ensures forall k :: k in ToMap(NextEntries(rs)) ==> k in SUBREDDITS
  {
    var es := NextEntries(rs);
    forall k | k in ToMap(es) ensures k in SUBREDDITS {
      var j :| 0 <= j < |es| && es[j].0 == k;
      NextEntriesMember(rs, es[j]);
    }
  }

  /** A subreddit is a key of the next-cursor map iff its page returned a truthy `after`, mapped to that token. */
  lemma NextMapEntry(rs: seq<SourcePage>, i: nat)
    requires |rs| == |SUBREDDITS| && i < |SUBREDDITS|
    ensures SUBREDDITS[i] in ToMap(NextEntries(rs)) <==> Truthy(rs[i].after)
    ensures Truthy(rs[i].after) ==> ToMap(NextEntries(rs))[SUBREDDITS[i]] == rs[i].after.value
  {
    var es := NextEntries(rs);
    NextEntriesDistinct(rs);
    ToMapDistinct(es);
    SubredditsDistinct();
    if SUBREDDITS[i] in ToMap(es) {
      var j :| 0 <= j < |es| && es[j].0 == SUBREDDITS[i];
      NextEntriesMember(rs, es[j]);
    }
    if Truthy(rs[i].after) {
      NextEntriesMember(rs, (SUBREDDITS[i], rs[i].after.value));
      var j :| 0 <= j < |es| && es[j] == (SUBREDDITS[i], rs[i].after.value);
    }
  }

  /** Read back by the next request, the emitted cursor gives every subreddit
      with a truthy `after` that token and no other subreddit anything. */
  lemma NextCursorExact(rs: seq<SourcePage>)
    requires |rs| == |SUBREDDITS| && SafePages(rs)
    ensures IsSafeRecord(NextEntries(rs))
    ensures DecodeCursor(Some(EncodeCursor(NextEntries(rs)))) == ToMap(NextEntries(rs))
    ensures var m := DecodeCursor(Some(EncodeCursor(NextEntries(rs))));
      && (forall k :: k in m ==> k in SUBREDDITS)
      && (forall i :: 0 <= i < |SUBREDDITS| ==> (SUBREDDITS[i] in m <==> Truthy(rs[i].after)))
      && (forall i :: 0 <= i < |SUBREDDITS| && Truthy(rs[i].after) ==> m[SUBREDDITS[i]] == rs[i].after.value)
  {
    NextEntriesSafe(rs);
    CursorRoundTrip(NextEntries(rs));
    NextMapExact(rs);
  }

  /** When a single subreddit reports a continuation, the next cursor holds that one entry only. */
  lemma SingleContinuation(rs: seq<SourcePage>, j: nat)
    requires |rs| == |SUBREDDITS| && SafePages(rs) && j < |SUBREDDITS| && Truthy(rs[j].after)
    requires forall i :: 0 <= i < |SUBREDDITS| && i != j ==> !Truthy(rs[i].after)
    ensures IsSafeRecord(NextEntries(rs))
    ensures DecodeCursor(Some(EncodeCursor(NextEntries(rs)))) == map[SUBREDDITS[j] := rs[j].after.value]
  {
    NextEntriesSafe(rs);
    CursorRoundTrip(NextEntries(rs));
    SingleEntryMap(rs, j);
  }

  lemma SingleEntryMap(rs: seq<SourcePage>, j: nat)
    requires |rs| == |SUBREDDITS| && j < |SUBREDDITS| && Truthy(rs[j].after)
    requires forall i :: 0 <= i < |SUBREDDITS| && i != j ==> !Truthy(rs[i].after)
    ensures ToMap(NextEntries(rs)) == map[SUBREDDITS[j] := rs[j].after.value]
  {
    NextMapKeys(rs);
    NextMapEntry(rs, j);
    var m := ToMap(NextEntries(rs));
    forall k | k in m ensures k == SUBREDDITS[j] {
      var i :| 0 <= i < |SUBREDDITS| && SUBREDDITS[i] == k;
      NextMapEntry(rs, i);
    }
  }

  /** Following the emitted cursor, every subreddit with a truthy `after`
      resumes from that token, and every other one is asked for its first
      page again (which is why the client deduplicates by id). */
  lemma ResumeFromCursor(rs: seq<SourcePage>, dateFrom: Bound, dateTo: Bound, upstream: Upstream)
    requires |rs| == |SUBREDDITS| && SafePages(rs)
    ensures IsSafeRecord(NextEntries(rs))
    ensures var next := Results(Some(EncodeCursor(NextEntries(rs))), dateFrom, dateTo, upstream);
      forall i :: 0 <= i < |SUBREDDITS| ==>
        next[i] == SubredditPage(SUBREDDITS[i], if Truthy(rs[i].after) then rs[i].after else None, dateFrom, dateTo, upstream)
  {
    NextCursorExact(rs);
  }

  lemma {:induction false} NextEntriesEmpty(rs: seq<SourcePage>)
    requires |rs| <= |SUBREDDITS|
    ensures NextEntries(rs) == [] <==> forall i :: 0 <= i < |rs| ==> !Truthy(rs[i].after)
  {
    if rs != [] {
      var init := rs[..|rs| - 1];
      NextEntriesEmpty(init);
      assert forall i :: 0 <= i < |init| ==> init[i] == rs[i];
    }
  }

  lemma ResultsSafe(after: Option<string>, dateFrom: Bound, dateTo: Bound, upstream: Upstream)
    requires SafeTokens(upstream)
    ensures SafePages(Results(after, dateFrom, dateTo, upstream))
  {
  }

  /** Every post of every page lies in the requested window. */
  lemma ResultsInWindow(after: Option<string>, dateFrom: Bound, dateTo: Bound, upstream: Upstream, p: NormalizedPost)
    requires p in Concat(Results(after, dateFrom, dateTo, upstream))
    ensures InWindow(p.date, dateFrom, dateTo)
  {
    var rs := Results(after, dateFrom, dateTo, upstream);
    ConcatMember(rs, p);
    var j :| 0 <= j < |rs| && p in rs[j].posts;
    var sub := SUBREDDITS[j];
    match upstream(sub, OrNull(CursorFor(DecodeCursor(after), sub)))
    case Failed =>
    case Listing(children, _) => KeptInWindow(children, Normalize, dateFrom, dateTo);
  }

  /** The sorted concatenation loses no page's post and keeps only posts in the window. */
  lemma SortedPages(after: Option<string>, dateFrom: Bound, dateTo: Bound, upstream: Upstream)
    ensures var rs := Results(after, dateFrom, dateTo, upstream);
      forall i, p :: 0 <= i < |SUBREDDITS| && p in rs[i].posts ==> p in SortNewestFirst(Concat(rs))
    ensures forall p :: p in SortNewestFirst(Concat(Results(after, dateFrom, dateTo, upstream))) ==> InWindow(p.date, dateFrom, dateTo)
  {
    var rs := Results(after, dateFrom, dateTo, upstream);
    var all := Concat(rs);
    SortCorrect(all);
    forall j, p | 0 <= j < |SUBREDDITS| && p in rs[j].posts ensures p in SortNewestFirst(all) {
      ConcatMember(rs, p);
      assert p in multiset(all);
    }
    forall p | p in SortNewestFirst(all) ensures InWindow(p.date, dateFrom, dateTo) {
      assert p in multiset(all);
      ResultsInWindow(after, dateFrom, dateTo, upstream, p);
    }
  }

  /** `Promise.all(SUBREDDITS.map(...))`: one `fetchSubreddit` per subreddit, in
      order, each with its own entry of the decoded cursor map. */
  method FetchPages(cursors: map<string, string>, dateFrom: Bound, dateTo: Bound, upstream: Upstream)
    returns (results: seq<SourcePage>)
    ensures |results| == |SUBREDDITS|
    ensures forall i :: 0 <= i < |SUBREDDITS| ==>
      results[i] == SubredditPage(SUBREDDITS[i], CursorFor(cursors, SUBREDDITS[i]), dateFrom, dateTo, upstream)
  {
    results := [];
    var i := 0;
    while i < |SUBREDDITS|
      invariant 0 <= i <= |SUBREDDITS| && |results| == i
      invariant forall j :: 0 <= j < i ==>
        results[j] == SubredditPage(SUBREDDITS[j], CursorFor(cursors, SUBREDDITS[j]), dateFrom, dateTo, upstream)
    {
      var sub := SUBREDDITS[i];
      var page := FetchSubreddit(sub, CursorFor(cursors, sub), dateFrom, dateTo, upstream);
      results := results + [page];
      i := i + 1;
    }
  }

  /** The loop over the settled pages: every page's posts are appended to
      `allPosts`, and every truthy `after` becomes a member of `nextCursors`. */
  method CollectPages(results: seq<SourcePage>)
    returns (allPosts: seq<NormalizedPost>, nextCursors: seq<Entry>, hasMore: bool)
    requires |results| == |SUBREDDITS|
    ensures allPosts == Concat(results)
    ensures nextCursors == NextEntries(results)
    ensures hasMore <==> exists i :: 0 <= i < |results| && Truthy(results[i].after)
    ensures hasMore == (nextCursors != [])
  {
    allPosts := [];
    nextCursors := [];
    hasMore := false;
    var i := 0;
    while i < |SUBREDDITS|
      invariant 0 <= i <= |SUBREDDITS|
      invariant allPosts == Concat(results[..i])
      invariant nextCursors == NextEntries(results[..i])
      invariant hasMore == (nextCursors != [])
    {
      assert results[..i + 1][..i] == results[..i];
      allPosts := allPosts + results[i].posts;
      if Truthy(results[i].after) {
        nextCursors := nextCursors + [(SUBREDDITS[i], results[i].after.value)];
        hasMore := true;
      }
      i := i + 1;
    }
    assert results[..i] == results;
    NextEntriesEmpty(results);
  }

  /** `fetchPosts`. */
  method FetchPosts(after: Option<string>, dateFrom: Bound, dateTo: Bound, upstream: Upstream)
    returns (resp: ApiResponse)
    requires SafeTokens(upstream)
    ensures var rs := Results(after, dateFrom, dateTo, upstream);
      && IsSafeRecord(NextEntries(rs))
      && resp.posts == SortNewestFirst(Concat(rs))
      && resp.hasMore == (NextEntries(rs) != [])
      && resp.nextCursor == (if resp.hasMore then Some(EncodeCursor(NextEntries(rs))) else None)
    // ordering: newest first, a permutation of the concatenation, stable on equal dates
    ensures SortedNewestFirst(resp.posts)
    ensures multiset(resp.posts) == multiset(Concat(Results(after, dateFrom, dateTo, upstream)))
    ensures forall d :: WithDate(resp.posts, d) == WithDate(Concat(Results(after, dateFrom, dateTo, upstream)), d)
    // every page contributes whatever the others did, and the window holds for all of them
    ensures forall i, p :: 0 <= i < |SUBREDDITS| && p in Results(after, dateFrom, dateTo, upstream)[i].posts ==> p in resp.posts
    ensures forall p :: p in resp.posts ==> InWindow(p.date, dateFrom, dateTo)
    // continuation
    ensures resp.hasMore <==> exists i :: 0 <= i < |SUBREDDITS| && Truthy(Results(after, dateFrom, dateTo, upstream)[i].after)
    ensures resp.nextCursor.None? <==> !resp.hasMore
  {
    var cursors := DecodeCursor(after);
    var results := FetchPages(cursors, dateFrom, dateTo, upstream);
    ghost var rs := Results(after, dateFrom, dateTo, upstream);
    assert results == rs;
    var allPosts, nextCursors, hasMore := CollectPages(results);

    ResultsSafe(after, dateFrom, dateTo, upstream);
    NextEntriesSafe(results);
    SortCorrect(allPosts);
    allPosts := SortNewestFirst(allPosts);

    var nextCursor := if hasMore then Some(EncodeCursor(nextCursors)) else None;
    resp := ApiResponse(allPosts, nextCursor, hasMore);

    SortedPages(after, dateFrom, dateTo, upstream);
  }
}
