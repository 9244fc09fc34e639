/** The date window both adapters apply after normalising a page
    (src/reddit.ts:144-150, src/bluesky.ts:138-144): a post is kept when it
    normalises and its date lies inside every bound that is truthy. */
module DateWindow {
  import opened Common
  import opened Model

  /** An optional Unix-seconds bound, `number | undefined`. */
  type Bound = Option<int>

  /** JavaScript truthiness of the bound: absent and 0 both mean "unbounded". */
  predicate Active(b: Bound) {
    b.Some? && b.value != 0
  }

  /** The two `continue` guards of the filter loops, negated. */
  predicate InWindow(date: int, dateFrom: Bound, dateTo: Bound) {
    && (Active(dateFrom) ==> date >= dateFrom.value)
    && (Active(dateTo) ==> date <= dateTo.value)
  }

  /** Whether one raw item survives the loop body. */
  predicate Keeps<T>(normalize: T -> Option<NormalizedPost>, item: T, dateFrom: Bound, dateTo: Bound) {
    normalize(item).Some? && InWindow(normalize(item).value.date, dateFrom, dateTo)
  }

  /** The posts the filter loop has pushed after visiting `items`, in visiting order. */
  function Kept<T>(items: seq<T>, normalize: T -> Option<NormalizedPost>, dateFrom: Bound, dateTo: Bound): seq<NormalizedPost>
  {
    if items == [] then []
    else
      var last := items[|items| - 1];
      Kept(items[..|items| - 1], normalize, dateFrom, dateTo)
        + (if Keeps(normalize, last, dateFrom, dateTo) then [normalize(last).value] else [])
  }

  /** One more visited item: the loop pushes its post exactly when it is kept. */
  lemma KeptStep<T>(items: seq<T>, i: int, normalize: T -> Option<NormalizedPost>, dateFrom: Bound, dateTo: Bound)
    requires 0 <= i < |items|
    ensures Kept(items[..i + 1], normalize, dateFrom, dateTo)
      == Kept(items[..i], normalize, dateFrom, dateTo) + (if Keeps(normalize, items[i], dateFrom, dateTo) then [normalize(items[i]).value] else [])
  {
    assert items[..i + 1][..i] == items[..i];
  }

  /** Every kept post honours both truthy bounds. */
  lemma {:induction false} KeptInWindow<T>(items: seq<T>, normalize: T -> Option<NormalizedPost>, dateFrom: Bound, dateTo: Bound)
    ensures forall p :: p in Kept(items, normalize, dateFrom, dateTo) ==> InWindow(p.date, dateFrom, dateTo)
  {
    if items != [] {
      KeptInWindow(items[..|items| - 1], normalize, dateFrom, dateTo);
    }
  }

  /** Filtering a concatenation is concatenating the filtered parts: the loop keeps input order. */
  lemma {:induction false} KeptAppend<T>(a: seq<T>, b: seq<T>, normalize: T -> Option<NormalizedPost>, dateFrom: Bound, dateTo: Bound)
    ensures Kept(a + b, normalize, dateFrom, dateTo) == Kept(a, normalize, dateFrom, dateTo) + Kept(b, normalize, dateFrom, dateTo)
    decreases |b|
  {
    if b == [] {
      assert a + b == a;
    } else {
      var b' := b[..|b| - 1];
      assert (a + b)[..|a + b| - 1] == a + b';
      assert (a + b)[|a + b| - 1] == b[|b| - 1];
      KeptAppend(a, b', normalize, dateFrom, dateTo);
    }
  }

  /** A post is kept exactly when some item normalises to it inside the window. */
  lemma {:induction false} KeptMember<T>(items: seq<T>, normalize: T -> Option<NormalizedPost>, dateFrom: Bound, dateTo: Bound, p: NormalizedPost)
    ensures p in Kept(items, normalize, dateFrom, dateTo)
        <==> exists i :: 0 <= i < |items| && normalize(items[i]) == Some(p) && InWindow(p.date, dateFrom, dateTo)
  {
    if items != [] {
      var init := items[..|items| - 1];
      KeptMember(init, normalize, dateFrom, dateTo, p);
      if exists i :: 0 <= i < |items| && normalize(items[i]) == Some(p) && InWindow(p.date, dateFrom, dateTo) {
        var i :| 0 <= i < |items| && normalize(items[i]) == Some(p) && InWindow(p.date, dateFrom, dateTo);
        if i < |init| {
          assert init[i] == items[i];
        }
      }
      if exists i :: 0 <= i < |init| && normalize(init[i]) == Some(p) && InWindow(p.date, dateFrom, dateTo) {
        var i :| 0 <= i < |init| && normalize(init[i]) == Some(p) && InWindow(p.date, dateFrom, dateTo);
        assert items[i] == init[i];
      }
    }
  }

  /** A bound that is absent or 0 is no bound: with neither bound truthy the loop keeps
      what it keeps with no bounds at all, and so drops only the items that do not
      normalise; when every item normalises, all are kept, one to one and in order. */
  lemma {:induction false} KeptUnbounded<T>(items: seq<T>, normalize: T -> Option<NormalizedPost>, dateFrom: Bound, dateTo: Bound)
    requires !Active(dateFrom) && !Active(dateTo)
    ensures Kept(items, normalize, dateFrom, dateTo) == Kept(items, normalize, None, None)
    ensures (forall i :: 0 <= i < |items| ==> normalize(items[i]).Some?) ==>
      && |Kept(items, normalize, dateFrom, dateTo)| == |items|
      && forall i :: 0 <= i < |items| ==> Kept(items, normalize, dateFrom, dateTo)[i] == normalize(items[i]).value
  {
    if items != [] {
      var init := items[..|items| - 1];
      assert forall i :: 0 <= i < |init| ==> init[i] == items[i];
      KeptUnbounded(init, normalize, dateFrom, dateTo);
    }
  }
}
