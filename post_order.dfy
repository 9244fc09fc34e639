/** The ordering of line 189 of src/reddit.ts, `allPosts.sort((a, b) => b.date - a.date)`:
    `Array.prototype.sort` is stable, so the result is newest first and posts
    with equal dates keep the order in which they were concatenated. */
module PostOrder {
  import opened Model

  predicate SortedNewestFirst(s: seq<NormalizedPost>) {
    forall i, j :: 0 <= i < j < |s| ==> s[i].date >= s[j].date
  }

  /** The posts of `s` dated `d`, in their order in `s`. Two lists that agree
      on every `WithDate` list the posts of each date in the same relative order. */
  function WithDate(s: seq<NormalizedPost>, d: int): seq<NormalizedPost> {
    if s == [] then []
    else (if s[0].date == d then [s[0]] else []) + WithDate(s[1..], d)
  }

  /** Puts `p` in front of the first post that is not newer than it. */
  function Insert(p: NormalizedPost, s: seq<NormalizedPost>): seq<NormalizedPost> {
    if s == [] || p.date >= s[0].date then [p] + s
    else [s[0]] + Insert(p, s[1..])
  }

  /** The sort, by insertion from the back: each post goes in front of every
      later post it does not predate, which is what keeps equal dates in order. */
  function SortNewestFirst(s: seq<NormalizedPost>): seq<NormalizedPost> {
    if s == [] then [] else Insert(s[0], SortNewestFirst(s[1..]))
  }

  lemma WithDateCons(x: NormalizedPost, s: seq<NormalizedPost>, d: int)
    ensures WithDate([x] + s, d) == (if x.date == d then [x] else []) + WithDate(s, d)
  {
    assert ([x] + s)[1..] == s;
  }

  lemma {:induction false} InsertPermutes(p: NormalizedPost, s: seq<NormalizedPost>)
    ensures multiset(Insert(p, s)) == multiset([p] + s)
  {
    if s != [] && p.date < s[0].date {
      InsertPermutes(p, s[1..]);
      assert s == [s[0]] + s[1..];
    }
  }

  lemma {:induction false} InsertSorted(p: NormalizedPost, s: seq<NormalizedPost>)
    requires SortedNewestFirst(s)
    ensures SortedNewestFirst(Insert(p, s))
  {
    if s != [] && p.date < s[0].date {
      var t := s[1..];
      InsertSorted(p, t);
      InsertPermutes(p, t);
      var r := Insert(p, t);
      forall j | 0 <= j < |r| ensures s[0].date >= r[j].date {
        assert r[j] in multiset([p] + t);
        if r[j] != p {
          assert r[j] in t;
        }
      }
    }
  }

  lemma {:induction false} InsertStable(p: NormalizedPost, s: seq<NormalizedPost>, d: int)
    requires SortedNewestFirst(s)
    ensures WithDate(Insert(p, s), d) == WithDate([p] + s, d)
  {
    if s != [] && p.date < s[0].date {
      var t := s[1..];
      assert s == [s[0]] + t;
      var a := if s[0].date == d then [s[0]] else [];
      var b := if p.date == d then [p] else [];
      calc {
        WithDate(Insert(p, s), d);
        == { WithDateCons(s[0], Insert(p, t), d); }
        a + WithDate(Insert(p, t), d);
        == { InsertStable(p, t, d); }
        a + WithDate([p] + t, d);
        == { WithDateCons(p, t, d); }
        a + (b + WithDate(t, d));
        == { assert a == [] || b == []; }
        b + (a + WithDate(t, d));
        == { WithDateCons(s[0], t, d); }
        b + WithDate(s, d);
        == { WithDateCons(p, s, d); }
        WithDate([p] + s, d);
      }
    }
  }

  /** The three properties the stable sort guarantees: ordered newest first,
      a permutation of its input, and equal dates in input order. */
  lemma {:induction false} SortCorrect(s: seq<NormalizedPost>)
    ensures SortedNewestFirst(SortNewestFirst(s))
    ensures multiset(SortNewestFirst(s)) == multiset(s)
    ensures forall d :: WithDate(SortNewestFirst(s), d) == WithDate(s, d)
  {
    if s != [] {
      var t := SortNewestFirst(s[1..]);
      SortCorrect(s[1..]);
      InsertSorted(s[0], t);
      InsertPermutes(s[0], t);
      assert s == [s[0]] + s[1..];
      forall d ensures WithDate(SortNewestFirst(s), d) == WithDate(s, d) {
        InsertStable(s[0], t, d);
        WithDateCons(s[0], t, d);
        WithDateCons(s[0], s[1..], d);
      }
    }
  }

  lemma {:induction false} WithDateMember(s: seq<NormalizedPost>, d: int, x: NormalizedPost)
    requires x in WithDate(s, d)
    ensures x in s && x.date == d
  {
    if s != [] {
      WithDateCons(s[0], s[1..], d);
      assert s == [s[0]] + s[1..];
      if x != s[0] || s[0].date != d {
        WithDateMember(s[1..], d, x);
      }
    }
  }

  lemma EmptyWithoutDates(b: seq<NormalizedPost>)
    requires forall d :: WithDate(b, d) == []
    ensures b == []
  {
    if b != [] {
      assert b == [b[0]] + b[1..];
      WithDateCons(b[0], b[1..], b[0].date);
    }
  }

  /** In a list ordered newest first, no post is newer than the head. */
  lemma HeadNewest(s: seq<NormalizedPost>, x: NormalizedPost)
    requires SortedNewestFirst(s) && x in s
    ensures s[0].date >= x.date
  {
    var i :| 0 <= i < |s| && s[i] == x;
  }

  /** The head of `a` is listed under its own date, so `b` holds it too. */
  lemma HeadInOther(a: seq<NormalizedPost>, b: seq<NormalizedPost>)
    requires a != [] && forall d :: WithDate(a, d) == WithDate(b, d)
    ensures a[0] in b
    ensures WithDate(b, a[0].date) == [a[0]] + WithDate(a[1..], a[0].date)
  {
    assert a == [a[0]] + a[1..];
    WithDateCons(a[0], a[1..], a[0].date);
    assert WithDate(b, a[0].date) == WithDate(a, a[0].date);
    WithDateMember(b, a[0].date, a[0]);
  }

  lemma SameHead(a: seq<NormalizedPost>, b: seq<NormalizedPost>)
    requires SortedNewestFirst(a) && SortedNewestFirst(b) && a != [] && b != []
    requires forall d :: WithDate(a, d) == WithDate(b, d)
    ensures a[0] == b[0]
  {
    HeadInOther(a, b);
    HeadInOther(b, a);
    HeadNewest(b, a[0]);
    HeadNewest(a, b[0]);
    var d := a[0].date;
    assert b[0].date == d;
    assert b == [b[0]] + b[1..];
    WithDateCons(b[0], b[1..], d);
    assert WithDate(b, d)[0] == b[0];
  }

  lemma SameTails(a: seq<NormalizedPost>, b: seq<NormalizedPost>, d: int)
    requires a != [] && b != [] && a[0] == b[0]
    requires WithDate(a, d) == WithDate(b, d)
    ensures WithDate(a[1..], d) == WithDate(b[1..], d)
  {
    var x := a[0];
    var h := if x.date == d then [x] else [];
    var ta, tb := WithDate(a[1..], d), WithDate(b[1..], d);
    assert a == [x] + a[1..] && b == [x] + b[1..];
    WithDateCons(x, a[1..], d);
    WithDateCons(x, b[1..], d);
    assert h + ta == h + tb;
    assert ta == (h + ta)[|h|..];
    assert tb == (h + tb)[|h|..];
  }

  /** Being ordered newest first and keeping every date's posts in input order
      determines the result: any list with both properties is the sorted one. */
  lemma {:induction false} SortUnique(a: seq<NormalizedPost>, b: seq<NormalizedPost>)
    requires SortedNewestFirst(a) && SortedNewestFirst(b)
    requires forall d :: WithDate(a, d) == WithDate(b, d)
    ensures a == b
    decreases |a|
  {
    if a == [] {
      EmptyWithoutDates(b);
    } else if b == [] {
      EmptyWithoutDates(a);
    } else {
      SameHead(a, b);
      forall d ensures WithDate(a[1..], d) == WithDate(b[1..], d) {
        SameTails(a, b, d);
      }
      SortUnique(a[1..], b[1..]);
      assert a == [a[0]] + a[1..] && b == [b[0]] + b[1..];
    }
  }

  /** The two-source example: dates [100, 50] then [75] come out as [100, 75, 50]. */
  lemma TwoSourceExample(p100: NormalizedPost, p50: NormalizedPost, p75: NormalizedPost)
    requires p100.date == 100 && p50.date == 50 && p75.date == 75
    ensures SortNewestFirst([p100, p50] + [p75]) == [p100, p75, p50]
  {
    var s := [p100, p50] + [p75];
    assert s[1..][1..][1..] == [];
    assert SortNewestFirst(s[1..][1..]) == Insert(p75, []) == [p75];
    assert SortNewestFirst(s[1..]) == Insert(p50, [p75]) == [p75, p50];
    assert SortNewestFirst(s) == Insert(p100, [p75, p50]);
  }
}
