/** Following page cursors over a fixed timeline. */
module LogPaging {
  import opened Prelude
  import opened Weeks
  import opened LogStore

  /** Every matching row of the timeline, in order. */
  function Matching(t: seq<Entry>, q: Criteria): seq<Entry> { Hits(t, q, None, Backward) }

  /** A cursor handed out with a page, by position: no cursor stands past the newest match. */
  ghost predicate AnchoredAt(m: seq<Entry>, c: Option<Cursor>, i: nat) {
    if c.None? then i == |m| else i < |m| && c.value == CursorOf(m[i])
  }

  /** For a cursor whose instant lies in its own week, `Past` is the strict `(ts, id)` order. */
  lemma PastIsTheTimelineOrder(c: Cursor, e: Entry)
    requires InItsWeek(e) && c.week == MondayFloor(c.ts)
    ensures Past(Some(c), Backward, e) <==> e.ts < c.ts || (e.ts == c.ts && e.id < c.id)
    ensures Past(Some(c), Forward, e) <==> c.ts < e.ts || (c.ts == e.ts && c.id < e.id)
  {
  }

  lemma {:induction false} MatchingIsTimeline(t: seq<Entry>, q: Criteria)
    requires Timeline(t)
    ensures Timeline(Matching(t, q))
    ensures forall e :: e in Matching(t, q) <==> e in t && Matches(q, e)
  {
    if t != [] {
      MatchingIsTimeline(t[1..], q);
      forall e ensures e in t <==> e == t[0] || e in t[1..] { HeadOrTail(t, e); }
      assert forall e :: e in t[1..] ==> Before(t[0], e);
    }
  }

  lemma {:induction false} HitsOfMatching(t: seq<Entry>, q: Criteria, c: Option<Cursor>, d: Direction)
    ensures Hits(t, q, c, d) == Hits(Matching(t, q), q, c, d)
  {
    if t != [] {
      HitsOfMatching(t[1..], q, c, d);
      if Matches(q, t[0]) {
        HitsConcat([t[0]], Matching(t[1..], q), q, c, d);
      } else {
        assert [] + Matching(t[1..], q) == Matching(t[1..], q);
      }
    }
  }

  lemma {:induction false} HitsAll(s: seq<Entry>, q: Criteria, c: Option<Cursor>, d: Direction)
    requires forall e :: e in s ==> Matches(q, e) && Past(c, d, e)
    ensures Hits(s, q, c, d) == s
  {
    if s != [] { HitsAll(s[1..], q, c, d); }
  }

  /** In a list of matches, a row's cursor admits exactly the rows on its own side. */
  lemma PastAnchor(m: seq<Entry>, i: nat, k: nat)
    requires Timeline(m) && i < |m| && k < |m|
    ensures Past(Some(CursorOf(m[i])), Backward, m[k]) <==> k < i
    ensures Past(Some(CursorOf(m[i])), Forward, m[k]) <==> i < k
  {
    assert m[i] in m && m[k] in m;
    assert k < i ==> Before(m[k], m[i]);
    assert i < k ==> Before(m[i], m[k]);
  }

  /** The hits of a list of matches, cut where `Past` changes. */
  lemma HitsSplit(m: seq<Entry>, q: Criteria, i: nat, c: Option<Cursor>, d: Direction, cut: nat)
    requires cut <= |m| && forall k :: 0 <= k < |m| ==> Matches(q, m[k])
    requires forall k :: 0 <= k < |m| ==> (Past(c, d, m[k]) <==> if d == Backward then k < cut else cut <= k)
    ensures Hits(m, q, c, d) == if d == Backward then m[..cut] else m[cut..]
  {
    assert m == m[..cut] + m[cut..];
    HitsConcat(m[..cut], m[cut..], q, c, d);
    if d == Backward {
      HitsAll(m[..cut], q, c, d);
      HitsNone(m[cut..], q, c, d);
    } else {
      HitsNone(m[..cut], q, c, d);
      HitsAll(m[cut..], q, c, d);
    }
  }

  /** The cursor of the i-th match splits the matches right there. */
  lemma HitsAroundAnchor(t: seq<Entry>, q: Criteria, i: nat, d: Direction)
    requires Timeline(t) && i < |Matching(t, q)|
    ensures var m := Matching(t, q);
      Hits(t, q, Some(CursorOf(m[i])), d) == if d == Backward then m[..i] else m[i + 1..]
  {
    var m := Matching(t, q);
    var c := Some(CursorOf(m[i]));
    MatchingIsTimeline(t, q);
    HitsOfMatching(t, q, c, d);
    forall k | 0 <= k < |m|
      ensures Matches(q, m[k]) && (Past(c, d, m[k]) <==> if d == Backward then k < i else i + 1 <= k)
    {
      assert m[k] in m;
      PastAnchor(m, i, k);
    }
    HitsSplit(m, q, i, c, d, if d == Backward then i else i + 1);
  }

  /** The page holds the matches from `lo` up to `hi` and the cursors of its first and last row. */
  ghost predicate Shows(p: LogPage, m: seq<Entry>, lo: int, hi: int) {
    && 0 <= lo <= hi <= |m| && |p.items| == hi - lo && (forall k :: lo <= k < hi ==> p.items[k - lo] == m[k])
    && (lo < hi ==> p.olderCursor == Some(CursorOf(m[lo])) && p.newerCursor == Some(CursorOf(m[hi - 1])))
  }

  lemma ShownRowsExtend(p: LogPage, m: seq<Entry>, lo: int, hi: int)
    requires Shows(p, m, lo, hi)
    ensures m[..lo] + p.items == m[..hi]
  {
  }

  /** The page of the `limit` matches up to `hi`, with flags that tell the truth on both sides. */
  ghost predicate ShowsOlder(p: LogPage, m: seq<Entry>, hi: int, f: LogFilter) {
    var lo := Max(0, hi - PageLimit(f));
    Shows(p, m, lo, hi) && (p.hasOlder <==> 0 < lo) && (lo < hi ==> (p.hasNewer <==> hi < |m|))
  }

  /** The page of the `limit` matches from `lo` on; an exhausted one echoes the cursor it was asked with. */
  ghost predicate ShowsNewer(p: LogPage, m: seq<Entry>, lo: int, f: LogFilter) {
    var hi := Min(|m|, lo + PageLimit(f));
    && Shows(p, m, lo, hi) && (p.hasNewer <==> hi < |m|)
    && (lo < hi ==> p.hasOlder) && (lo == hi ==> p.newerCursor == f.after)
  }

  lemma BackwardSlice(p: LogPage, m: seq<Entry>, hi: nat, f: LogFilter)
    requires f.after.None? && AnchoredAt(m, f.before, hi) && p == PageFrom(m[..hi], f)
    ensures ShowsOlder(p, m, hi, f)
  {
  }

  lemma ForwardSlice(p: LogPage, m: seq<Entry>, lo: nat, f: LogFilter)
    requires f.after.Some? && lo <= |m| && p == PageFrom(m[lo..], f)
    ensures ShowsNewer(p, m, lo, f)
  {
  }

  /** A backward page is the slice ending at its anchor. */
  lemma BackwardPage(t: seq<Entry>, f: LogFilter, hi: nat)
    requires Timeline(t) && f.after.None? && AnchoredAt(Matching(t, f.criteria), f.before, hi)
    ensures ShowsOlder(PageOf(t, f), Matching(t, f.criteria), hi, f)
  {
    var m := Matching(t, f.criteria);
    assert Hits(t, f.criteria, f.before, Backward) == m[..hi] by {
      if f.before.Some? { HitsAroundAnchor(t, f.criteria, hi, Backward); }
    }
    BackwardSlice(PageOf(t, f), m, hi, f);
  }

  /** A forward page is the slice starting after its anchor. */
  lemma ForwardPage(t: seq<Entry>, f: LogFilter, i: nat)
    requires Timeline(t) && f.after.Some? && AnchoredAt(Matching(t, f.criteria), f.after, i)
    ensures ShowsNewer(PageOf(t, f), Matching(t, f.criteria), i + 1, f)
  {
    var m := Matching(t, f.criteria);
    assert Hits(t, f.criteria, f.after, Forward) == m[i + 1..] by {
      HitsAroundAnchor(t, f.criteria, i, Forward);
    }
    ForwardSlice(PageOf(t, f), m, i + 1, f);
  }

  /** What each request returns. */
  type Pages = LogFilter -> LogPage

  /** Every backward page with these criteria is the slice of the matches ending at its anchor. */
  ghost predicate SlicesOf(pages: Pages, q: Criteria, m: seq<Entry>) {
    forall f: LogFilter, hi: nat :: f.after.None? && f.criteria == q && AnchoredAt(m, f.before, hi) ==>
      ShowsOlder(pages(f), m, hi, f)
  }

  lemma OlderPages(p: LogPage, m: seq<Entry>, hi: nat, f: LogFilter)
    requires ShowsOlder(p, m, hi, f)
    ensures if p.hasOlder
            then PageLimit(f) < hi && AnchoredAt(m, p.olderCursor, hi - PageLimit(f))
              && m[..hi - PageLimit(f)] + p.items == m[..hi]
            else p.items == m[..hi]
  {
    ShownRowsExtend(p, m, Max(0, hi - PageLimit(f)), hi);
  }

  /** Follows `before = older_cursor` until `has_older` is false; the rows read, oldest first. */
  ghost function ReadPages(pages: Pages, f: LogFilter, hi: nat, m: seq<Entry>): seq<Entry>
    requires SlicesOf(pages, f.criteria, m) && f.after.None? && AnchoredAt(m, f.before, hi)
    decreases hi
  {
    var p := pages(f);
    OlderPages(p, m, hi, f);
    if p.hasOlder then ReadPages(pages, f.(before := p.olderCursor), hi - PageLimit(f), m) + p.items else p.items
  }

  lemma {:induction false} PagesJoin(pages: Pages, f: LogFilter, hi: nat, m: seq<Entry>)
    requires SlicesOf(pages, f.criteria, m) && f.after.None? && AnchoredAt(m, f.before, hi)
    ensures ReadPages(pages, f, hi, m) == m[..hi]
    decreases hi
  {
    var p := pages(f);
    OlderPages(p, m, hi, f);
    if p.hasOlder { PagesJoin(pages, f.(before := p.olderCursor), hi - PageLimit(f), m); }
  }

  lemma PagesAreSlices(t: seq<Entry>, q: Criteria)
    requires Timeline(t)
    ensures SlicesOf(f => PageOf(t, f), q, Matching(t, q))
  {
    forall f: LogFilter, hi: nat | f.after.None? && f.criteria == q && AnchoredAt(Matching(t, q), f.before, hi)
      ensures ShowsOlder(PageOf(t, f), Matching(t, q), hi, f)
    {
      BackwardPage(t, f, hi);
    }
  }

  ghost function ReadBackward(t: seq<Entry>, f: LogFilter, hi: nat): seq<Entry>
    requires Timeline(t) && f.after.None? && AnchoredAt(Matching(t, f.criteria), f.before, hi)
  {
    PagesAreSlices(t, f.criteria);
    ReadPages(g => PageOf(t, g), f, hi, Matching(t, f.criteria))
  }

  /** Paging back from any anchor ends, and yields each older matching row exactly once, in order. */
  lemma BackwardPagingIsComplete(t: seq<Entry>, f: LogFilter, hi: nat)
    requires Timeline(t) && f.after.None? && AnchoredAt(Matching(t, f.criteria), f.before, hi)
    ensures ReadBackward(t, f, hi) == Matching(t, f.criteria)[..hi]
  {
    PagesAreSlices(t, f.criteria);
    PagesJoin(g => PageOf(t, g), f, hi, Matching(t, f.criteria));
  }

  /** The newest page and all the pages before it are the whole matching timeline. */
  lemma PagingFromTheNewestPage(t: seq<Entry>, q: Criteria, limit: Option<nat>)
    requires Timeline(t)
    ensures ReadBackward(t, LogFilter(q, limit, None, None), |Matching(t, q)|) == Matching(t, q)
  {
    BackwardPagingIsComplete(t, LogFilter(q, limit, None, None), |Matching(t, q)|);
  }

  lemma NewerAnchor(p: LogPage, m: seq<Entry>, lo: int, hi: int)
    requires Shows(p, m, lo, hi) && lo < hi
    ensures p.newerCursor.Some? && AnchoredAt(m, p.newerCursor, hi - 1)
  {
  }

  lemma NextPage(t: seq<Entry>, f: LogFilter, m: seq<Entry>, p: LogPage, lo: int, hi: int)
    requires Timeline(t) && m == Matching(t, f.criteria) && Shows(p, m, lo, hi) && lo < hi && f.after == p.newerCursor
    ensures ShowsNewer(PageOf(t, f), m, hi, f)
  {
    NewerAnchor(p, m, lo, hi);
    ForwardPage(t, f, hi - 1);
  }

  /** From any page, `after = newer_cursor` returns exactly the rows that come next. */
  lemma NextPageContinues(t: seq<Entry>, q: Criteria, p: LogPage, lo: int, hi: int, limit: Option<nat>)
    requires Timeline(t) && Shows(p, Matching(t, q), lo, hi) && lo < hi
    ensures var f := LogFilter(q, limit, None, p.newerCursor);
      ShowsNewer(PageOf(t, f), Matching(t, q), hi, f)
  {
    NextPage(t, LogFilter(q, limit, None, p.newerCursor), Matching(t, q), p, lo, hi);
  }
}
