/** What a page answers, told over the stored rows and the fields of the request. */
module LogAnswers {
  import opened Prelude
  import opened LogStore

  /** A row a table holds, with its instant and key spelled out. */
  ghost predicate IsStored(weeks: map<int, seq<Row>>, e: Entry) {
    e.week in weeks && exists r :: r in weeks[e.week] && r.id == e.id && e.week + r.tsRel == e.ts && r.body == e.body
  }

  /** The row meets every condition the request names. */
  predicate Asked(f: LogFilter, e: Entry) {
    var q := f.criteria;
    && (q.from == None || q.from.value <= e.ts) && (q.to == None || e.ts <= q.to.value)
    && (q.levels == {} || (e.body.level != None && e.body.level.value in q.levels))
    && (q.streams == {} || e.body.stream in q.streams)
    && q.text(e.body)
  }

  /** It lies on the side of the cursor the request asks for. */
  predicate InReach(f: LogFilter, e: Entry) {
    if f.after != None then
      e.ts > f.after.value.ts || (e.ts == f.after.value.ts && (e.week != f.after.value.week || e.id > f.after.value.id))
    else
      f.before == None || e.ts < f.before.value.ts
      || (e.ts == f.before.value.ts && (e.week != f.before.value.week || e.id < f.before.value.id))
  }

  /** A page has room for as many rows as were asked for, from 1 to 100, and for 100 if nothing was said. */
  predicate HasRoomFor(f: LogFilter, n: nat) {
    if f.limit == None || f.limit.value > 100 then n == 100
    else if f.limit.value == 0 then n == 1
    else n == f.limit.value
  }

  ghost predicate Qualifies(weeks: map<int, seq<Row>>, f: LogFilter, e: Entry) {
    IsStored(weeks, e) && Asked(f, e) && InReach(f, e)
  }

  /** Farther from the cursor than every row of the page. */
  ghost predicate LiesBeyond(f: LogFilter, items: seq<Entry>, e: Entry) {
    forall x :: x in items ==>
      if f.after != None then x.ts < e.ts || (x.ts == e.ts && x.id < e.id)
      else e.ts < x.ts || (e.ts == x.ts && e.id < x.id)
  }

  /** The rows of a page qualify and rise; a qualifying row that is not on the page lies beyond a full page. */
  ghost predicate ItemsAnswer(weeks: map<int, seq<Row>>, f: LogFilter, items: seq<Entry>) {
    && (forall e :: e in items ==> Qualifies(weeks, f, e))
    && (forall i, j :: 0 <= i < j < |items| ==>
          items[i].ts < items[j].ts || (items[i].ts == items[j].ts && items[i].id < items[j].id))
    && (forall e :: Qualifies(weeks, f, e) && e !in items ==> HasRoomFor(f, |items|) && LiesBeyond(f, items, e))
    && exists n: nat :: HasRoomFor(f, n) && |items| <= n
  }

  /** The flag of the scan's own side says whether a qualifying row is missing. */
  ghost predicate FlagsAnswer(weeks: map<int, seq<Row>>, f: LogFilter, p: LogPage) {
    && ((if f.after != None then p.hasNewer else p.hasOlder) <==> exists e :: Qualifies(weeks, f, e) && e !in p.items)
    && (p.items != [] ==> if f.after != None then p.hasOlder else p.hasNewer <==> f.before != None)
    && (p.items == [] ==> !p.hasOlder && !p.hasNewer)
  }

  /** The cursors are those of the first and last row; an empty page echoes the cursor it was asked with. */
  predicate CursorsAnswer(f: LogFilter, p: LogPage) {
    if p.items == [] then p.olderCursor == None && p.newerCursor == f.after
    else
      var first, last := p.items[0], p.items[|p.items| - 1];
      && p.olderCursor == Some(Cursor(first.ts, first.week, first.id))
      && p.newerCursor == Some(Cursor(last.ts, last.week, last.id))
  }

  ghost predicate Answers(weeks: map<int, seq<Row>>, f: LogFilter, p: LogPage) {
    ItemsAnswer(weeks, f, p.items) && FlagsAnswer(weeks, f, p) && CursorsAnswer(f, p)
  }

  // ---------------------------------------------------------------- the specification answers

  lemma {:induction false} HitsMembers(s: seq<Entry>, q: Criteria, c: Option<Cursor>, d: Direction)
    ensures forall e :: e in Hits(s, q, c, d) <==> e in s && Matches(q, e) && Past(c, d, e)
  {
    if s != [] {
      HitsMembers(s[1..], q, c, d);
      forall e ensures e in s <==> e == s[0] || e in s[1..] { HeadOrTail(s, e); }
    }
  }

  lemma {:induction false} HitsOrdered(s: seq<Entry>, q: Criteria, c: Option<Cursor>, d: Direction)
    requires Ordered(s)
    ensures Ordered(Hits(s, q, c, d))
  {
    if s != [] {
      HitsOrdered(s[1..], q, c, d);
      HitsMembers(s[1..], q, c, d);
      assert forall e :: e in s[1..] ==> Before(s[0], e);
    }
  }

  lemma StoredIsListed(weeks: map<int, seq<Row>>, e: Entry)
    requires ValidShards(weeks)
    ensures IsStored(weeks, e) <==> e in FlatTimeline(weeks)
  {
    FlatTimelineIsTheTimeline(weeks);
    if IsStored(weeks, e) {
      var r :| r in weeks[e.week] && r.id == e.id && e.week + r.tsRel == e.ts && r.body == e.body;
      assert e == Decode(e.week, r);
    }
  }

  lemma AskedIsMatch(f: LogFilter, e: Entry)
    ensures Asked(f, e) <==> Matches(f.criteria, e)
  {
  }

  lemma InReachIsPast(f: LogFilter, e: Entry)
    ensures InReach(f, e) <==> Past(ScanCursor(f), ScanDirection(f), e)
  {
  }

  lemma HitQualifies(weeks: map<int, seq<Row>>, f: LogFilter, e: Entry)
    requires ValidShards(weeks)
    ensures Qualifies(weeks, f, e) <==> e in Hits(FlatTimeline(weeks), f.criteria, ScanCursor(f), ScanDirection(f))
  {
    StoredIsListed(weeks, e);
    AskedIsMatch(f, e);
    InReachIsPast(f, e);
    HitsMembers(FlatTimeline(weeks), f.criteria, ScanCursor(f), ScanDirection(f));
  }

  lemma LastHas(hits: seq<Entry>, n: nat)
    ensures forall i :: |hits| - Min(n, |hits|) <= i < |hits| ==> hits[i] in Last(hits, n)
  {
    var cut := |hits| - Min(n, |hits|);
    forall i | cut <= i < |hits| ensures hits[i] in Last(hits, n) { assert Last(hits, n)[i - cut] == hits[i]; }
  }

  lemma FirstHas(hits: seq<Entry>, n: nat)
    ensures forall i :: 0 <= i < Min(n, |hits|) ==> hits[i] in First(hits, n)
  {
    forall i | 0 <= i < Min(n, |hits|) ensures hits[i] in First(hits, n) { assert First(hits, n)[i] == hits[i]; }
  }

  lemma LastSplit(hits: seq<Entry>, n: nat, e: Entry)
    requires Ordered(hits) && e in hits && e !in Last(hits, n)
    ensures |Last(hits, n)| == n && forall x :: x in Last(hits, n) ==> Before(e, x)
  {
    var cut := |hits| - Min(n, |hits|);
    var i :| 0 <= i < |hits| && hits[i] == e;
    LastHas(hits, n);
    forall x | x in Last(hits, n) ensures Before(e, x) {
      var j :| 0 <= j < |Last(hits, n)| && Last(hits, n)[j] == x;
      assert x == hits[cut + j];
    }
  }

  lemma FirstSplit(hits: seq<Entry>, n: nat, e: Entry)
    requires Ordered(hits) && e in hits && e !in First(hits, n)
    ensures |First(hits, n)| == n && forall x :: x in First(hits, n) ==> Before(x, e)
  {
    var i :| 0 <= i < |hits| && hits[i] == e;
    FirstHas(hits, n);
    forall x | x in First(hits, n) ensures Before(x, e) {
      var j :| 0 <= j < |First(hits, n)| && First(hits, n)[j] == x;
      assert x == hits[j];
    }
  }

  function ItemsOf(hits: seq<Entry>, f: LogFilter): seq<Entry> {
    if f.after.None? then Last(hits, PageLimit(f)) else First(hits, PageLimit(f))
  }

  lemma LimitHasRoom(f: LogFilter)
    ensures HasRoomFor(f, PageLimit(f))
  {
  }

  lemma ItemsOfHits(hits: seq<Entry>, f: LogFilter)
    requires Ordered(hits)
    ensures Ordered(ItemsOf(hits, f)) && |ItemsOf(hits, f)| <= PageLimit(f)
    ensures forall e :: e in ItemsOf(hits, f) ==> e in hits
    ensures forall e :: e in hits && e !in ItemsOf(hits, f) ==>
      |ItemsOf(hits, f)| == PageLimit(f) && LiesBeyond(f, ItemsOf(hits, f), e)
  {
    var items := ItemsOf(hits, f);
    var cut := |hits| - Min(PageLimit(f), |hits|);
    assert forall i :: 0 <= i < |items| ==> items[i] == hits[if f.after.None? then cut + i else i];
    forall e | e in hits && e !in items ensures |items| == PageLimit(f) && LiesBeyond(f, items, e) {
      if f.after.None? { LastSplit(hits, PageLimit(f), e); } else { FirstSplit(hits, PageLimit(f), e); }
    }
  }

  lemma ItemsAreAnswers(weeks: map<int, seq<Row>>, f: LogFilter, hits: seq<Entry>)
    requires Ordered(hits) && forall e :: Qualifies(weeks, f, e) <==> e in hits
    ensures ItemsAnswer(weeks, f, ItemsOf(hits, f))
  {
    ItemsOfHits(hits, f);
    LimitHasRoom(f);
  }

  /** Some hit is missing from the page exactly when there are more hits than the page has room for. */
  lemma MissingIffMore(hits: seq<Entry>, f: LogFilter)
    requires Ordered(hits)
    ensures (exists e :: e in hits && e !in ItemsOf(hits, f)) <==> |hits| > PageLimit(f)
  {
    var items := ItemsOf(hits, f);
    ItemsOfHits(hits, f);
    if |hits| > PageLimit(f) {
      var out := if f.after.None? then hits[0] else hits[|hits| - 1];
      var cut := |hits| - PageLimit(f);
      forall x | x in items ensures x != out {
        var i :| 0 <= i < |items| && items[i] == x;
        assert x == hits[if f.after.None? then cut + i else i];
      }
      assert out in hits && out !in items;
    } else {
      assert items == hits;
    }
  }

  lemma FlagsAreAnswers(weeks: map<int, seq<Row>>, f: LogFilter, hits: seq<Entry>)
    requires Ordered(hits) && forall e :: Qualifies(weeks, f, e) <==> e in hits
    ensures FlagsAnswer(weeks, f, PageFrom(hits, f)) && CursorsAnswer(f, PageFrom(hits, f))
    ensures PageFrom(hits, f).items == ItemsOf(hits, f)
  {
    MissingIffMore(hits, f);
    var p := PageFrom(hits, f);
    assert (exists e :: Qualifies(weeks, f, e) && e !in p.items) <==> exists e :: e in hits && e !in p.items;
  }

  /** The page of the specification answers the request, whatever is stored and whatever is asked. */
  lemma PageAnswers(weeks: map<int, seq<Row>>, f: LogFilter)
    requires ValidShards(weeks)
    ensures Answers(weeks, f, PageOf(FlatTimeline(weeks), f))
  {
    var hits := Hits(FlatTimeline(weeks), f.criteria, ScanCursor(f), ScanDirection(f));
    FlatTimelineIsTheTimeline(weeks);
    HitsOrdered(FlatTimeline(weeks), f.criteria, ScanCursor(f), ScanDirection(f));
    forall e ensures Qualifies(weeks, f, e) <==> e in hits { HitQualifies(weeks, f, e); }
    ItemsAreAnswers(weeks, f, hits);
    FlagsAreAnswers(weeks, f, hits);
  }
}
