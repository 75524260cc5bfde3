/** At least two samples in every bucket, as at the default interval: a container gets its history back. */
module DenseCollection {
  import opened Prelude
  import opened Buckets
  import opened ContainerBuckets
  import opened ContainerLife

  /** A sample that enters a bucket has another one after it in the same bucket. */
  ghost predicate TwicePerBucket(xs: seq<Reading>) {
    forall k :: 0 <= k < |xs| && Closes(xs[..k]) ==> !Closes(xs[..k + 1])
  }

  /** How many buckets the samples have closed. */
  function Closings(xs: seq<Reading>): nat {
    if xs == [] then 0 else Closings(xs[..|xs| - 1]) + if Closes(xs) then 1 else 0
  }

  /** Every bucket closed after the first `m` samples has its share. */
  ghost predicate SharesAfter(xs: seq<Reading>, m: nat, has: ShareTest) {
    forall k :: m < k <= |xs| && Closes(xs[..k]) ==> has(xs[..k])
  }

  lemma ClosingsOneMore(ys: seq<Reading>, x: Reading)
    ensures Closings(ys + [x]) == Closings(ys) + if Closes(ys + [x]) then 1 else 0
  {
    assert (ys + [x])[..|ys|] == ys;
  }

  lemma TwiceBefore(ys: seq<Reading>, x: Reading)
    requires TwicePerBucket(ys + [x])
    ensures TwicePerBucket(ys) && (Closes(ys) ==> !Closes(ys + [x]))
  {
    var xs := ys + [x];
    assert xs[..|ys|] == ys && xs[..|ys| + 1] == xs;
    forall k | 0 <= k < |ys| && Closes(ys[..k]) ensures !Closes(ys[..k + 1]) {
      assert xs[..k] == ys[..k] && xs[..k + 1] == ys[..k + 1];
    }
  }

  lemma SharesBefore(ys: seq<Reading>, x: Reading, m: nat, has: ShareTest)
    requires SharesAfter(ys + [x], m, has)
    ensures SharesAfter(ys, m, has) && (m <= |ys| && Closes(ys + [x]) ==> has(ys + [x]))
  {
    var xs := ys + [x];
    assert xs[..|ys| + 1] == xs;
    forall k | m < k <= |ys| && Closes(ys[..k]) ensures has(ys[..k]) {
      assert xs[..k] == ys[..k];
    }
  }

  lemma EndsRise(ys: seq<Reading>, x: Reading)
    requires RisingReadings(ys + [x]) && ys != []
    ensures RisingReadings(ys) && End(ys[|ys| - 1]) <= End(x)
  {
    PrefixRises(ys, x);
    BucketEndRises(ys[|ys| - 1].ts, x.ts, LEN);
  }

  // ---------------------------------------------------------------- how a history is regained

  /** The first sample kept stands in the newest sample's bucket, or in an earlier one. */
  predicate Reopened(xs: seq<Reading>, from: nat)
    requires from < |xs|
  {
    End(xs[from]) < End(xs[|xs| - 1])
  }

  /** Where a container stands once `closed` buckets have been closed: nothing is promised at first; after one, what is
      kept from within the open bucket has not been idle; after two, what is kept reaches back before it. */
  predicate Regained(xs: seq<Reading>, life: Life, closed: nat) {
    && xs != [] && (life.Gone? ==> Closes(xs) && closed < 2)
    && (life.Kept? ==>
      && life.from < |xs| && End(xs[life.from]) <= End(xs[|xs| - 1])
      && (closed == 1 ==> Reopened(xs, life.from) || life.idle == 0)
      && (closed >= 2 ==> Reopened(xs, life.from)))
  }

  lemma RegainOneMore(ys: seq<Reading>, x: Reading, first: Option<int>, has: ShareTest, closed: nat)
    requires ys != [] && End(ys[|ys| - 1]) <= End(x) && (Closes(ys) ==> !Closes(ys + [x]))
    requires Regained(ys, LifeAfter(ys, first, has), closed) && (Closes(ys + [x]) ==> has(ys + [x]))
    ensures var closes := Closes(ys + [x]);
      && Regained(ys + [x], LifeAfter(ys + [x], first, has), if closes then closed + 1 else closed)
      && (closes && closed >= 2 ==> Emits(ys + [x], first, has))
  {
    LifeOneMore(ys, x, first, has);
  }

  lemma FairOneMore(ys: seq<Reading>, x: Reading, first: Option<int>, has: ShareTest)
    requires ys != [] && End(ys[|ys| - 1]) <= End(x) && (Closes(ys) ==> !Closes(ys + [x]))
    requires Regained(ys, LifeAfter(ys, first, has), 0)
    ensures Regained(ys + [x], LifeAfter(ys + [x], first, has), 0)
  {
    LifeOneMore(ys, x, first, has);
  }

  lemma OwnAndTwice(ys: seq<Reading>, x: Reading, cid: int)
    requires Own(ys + [x], cid) && TwicePerBucket(ys + [x]) && ys != []
    ensures Own(ys, cid) && TwicePerBucket(ys)
    ensures End(ys[|ys| - 1]) <= End(x) && (Closes(ys) ==> !Closes(ys + [x]))
  {
    OwnOneMore(ys, x, cid);
    TwiceBefore(ys, x);
    EndsRise(ys, x);
  }

  lemma {:induction false} AlwaysFair(xs: seq<Reading>, cid: int, first: Option<int>, has: ShareTest)
    requires Own(xs, cid) && xs != [] && TwicePerBucket(xs)
    ensures Regained(xs, LifeAfter(xs, first, has), 0)
  {
    if |xs| > 1 {
      var ys, x := xs[..|xs| - 1], xs[|xs| - 1];
      assert xs == ys + [x];
      OwnAndTwice(ys, x, cid);
      AlwaysFair(ys, cid, first, has);
      FairOneMore(ys, x, first, has);
    }
  }

  lemma {:induction false} RegainedInThree(xs: seq<Reading>, cid: int, first: Option<int>, has: ShareTest, m: nat)
    requires Own(xs, cid) && TwicePerBucket(xs) && 1 <= m <= |xs| && SharesAfter(xs, m, has)
    ensures Closings(xs[..m]) <= Closings(xs)
    ensures Regained(xs, LifeAfter(xs, first, has), Closings(xs) - Closings(xs[..m]))
    ensures Closes(xs) && Closings(xs) >= Closings(xs[..m]) + 3 ==> Emits(xs, first, has)
  {
    if m == |xs| {
      assert xs[..m] == xs;
      AlwaysFair(xs, cid, first, has);
    } else {
      var ys, x := xs[..|xs| - 1], xs[|xs| - 1];
      assert xs == ys + [x] && xs[..m] == ys[..m];
      OwnAndTwice(ys, x, cid);
      SharesBefore(ys, x, m, has);
      RegainedInThree(ys, cid, first, has, m);
      ClosingsOneMore(ys, x);
      RegainOneMore(ys, x, first, has, Closings(ys) - Closings(ys[..m]));
    }
  }

  /** Whatever happened in its first `m` samples, be it a late join, a restart or missing shares: a container whose
      shares exist from there on is reported at every closing from the third on. */
  lemma ReportedFromTheThird(xs: seq<Reading>, cid: int, first: Option<int>, cap: nat, m: nat)
    requires Own(xs, cid) && Roomy(xs, cap) && TwicePerBucket(xs) && 1 <= m <= |xs| && SharesAfter(xs, m, HasShare)
    requires first.Some? ==> first.value < xs[0].ts
    ensures Closes(xs) && Closings(xs) >= Closings(xs[..m]) + 3 ==> Report(xs, cid, first, cap).Some?
  {
    ReportedExactly(xs, cid, first, cap);
    RegainedInThree(xs, cid, first, HasShare, m);
  }

  // ---------------------------------------------------------------- from the first sample on

  /** A container whose shares exist from its second closing on: how many closings it waits for its first row. */
  function Waits(first: Option<int>): nat { if first.Some? then 2 else 1 }

  /** Before it has waited long enough nothing kept opens a bucket; from then on the history is there. */
  predicate Waiting(xs: seq<Reading>, life: Life, first: Option<int>, closed: nat) {
    if xs == [] then false
    else if closed == 0 then life == Kept(0, if first.Some? then 1 else 0) && End(xs[0]) == End(xs[|xs| - 1])
    else if closed < Waits(first) then
      (life.Gone? && Closes(xs)) ||
      (life.Kept? && life.idle == 0 && life.from < |xs| && End(xs[life.from]) == End(xs[|xs| - 1]))
    else life.Kept? && life.from < |xs| && Reopened(xs, life.from)
  }

  lemma WaitOneMore(ys: seq<Reading>, x: Reading, first: Option<int>, has: ShareTest, closed: nat)
    requires ys != [] && End(ys[|ys| - 1]) <= End(x) && (Closes(ys) ==> !Closes(ys + [x]))
    requires Waiting(ys, LifeAfter(ys, first, has), first, closed)
    requires 1 <= closed && Closes(ys + [x]) ==> has(ys + [x])
    ensures var closes := Closes(ys + [x]);
      && Waiting(ys + [x], LifeAfter(ys + [x], first, has), first, if closes then closed + 1 else closed)
      && (Emits(ys + [x], first, has) <==> closes && closed >= Waits(first))
  {
    LifeOneMore(ys, x, first, has);
  }

  /** Every bucket closed but the container's first one has its share. */
  ghost predicate SharesButFirst(xs: seq<Reading>, has: ShareTest) {
    forall k :: 0 <= k <= |xs| && Closes(xs[..k]) && 2 <= Closings(xs[..k]) ==> has(xs[..k])
  }

  lemma SharesButFirstBefore(ys: seq<Reading>, x: Reading, has: ShareTest)
    requires SharesButFirst(ys + [x], has)
    ensures SharesButFirst(ys, has)
    ensures Closes(ys + [x]) && 1 <= Closings(ys) ==> has(ys + [x])
  {
    var xs := ys + [x];
    assert xs[..|xs|] == xs;
    ClosingsOneMore(ys, x);
    forall k | 0 <= k <= |ys| && Closes(ys[..k]) && 2 <= Closings(ys[..k]) ensures has(ys[..k]) {
      assert xs[..k] == ys[..k];
    }
  }

  lemma {:induction false} WaitedFor(xs: seq<Reading>, cid: int, first: Option<int>, has: ShareTest)
    requires Own(xs, cid) && xs != [] && TwicePerBucket(xs) && SharesButFirst(xs, has)
    ensures Waiting(xs, LifeAfter(xs, first, has), first, Closings(xs))
    ensures Emits(xs, first, has) <==> Closes(xs) && Closings(xs) > Waits(first)
  {
    if |xs| == 1 {
      assert Closings(xs) == 0 && !Emits(xs, first, has);
    } else {
      var ys, x := xs[..|xs| - 1], xs[|xs| - 1];
      assert xs == ys + [x];
      OwnAndTwice(ys, x, cid);
      SharesButFirstBefore(ys, x, has);
      WaitedFor(ys, cid, first, has);
      ClosingsOneMore(ys, x);
      WaitOneMore(ys, x, first, has, Closings(ys));
    }
  }

  /** A late joiner is reported from its third closing on and a quiet one from its second on, and neither before. */
  lemma LateJoinerWaitsOneMore(xs: seq<Reading>, cid: int, first: Option<int>, cap: nat)
    requires Own(xs, cid) && xs != [] && Roomy(xs, cap) && TwicePerBucket(xs) && SharesButFirst(xs, HasShare)
    requires first.Some? ==> first.value < xs[0].ts
    ensures Report(xs, cid, first, cap).Some? <==> Closes(xs) && Closings(xs) > Waits(first)
  {
    ReportedExactly(xs, cid, first, cap);
    WaitedFor(xs, cid, first, HasShare);
  }
}
