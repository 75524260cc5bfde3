/** One sample per bucket, the slowest permitted collection: what the life of a container comes to. */
module SlowestCollection {
  import opened Prelude
  import opened Bucketizer
  import opened BucketMeans
  import opened ContainerBuckets
  import opened ContainerLife

  predicate NextBucket(x: Reading, y: Reading) { End(y) == End(x) + LEN }

  /** Every sample in the bucket right after its predecessor's. */
  ghost predicate OnePerBucket(xs: seq<Reading>, cid: int) {
    && (forall i :: 0 <= i < |xs| ==> xs[i].cid == cid)
    && forall i, j :: 0 <= i < j < |xs| && j == i + 1 ==> NextBucket(xs[i], xs[j])
  }

  lemma {:induction false} OnePerBucketRises(xs: seq<Reading>, cid: int)
    requires OnePerBucket(xs, cid)
    ensures RisingReadings(xs)
  {
    if |xs| >= 2 {
      var earlier := xs[..|xs| - 1];
      OnePerBucketRises(earlier, cid);
      assert NextBucket(xs[|xs| - 2], xs[|xs| - 1]);
    }
  }

  lemma PrefixOnePerBucket(ys: seq<Reading>, x: Reading, cid: int)
    requires OnePerBucket(ys + [x], cid)
    ensures OnePerBucket(ys, cid) && x.cid == cid && (ys != [] ==> NextBucket(ys[|ys| - 1], x))
  {
    var xs := ys + [x];
    assert forall i :: 0 <= i < |ys| ==> xs[i] == ys[i];
    assert xs[|ys|] == x && (ys != [] ==> NextBucket(xs[|ys| - 1], xs[|ys|]));
  }

  lemma PrefixesOnePerBucket(xs: seq<Reading>, cid: int, k: nat)
    requires OnePerBucket(xs, cid) && k <= |xs|
    ensures OnePerBucket(xs[..k], cid)
  {
    forall i, j | 0 <= i < j < k && j == i + 1 ensures NextBucket(xs[..k][i], xs[..k][j]) {
      assert NextBucket(xs[i], xs[j]);
    }
  }

  lemma OnePerBucketReaches(xs: seq<Reading>, cid: int, cap: nat)
    requires OnePerBucket(xs, cid) && 4 <= cap
    ensures Reaches(xs, cap)
  {
    if cap < |xs| {
      OnePerBucketRises(xs, cid);
      assert NextBucket(xs[|xs| - 3], xs[|xs| - 2]);
      assert xs[|xs| - cap].ts <= xs[|xs| - 3].ts;
    }
  }

  lemma OnePerBucketIsRoomy(xs: seq<Reading>, cid: int, cap: nat)
    requires OnePerBucket(xs, cid) && 4 <= cap
    ensures Own(xs, cid) && Roomy(xs, cap)
  {
    OnePerBucketRises(xs, cid);
    forall k | 0 <= k <= |xs| ensures Reaches(xs[..k], cap) {
      PrefixesOnePerBucket(xs, cid, k);
      OnePerBucketReaches(xs[..k], cid, cap);
    }
  }

  // ---------------------------------------------------------------- the share of the middle bucket

  /** The CPU share of the middle sample's bucket exists, seen from three samples in three buckets. */
  predicate Computable(x: Reading, y: Reading, z: Reading) {
    x.ts < y.ts < z.ts && CpuPct([x, y, z], z.cpuCount, End(y)).Some?
  }

  lemma LastThree(xs: seq<Reading>, cid: int, x: Reading, y: Reading, z: Reading)
    requires OnePerBucket(xs, cid) && 3 <= |xs| && xs[|xs| - 3..] == [x, y, z]
    ensures RisingReadings(xs) && x.ts <= End(y) - LEN && x.ts < y.ts < z.ts
    ensures xs[|xs| - 2] == y && xs[|xs| - 1] == z
  {
    OnePerBucketRises(xs, cid);
    assert xs[|xs| - 3..][0] == xs[|xs| - 3] && xs[|xs| - 3..][1] == xs[|xs| - 2] && xs[|xs| - 3..][2] == xs[|xs| - 1];
    assert NextBucket(xs[|xs| - 3], xs[|xs| - 2]);
  }

  lemma ShareOfThree(xs: seq<Reading>, cpuCount: nat, end: int, x: Reading, y: Reading, z: Reading)
    requires RisingReadings(xs) && 3 <= |xs| && xs[|xs| - 3..] == [x, y, z] && x.ts <= end - LEN
    ensures RisingReadings([x, y, z]) && CpuPct([x, y, z], cpuCount, end) == CpuPct(xs, cpuCount, end)
  {
    ShareFromOpening(xs, |xs| - 3, cpuCount, end);
  }

  /** However long the history, the share of the bucket just closed depends on the last three samples. */
  lemma ShareFromLastThree(xs: seq<Reading>, cid: int, x: Reading, y: Reading, z: Reading)
    requires OnePerBucket(xs, cid) && 3 <= |xs| && xs[|xs| - 3..] == [x, y, z]
    ensures HasShare(xs) <==> Computable(x, y, z)
  {
    LastThree(xs, cid, x, y, z);
    ShareOfThree(xs, z.cpuCount, End(y), x, y, z);
  }

  // ---------------------------------------------------------------- the run in terms of its shares

  type TripleTest = (Reading, Reading, Reading) -> bool

  /** For every bucket closed by a third or later sample, whether it has its share. */
  function Shares(xs: seq<Reading>, has: TripleTest): seq<bool> {
    if |xs| < 3 then [] else Shares(xs[..|xs| - 1], has) + [has(xs[|xs| - 3], xs[|xs| - 2], xs[|xs| - 1])]
  }

  lemma {:induction false} ShareAt(xs: seq<Reading>, has: TripleTest, i: nat)
    requires i < |xs| - 2
    ensures |Shares(xs, has)| == |xs| - 2 && Shares(xs, has)[i] == has(xs[i], xs[i + 1], xs[i + 2])
  {
    var ys := xs[..|xs| - 1];
    if i < |xs| - 3 {
      ShareAt(ys, has, i);
    } else if |xs| > 3 {
      ShareAt(ys, has, 0);
    }
  }

  lemma SharesOneMore(ys: seq<Reading>, x: Reading, has: TripleTest)
    requires 2 <= |ys|
    ensures Shares(ys + [x], has) == Shares(ys, has) + [has(ys[|ys| - 2], ys[|ys| - 1], x)]
  {
    var xs := ys + [x];
    assert xs[..|xs| - 1] == ys && xs[|xs| - 3] == ys[|ys| - 2] && xs[|xs| - 2] == ys[|ys| - 1] && xs[|xs| - 1] == x;
  }

  /** The first share exists and no two in a row are missing. */
  ghost predicate Unbroken(bs: seq<bool>) {
    bs != [] ==> bs[0] && forall i, j :: 0 <= i < j < |bs| && j == i + 1 ==> bs[i] || bs[j]
  }

  lemma UnbrokenOneMore(bs: seq<bool>, b: bool)
    ensures Unbroken(bs + [b]) <==> Unbroken(bs) && (b || (bs != [] && bs[|bs| - 1]))
  {
    var cs := bs + [b];
    assert forall i :: 0 <= i < |bs| ==> cs[i] == bs[i];
    if Unbroken(cs) && bs != [] {
      assert cs[|bs| - 1] || cs[|bs|];
      forall i, j | 0 <= i < j < |bs| && j == i + 1 ensures bs[i] || bs[j] { assert cs[i] || cs[j]; }
    }
  }

  function IdleAfter(xs: seq<Reading>, has: TripleTest): nat {
    var bs := Shares(xs, has);
    if |xs| <= 1 then 0 else if bs != [] && bs[|bs| - 1] then 0 else 1
  }

  /** Still tracked with its history: it joined quietly and its shares are unbroken. */
  ghost predicate Lives(xs: seq<Reading>, first: Option<int>, has: TripleTest) {
    first.None? && Unbroken(Shares(xs, has))
  }

  lemma LivesOneMore(ys: seq<Reading>, x: Reading, first: Option<int>, has: TripleTest)
    requires 2 <= |ys|
    ensures var found := has(ys[|ys| - 2], ys[|ys| - 1], x);
      && (Lives(ys + [x], first, has) <==> Lives(ys, first, has) && (found || IdleAfter(ys, has) == 0))
      && IdleAfter(ys + [x], has) == if found then 0 else 1
  {
    SharesOneMore(ys, x, has);
    UnbrokenOneMore(Shares(ys, has), has(ys[|ys| - 2], ys[|ys| - 1], x));
  }

  /** Whether the newest sample's batch emits a row. */
  ghost predicate DueOncePerBucket(xs: seq<Reading>, first: Option<int>, has: TripleTest) {
    3 <= |xs| && Lives(xs[..|xs| - 1], first, has) && has(xs[|xs| - 3], xs[|xs| - 2], xs[|xs| - 1])
  }

  /** A row presupposes the share of the second sample's bucket. */
  lemma EmittingNeedsTheFirstShare(xs: seq<Reading>, first: Option<int>, has: TripleTest)
    requires DueOncePerBucket(xs, first, has)
    ensures has(xs[0], xs[1], xs[2])
  {
    var ys := xs[..|xs| - 1];
    if |xs| > 3 { ShareAt(ys, has, 0); }
  }

  /** Two shares missing in a row, or the first one, and nothing is emitted from then on. */
  lemma NothingAfterABreak(xs: seq<Reading>, first: Option<int>, has: TripleTest, m: nat)
    requires m + 1 < |xs|
    requires m + 2 < |xs| ==> !has(xs[m], xs[m + 1], xs[m + 2])
    requires 0 < m ==> !has(xs[m - 1], xs[m], xs[m + 1])
    ensures !DueOncePerBucket(xs, first, has)
  {
    var ys := xs[..|xs| - 1];
    if m + 2 < |ys| {
      ShareAt(ys, has, m);
      if 0 < m { ShareAt(ys, has, m - 1); }
    }
  }

  lemma {:induction false} AllSharesEmit(xs: seq<Reading>, has: TripleTest)
    requires forall i :: 0 <= i < |xs| - 2 ==> has(xs[i], xs[i + 1], xs[i + 2])
    ensures Lives(xs, None, has) && (3 <= |xs| ==> DueOncePerBucket(xs, None, has))
  {
    var bs := Shares(xs, has);
    if 3 <= |xs| {
      var ys := xs[..|xs| - 1];
      AllSharesEmit(ys, has);
      UnbrokenOneMore(Shares(ys, has), true);
    }
  }

  // ---------------------------------------------------------------- the life comes to the same

  /** The two kinds of share agree along the run. */
  ghost predicate SharesAgree(xs: seq<Reading>, has: ShareTest, has3: TripleTest) {
    forall k :: 3 <= k <= |xs| ==> (has(xs[..k]) <==> has3(xs[k - 3], xs[k - 2], xs[k - 1]))
  }

  lemma SharesAgreeBefore(ys: seq<Reading>, x: Reading, has: ShareTest, has3: TripleTest)
    requires SharesAgree(ys + [x], has, has3)
    ensures SharesAgree(ys, has, has3)
    ensures 2 <= |ys| ==> (has(ys + [x]) <==> has3(ys[|ys| - 2], ys[|ys| - 1], x))
  {
    var xs := ys + [x];
    assert xs[..|xs|] == xs;
    forall k | 3 <= k <= |ys| ensures has(ys[..k]) <==> has3(ys[k - 3], ys[k - 2], ys[k - 1]) {
      assert xs[..k] == ys[..k];
    }
  }

  /** A container that joined late, or lost its history: nothing kept, or the newest sample after an idle bucket. */
  predicate Starving(life: Life, n: nat) { life == Gone || (0 < n && life == Kept(n - 1, 1)) }

  /** Such a container stays so: what it keeps opens no bucket that closes. */
  lemma StaysStarving(ys: seq<Reading>, x: Reading, first: Option<int>, has: ShareTest)
    requires ys != [] && NextBucket(ys[|ys| - 1], x) && Starving(LifeAfter(ys, first, has), |ys|)
    ensures LifeAfter(ys + [x], first, has) == if LifeAfter(ys, first, has) == Gone then Kept(|ys|, 1) else Gone
    ensures !Emits(ys + [x], first, has)
  {
    LifeOneMore(ys, x, first, has);
  }

  ghost predicate LivesAsTold(xs: seq<Reading>, first: Option<int>, has: ShareTest, has3: TripleTest) {
    if Lives(xs, first, has3) then LifeAfter(xs, first, has) == Kept(0, IdleAfter(xs, has3))
    else Starving(LifeAfter(xs, first, has), |xs|)
  }

  lemma SecondSample(y: Reading, x: Reading, first: Option<int>, has: ShareTest, has3: TripleTest)
    requires NextBucket(y, x) && LivesAsTold([y], first, has, has3)
    ensures LivesAsTold([y, x], first, has, has3) && !Emits([y, x], first, has)
  {
    assert [y] + [x] == [y, x];
    LifeOneMore([y], x, first, has);
  }

  lemma LaterSample(ys: seq<Reading>, x: Reading, first: Option<int>, has: ShareTest, has3: TripleTest)
    requires 2 <= |ys| && NextBucket(ys[|ys| - 2], ys[|ys| - 1]) && NextBucket(ys[|ys| - 1], x)
    requires End(ys[0]) < End(ys[|ys| - 1])
    requires LivesAsTold(ys, first, has, has3) && (has(ys + [x]) <==> has3(ys[|ys| - 2], ys[|ys| - 1], x))
    ensures LivesAsTold(ys + [x], first, has, has3)
    ensures Emits(ys + [x], first, has) <==> Lives(ys, first, has3) && has(ys + [x])
  {
    LivesOneMore(ys, x, first, has3);
    if Lives(ys, first, has3) {
      LifeOneMore(ys, x, first, has);
    } else {
      StaysStarving(ys, x, first, has);
    }
  }

  lemma FirstIsOlder(xs: seq<Reading>, cid: int)
    requires OnePerBucket(xs, cid) && 2 <= |xs|
    ensures End(xs[0]) < End(xs[|xs| - 1])
  {
    if |xs| > 2 {
      PrefixesOnePerBucket(xs, cid, |xs| - 1);
      FirstIsOlder(xs[..|xs| - 1], cid);
    }
    assert NextBucket(xs[|xs| - 2], xs[|xs| - 1]);
  }

  lemma {:induction false} LifeOncePerBucket(
    xs: seq<Reading>, cid: int, first: Option<int>, has: ShareTest, has3: TripleTest)
    requires OnePerBucket(xs, cid) && xs != [] && SharesAgree(xs, has, has3)
    ensures LivesAsTold(xs, first, has, has3)
    ensures Emits(xs, first, has) <==> DueOncePerBucket(xs, first, has3)
  {
    var ys, x := xs[..|xs| - 1], xs[|xs| - 1];
    assert xs == ys + [x];
    if ys != [] {
      PrefixOnePerBucket(ys, x, cid);
      SharesAgreeBefore(ys, x, has, has3);
      LifeOncePerBucket(ys, cid, first, has, has3);
      if |ys| == 1 {
        assert xs == [ys[0], x] && ys == [ys[0]];
        SecondSample(ys[0], x, first, has, has3);
      } else {
        FirstIsOlder(ys, cid);
        assert NextBucket(ys[|ys| - 2], ys[|ys| - 1]);
        LaterSample(ys, x, first, has, has3);
      }
    }
  }

  lemma ThreeOfPrefix(xs: seq<Reading>, k: nat)
    requires 3 <= k <= |xs|
    ensures xs[..k][|xs[..k]| - 3..] == [xs[k - 3], xs[k - 2], xs[k - 1]]
  {
  }

  lemma ComputableAt(xs: seq<Reading>, cid: int, k: nat)
    requires OnePerBucket(xs, cid) && 3 <= k <= |xs|
    ensures HasShare(xs[..k]) <==> Computable(xs[k - 3], xs[k - 2], xs[k - 1])
  {
    PrefixesOnePerBucket(xs, cid, k);
    ThreeOfPrefix(xs, k);
    ShareFromLastThree(xs[..k], cid, xs[k - 3], xs[k - 2], xs[k - 1]);
  }

  lemma ComputableAgrees(xs: seq<Reading>, cid: int)
    requires OnePerBucket(xs, cid)
    ensures SharesAgree(xs, HasShare, Computable)
  {
    forall k | 3 <= k <= |xs| ensures HasShare(xs[..k]) <==> Computable(xs[k - 3], xs[k - 2], xs[k - 1]) {
      ComputableAt(xs, cid, k);
    }
  }

  /** Sampled once per bucket, a container's batch emits a row exactly when it joined quietly, no two shares in a row
      nor the first one were missing before, and the share of the bucket just closed is computable. */
  lemma ReportedOncePerBucket(xs: seq<Reading>, cid: int, first: Option<int>, cap: nat)
    requires OnePerBucket(xs, cid) && xs != [] && 4 <= cap
    requires first.Some? ==> first.value < xs[0].ts
    ensures Report(xs, cid, first, cap).Some? <==> DueOncePerBucket(xs, first, Computable)
  {
    OnePerBucketIsRoomy(xs, cid, cap);
    ReportedExactly(xs, cid, first, cap);
    ComputableAgrees(xs, cid);
    LifeOncePerBucket(xs, cid, first, HasShare, Computable);
  }

  // ---------------------------------------------------------------- what this comes to

  /** Joined late: every second sample drops the container, so its buffer never reaches back far enough. */
  function LateAfter(n: nat): Life { if n % 2 == 0 then Gone else Kept(n - 1, 1) }

  lemma LateOneMore(n: nat)
    requires 0 < n
    ensures Starving(LateAfter(n), n) && LateAfter(n + 1) == if LateAfter(n) == Gone then Kept(n, 1) else Gone
  {
  }

  lemma LateJoin(x: Reading, first: int, has: ShareTest)
    ensures LifeAfter([x], Some(first), has) == LateAfter(1) && !Emits([x], Some(first), has)
  {
  }

  lemma {:induction false} LateLife(xs: seq<Reading>, cid: int, first: int, has: ShareTest)
    requires OnePerBucket(xs, cid) && xs != []
    ensures LifeAfter(xs, Some(first), has) == LateAfter(|xs|) && !Emits(xs, Some(first), has)
  {
    var ys, x := xs[..|xs| - 1], xs[|xs| - 1];
    assert xs == ys + [x];
    if ys == [] {
      assert xs == [x];
      LateJoin(x, first, has);
    } else {
      PrefixOnePerBucket(ys, x, cid);
      LateLife(ys, cid, first, has);
      LateOneMore(|ys|);
      StaysStarving(ys, x, Some(first), has);
    }
  }

  /** Still one sample, or none. */
  function Starved(ys: seq<Reading>): Option<Entry> {
    if |ys| % 2 == 0 then None else Some(Entry(ys[|ys| - 1].sid, [ys[|ys| - 1]], ys[|ys| - 1].cpuCount, 1))
  }

  lemma LateEntry(xs: seq<Reading>, cap: nat)
    requires xs != [] && 0 < cap
    ensures EntryOf(LateAfter(|xs|), xs, cap) == Starved(xs)
  {
    var ys, x := xs[..|xs| - 1], xs[|xs| - 1];
    assert xs == ys + [x];
    BufferedJoiner(ys, x, cap);
  }

  /** A container that joins in the batch completing an earlier bucket is never reported, however long the run. */
  lemma LateJoinerStarves(xs: seq<Reading>, cid: int, first: int, cap: nat)
    requires OnePerBucket(xs, cid) && 4 <= cap
    requires xs != [] ==> first < xs[0].ts
    ensures Tracked(xs, cid, Some(first), cap) == Starved(xs)
    ensures xs != [] ==> Report(xs, cid, Some(first), cap) == None
  {
    if xs != [] {
      OnePerBucketIsRoomy(xs, cid, cap);
      ReportedExactly(xs, cid, Some(first), cap);
      LateLife(xs, cid, first, HasShare);
      LateEntry(xs, cap);
    }
  }

  ghost predicate EverReported(xs: seq<Reading>, cid: int, first: Option<int>, cap: nat) {
    exists k :: 1 <= k <= |xs| && Report(xs[..k], cid, first, cap).Some?
  }

  /** A container sampled once per bucket is ever reported exactly when the batch it joined in completed no bucket
      and the share of its second sample's bucket is computable. */
  lemma ReportedIffJoinedQuietly(xs: seq<Reading>, cid: int, first: Option<int>, cap: nat)
    requires OnePerBucket(xs, cid) && 4 <= cap
    requires first.Some? && xs != [] ==> first.value < xs[0].ts
    ensures EverReported(xs, cid, first, cap) <==> first.None? && 3 <= |xs| && Computable(xs[0], xs[1], xs[2])
  {
    if EverReported(xs, cid, first, cap) {
      var k :| 1 <= k <= |xs| && Report(xs[..k], cid, first, cap).Some?;
      PrefixesOnePerBucket(xs, cid, k);
      ReportedOncePerBucket(xs[..k], cid, first, cap);
      EmittingNeedsTheFirstShare(xs[..k], first, Computable);
    }
    if first.None? && 3 <= |xs| && Computable(xs[0], xs[1], xs[2]) {
      PrefixesOnePerBucket(xs, cid, 3);
      ReportedOncePerBucket(xs[..3], cid, first, cap);
      assert DueOncePerBucket(xs[..3], first, Computable);
    }
  }

  lemma FallNeverCovered(s: seq<RawSample>, end: int, i: nat)
    requires Rising(s) && |s| == 3 && i < 2 && s[i].value > s[i + 1].value
    requires end - 2 * LEN < s[0].ts <= end - LEN < s[1].ts <= end < s[2].ts && (i == 1 ==> s[1].ts < end)
    ensures CounterOf(s, end, LEN).None?
  {
    BelowIsUnique(s, end - LEN + 1, 1);
    BelowIsUnique(s, end, if s[1].ts == end then 1 else 2);
    if Covered(s, end, LEN) {
      ResetRejects(s, end, LEN, i, i + 1);
    } else {
      CounterDefined(s, end, LEN);
    }
  }

  predicate Falls(x: Reading, y: Reading) { y.cpu < x.cpu || y.system < x.system }

  lemma FallIsNotComputable(x: Reading, y: Reading, z: Reading)
    requires NextBucket(x, y) && NextBucket(y, z)
    requires Falls(x, y) || (Falls(y, z) && y.ts < End(y))
    ensures !Computable(x, y, z)
  {
    if x.ts < y.ts < z.ts {
      var h, end := [x, y, z], End(y);
      var f := if y.cpu < x.cpu || (!Falls(x, y) && z.cpu < y.cpu) then Cpu else System;
      var i: nat := if Falls(x, y) then 0 else 1;
      SeriesRises(h, f);
      assert Series(h, f)[i].value > Series(h, f)[i + 1].value;
      FallNeverCovered(Series(h, f), end, i);
    }
  }

  lemma ShareAfterFall(xs: seq<Reading>, cid: int, m: nat)
    requires OnePerBucket(xs, cid) && m + 2 < |xs| && Falls(xs[m], xs[m + 1])
    ensures !Computable(xs[m], xs[m + 1], xs[m + 2])
  {
    assert NextBucket(xs[m], xs[m + 1]) && NextBucket(xs[m + 1], xs[m + 2]);
    FallIsNotComputable(xs[m], xs[m + 1], xs[m + 2]);
  }

  lemma ShareBeforeFall(xs: seq<Reading>, cid: int, m: nat)
    requires OnePerBucket(xs, cid) && 0 < m && m + 1 < |xs|
    requires Falls(xs[m], xs[m + 1]) && xs[m].ts < End(xs[m])
    ensures !Computable(xs[m - 1], xs[m], xs[m + 1])
  {
    assert NextBucket(xs[m - 1], xs[m]) && NextBucket(xs[m], xs[m + 1]);
    FallIsNotComputable(xs[m - 1], xs[m], xs[m + 1]);
  }

  lemma NothingDueAfterFall(xs: seq<Reading>, cid: int, first: Option<int>, m: nat)
    requires OnePerBucket(xs, cid) && m + 1 < |xs| && Falls(xs[m], xs[m + 1]) && xs[m].ts < End(xs[m])
    ensures !DueOncePerBucket(xs, first, Computable)
  {
    if m + 2 < |xs| { ShareAfterFall(xs, cid, m); }
    if 0 < m { ShareBeforeFall(xs, cid, m); }
    NothingAfterABreak(xs, first, Computable, m);
  }

  /** A container restart resets its counters and costs the buckets on both sides of the reset their share, unless
      the last sample before it stands exactly on a bucket end: at this rate the container is silenced for good. */
  lemma RestartSilencesForGood(xs: seq<Reading>, cid: int, first: Option<int>, cap: nat, m: nat)
    requires OnePerBucket(xs, cid) && 4 <= cap && (first.Some? && xs != [] ==> first.value < xs[0].ts)
    requires m + 1 < |xs| && Falls(xs[m], xs[m + 1]) && xs[m].ts < End(xs[m])
    ensures Report(xs, cid, first, cap) == None
  {
    NothingDueAfterFall(xs, cid, first, m);
    ReportedOncePerBucket(xs, cid, first, cap);
  }
}
