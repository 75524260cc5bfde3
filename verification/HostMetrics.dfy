/** Host rows, and downsampling stated as group-by-bucket. */
module HostMetrics {
  import opened Prelude
  import opened Buckets

  datatype Resolution = TenSeconds | OneMinute | FiveMinutes | OneHour

  function BucketMs(r: Resolution): (ms: nat)
    ensures 0 < ms
  {
    match r
    case TenSeconds => 10_000
    case OneMinute => 60_000
    case FiveMinutes => 300_000
    case OneHour => 3_600_000
  }

  /** The resolutions materialised by rolling up the 10s table, finest first. */
  const COARSE: seq<Resolution> := [OneMinute, FiveMinutes, OneHour]

  datatype HostSample = HostSample(
    ts: int, cpuPctMill: nat, memUsed: nat, storageUsed: nat, metricsSize: nat, logsSize: nat,
    netRxRateMill: Option<nat>, netTxRateMill: Option<nat>, diskReadRateMill: Option<nat>,
    diskWriteRateMill: Option<nat>, logPressurePctMill: Option<nat>, appRssBytes: Option<nat>)

  datatype Gauge = Cpu | Mem | Storage | MetricsBytes | LogsBytes
  datatype OptionalField = NetRx | NetTx | DiskRead | DiskWrite | LogPressure | AppRss

  function Get(s: HostSample, g: Gauge): nat {
    match g
    case Cpu => s.cpuPctMill
    case Mem => s.memUsed
    case Storage => s.storageUsed
    case MetricsBytes => s.metricsSize
    case LogsBytes => s.logsSize
  }

  function GetOptional(s: HostSample, f: OptionalField): Option<nat> {
    match f
    case NetRx => s.netRxRateMill
    case NetTx => s.netTxRateMill
    case DiskRead => s.diskReadRateMill
    case DiskWrite => s.diskWriteRateMill
    case LogPressure => s.logPressurePctMill
    case AppRss => s.appRssBytes
  }

  /** Rows by rising time. */
  predicate Ordered(s: seq<HostSample>) { forall i, j :: 0 <= i < j < |s| ==> s[i].ts < s[j].ts }

  function Sum(group: seq<HostSample>, g: Gauge): nat {
    if group == [] then 0 else Sum(group[..|group| - 1], g) + Get(group[|group| - 1], g)
  }

  function PresentCount(group: seq<HostSample>, f: OptionalField): nat {
    if group == [] then 0
    else PresentCount(group[..|group| - 1], f) + if GetOptional(group[|group| - 1], f).Some? then 1 else 0
  }

  function PresentSum(group: seq<HostSample>, f: OptionalField): nat {
    if group == [] then 0
    else
      PresentSum(group[..|group| - 1], f) +
        match GetOptional(group[|group| - 1], f) case Some(v) => v case None => 0
  }

  function Mean(group: seq<HostSample>, g: Gauge): nat
    requires group != []
  {
    Sum(group, g) / |group|
  }

  function OptionalMean(group: seq<HostSample>, f: OptionalField): Option<nat> {
    if PresentCount(group, f) == 0 then None else Some(PresentSum(group, f) / PresentCount(group, f))
  }

  /** The longest stretch without a sample between two instants. */
  function Silence(start: int, group: seq<HostSample>, end: int): int {
    if group == [] then end - start
    else
      var last := group[|group| - 1];
      Max(Silence(start, group[..|group| - 1], last.ts), end - last.ts)
  }

  function Threshold(len: nat, pct: nat): nat { len * pct / 100 }

  /** A bucket is stored unless it is empty or silent for too long. */
  predicate Kept(group: seq<HostSample>, end: int, len: nat, pct: nat) {
    group != [] && Silence(end - len, group, end) <= Threshold(len, pct)
  }

  function Summary(end: int, group: seq<HostSample>): HostSample
    requires group != []
  {
    HostSample(end, Mean(group, Cpu), Mean(group, Mem), Mean(group, Storage), Mean(group, MetricsBytes),
               Mean(group, LogsBytes), OptionalMean(group, NetRx), OptionalMean(group, NetTx),
               OptionalMean(group, DiskRead), OptionalMean(group, DiskWrite),
               OptionalMean(group, LogPressure), OptionalMean(group, AppRss))
  }

  /** The samples of one bucket, in order. */
  function InBucket(s: seq<HostSample>, end: int, len: nat): (r: seq<HostSample>)
    requires 0 < len
  {
    if s == [] then []
    else
      var last := s[|s| - 1];
      InBucket(s[..|s| - 1], end, len) + if BucketEnd(last.ts, len) == end then [last] else []
  }

  function Ends(s: seq<HostSample>, len: nat): set<int>
    requires 0 < len
  {
    if s == [] then {} else Ends(s[..|s| - 1], len) + {BucketEnd(s[|s| - 1].ts, len)}
  }

  /** The row a bucket's samples produce. */
  function RowOf(group: seq<HostSample>, end: int, len: nat, pct: nat): Option<HostSample> {
    if Kept(group, end, len, pct) then Some(Summary(end, group)) else None
  }

  /** One row per kept bucket, however the buckets are visited. */
  function GroupBy(s: seq<HostSample>, len: nat, pct: nat): map<int, HostSample>
    requires 0 < len
  {
    map end | end in Ends(s, len) && RowOf(InBucket(s, end, len), end, len, pct).Some? ::
      RowOf(InBucket(s, end, len), end, len, pct).value
  }

  // ---------------------------------------------------------------- what a summary says

  /** A floor mean never leaves the range of its group, so it fits whatever its samples fit. */
  lemma {:induction false} SumWithin(group: seq<HostSample>, g: Gauge, lo: nat, hi: nat)
    requires forall x :: x in group ==> lo <= Get(x, g) <= hi
    ensures lo * |group| <= Sum(group, g) <= hi * |group|
  {
    if group != [] {
      var init, last := group[..|group| - 1], group[|group| - 1];
      assert last in group && forall x :: x in init ==> x in group;
      SumWithin(init, g, lo, hi);
      OneMore(lo, |init|);
      OneMore(hi, |init|);
    }
  }

  lemma OneMore(k: nat, n: nat)
    ensures k * (n + 1) == k * n + k
  {
  }

  lemma {:induction false} PresentSumWithin(group: seq<HostSample>, f: OptionalField, lo: nat, hi: nat)
    requires forall x :: x in group && GetOptional(x, f).Some? ==> lo <= GetOptional(x, f).value <= hi
    ensures lo * PresentCount(group, f) <= PresentSum(group, f) <= hi * PresentCount(group, f)
  {
    if group != [] {
      var init, last := group[..|group| - 1], group[|group| - 1];
      assert last in group && forall x :: x in init ==> x in group;
      PresentSumWithin(init, f, lo, hi);
      OneMore(lo, PresentCount(init, f));
      OneMore(hi, PresentCount(init, f));
    }
  }

  lemma {:induction false} PresentCountIsZero(group: seq<HostSample>, f: OptionalField)
    ensures PresentCount(group, f) == 0 <==> forall x :: x in group ==> GetOptional(x, f).None?
  {
    if group != [] {
      var last := group[|group| - 1];
      PresentCountIsZero(group[..|group| - 1], f);
      assert group == group[..|group| - 1] + [last];
      assert last in group;
    }
  }

  lemma QuotientWithin(total: nat, n: nat, lo: nat, hi: nat)
    requires 0 < n && lo * n <= total <= hi * n
    ensures lo <= total / n <= hi
  {
    var q := total / n;
    assert q * n <= total < q * n + n;
    assert (lo - q) * n == lo * n - q * n && (q - hi) * n == q * n - hi * n;
    if q < lo { ProductAtLeast(lo - q, n); }
    if hi < q { ProductAtLeast(q - hi, n); }
  }

  predicate GaugeWithin(group: seq<HostSample>, g: Gauge, lo: nat, hi: nat) {
    forall x :: x in group ==> lo <= Get(x, g) <= hi
  }

  predicate PresentWithin(group: seq<HostSample>, f: OptionalField, lo: nat, hi: nat) {
    forall x :: x in group && GetOptional(x, f).Some? ==> lo <= GetOptional(x, f).value <= hi
  }

  /** Every gauge of a stored row lies within its group. */
  lemma MeanWithinGroup(end: int, group: seq<HostSample>, g: Gauge, lo: nat, hi: nat)
    requires group != [] && GaugeWithin(group, g, lo, hi)
    ensures lo <= Get(Summary(end, group), g) <= hi
  {
    SumWithin(group, g, lo, hi);
    QuotientWithin(Sum(group, g), |group|, lo, hi);
  }

  /** Optional fields average the present values only, and are absent only when none is present. */
  lemma OptionalMeanWithinGroup(end: int, group: seq<HostSample>, f: OptionalField, lo: nat, hi: nat)
    requires group != [] && PresentWithin(group, f, lo, hi)
    ensures GetOptional(Summary(end, group), f).Some? <==> exists x :: x in group && GetOptional(x, f).Some?
    ensures GetOptional(Summary(end, group), f).Some? ==> lo <= GetOptional(Summary(end, group), f).value <= hi
  {
    PresentCountIsZero(group, f);
    if PresentCount(group, f) > 0 {
      PresentSumWithin(group, f, lo, hi);
      QuotientWithin(PresentSum(group, f), PresentCount(group, f), lo, hi);
    }
  }

  function Instants(start: int, group: seq<HostSample>, end: int): seq<int> {
    [start] + seq(|group|, i requires 0 <= i < |group| => group[i].ts) + [end]
  }

  /** The silence exceeds a threshold exactly when some two neighbouring instants are further apart. */
  lemma {:induction false} SilenceIsAGap(start: int, group: seq<HostSample>, end: int, t: int)
    ensures Silence(start, group, end) > t <==>
      exists i :: 0 <= i < |group| + 1 && Instants(start, group, end)[i + 1] - Instants(start, group, end)[i] > t
  {
    var all := Instants(start, group, end);
    if group == [] {
      assert all == [start, end];
      assert all[0 + 1] - all[0] == end - start;
    } else {
      var init, last := group[..|group| - 1], group[|group| - 1];
      var earlier := Instants(start, init, last.ts);
      SilenceIsAGap(start, init, last.ts, t);
      assert all == earlier + [end];
      assert all[|group| + 1] - all[|group|] == end - last.ts;
      assert forall i :: 0 <= i < |group| ==> all[i + 1] - all[i] == earlier[i + 1] - earlier[i];
    }
  }

  lemma {:induction false} SilenceFitsTheSpan(start: int, group: seq<HostSample>, end: int)
    requires Ordered(group) && start <= end && forall x :: x in group ==> start <= x.ts <= end
    ensures Silence(start, group, end) <= end - start
  {
    if group != [] {
      var init, last := group[..|group| - 1], group[|group| - 1];
      assert last in group;
      assert forall x :: x in init ==> x in group && x.ts <= last.ts;
      SilenceFitsTheSpan(start, init, last.ts);
    }
  }

  /** At 100 percent no bucket with a sample is dropped. */
  lemma NothingDroppedAtFullGap(group: seq<HostSample>, end: int, len: nat)
    requires 0 < len && Ordered(group) && group != [] && forall x :: x in group ==> BucketEnd(x.ts, len) == end
    ensures Kept(group, end, len, 100)
  {
    assert forall x :: x in group ==> end - len <= x.ts <= end;
    SilenceFitsTheSpan(end - len, group, end);
  }
}
