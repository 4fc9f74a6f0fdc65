/** The aggregation engine's operations as one worker performs them, and the frames they produce. */
module Aggregation {
  import opened Models
  import opened RealFacts
  import opened Statistics
  import opened Folds
  import opened Windows

  /** What the platform's square root promises on the values it is given here. */
  ghost predicate IsSqrt(sqrt: real -> real) {
    forall v :: v >= 0.0 ==> sqrt(v) >= 0.0 && Sq(sqrt(v)) == v
  }

  function Values(rs: seq<SensorReading>): (xs: seq<real>)
    ensures |xs| == |rs|
    ensures forall i :: 0 <= i < |rs| ==> xs[i] == rs[i].Value() && -F32_MAX <= xs[i] <= F32_MAX
  {
    seq(|rs|, i requires 0 <= i < |rs| => rs[i].Value())
  }

  ghost function Lowest(xs: seq<real>): (m: real)
    requires xs != []
    ensures m in xs && forall i :: 0 <= i < |xs| ==> m <= xs[i]
  {
    var n := |xs| - 1;
    if n == 0 then xs[0]
    else
      var rest := Lowest(xs[..n]);
      assert forall i :: 0 <= i < n ==> xs[..n][i] == xs[i];
      if xs[n] < rest then xs[n] else rest
  }

  ghost function Highest(xs: seq<real>): (m: real)
    requires xs != []
    ensures m in xs && forall i :: 0 <= i < |xs| ==> xs[i] <= m
  {
    var n := |xs| - 1;
    if n == 0 then xs[0]
    else
      var rest := Highest(xs[..n]);
      assert forall i :: 0 <= i < n ==> xs[..n][i] == xs[i];
      if xs[n] > rest then xs[n] else rest
  }

  /** A batch's statistics by their definitions; an empty batch leaves the search sentinels in place. */
  ghost function StatsOf(rs: seq<SensorReading>, sqrt: real -> real): SensorStats {
    var xs := Values(rs);
    if rs == [] then SensorStats(0, F32_MAX, -F32_MAX, 0.0, 0.0, 0.0, sqrt(0.0))
    else SensorStats(|rs|, Lowest(xs), Highest(xs), Sum(xs), SumSq(xs), Mean(xs), sqrt(Variance(xs)))
  }

  lemma StatsStep(xs: seq<real>, i: nat)
    requires i < |xs|
    ensures Sum(xs[..i + 1]) == Sum(xs[..i]) + xs[i]
    ensures SumSq(xs[..i + 1]) == SumSq(xs[..i]) + Sq(xs[i])
    ensures Lowest(xs[..i + 1]) == if i > 0 && Lowest(xs[..i]) <= xs[i] then Lowest(xs[..i]) else xs[i]
    ensures Highest(xs[..i + 1]) == if i > 0 && Highest(xs[..i]) >= xs[i] then Highest(xs[..i]) else xs[i]
  {
    hide Sq;
    assert xs[..i + 1][..i] == xs[..i];
  }

  /** Accumulates count, extremes, sum and sum of squares in one pass. */
  method ComputeStats(readings: seq<SensorReading>, sqrt: real -> real) returns (stats: SensorStats)
    ensures stats == StatsOf(readings, sqrt)
    ensures readings != [] && IsSqrt(sqrt) ==> SumsFit(stats, Values(readings))
  {
    hide Sum, SumSq, Lowest, Highest, Variance, Sq, SumsFit, IsSqrt;
    ghost var xs := Values(readings);
    var count, min, max := 0, F32_MAX, -F32_MAX;
    var sum, sumSq := 0.0, 0.0;
    EmptySums();
    for i := 0 to |readings|
      invariant count == i
      invariant i == 0 ==> min == F32_MAX && max == -F32_MAX
      invariant i > 0 ==> min == Lowest(xs[..i]) && max == Highest(xs[..i])
      invariant sum == Sum(xs[..i]) && sumSq == SumSq(xs[..i])
    {
      var value := readings[i].Value();
      StatsStep(xs, i);
      count := count + 1;
      if value < min {
        min := value;
      }
      if value > max {
        max := value;
      }
      sum := sum + value;
      sumSq := sumSq + Sq(value);
    }
    assert xs[..|readings|] == xs;
    var avg := if count > 0 then sum / (count as real) else 0.0;
    var variance := if count > 0 then sumSq / (count as real) - Sq(avg) else 0.0;
    if count > 0 {
      OnePassVariance(xs);
    }
    stats := SensorStats(count, min, max, sum, sumSq, avg, sqrt(variance));
    SumsAlwaysFit(readings, sqrt);
  }

  lemma EmptySums()
    ensures Sum([]) == SumSq([]) == 0.0
  {
  }

  /** With no readings every derived value is zero, and the extremes are still the sentinels. */
  lemma EmptyBatchStats(sqrt: real -> real)
    requires IsSqrt(sqrt)
    ensures StatsOf([], sqrt) == SensorStats(0, F32_MAX, -F32_MAX, 0.0, 0.0, 0.0, 0.0)
  {
    SqPositive(sqrt(0.0));
  }

  /** Sum and sum of squares, by themselves and through mean and deviation. */
  ghost predicate SumsFit(st: SensorStats, xs: seq<real>) {
    && st.sum == Sum(xs) && st.sumSq == SumSq(xs)
    && st.sum == st.avg * (st.count as real)
    && st.sumSq == (st.count as real) * (Sq(st.stddev) + Sq(st.avg))
  }

  lemma StatsMoments(rs: seq<SensorReading>, sqrt: real -> real)
    requires rs != [] && IsSqrt(sqrt)
    ensures SumsFit(StatsOf(rs, sqrt), Values(rs))
    ensures StatsOf(rs, sqrt).min in Values(rs) && StatsOf(rs, sqrt).max in Values(rs)
  {
    hide Sum, Mean, Variance, SumSq, Sq;
    var xs := Values(rs);
    VarianceScales(xs);
    OnePassVariance(xs);
    SquaresFromMoments(SumSq(xs), |xs| as real, Mean(xs), Variance(xs));
  }

  lemma SumsAlwaysFit(rs: seq<SensorReading>, sqrt: real -> real)
    ensures rs != [] && IsSqrt(sqrt) ==> SumsFit(StatsOf(rs, sqrt), Values(rs))
  {
    hide SumsFit, StatsOf, IsSqrt;
    if rs != [] && IsSqrt(sqrt) {
      StatsMoments(rs, sqrt);
    }
  }

  lemma StatsShape(rs: seq<SensorReading>, sqrt: real -> real)
    requires rs != [] && IsSqrt(sqrt)
    ensures var st, xs := StatsOf(rs, sqrt), Values(rs);
      && st.count == |rs|
      && st.min <= st.avg <= st.max
      && (forall i :: 0 <= i < |xs| ==> st.min <= xs[i] <= st.max)
      && IsStddev(st.stddev, xs)
      && (st.stddev == 0.0 <==> forall i :: 0 <= i < |xs| ==> xs[i] == xs[0])
  {
    hide Sum, Mean, Variance, SumSq, Sq;
    var xs := Values(rs);
    MeanBetween(xs, Lowest(xs), Highest(xs));
    VarianceScales(xs);
    ZeroVarianceMeansConstant(xs);
    SqPositive(sqrt(Variance(xs)));
  }

  /**
   For a non-empty batch: min ≤ avg ≤ max, both attained, a true standard deviation, zero only for equal
   readings, and sums that fit the count, mean and deviation.
   */
  lemma StatsMeaning(rs: seq<SensorReading>, sqrt: real -> real)
    requires rs != [] && IsSqrt(sqrt)
    ensures var st, xs := StatsOf(rs, sqrt), Values(rs);
      && st.count == |rs| && st.min in xs && st.max in xs
      && st.min <= st.avg <= st.max
      && (forall i :: 0 <= i < |xs| ==> st.min <= xs[i] <= st.max)
      && IsStddev(st.stddev, xs)
      && (st.stddev == 0.0 <==> forall i :: 0 <= i < |xs| ==> xs[i] == xs[0])
      && st.sum == Sum(xs) && st.sumSq == SumSq(xs)
      && st.sum == st.avg * (st.count as real)
      && st.sumSq == (st.count as real) * (Sq(st.stddev) + Sq(st.avg))
  {
    StatsShape(rs, sqrt);
    StatsMoments(rs, sqrt);
    hide StatsOf, Values, Sum, SumSq, Sq, IsStddev, IsSqrt;
  }

  lemma SquaresFromMoments(sumSq: real, n: real, mean: real, variance: real)
    requires n > 0.0 && sumSq / n - Sq(mean) == variance
    ensures sumSq == n * (variance + Sq(mean))
  {
    Quotient(sumSq, n);
  }

  // ---------- anomalies ----------

  /** The readings of a batch that deviate too far, in order, with their severity in deviations. */
  function AnomaliesOf(id: string, rs: seq<SensorReading>, stats: SensorStats, threshold: real): seq<Anomaly> {
    if rs == [] then []
    else
      var n := |rs| - 1;
      var value := rs[n].Value();
      AnomaliesOf(id, rs[..n], stats, threshold)
      + if Flagged(value, stats.avg, stats.stddev, threshold)
        then [Anomaly(id, Abs(value - stats.avg) / stats.stddev, value, stats.avg)] else []
  }

  lemma AnomaliesStep(id: string, rs: seq<SensorReading>, i: nat, stats: SensorStats, t: real)
    requires i < |rs|
    ensures var v := rs[i].Value();
      AnomaliesOf(id, rs[..i + 1], stats, t) == AnomaliesOf(id, rs[..i], stats, t)
        + if Flagged(v, stats.avg, stats.stddev, t)
          then [Anomaly(id, Abs(v - stats.avg) / stats.stddev, v, stats.avg)] else []
  {
    assert rs[..i + 1][..i] == rs[..i];
  }

  method DetectAnomalies(id: string, readings: seq<SensorReading>, stats: SensorStats, threshold: real,
                         anomalies: seq<Anomaly>) returns (extended: seq<Anomaly>)
    ensures extended == anomalies + AnomaliesOf(id, readings, stats, threshold)
  {
    hide AnomaliesOf;
    extended := anomalies;
    NoReadingsNoAnomalies(id, stats, threshold);
    for i := 0 to |readings|
      invariant extended == anomalies + AnomaliesOf(id, readings[..i], stats, threshold)
    {
      var value := readings[i].Value();
      AnomaliesStep(id, readings, i, stats, threshold);
      if stats.stddev > 0.0 && Abs(value - stats.avg) > threshold * stats.stddev {
        extended := extended + [Anomaly(id, Abs(value - stats.avg) / stats.stddev, value, stats.avg)];
      }
    }
    assert readings[..|readings|] == readings;
  }

  lemma NoReadingsNoAnomalies(id: string, stats: SensorStats, t: real)
    ensures AnomaliesOf(id, [], stats, t) == []
  {
  }

  /** One anomaly per flagged value. */
  lemma {:induction false} AnomalyCount(id: string, rs: seq<SensorReading>, stats: SensorStats, t: real)
    ensures |AnomaliesOf(id, rs, stats, t)| == FlagCount(Values(rs), stats.avg, stats.stddev, t)
  {
    if rs != [] {
      var n := |rs| - 1;
      assert Values(rs)[..n] == Values(rs[..n]);
      AnomalyCount(id, rs[..n], stats, t);
    }
  }

  /** The positions of the values that deviate too far, ascending. */
  function FlaggedPositions(xs: seq<real>, avg: real, stddev: real, t: real): (p: seq<nat>)
    ensures forall k :: 0 <= k < |p| ==> p[k] < |xs| && Flagged(xs[p[k]], avg, stddev, t)
    ensures forall k, l :: 0 <= k < l < |p| ==> p[k] < p[l]
    ensures forall i :: 0 <= i < |xs| && Flagged(xs[i], avg, stddev, t) ==> i in p
  {
    if xs == [] then []
    else
      var n := |xs| - 1;
      assert forall i :: 0 <= i < n ==> xs[..n][i] == xs[i];
      FlaggedPositions(xs[..n], avg, stddev, t) + if Flagged(xs[n], avg, stddev, t) then [n] else []
  }

  /** `a` describes the deviation of `value`: the value, the mean, and their distance in standard deviations. */
  ghost predicate Describes(a: Anomaly, id: string, value: real, stats: SensorStats) {
    && a.sensorId == id && a.value == value && a.mean == stats.avg
    && a.severity * stats.stddev == if value < stats.avg then stats.avg - value else value - stats.avg
  }

  lemma FlaggedIsDescribed(id: string, value: real, stats: SensorStats, t: real)
    requires Flagged(value, stats.avg, stats.stddev, t)
    ensures Describes(Anomaly(id, Abs(value - stats.avg) / stats.stddev, value, stats.avg), id, value, stats)
  {
    Quotient(Abs(value - stats.avg), stats.stddev);
  }

  /** The anomalies describe the flagged readings, each once and in order. */
  lemma {:induction false} AnomaliesDescribe(id: string, rs: seq<SensorReading>, stats: SensorStats, t: real)
    ensures var p, found := FlaggedPositions(Values(rs), stats.avg, stats.stddev, t), AnomaliesOf(id, rs, stats, t);
      |found| == |p| && forall k :: 0 <= k < |p| ==> Describes(found[k], id, rs[p[k]].Value(), stats)
  {
    hide Describes, Abs, Flagged;
    if rs != [] {
      var n := |rs| - 1;
      assert Values(rs)[..n] == Values(rs[..n]);
      AnomaliesDescribe(id, rs[..n], stats, t);
      if Flagged(rs[n].Value(), stats.avg, stats.stddev, t) {
        FlaggedIsDescribed(id, rs[n].Value(), stats, t);
      }
    }
  }

  lemma FlaggedIsSevere(value: real, avg: real, stddev: real, t: real)
    requires Flagged(value, avg, stddev, t)
    ensures Abs(value - avg) / stddev > t
  {
    hide Abs;
    Quotient(Abs(value - avg), stddev);
    ScaleOrder(t, Abs(value - avg) / stddev, stddev);
  }

  /** Every anomaly names its sensor and is more severe than the threshold. */
  lemma {:induction false} AnomaliesExceed(id: string, rs: seq<SensorReading>, stats: SensorStats, t: real)
    ensures forall a :: a in AnomaliesOf(id, rs, stats, t) ==> a.sensorId == id && a.severity > t
  {
    if rs != [] {
      hide Flagged, Abs;
      var n := |rs| - 1;
      AnomaliesExceed(id, rs[..n], stats, t);
      if Flagged(rs[n].Value(), stats.avg, stats.stddev, t) {
        FlaggedIsSevere(rs[n].Value(), stats.avg, stats.stddev, t);
      }
    }
  }

  /** A batch whose readings are all equal is never reported. */
  lemma {:induction false} EqualReadingsQuiet(id: string, rs: seq<SensorReading>, sqrt: real -> real, t: real)
    requires IsSqrt(sqrt) && forall i :: 0 <= i < |rs| ==> rs[i].Value() == rs[0].Value()
    ensures AnomaliesOf(id, rs, StatsOf(rs, sqrt), t) == []
  {
    if rs != [] {
      StatsMeaning(rs, sqrt);
      hide StatsOf, IsSqrt;
      NoSpreadNoAnomalies(id, rs, StatsOf(rs, sqrt), t);
    }
  }

  lemma {:induction false} NoSpreadNoAnomalies(id: string, rs: seq<SensorReading>, stats: SensorStats, t: real)
    requires stats.stddev == 0.0
    ensures AnomaliesOf(id, rs, stats, t) == []
  {
    if rs != [] {
      NoSpreadNoAnomalies(id, rs[..|rs| - 1], stats, t);
    }
  }

  // ---------- frames ----------

  /** Deepest sensor queue seen on any reading, zero for none. */
  function MaxInternal(rs: seq<SensorReading>): (m: nat)
    ensures forall i :: 0 <= i < |rs| ==> rs[i].internalLen <= m
    ensures rs != [] ==> exists i :: 0 <= i < |rs| && rs[i].internalLen == m
  {
    if rs == [] then 0
    else
      var n := |rs| - 1;
      var rest := MaxInternal(rs[..n]);
      assert forall i :: 0 <= i < n ==> rs[..n][i] == rs[i];
      assert n > 0 ==> exists i :: 0 <= i < n && rs[i].internalLen == rest;
      if rs[n].internalLen > rest || n == 0 then rs[n].internalLen else rest
  }

  ghost function BatchAnomalies(sqrt: real -> real, threshold: real):
    (string, seq<SensorReading>) -> multiset<Anomaly>
  {
    (id, rs) => multiset(AnomaliesOf(id, rs, StatsOf(rs, sqrt), threshold))
  }

  /** `frame` reports exactly the claimed window; the order of anomalies across sensors is free. */
  ghost predicate IsFrameOf(frame: Frame, claim: Claim, windowMs: nat, threshold: real, sqrt: real -> real) {
    var b := claim.window.bucket;
    && frame.frameId == claim.id
    && frame.windowStart == claim.window.start
    && frame.windowEnd == claim.window.start + windowMs
    && frame.sensorStats.Keys == b.Keys == frame.internalMax.Keys
    && (forall id :: id in b ==> frame.sensorStats[id] == StatsOf(b[id], sqrt))
    && (forall id :: id in b ==> frame.internalMax[id] == MaxInternal(b[id]))
    && multiset(frame.anomalies) == Gather(b, BatchAnomalies(sqrt, threshold))
  }

  lemma GatherNothing(f: (string, seq<SensorReading>) -> multiset<Anomaly>)
    ensures Gather(map[], f) == multiset{}
  {
  }

  /** Reporting one more sensor moves its anomalies from the rest to the list. */
  lemma ReportStep(b: Bucket, rest: Bucket, id: string, anomalies: seq<Anomaly>, extended: seq<Anomaly>,
                   f: (string, seq<SensorReading>) -> multiset<Anomaly>)
    requires id in rest && multiset(anomalies) + Gather(rest, f) == Gather(b, f)
    requires multiset(extended) == multiset(anomalies) + f(id, rest[id])
    ensures multiset(extended) + Gather(rest - {id}, f) == Gather(b, f)
  {
    GatherRemove(rest, f, id);
  }

  lemma BatchReport(sqrt: real -> real, t: real, id: string, rs: seq<SensorReading>, anomalies: seq<Anomaly>)
    ensures multiset(anomalies + AnomaliesOf(id, rs, StatsOf(rs, sqrt), t))
         == multiset(anomalies) + BatchAnomalies(sqrt, t)(id, rs)
  {
  }

  /** One sensor's share of a frame: deepest queue, statistics, and its anomalies appended. */
  method ReportBatch(id: string, readings: seq<SensorReading>, threshold: real, sqrt: real -> real,
                     anomalies: seq<Anomaly>)
    returns (maxInternal: nat, stats: SensorStats, extended: seq<Anomaly>)
    ensures maxInternal == MaxInternal(readings) && stats == StatsOf(readings, sqrt)
    ensures multiset(extended) == multiset(anomalies) + BatchAnomalies(sqrt, threshold)(id, readings)
  {
    hide StatsOf, AnomaliesOf, MaxInternal;
    maxInternal := MaxInternal(readings);
    stats := ComputeStats(readings, sqrt);
    extended := DetectAnomalies(id, readings, stats, threshold, anomalies);
    BatchReport(sqrt, threshold, id, readings, anomalies);
  }

  /** The sensors in `done` have been reported. */
  ghost predicate Reported(b: Bucket, done: set<string>, stats: map<string, SensorStats>,
                           internalMax: map<string, nat>, sqrt: real -> real)
  {
    && done <= b.Keys
    && stats.Keys == internalMax.Keys == done
    && (forall id :: id in done ==> stats[id] == StatsOf(b[id], sqrt) && internalMax[id] == MaxInternal(b[id]))
  }

  lemma ReportedStep(b: Bucket, done: set<string>, stats: map<string, SensorStats>,
                     internalMax: map<string, nat>, sqrt: real -> real, id: string)
    requires Reported(b, done, stats, internalMax, sqrt) && id in b
    ensures Reported(b, done + {id}, stats[id := StatsOf(b[id], sqrt)], internalMax[id := MaxInternal(b[id])], sqrt)
  {
    hide StatsOf, MaxInternal;
  }

  method MakeFrame(claim: Claim, windowMs: nat, threshold: real, sqrt: real -> real) returns (frame: Frame)
    ensures IsFrameOf(frame, claim, windowMs, threshold, sqrt)
    ensures frame.frameId == claim.id && frame.windowStart == claim.window.start
    ensures frame.windowEnd == claim.window.start + windowMs
    ensures frame.sensorStats.Keys == claim.window.bucket.Keys == frame.internalMax.Keys
    ensures forall id :: id in claim.window.bucket ==>
              && frame.sensorStats[id] == StatsOf(claim.window.bucket[id], sqrt)
              && frame.internalMax[id] == MaxInternal(claim.window.bucket[id])
    ensures ReportsFlagged(frame, claim.window.bucket, threshold)
  {
    hide StatsOf, AnomaliesOf, Gather, MaxInternal, BatchAnomalies, Reported, IsFrameOf, ReportsFlagged;
    var b := claim.window.bucket;
    ghost var f := BatchAnomalies(sqrt, threshold);
    GatherNothing(f);
    var todo := b;
    var statsMap: map<string, SensorStats> := map[];
    var internalMax: map<string, nat> := map[];
    var anomalies: seq<Anomaly> := [];
    NothingReported(b, sqrt);
    while todo.Keys != {}
      invariant forall id :: id in todo ==> id in b && todo[id] == b[id]
      invariant Reported(b, b.Keys - todo.Keys, statsMap, internalMax, sqrt)
      invariant multiset(anomalies) + Gather(todo, f) == Gather(b, f)
      decreases |todo|
    {
      var id :| id in todo.Keys;
      var deepest, stats, extended := ReportBatch(id, b[id], threshold, sqrt, anomalies);
      ReportStep(b, todo, id, anomalies, extended, f);
      ReportedStep(b, b.Keys - todo.Keys, statsMap, internalMax, sqrt, id);
      assert b.Keys - todo.Keys + {id} == b.Keys - (todo - {id}).Keys;
      internalMax := internalMax[id := deepest];
      statsMap := statsMap[id := stats];
      anomalies := extended;
      todo := todo - {id};
    }
    assert todo == map[];
    assert b.Keys - todo.Keys == b.Keys;
    frame := Frame(claim.id, claim.window.start, claim.window.start + windowMs, statsMap, anomalies, internalMax);
    AllReported(frame, claim, windowMs, threshold, sqrt);
    FrameHolds(frame, claim, windowMs, threshold, sqrt);
    FrameReportsFlagged(frame, claim, windowMs, threshold, sqrt);
  }

  function Itself(n: nat): nat {
    n
  }

  /** The anomalies of a frame are those of its sensors' batches, by the frame's own statistics, and no others. */
  ghost predicate ReportsFlagged(frame: Frame, b: Bucket, threshold: real) {
    && frame.sensorStats.Keys == b.Keys
    && (forall a :: a in frame.anomalies <==>
          exists id :: id in b && a in AnomaliesOf(id, b[id], frame.sensorStats[id], threshold))
    && |frame.anomalies| == Total(AnomalyCounts(b, frame.sensorStats, threshold), Itself)
  }

  /** How many anomalies each sensor has. */
  ghost function AnomalyCounts(b: Bucket, stats: map<string, SensorStats>, threshold: real): map<string, nat>
    requires stats.Keys == b.Keys
  {
    map id | id in b :: |AnomaliesOf(id, b[id], stats[id], threshold)|
  }

  ghost function Sizes(b: Bucket, f: (string, seq<SensorReading>) -> multiset<Anomaly>): map<string, nat> {
    map id | id in b :: |f(id, b[id])|
  }

  lemma {:induction false} GatherMember(b: Bucket, f: (string, seq<SensorReading>) -> multiset<Anomaly>, a: Anomaly)
    ensures a in Gather(b, f) <==> exists id :: id in b && a in f(id, b[id])
    decreases |b|
  {
    if b != map[] {
      var id := Pick(b);
      GatherRemove(b, f, id);
      GatherMember(b - {id}, f, a);
      assert forall other :: other in b <==> other == id || other in b - {id};
    }
  }

  lemma {:induction false} GatherSize(b: Bucket, f: (string, seq<SensorReading>) -> multiset<Anomaly>)
    ensures |Gather(b, f)| == Total(Sizes(b, f), Itself)
    decreases |b|
  {
    var sizes := Sizes(b, f);
    if b == map[] {
      assert sizes == map[];
    } else {
      var id := Pick(b);
      GatherRemove(b, f, id);
      TotalRemove(sizes, Itself, id);
      GatherSize(b - {id}, f);
      assert sizes - {id} == Sizes(b - {id}, f);
    }
  }

  lemma FrameReportsFlagged(frame: Frame, claim: Claim, windowMs: nat, threshold: real, sqrt: real -> real)
    requires IsFrameOf(frame, claim, windowMs, threshold, sqrt)
    ensures ReportsFlagged(frame, claim.window.bucket, threshold)
  {
    var b, f := claim.window.bucket, BatchAnomalies(sqrt, threshold);
    hide StatsOf, AnomaliesOf, Gather, MaxInternal, Total;
    assert forall id :: id in b ==> f(id, b[id]) == multiset(AnomaliesOf(id, b[id], frame.sensorStats[id], threshold));
    hide BatchAnomalies, IsFrameOf;
    assert multiset(frame.anomalies) == Gather(b, f) by {
      FrameHolds(frame, claim, windowMs, threshold, sqrt);
    }
    forall a
      ensures a in frame.anomalies <==>
                exists id :: id in b && a in AnomaliesOf(id, b[id], frame.sensorStats[id], threshold)
    {
      GatherMember(b, f, a);
      assert a in frame.anomalies <==> a in multiset(frame.anomalies);
    }
    GatherSize(b, f);
    assert |multiset(frame.anomalies)| == |frame.anomalies|;
    assert Sizes(b, f) == AnomalyCounts(b, frame.sensorStats, threshold);
  }

  lemma FrameHolds(frame: Frame, claim: Claim, windowMs: nat, threshold: real, sqrt: real -> real)
    requires IsFrameOf(frame, claim, windowMs, threshold, sqrt)
    ensures frame.frameId == claim.id && frame.windowStart == claim.window.start
    ensures frame.windowEnd == claim.window.start + windowMs
    ensures frame.sensorStats.Keys == claim.window.bucket.Keys == frame.internalMax.Keys
    ensures forall id :: id in claim.window.bucket ==>
              && frame.sensorStats[id] == StatsOf(claim.window.bucket[id], sqrt)
              && frame.internalMax[id] == MaxInternal(claim.window.bucket[id])
    ensures multiset(frame.anomalies) == Gather(claim.window.bucket, BatchAnomalies(sqrt, threshold))
  {
    hide StatsOf, AnomaliesOf, Gather, MaxInternal, BatchAnomalies;
  }

  lemma NothingReported(b: Bucket, sqrt: real -> real)
    ensures Reported(b, b.Keys - b.Keys, map[], map[], sqrt)
  {
  }

  lemma AllReported(frame: Frame, claim: Claim, windowMs: nat, threshold: real, sqrt: real -> real)
    requires Reported(claim.window.bucket, claim.window.bucket.Keys, frame.sensorStats, frame.internalMax, sqrt)
    requires multiset(frame.anomalies) == Gather(claim.window.bucket, BatchAnomalies(sqrt, threshold))
    requires frame.frameId == claim.id && frame.windowStart == claim.window.start
    requires frame.windowEnd == claim.window.start + windowMs
    ensures IsFrameOf(frame, claim, windowMs, threshold, sqrt)
  {
    hide StatsOf, AnomaliesOf, Gather, MaxInternal, BatchAnomalies;
  }

  function CountOf(st: SensorStats): nat {
    st.count
  }

  /** The counts in a frame add up to the readings of its window. */
  lemma {:induction false} CountsAddUp(b: Bucket, stats: map<string, SensorStats>, sqrt: real -> real)
    requires stats.Keys == b.Keys && forall id :: id in b ==> stats[id] == StatsOf(b[id], sqrt)
    ensures Total(stats, CountOf) == |BucketReadings(b)|
    decreases |b|
  {
    if b == map[] {
      assert stats == map[];
    } else {
      var id := Pick(b);
      GatherRemove(b, BatchReadings, id);
      TotalRemove(stats, CountOf, id);
      CountsAddUp(b - {id}, stats - {id}, sqrt);
    }
  }

  /** Anomalies of one batch, times the squared threshold, never exceed its readings. */
  lemma BatchAnomalyBound(id: string, rs: seq<SensorReading>, sqrt: real -> real, t: real)
    requires rs != [] && IsSqrt(sqrt) && t > 0.0
    ensures var k := |AnomaliesOf(id, rs, StatsOf(rs, sqrt), t)|;
      && (k as real) * Sq(t) <= |rs| as real
      && (k > 0 ==> (|rs| - 1) as real > Sq(t))
  {
    hide Sq, Sum, Variance, AnomaliesOf, FlagCount;
    var st, xs := StatsOf(rs, sqrt), Values(rs);
    assert IsStddev(st.stddev, xs) && st.avg == Mean(xs) by {
      StatsMeaning(rs, sqrt);
    }
    hide StatsOf, Mean, IsStddev;
    AnomalyCount(id, rs, st, t);
    FlaggedAtMost(xs, st.stddev, t);
    if FlagCount(xs, st.avg, st.stddev, t) > 0 {
      FlagNeedsLargeWindow(xs, st.stddev, t);
    }
  }

  /** At most `n / tt` of `n` readings are anomalies. */
  ghost predicate Within(k: nat, n: nat, tt: real) {
    (k as real) * tt <= n as real
  }

  lemma WithinAdds(a: nat, b: nat, m: nat, n: nat, tt: real)
    requires Within(a, m, tt) && Within(b, n, tt)
    ensures Within(a + b, m + n, tt)
  {
    assert ((a + b) as real) * tt == (a as real) * tt + (b as real) * tt;
  }

  lemma {:induction false} BucketAnomalyBound(b: Bucket, sqrt: real -> real, t: real)
    requires IsSqrt(sqrt) && t > 0.0 && forall id :: id in b ==> b[id] != []
    ensures Within(|Gather(b, BatchAnomalies(sqrt, t))|, |BucketReadings(b)|, Sq(t))
    decreases |b|
  {
    hide *;
    if b == map[] {
      NothingWithin(BatchAnomalies(sqrt, t), Sq(t));
    } else {
      var f, id := BatchAnomalies(sqrt, t), Pick(b);
      GatherRemove(b, BatchReadings, id);
      GatherRemove(b, f, id);
      BucketAnomalyBound(b - {id}, sqrt, t);
      BatchWithin(id, b[id], sqrt, t);
      BucketReadingsAre(b);
      BucketReadingsAre(b - {id});
      WithinAdds(|f(id, b[id])|, |Gather(b - {id}, f)|, |BatchReadings(id, b[id])|, |BucketReadings(b - {id})|, Sq(t));
    }
  }

  lemma NothingWithin(f: (string, seq<SensorReading>) -> multiset<Anomaly>, tt: real)
    ensures Within(|Gather(map[], f)|, |BucketReadings(map[])|, tt)
  {
    assert 0.0 * tt == 0.0;
  }

  lemma BatchWithin(id: string, rs: seq<SensorReading>, sqrt: real -> real, t: real)
    requires rs != [] && IsSqrt(sqrt) && t > 0.0
    ensures Within(|BatchAnomalies(sqrt, t)(id, rs)|, |BatchReadings(id, rs)|, Sq(t))
  {
    hide AnomaliesOf, StatsOf, Sq, IsSqrt;
    BatchAnomalyBound(id, rs, sqrt, t);
    BatchCounts(id, rs, sqrt, t);
  }

  lemma BucketReadingsAre(b: Bucket)
    ensures BucketReadings(b) == Gather(b, BatchReadings)
  {
  }

  lemma BatchCounts(id: string, rs: seq<SensorReading>, sqrt: real -> real, t: real)
    ensures |BatchAnomalies(sqrt, t)(id, rs)| == |AnomaliesOf(id, rs, StatsOf(rs, sqrt), t)|
    ensures |BatchReadings(id, rs)| == |rs|
  {
  }

  /** Over a whole frame: anomalies times t² never exceed the readings its statistics count. */
  lemma FrameAnomalyBound(frame: Frame, claim: Claim, windowMs: nat, t: real, sqrt: real -> real)
    requires IsSqrt(sqrt) && t > 0.0
    requires IsFrameOf(frame, claim, windowMs, t, sqrt)
    requires forall id :: id in claim.window.bucket ==> claim.window.bucket[id] != []
    ensures (|frame.anomalies| as real) * Sq(t) <= Total(frame.sensorStats, CountOf) as real
  {
    hide Sq, StatsOf, AnomaliesOf, IsSqrt, Total, Gather, BatchAnomalies, MaxInternal, BucketReadings;
    CountsAddUp(claim.window.bucket, frame.sensorStats, sqrt);
    BucketAnomalyBound(claim.window.bucket, sqrt, t);
    assert |multiset(frame.anomalies)| == |frame.anomalies|;
  }

  lemma {:induction false} GatherEmpty(b: Bucket, f: (string, seq<SensorReading>) -> multiset<Anomaly>)
    requires forall id :: id in b ==> f(id, b[id]) == multiset{}
    ensures Gather(b, f) == multiset{}
    decreases |b|
  {
    if b != map[] {
      GatherEmpty(b - {Pick(b)}, f);
    }
  }

  /** With the threshold in use, a frame whose sensors gave ten readings or fewer reports nothing. */
  lemma QuietFrames(frame: Frame, claim: Claim, windowMs: nat, sqrt: real -> real)
    requires IsSqrt(sqrt)
    requires IsFrameOf(frame, claim, windowMs, 3.0, sqrt)
    requires forall id :: id in claim.window.bucket ==> 0 < |claim.window.bucket[id]| <= 10
    ensures frame.anomalies == []
  {
    var b, f := claim.window.bucket, BatchAnomalies(sqrt, 3.0);
    forall id | id in b
      ensures f(id, b[id]) == multiset{}
    {
      BatchAnomalyBound(id, b[id], sqrt, 3.0);
      assert Sq(3.0) == 9.0;
    }
    GatherEmpty(b, f);
    assert |multiset(frame.anomalies)| == 0;
  }

  // ---------- the engine ----------

  lemma NoClaimsNoReadings()
    ensures GatherSeq([], ClaimReadings) == multiset{}
  {
  }

  /** Claiming a window moves its readings from the pending map to the claims. */
  lemma ClaimMoves(before: Pending, p: Pending, cs: seq<Claim>, c: Claim)
    requires c.window.start in p && c.window.bucket == p[c.window.start]
    requires PendingReadings(before) == PendingReadings(p) + GatherSeq(cs, ClaimReadings)
    ensures PendingReadings(before) == PendingReadings(p - {c.window.start}) + GatherSeq(cs + [c], ClaimReadings)
  {
    RemoveTakes(p, c.window.start);
    GatherSeqAppend(cs, c, ClaimReadings);
  }

  lemma AppendsEverywhere(p: Pending, r: SensorReading, windowMs: nat)
    requires windowMs > 0
    ensures forall start: nat, id ::
              ReadingsOf(BucketOf(Inserted(p, r, windowMs), start), id) == ReadingsOf(BucketOf(p, start), id)
                + if start <= r.timestampMs < start + windowMs && start % windowMs == 0 && id == r.sensorId
                  then [r] else []
  {
    hide Inserted, ReadingsOf, BucketOf;
    forall start: nat, id
      ensures ReadingsOf(BucketOf(Inserted(p, r, windowMs), start), id) == ReadingsOf(BucketOf(p, start), id)
                + if start <= r.timestampMs < start + windowMs && start % windowMs == 0 && id == r.sensorId
                  then [r] else []
    {
      InsertAppends(p, r, windowMs, start, id);
    }
  }

  /** A window leaves the map exactly when it is due. */
  lemma ClaimedWhenDue(before: Pending, cs: seq<Claim>, after: Pending, firstId: nat, now: nat, windowMs: nat)
    requires ClaimsExactlyReady(before, cs, after, firstId, now, windowMs)
    ensures forall start :: start in before ==>
              (start !in after <==> now >= start + windowMs + 50 && 2 * now + 1 >= 2 * start + 3 * windowMs)
  {
    GoneWhenDue(before, cs, after, now, windowMs);
  }

  class AggregationEngine {
    const windowMs: nat
    const threshold: real
    var pending: Pending
    var frameId: nat
    var stored: seq<Frame>

    ghost predicate Valid()
      reads this
    {
      windowMs > 0 && PendingPlaced(pending, windowMs)
    }

    constructor (windowDurationMs: nat, threshold: real)
      ensures Valid() && windowMs == (if windowDurationMs == 0 then 1 else windowDurationMs)
      ensures this.threshold == threshold && pending == map[] && frameId == 0 && stored == []
    {
      this.windowMs := if windowDurationMs > 1 then windowDurationMs else 1;
      this.threshold := threshold;
      pending, frameId, stored := map[], 0, [];
    }

    /** Files a popped reading under its window and sensor. */
    method Collect(reading: SensorReading)
      requires Valid()
      modifies `pending
      ensures Valid()
      ensures pending == Inserted(old(pending), reading, windowMs)
      ensures PendingReadings(pending) == old(PendingReadings(pending)) + multiset{reading}
      ensures forall start: nat, id ::
                ReadingsOf(BucketOf(pending, start), id) == ReadingsOf(BucketOf(old(pending), start), id)
                  + if start <= reading.timestampMs < start + windowMs && start % windowMs == 0
                       && id == reading.sensorId
                    then [reading] else []
    {
      AppendsEverywhere(pending, reading, windowMs);
      InsertAddsOne(pending, reading, windowMs);
      InsertKeepsPlacement(pending, reading, windowMs);
      var start := (reading.timestampMs / windowMs) * windowMs;
      var bucket: Bucket := map[];
      if start in pending {
        bucket := pending[start];
      }
      var batch: seq<SensorReading> := [];
      if reading.sensorId in bucket {
        batch := bucket[reading.sensorId];
      }
      pending := pending[start := bucket[reading.sensorId := batch + [reading]]];
    }

    /**
     Claims every window that is old enough, oldest first, numbering frames as it goes. Stopping at the
     first window that is not ready leaves no ready window behind.
     */
    method ClaimReady(now: nat) returns (ready: seq<Claim>)
      requires Valid()
      modifies `pending, `frameId
      ensures Valid()
      ensures ClaimsExactlyReady(old(pending), ready, pending, old(frameId), now, windowMs)
      ensures frameId == old(frameId) + |ready|
      ensures forall start :: start in old(pending) ==>
                (start !in pending <==> now >= start + windowMs + 50 && 2 * now + 1 >= 2 * start + 3 * windowMs)
      ensures old(PendingReadings(pending)) == PendingReadings(pending) + GatherSeq(ready, ClaimReadings)
    {
      hide PendingReadings, GatherSeq, WellPlaced, TakesOldest, Starts, ClaimsExactlyReady;
      ghost var before: Pending := pending;
      ready := [];
      assert GatherSeq(ready, ClaimReadings) == multiset{} by {
        NoClaimsNoReadings();
      }
      TakeNone(before, frameId);
      while pending != map[]
        invariant Valid()
        invariant TakesOldest(before, ready, pending, old(frameId))
        invariant forall start :: start in Starts(ready) ==> Ready(start, now, windowMs)
        invariant frameId == old(frameId) + |ready|
        invariant PendingReadings(before) == PendingReadings(pending) + GatherSeq(ready, ClaimReadings)
        decreases |pending|
      {
        OldestExists(pending);
        var start: nat :| IsOldest(start, pending);
        if now < start + windowMs + GraceFor(windowMs) {
          break;
        }
        var claim := Claim(frameId, Window(start, pending[start]));
        ClaimMoves(before, pending, ready, claim);
        TakeNext(before, ready, pending, old(frameId), start);
        pending := pending - {start};
        frameId := frameId + 1;
        ready := ready + [claim];
      }
      StoppingIsComplete(before, ready, pending, old(frameId), now, windowMs);
      ClaimedWhenDue(before, ready, pending, old(frameId), now, windowMs);
    }

    /** Computes and stores the frame of each claimed window, in claim order. */
    method Emit(ready: seq<Claim>, sqrt: real -> real) returns (ghost frames: seq<Frame>)
      modifies `stored
      ensures stored == old(stored) + frames
      ensures AreFramesOf(frames, ready, windowMs, threshold, sqrt)
    {
      hide IsFrameOf;
      frames := [];
      for n := 0 to |ready|
        invariant stored == old(stored) + frames
        invariant AreFramesOf(frames, ready[..n], windowMs, threshold, sqrt)
      {
        var frame := MakeFrame(ready[n], windowMs, threshold, sqrt);
        stored := stored + [frame];
        frames := frames + [frame];
      }
      assert ready[..|ready|] == ready;
    }

    /** Shutdown: takes the whole map, then numbers and stores every window, oldest first. */
    method Flush(sqrt: real -> real) returns (ghost flushed: seq<Claim>, ghost frames: seq<Frame>)
      requires Valid()
      modifies `pending, `frameId, `stored
      ensures Valid() && pending == map[]
      ensures flushed == Numbered(old(frameId), Ascending(old(pending)))
      ensures frameId == old(frameId) + |flushed|
      ensures stored == old(stored) + frames
      ensures AreFramesOf(frames, flushed, windowMs, threshold, sqrt)
    {
      hide Ascending, Numbered, AreFramesOf, Completes, IsFrameOf, WellPlaced;
      ghost var all := Numbered(frameId, Ascending(pending));
      FlushStart(frameId, pending);
      NoFrames(windowMs, threshold, sqrt);
      var windows: Pending := pending;
      pending := map[];
      flushed, frames := [], [];
      while windows != map[]
        invariant pending == map[] && frameId == old(frameId) + |flushed|
        invariant Completes(flushed, frameId, windows, all)
        invariant stored == old(stored) + frames
        invariant AreFramesOf(frames, flushed, windowMs, threshold, sqrt)
        decreases |windows|
      {
        OldestExists(windows);
        var start: nat :| IsOldest(start, windows);
        var claim := Claim(frameId, Window(start, windows[start]));
        FlushNext(flushed, frameId, windows, start, all);
        frameId := frameId + 1;
        var frame := MakeFrame(claim, windowMs, threshold, sqrt);
        OneMoreFrame(frames, flushed, frame, claim, windowMs, threshold, sqrt);
        stored := stored + [frame];
        frames := frames + [frame];
        windows := windows - {start};
        flushed := flushed + [claim];
      }
      FlushEnd(flushed, frameId, all);
    }
  }

  /** Numbering what is left of `p` completes `flushed` to `all`. */
  ghost predicate Completes(flushed: seq<Claim>, firstId: nat, p: Pending, all: seq<Claim>) {
    flushed + Numbered(firstId, Ascending(p)) == all
  }

  lemma FlushStart(firstId: nat, p: Pending)
    ensures Completes([], firstId, p, Numbered(firstId, Ascending(p)))
  {
  }

  lemma FlushEnd(flushed: seq<Claim>, firstId: nat, all: seq<Claim>)
    requires Completes(flushed, firstId, map[], all)
    ensures flushed == all
  {
  }

  ghost predicate AreFramesOf(frames: seq<Frame>, cs: seq<Claim>, windowMs: nat, threshold: real, sqrt: real -> real) {
    |frames| == |cs| && forall i :: 0 <= i < |cs| ==> IsFrameOf(frames[i], cs[i], windowMs, threshold, sqrt)
  }

  lemma NoFrames(windowMs: nat, threshold: real, sqrt: real -> real)
    ensures AreFramesOf([], [], windowMs, threshold, sqrt)
  {
  }

  lemma OneMoreFrame(frames: seq<Frame>, cs: seq<Claim>, frame: Frame, c: Claim,
                     windowMs: nat, threshold: real, sqrt: real -> real)
    requires AreFramesOf(frames, cs, windowMs, threshold, sqrt) && IsFrameOf(frame, c, windowMs, threshold, sqrt)
    ensures AreFramesOf(frames + [frame], cs + [c], windowMs, threshold, sqrt)
  {
    hide IsFrameOf;
  }

  /** Windows given consecutive ids from `firstId`. */
  ghost function Numbered(firstId: nat, ws: seq<Window>): (cs: seq<Claim>)
    ensures |cs| == |ws|
    ensures forall i :: 0 <= i < |ws| ==> cs[i] == Claim(firstId + i, ws[i])
  {
    seq(|ws|, i requires 0 <= i < |ws| => Claim(firstId + i, ws[i]))
  }

  lemma NumberedHead(firstId: nat, p: Pending, start: nat)
    requires IsOldest(start, p)
    ensures Numbered(firstId, Ascending(p))
         == [Claim(firstId, Window(start, p[start]))] + Numbered(firstId + 1, Ascending(p - {start}))
  {
    var w, rest := Window(start, p[start]), Ascending(p - {start});
    assert Ascending(p) == [w] + rest by {
      assert start == Oldest(p);
    }
    hide Ascending;
    NumberedCons(firstId, w, rest);
  }

  lemma NumberedCons(firstId: nat, w: Window, ws: seq<Window>)
    ensures Numbered(firstId, [w] + ws) == [Claim(firstId, w)] + Numbered(firstId + 1, ws)
  {
    var all := [w] + ws;
    assert forall i :: 0 < i < |all| ==> all[i] == ws[i - 1];
  }

  lemma FlushNext(flushed: seq<Claim>, firstId: nat, p: Pending, start: nat, all: seq<Claim>)
    requires IsOldest(start, p) && Completes(flushed, firstId, p, all)
    ensures Completes(flushed + [Claim(firstId, Window(start, p[start]))], firstId + 1, p - {start}, all)
  {
    hide Numbered, Ascending;
    NumberedHead(firstId, p, start);
  }
}
