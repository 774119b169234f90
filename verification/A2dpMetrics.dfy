/**
 * The A2DP figures of one session and how a further report is merged into them. Negative
 * numbers mean "not reported". The underrun average is a `float` in the source; here it
 * is a real number.
 */
module A2dpMetrics {
  import opened Common

  datatype Metrics = Metrics(
    audioDurationMs: int,
    mediaTimerMinMs: int,
    mediaTimerMaxMs: int,
    mediaTimerAvgMs: int,
    totalSchedulingCount: int,
    bufferOverrunsMaxCount: int,
    bufferOverrunsTotal: int,
    bufferUnderrunsAverage: real,
    bufferUnderrunsCount: int,
    codecIndex: int,
    isA2dpOffload: bool)

  /** A2dpSessionMetrics(): nothing reported. */
  const NONE := Metrics(-1, -1, -1, -1, -1, -1, -1, -1.0, -1, -1, false)

  /** The integer `combine_averages`: the counts are not negative, so `/` truncates as in C++. */
  function CombineAverages(avgA: int, ctA: int, avgB: int, ctB: int): int {
    if ctA > 0 && ctB > 0 then (avgA * ctA + avgB * ctB) / (ctA + ctB)
    else if ctB > 0 then avgB
    else avgA
  }

  function CombineRealAverages(avgA: real, ctA: int, avgB: real, ctB: int): real {
    if ctA > 0 && ctB > 0 then (avgA * ctA as real + avgB * ctB as real) / (ctA + ctB) as real
    else if ctB > 0 then avgB
    else avgA
  }

  /** A report whose timer average can be merged. */
  predicate HasTimer(m: Metrics) { m.mediaTimerAvgMs >= 0 && m.totalSchedulingCount >= 0 }

  predicate HasUnderruns(m: Metrics) { m.bufferUnderrunsAverage >= 0.0 && m.bufferUnderrunsCount >= 0 }

  /** The timer average and count after a merge. */
  function MergedTimer(m: Metrics, r: Metrics): (int, int) {
    if !HasTimer(r) then (m.mediaTimerAvgMs, m.totalSchedulingCount)
    else if !HasTimer(m) then (r.mediaTimerAvgMs, r.totalSchedulingCount)
    else (CombineAverages(m.mediaTimerAvgMs, m.totalSchedulingCount, r.mediaTimerAvgMs, r.totalSchedulingCount),
          m.totalSchedulingCount + r.totalSchedulingCount)
  }

  function MergedUnderruns(m: Metrics, r: Metrics): (real, int) {
    if !HasUnderruns(r) then (m.bufferUnderrunsAverage, m.bufferUnderrunsCount)
    else if !HasUnderruns(m) then (r.bufferUnderrunsAverage, r.bufferUnderrunsCount)
    else (CombineRealAverages(m.bufferUnderrunsAverage, m.bufferUnderrunsCount, r.bufferUnderrunsAverage, r.bufferUnderrunsCount),
          m.bufferUnderrunsCount + r.bufferUnderrunsCount)
  }

  /** A sum in which only reported numbers count. */
  function AddReported(total: int, x: int): int { if x >= 0 then Max(0, total) + x else total }

  function Merged(m: Metrics, r: Metrics): Metrics {
    Metrics(
      AddReported(m.audioDurationMs, r.audioDurationMs),
      if r.mediaTimerMinMs < 0 then m.mediaTimerMinMs
      else if m.mediaTimerMinMs < 0 then r.mediaTimerMinMs else Min(m.mediaTimerMinMs, r.mediaTimerMinMs),
      if r.mediaTimerMaxMs < 0 then m.mediaTimerMaxMs else Max(m.mediaTimerMaxMs, r.mediaTimerMaxMs),
      MergedTimer(m, r).0,
      MergedTimer(m, r).1,
      if r.bufferOverrunsMaxCount < 0 then m.bufferOverrunsMaxCount
      else Max(m.bufferOverrunsMaxCount, r.bufferOverrunsMaxCount),
      AddReported(m.bufferOverrunsTotal, r.bufferOverrunsTotal),
      MergedUnderruns(m, r).0,
      MergedUnderruns(m, r).1,
      if m.codecIndex < 0 then r.codecIndex else m.codecIndex,
      m.isA2dpOffload || r.isA2dpOffload)
  }

  /** `Update`, field by field, in the order of the source. */
  method Update(m: Metrics, r: Metrics) returns (u: Metrics)
    ensures u == Merged(m, r)
  {
    var duration := m.audioDurationMs;
    if r.audioDurationMs >= 0 {
      duration := Max(0, duration);
      duration := duration + r.audioDurationMs;
    }
    var minMs := m.mediaTimerMinMs;
    if r.mediaTimerMinMs >= 0 {
      if minMs < 0 {
        minMs := r.mediaTimerMinMs;
      } else {
        minMs := Min(minMs, r.mediaTimerMinMs);
      }
    }
    var maxMs := m.mediaTimerMaxMs;
    if r.mediaTimerMaxMs >= 0 {
      maxMs := Max(maxMs, r.mediaTimerMaxMs);
    }
    var avgMs, count := m.mediaTimerAvgMs, m.totalSchedulingCount;
    if r.mediaTimerAvgMs >= 0 && r.totalSchedulingCount >= 0 {
      if avgMs < 0 || count < 0 {
        avgMs := r.mediaTimerAvgMs;
        count := r.totalSchedulingCount;
      } else {
        avgMs := CombineAverages(avgMs, count, r.mediaTimerAvgMs, r.totalSchedulingCount);
        count := count + r.totalSchedulingCount;
      }
    }
    var overrunsMax := m.bufferOverrunsMaxCount;
    if r.bufferOverrunsMaxCount >= 0 {
      overrunsMax := Max(overrunsMax, r.bufferOverrunsMaxCount);
    }
    var overruns := m.bufferOverrunsTotal;
    if r.bufferOverrunsTotal >= 0 {
      overruns := Max(0, overruns);
      overruns := overruns + r.bufferOverrunsTotal;
    }
    var underrunsAvg, underruns := m.bufferUnderrunsAverage, m.bufferUnderrunsCount;
    if r.bufferUnderrunsAverage >= 0.0 && r.bufferUnderrunsCount >= 0 {
      if underrunsAvg < 0.0 || underruns < 0 {
        underrunsAvg := r.bufferUnderrunsAverage;
        underruns := r.bufferUnderrunsCount;
      } else {
        underrunsAvg := CombineRealAverages(underrunsAvg, underruns, r.bufferUnderrunsAverage, r.bufferUnderrunsCount);
        underruns := underruns + r.bufferUnderrunsCount;
      }
    }
    var codec := m.codecIndex;
    if codec < 0 {
      codec := r.codecIndex;
    }
    var offload := m.isA2dpOffload;
    if !offload {
      offload := r.isA2dpOffload;
    }
    u := Metrics(duration, minMs, maxMs, avgMs, count, overrunsMax, overruns, underrunsAvg, underruns, codec, offload);
  }

  /** The figures after a sequence of reports. */
  function Fold(reports: seq<Metrics>): Metrics {
    if reports == [] then NONE else Merged(Fold(reports[..|reports| - 1]), reports[|reports| - 1])
  }

  // ---------- Reference: exact sums over the reports that count ----------

  function Sum(reports: seq<Metrics>, f: Metrics -> int): int {
    if reports == [] then 0 else Sum(reports[..|reports| - 1], f) + f(reports[|reports| - 1])
  }

  const TIMER_COUNT: Metrics -> int := m => if HasTimer(m) then m.totalSchedulingCount else 0
  const TIMER_WEIGHT: Metrics -> int := m => if HasTimer(m) then m.mediaTimerAvgMs * m.totalSchedulingCount else 0
  const TIMER_REPORTS: Metrics -> int := m => if HasTimer(m) then 1 else 0

  /**
   * One merge of averages: what truncation loses is at least 0 and less than the new count,
   * and the average stays between the two it combines.
   */
  lemma {:induction false} CombineLoss(avgA: int, ctA: int, avgB: int, ctB: int)
    requires avgA >= 0 && ctA >= 0 && avgB >= 0 && ctB >= 0
    ensures var c := CombineAverages(avgA, ctA, avgB, ctB);
      && 0 <= avgA * ctA + avgB * ctB - c * (ctA + ctB)
      && (ctA + ctB > 0 ==> avgA * ctA + avgB * ctB - c * (ctA + ctB) < ctA + ctB)
      && Min(avgA, avgB) <= c <= Max(avgA, avgB)
  {
    if ctA > 0 && ctB > 0 {
      var n, d := avgA * ctA + avgB * ctB, ctA + ctB;
      assert n == (n / d) * d + n % d;
      DivBetween(avgA, ctA, avgB, ctB);
    }
  }

  lemma {:induction false} DivBetween(avgA: int, ctA: int, avgB: int, ctB: int)
    requires avgA >= 0 && ctA > 0 && avgB >= 0 && ctB > 0
    ensures Min(avgA, avgB) <= (avgA * ctA + avgB * ctB) / (ctA + ctB) <= Max(avgA, avgB)
  {
    var lo, hi, d := Min(avgA, avgB), Max(avgA, avgB), ctA + ctB;
    var n := avgA * ctA + avgB * ctB;
    MulMono(lo, avgA, ctA);
    MulMono(lo, avgB, ctB);
    MulMono(avgA, hi, ctA);
    MulMono(avgB, hi, ctB);
    assert lo * d <= n <= hi * d by {
      assert lo * d == lo * ctA + lo * ctB;
      assert hi * d == hi * ctA + hi * ctB;
    }
    DivBounds(n, d, lo, hi);
  }

  lemma {:induction false} MulMono(a: int, b: int, c: int)
    requires a <= b && c >= 0
    ensures a * c <= b * c
  {
  }

  lemma {:induction false} DivBounds(n: int, d: int, lo: int, hi: int)
    requires d > 0 && lo * d <= n <= hi * d
    ensures lo <= n / d <= hi
  {
    var q := n / d;
    assert q * d <= n < q * d + d;
    assert (q + 1) * d == q * d + d && (hi + 1) * d == hi * d + d;
    if q < lo { MulMono(q + 1, lo, d); }
    if q > hi { MulMono(hi + 1, q, d); }
  }

  /**
   * After any reports: the count is exact, and the average times the count falls short of the
   * exact weighted sum by nothing or by at most the count for each merge after the first. So
   * with n counted reports the average is never above the exact mean and less than n below it.
   */
  ghost predicate CloseToMean(avg: int, count: int, n: int, exactCount: int, exactWeight: int) {
    && (n == 0 ==> avg == -1 && count == -1)
    && (n > 0 ==> avg >= 0 && count == exactCount >= 0 && 0 <= exactWeight - avg * count <= (n - 1) * count)
  }

  lemma {:induction false} TimerAverageClose(reports: seq<Metrics>)
    ensures CloseToMean(Fold(reports).mediaTimerAvgMs, Fold(reports).totalSchedulingCount,
                        Sum(reports, TIMER_REPORTS), Sum(reports, TIMER_COUNT), Sum(reports, TIMER_WEIGHT))
    ensures Sum(reports, TIMER_REPORTS) >= 0
    ensures Sum(reports, TIMER_REPORTS) == 0 ==> Sum(reports, TIMER_COUNT) == 0 == Sum(reports, TIMER_WEIGHT)
  {
    if reports != [] {
      var before, r := reports[..|reports| - 1], reports[|reports| - 1];
      TimerAverageClose(before);
      var m := Fold(before);
      if HasTimer(r) && HasTimer(m) {
        MergeClose(m.mediaTimerAvgMs, m.totalSchedulingCount, Sum(before, TIMER_REPORTS), Sum(before, TIMER_WEIGHT),
                   r.mediaTimerAvgMs, r.totalSchedulingCount);
      }
    }
  }

  lemma {:induction false} MergeClose(avg: int, count: int, n: int, weight: int, avgR: int, countR: int)
    requires n > 0 && avg >= 0 && count >= 0 && avgR >= 0 && countR >= 0
    requires 0 <= weight - avg * count <= (n - 1) * count
    ensures var c := CombineAverages(avg, count, avgR, countR);
      c >= 0 && 0 <= weight + avgR * countR - c * (count + countR) <= n * (count + countR)
  {
    var c := CombineAverages(avg, count, avgR, countR);
    CombineLoss(avg, count, avgR, countR);
    var loss := avg * count + avgR * countR - c * (count + countR);
    assert weight + avgR * countR - c * (count + countR) == (weight - avg * count) + loss;
    MulMono(0, n - 1, countR);
    assert (n - 1) * (count + countR) == (n - 1) * count + (n - 1) * countR;
    assert n * (count + countR) == (n - 1) * (count + countR) + (count + countR);
  }

  /** Both timer fields are reported or neither is, and a partial report leaves both alone. */
  lemma {:induction false} TimerFieldsTogether(reports: seq<Metrics>, r: Metrics)
    ensures Fold(reports).mediaTimerAvgMs >= 0 <==> Fold(reports).totalSchedulingCount >= 0
    ensures !HasTimer(r) ==>
      var m, u := Fold(reports), Merged(Fold(reports), r);
      u.mediaTimerAvgMs == m.mediaTimerAvgMs && u.totalSchedulingCount == m.totalSchedulingCount
  {
    TimerAverageClose(reports);
  }

  /** With averages of 31 bits and fewer than 2^32 schedulings in all, no 64-bit product overflows. */
  lemma {:induction false} CombineFits(avgA: int, ctA: int, avgB: int, ctB: int)
    requires 0 <= avgA < 0x8000_0000 && 0 <= avgB < 0x8000_0000 && 0 <= ctA && 0 <= ctB && ctA + ctB < 0x1_0000_0000
    ensures avgA * ctA + avgB * ctB < 0x8000_0000_0000_0000
    ensures 0 <= CombineAverages(avgA, ctA, avgB, ctB) < 0x8000_0000
  {
    MulMono(avgA, 0x7fff_ffff, ctA);
    MulMono(avgB, 0x7fff_ffff, ctB);
    CombineLoss(avgA, ctA, avgB, ctB);
  }

  /** The same in terms of the mean: for n counted reports, mean - n < average <= mean. */
  lemma {:induction false} AverageWithinReports(reports: seq<Metrics>)
    requires Sum(reports, TIMER_COUNT) > 0
    ensures var avg, n := Fold(reports).mediaTimerAvgMs, Sum(reports, TIMER_REPORTS);
      var count, weight := Sum(reports, TIMER_COUNT), Sum(reports, TIMER_WEIGHT);
      avg * count <= weight < (avg + n) * count
  {
    TimerAverageClose(reports);
    var avg, n, count := Fold(reports).mediaTimerAvgMs, Sum(reports, TIMER_REPORTS), Sum(reports, TIMER_COUNT);
    assert (avg + n) * count == avg * count + (n - 1) * count + count;
  }

  /** As long as all counts are zero, the first average reported stands. */
  lemma {:induction false} ZeroCountsKeepFirst(reports: seq<Metrics>, first: nat)
    requires first < |reports| && HasTimer(reports[first])
    requires forall i :: 0 <= i < first ==> !HasTimer(reports[i])
    requires forall i :: 0 <= i < |reports| && HasTimer(reports[i]) ==> reports[i].totalSchedulingCount == 0
    ensures Fold(reports).mediaTimerAvgMs == reports[first].mediaTimerAvgMs && Fold(reports).totalSchedulingCount == 0
  {
    var before := reports[..|reports| - 1];
    if first < |before| {
      ZeroCountsKeepFirst(before, first);
    } else {
      NoTimerYet(before);
    }
  }

  lemma {:induction false} NoTimerYet(reports: seq<Metrics>)
    requires forall i :: 0 <= i < |reports| ==> !HasTimer(reports[i])
    ensures !HasTimer(Fold(reports))
  {
    if reports != [] { NoTimerYet(reports[..|reports| - 1]); }
  }

  const DURATION: Metrics -> int := (m: Metrics) => if m.audioDurationMs >= 0 then m.audioDurationMs else 0

  /** The duration is the sum of those reported, or -1 if none was. */
  lemma {:induction false} FoldDuration(reports: seq<Metrics>)
    ensures if forall i :: 0 <= i < |reports| ==> reports[i].audioDurationMs < 0
            then Fold(reports).audioDurationMs == -1 && Sum(reports, DURATION) == 0
            else Fold(reports).audioDurationMs == Sum(reports, DURATION) >= 0
  {
    if reports != [] {
      var n := |reports| - 1;
      FoldDuration(reports[..n]);
      assert forall i :: 0 <= i < n ==> reports[..n][i] == reports[i];
    }
  }

  /** The timer minimum is the least of those reported, or -1 if none was. */
  lemma {:induction false} FoldMinimum(reports: seq<Metrics>)
    ensures var least := Fold(reports).mediaTimerMinMs;
      && (least == -1 || (least >= 0 && exists i :: 0 <= i < |reports| && reports[i].mediaTimerMinMs == least))
      && (forall i :: 0 <= i < |reports| && reports[i].mediaTimerMinMs >= 0 ==> 0 <= least <= reports[i].mediaTimerMinMs)
  {
    if reports != [] {
      var n := |reports| - 1;
      var before := reports[..n];
      FoldMinimum(before);
      assert forall i :: 0 <= i < n ==> before[i] == reports[i];
      var least := Fold(before).mediaTimerMinMs;
      if least != -1 {
        var i :| 0 <= i < n && before[i].mediaTimerMinMs == least;
        assert reports[i].mediaTimerMinMs == least;
      }
    }
  }

  /** The timer maximum is the greatest of those reported, or -1 if none was. */
  lemma {:induction false} FoldMaximum(reports: seq<Metrics>)
    ensures var most := Fold(reports).mediaTimerMaxMs;
      && (most == -1 || (most >= 0 && exists i :: 0 <= i < |reports| && reports[i].mediaTimerMaxMs == most))
      && (forall i :: 0 <= i < |reports| ==> reports[i].mediaTimerMaxMs < 0 || reports[i].mediaTimerMaxMs <= most)
  {
    if reports != [] {
      var n := |reports| - 1;
      var before := reports[..n];
      FoldMaximum(before);
      assert forall i :: 0 <= i < n ==> before[i] == reports[i];
      var most := Fold(before).mediaTimerMaxMs;
      if most != -1 {
        var i :| 0 <= i < n && before[i].mediaTimerMaxMs == most;
        assert reports[i].mediaTimerMaxMs == most;
      }
    }
  }

  const OVERRUNS: Metrics -> int := (m: Metrics) => if m.bufferOverrunsTotal >= 0 then m.bufferOverrunsTotal else 0

  /** Overruns add up in the same way. */
  lemma {:induction false} FoldOverruns(reports: seq<Metrics>)
    ensures if forall i :: 0 <= i < |reports| ==> reports[i].bufferOverrunsTotal < 0
            then Fold(reports).bufferOverrunsTotal == -1 && Sum(reports, OVERRUNS) == 0
            else Fold(reports).bufferOverrunsTotal == Sum(reports, OVERRUNS) >= 0
  {
    if reports != [] {
      var n := |reports| - 1;
      FoldOverruns(reports[..n]);
      assert forall i :: 0 <= i < n ==> reports[..n][i] == reports[i];
    }
  }

  /** The greatest number of overruns is the greatest reported, or -1 if none was. */
  lemma {:induction false} FoldOverrunsMaximum(reports: seq<Metrics>)
    ensures var most := Fold(reports).bufferOverrunsMaxCount;
      && (most == -1 || (most >= 0 && exists i :: 0 <= i < |reports| && reports[i].bufferOverrunsMaxCount == most))
      && (forall i :: 0 <= i < |reports| ==> reports[i].bufferOverrunsMaxCount < 0 || reports[i].bufferOverrunsMaxCount <= most)
  {
    if reports != [] {
      var n := |reports| - 1;
      var before := reports[..n];
      FoldOverrunsMaximum(before);
      assert forall i :: 0 <= i < n ==> before[i] == reports[i];
      var most := Fold(before).bufferOverrunsMaxCount;
      if most != -1 {
        var i :| 0 <= i < n && before[i].bufferOverrunsMaxCount == most;
        assert reports[i].bufferOverrunsMaxCount == most;
      }
    }
  }

  /** A session counts as offloaded exactly if some report said so. */
  lemma {:induction false} FoldOffload(reports: seq<Metrics>)
    ensures Fold(reports).isA2dpOffload <==> exists i :: 0 <= i < |reports| && reports[i].isA2dpOffload
  {
    if reports != [] {
      var n := |reports| - 1;
      FoldOffload(reports[..n]);
      assert forall i :: 0 <= i < n ==> reports[..n][i] == reports[i];
    }
  }

  /** The first codec reported stands. */
  lemma {:induction false} FirstCodecStands(reports: seq<Metrics>, first: nat)
    requires first < |reports| && reports[first].codecIndex >= 0
    requires forall i :: 0 <= i < first ==> reports[i].codecIndex < 0
    ensures Fold(reports).codecIndex == reports[first].codecIndex
  {
    var before := reports[..|reports| - 1];
    if first < |before| {
      FirstCodecStands(before, first);
    } else {
      NoCodecYet(before);
    }
  }

  lemma {:induction false} NoCodecYet(reports: seq<Metrics>)
    requires forall i :: 0 <= i < |reports| ==> reports[i].codecIndex < 0
    ensures Fold(reports).codecIndex < 0
  {
    if reports != [] { NoCodecYet(reports[..|reports| - 1]); }
  }

  // ---------- The underrun average, in exact arithmetic ----------

  /** What a mean over `count` items adds to the sum of them. */
  function Weight(average: real, count: int): real { average * count as real }

  function UnderrunCount(reports: seq<Metrics>): int {
    if reports == [] then 0
    else UnderrunCount(reports[..|reports| - 1])
         + (if HasUnderruns(reports[|reports| - 1]) then reports[|reports| - 1].bufferUnderrunsCount else 0)
  }

  function UnderrunWeight(reports: seq<Metrics>): real {
    if reports == [] then 0.0
    else
      var r := reports[|reports| - 1];
      UnderrunWeight(reports[..|reports| - 1])
      + (if HasUnderruns(r) then Weight(r.bufferUnderrunsAverage, r.bufferUnderrunsCount) else 0.0)
  }

  lemma {:induction false} CombineRealExact(avgA: real, ctA: int, avgB: real, ctB: int)
    requires avgA >= 0.0 && ctA >= 0 && avgB >= 0.0 && ctB >= 0
    ensures var c := CombineRealAverages(avgA, ctA, avgB, ctB);
      c >= 0.0 && Weight(c, ctA + ctB) == Weight(avgA, ctA) + Weight(avgB, ctB)
  {
    if ctA > 0 && ctB > 0 {
      var n, d := avgA * ctA as real + avgB * ctB as real, (ctA + ctB) as real;
      assert n >= 0.0 && d > 0.0;
      assert (n / d) * d == n;
    }
  }

  /** The figures are the exact mean and count of what was reported; -1 if nothing was. */
  ghost predicate ExactMean(average: real, count: int, reported: bool, exactCount: int, exactWeight: real) {
    if reported then average >= 0.0 && count == exactCount >= 0 && Weight(average, count) == exactWeight
    else average == -1.0 && count == -1 && exactCount == 0 && exactWeight == 0.0
  }

  lemma {:induction false} MergeExact(m: Metrics, r: Metrics, reported: bool, count: int, weight: real)
    requires ExactMean(m.bufferUnderrunsAverage, m.bufferUnderrunsCount, reported, count, weight) && HasUnderruns(r)
    ensures ExactMean(MergedUnderruns(m, r).0, MergedUnderruns(m, r).1, true, count + r.bufferUnderrunsCount,
                      weight + Weight(r.bufferUnderrunsAverage, r.bufferUnderrunsCount))
  {
    if reported {
      CombineRealExact(m.bufferUnderrunsAverage, m.bufferUnderrunsCount, r.bufferUnderrunsAverage, r.bufferUnderrunsCount);
    }
  }

  predicate AnyUnderruns(reports: seq<Metrics>) {
    exists i :: 0 <= i < |reports| && HasUnderruns(reports[i])
  }

  /** The underrun average is the exact weighted mean, and its count the exact count. */
  lemma {:induction false} UnderrunAverageExact(reports: seq<Metrics>)
    ensures ExactMean(Fold(reports).bufferUnderrunsAverage, Fold(reports).bufferUnderrunsCount,
                      AnyUnderruns(reports), UnderrunCount(reports), UnderrunWeight(reports))
  {
    if reports != [] {
      var n := |reports| - 1;
      var before, r := reports[..n], reports[n];
      UnderrunAverageExact(before);
      assert AnyUnderruns(reports) <==> AnyUnderruns(before) || HasUnderruns(r) by {
        assert forall i :: 0 <= i < n ==> before[i] == reports[i];
      }
      if HasUnderruns(r) {
        MergeExact(Fold(before), r, AnyUnderruns(before), UnderrunCount(before), UnderrunWeight(before));
      }
    }
  }
}
