/** The figures of an emitted session, said of the reports made in it and of nothing else. */
module MetricsFigures {
  import opened Common
  import opened MetricsLog
  import A2dp = A2dpMetrics

  /** A total over the reports that give the figure, or -1 if none does. */
  ghost predicate TotalsAre(b: Block, rs: seq<A2dp.Metrics>) {
    && b.durationMs == (if forall i :: 0 <= i < |rs| ==> rs[i].audioDurationMs < 0 then -1 else A2dp.Sum(rs, A2dp.DURATION))
    && b.overruns == (if forall i :: 0 <= i < |rs| ==> rs[i].bufferOverrunsTotal < 0 then -1 else A2dp.Sum(rs, A2dp.OVERRUNS))
  }

  /** The least or greatest of what the reports give, or -1 if none gives it. */
  ghost predicate ExtremesAre(b: Block, rs: seq<A2dp.Metrics>) {
    && (b.timerMin == -1 || (b.timerMin >= 0 && exists i :: 0 <= i < |rs| && rs[i].mediaTimerMinMs == b.timerMin))
    && (forall i :: 0 <= i < |rs| && rs[i].mediaTimerMinMs >= 0 ==> 0 <= b.timerMin <= rs[i].mediaTimerMinMs)
    && (b.timerMax == -1 || (b.timerMax >= 0 && exists i :: 0 <= i < |rs| && rs[i].mediaTimerMaxMs == b.timerMax))
    && (forall i :: 0 <= i < |rs| ==> rs[i].mediaTimerMaxMs < 0 || rs[i].mediaTimerMaxMs <= b.timerMax)
    && (b.overrunsMax == -1 || (b.overrunsMax >= 0 && exists i :: 0 <= i < |rs| && rs[i].bufferOverrunsMaxCount == b.overrunsMax))
    && (forall i :: 0 <= i < |rs| ==> rs[i].bufferOverrunsMaxCount < 0 || rs[i].bufferOverrunsMaxCount <= b.overrunsMax)
  }

  /**
   * Of n reports with a timer average, weighted by their counts: never above the exact mean and
   * less than n below it; with no count at all it is the first that was given; -1 if none was.
   */
  ghost predicate TimerAverageIs(avg: int, rs: seq<A2dp.Metrics>) {
    var n, count, weight := A2dp.Sum(rs, A2dp.TIMER_REPORTS), A2dp.Sum(rs, A2dp.TIMER_COUNT), A2dp.Sum(rs, A2dp.TIMER_WEIGHT);
    && (n == 0 ==> avg == -1)
    && (n > 0 ==> avg >= 0)
    && (count > 0 ==> avg * count <= weight < (avg + n) * count)
    && (count == 0 ==> forall first :: FirstTimer(rs, first) ==> avg == rs[first].mediaTimerAvgMs)
  }

  ghost predicate FirstTimer(rs: seq<A2dp.Metrics>, first: int) {
    0 <= first < |rs| && A2dp.HasTimer(rs[first]) && forall i :: 0 <= i < first ==> !A2dp.HasTimer(rs[i])
  }

  /** The exact mean and count; with no count at all the mean is the first that was given; -1 if none was. */
  ghost predicate UnderrunsAre(b: Block, rs: seq<A2dp.Metrics>) {
    && A2dp.ExactMean(b.underrunsAverage, b.underruns, A2dp.AnyUnderruns(rs), A2dp.UnderrunCount(rs), A2dp.UnderrunWeight(rs))
    && (b.underruns == 0 ==> forall first :: FirstUnderruns(rs, first) ==> b.underrunsAverage == rs[first].bufferUnderrunsAverage)
  }

  ghost predicate FirstUnderruns(rs: seq<A2dp.Metrics>, first: int) {
    0 <= first < |rs| && A2dp.HasUnderruns(rs[first]) && forall i :: 0 <= i < first ==> !A2dp.HasUnderruns(rs[i])
  }

  /** The codecs that have a name, by their index. */
  const CODECS := [Sbc, Aac, Aptx, AptxHd, Ldac]

  ghost predicate Names(codec: Codec, index: int) {
    if 0 <= index < |CODECS| then codec == CODECS[index] else codec == UnknownCodec
  }

  /** The name of the first codec reported, unknown if none was. */
  ghost predicate CodecIs(codec: Codec, rs: seq<A2dp.Metrics>) {
    && (forall first :: FirstCodec(rs, first) ==> Names(codec, rs[first].codecIndex))
    && ((forall i :: 0 <= i < |rs| ==> rs[i].codecIndex < 0) ==> codec == UnknownCodec)
  }

  ghost predicate FirstCodec(rs: seq<A2dp.Metrics>, first: int) {
    0 <= first < |rs| && rs[first].codecIndex >= 0 && forall i :: 0 <= i < first ==> rs[i].codecIndex < 0
  }

  /** Every field of a session's A2DP part, as a figure of the reports made in it. */
  ghost predicate Figures(b: Block, rs: seq<A2dp.Metrics>) {
    && TotalsAre(b, rs)
    && ExtremesAre(b, rs)
    && TimerAverageIs(b.timerAvg, rs)
    && UnderrunsAre(b, rs)
    && CodecIs(b.codec, rs)
    && (b.offload <==> exists i :: 0 <= i < |rs| && rs[i].isA2dpOffload)
  }

  /** Whole seconds from start to end, modulo 2^64 milliseconds if the end is the smaller number. */
  ghost predicate Elapsed(seconds: int, startMs: int, endMs: int) {
    && (0 <= startMs <= endMs < 0x1_0000_0000_0000_0000 ==> 1000 * seconds <= endMs - startMs < 1000 * (seconds + 1))
    && (0 <= endMs < startMs < 0x1_0000_0000_0000_0000 ==>
          1000 * seconds <= endMs - startMs + 0x1_0000_0000_0000_0000 < 1000 * (seconds + 1))
  }

  /** An emitted session tells of its own segment, and only of it. */
  ghost predicate Tells(s: Session, d: Closed) {
    && s.tech == d.segment.tech && s.device == d.segment.device && s.reason == Some(d.reason)
    && s.durationSec.Some? && Elapsed(s.durationSec.value, d.segment.startMs, d.endMs)
    && (s.a2dp == None <==> d.segment.reports == [])
    && (s.a2dp.Some? ==> Figures(s.a2dp.value, d.segment.reports))
  }

  // ---------- Proofs ----------

  lemma {:induction false} CountsNotNegative(rs: seq<A2dp.Metrics>)
    ensures A2dp.Sum(rs, A2dp.TIMER_COUNT) >= 0
    ensures A2dp.Sum(rs, A2dp.TIMER_COUNT) == 0 ==>
      forall i :: 0 <= i < |rs| && A2dp.HasTimer(rs[i]) ==> rs[i].totalSchedulingCount == 0
  {
    if rs != [] {
      var n := |rs| - 1;
      CountsNotNegative(rs[..n]);
      assert forall i :: 0 <= i < n ==> rs[..n][i] == rs[i];
    }
  }

  lemma {:induction false} TimerAverage(rs: seq<A2dp.Metrics>)
    ensures TimerAverageIs(A2dp.Fold(rs).mediaTimerAvgMs, rs)
  {
    A2dp.TimerAverageClose(rs);
    CountsNotNegative(rs);
    if A2dp.Sum(rs, A2dp.TIMER_COUNT) > 0 {
      A2dp.AverageWithinReports(rs);
    } else {
      forall first | FirstTimer(rs, first) ensures A2dp.Fold(rs).mediaTimerAvgMs == rs[first].mediaTimerAvgMs {
        A2dp.ZeroCountsKeepFirst(rs, first);
      }
    }
  }

  lemma {:induction false} UnderrunsNotNegative(rs: seq<A2dp.Metrics>)
    ensures A2dp.UnderrunCount(rs) >= 0
    ensures A2dp.UnderrunCount(rs) == 0 ==>
      forall i :: 0 <= i < |rs| && A2dp.HasUnderruns(rs[i]) ==> rs[i].bufferUnderrunsCount == 0
  {
    if rs != [] {
      var n := |rs| - 1;
      UnderrunsNotNegative(rs[..n]);
      assert forall i :: 0 <= i < n ==> rs[..n][i] == rs[i];
    }
  }

  lemma {:induction false} ZeroUnderrunsKeepFirst(rs: seq<A2dp.Metrics>, first: int)
    requires FirstUnderruns(rs, first)
    requires forall i :: 0 <= i < |rs| && A2dp.HasUnderruns(rs[i]) ==> rs[i].bufferUnderrunsCount == 0
    ensures A2dp.Fold(rs).bufferUnderrunsAverage == rs[first].bufferUnderrunsAverage
  {
    var n := |rs| - 1;
    var before := rs[..n];
    assert forall i :: 0 <= i < n ==> before[i] == rs[i];
    A2dp.UnderrunAverageExact(before);
    if first < n {
      ZeroUnderrunsKeepFirst(before, first);
      UnderrunsNotNegative(before);
      assert A2dp.HasUnderruns(before[first]);
      ZeroUnderrunCount(before);
    }
  }

  lemma {:induction false} ZeroUnderrunCount(rs: seq<A2dp.Metrics>)
    requires forall i :: 0 <= i < |rs| && A2dp.HasUnderruns(rs[i]) ==> rs[i].bufferUnderrunsCount == 0
    ensures A2dp.UnderrunCount(rs) == 0
  {
    if rs != [] { ZeroUnderrunCount(rs[..|rs| - 1]); }
  }

  lemma {:induction false} Underruns(rs: seq<A2dp.Metrics>)
    ensures UnderrunsAre(BlockOf(A2dp.Fold(rs)), rs)
  {
    A2dp.UnderrunAverageExact(rs);
    UnderrunsNotNegative(rs);
    if A2dp.Fold(rs).bufferUnderrunsCount == 0 {
      forall first | FirstUnderruns(rs, first) ensures A2dp.Fold(rs).bufferUnderrunsAverage == rs[first].bufferUnderrunsAverage {
        ZeroUnderrunsKeepFirst(rs, first);
      }
    }
  }

  lemma {:induction false} CodecNamed(rs: seq<A2dp.Metrics>)
    ensures CodecIs(CodecOf(A2dp.Fold(rs).codecIndex), rs)
  {
    forall first | FirstCodec(rs, first) ensures Names(CodecOf(A2dp.Fold(rs).codecIndex), rs[first].codecIndex) {
      A2dp.FirstCodecStands(rs, first);
    }
    if forall i :: 0 <= i < |rs| ==> rs[i].codecIndex < 0 { A2dp.NoCodecYet(rs); }
  }

  lemma {:induction false} Extremes(rs: seq<A2dp.Metrics>)
    ensures ExtremesAre(BlockOf(A2dp.Fold(rs)), rs)
  {
    A2dp.FoldMinimum(rs);
    A2dp.FoldMaximum(rs);
    A2dp.FoldOverrunsMaximum(rs);
  }

  /** The block kept for a session is made of the figures of the reports merged into it. */
  lemma {:induction false} BlockFigures(rs: seq<A2dp.Metrics>)
    ensures Figures(BlockOf(A2dp.Fold(rs)), rs)
  {
    A2dp.FoldDuration(rs);
    A2dp.FoldOverruns(rs);
    Extremes(rs);
    TimerAverage(rs);
    Underruns(rs);
    CodecNamed(rs);
    A2dp.FoldOffload(rs);
  }

  lemma {:induction false} DurationElapsed(startMs: int, endMs: int)
    ensures Elapsed(DurationSec(startMs, endMs), startMs, endMs)
  {
    var w := 0x1_0000_0000_0000_0000;
    var gap := endMs - startMs;
    if 0 <= startMs <= endMs < w {
      assert gap % w == gap;
    } else if 0 <= endMs < startMs < w {
      assert gap % w == gap + w;
    }
  }

  /** The session of a closed segment tells of that segment. */
  lemma {:induction false} ClosedTells(d: Closed)
    ensures Tells(ClosedSession(d), d)
  {
    DurationElapsed(d.segment.startMs, d.endMs);
    BlockFigures(d.segment.reports);
  }

  // ---------- Headset connections ----------

  function CountOf(h: Counts, p: Profile): int {
    match p
    case UnknownProfile => h.unknown
    case Hsp => h.hsp
    case Hfp => h.hfp
  }

  /** Each profile that was connected is listed once, with its number, and no other is listed. */
  ghost predicate Lists(stats: seq<(Profile, int)>, h: Counts) {
    && (forall p: Profile, k: int :: (p, k) in stats <==> k == CountOf(h, p) && k > 0)
    && (forall i, j :: 0 <= i < j < |stats| ==> stats[i].0 != stats[j].0)
  }

  lemma {:induction false} StatsList(h: Counts)
    ensures Lists(HeadsetStats(h), h)
  {
    var a := if h.unknown > 0 then [(UnknownProfile, h.unknown)] else [];
    var b := if h.hsp > 0 then [(Hsp, h.hsp)] else [];
    var c := if h.hfp > 0 then [(Hfp, h.hfp)] else [];
    assert HeadsetStats(h) == a + b + c;
    forall p: Profile, k: int ensures (p, k) in HeadsetStats(h) <==> k == CountOf(h, p) && k > 0 {
      assert (p, k) in HeadsetStats(h) <==> (p, k) in a || (p, k) in b || (p, k) in c;
    }
  }
}
