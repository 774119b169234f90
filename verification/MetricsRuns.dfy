/** What the metrics logger guarantees over every run of calls. */
module MetricsRuns {
  import opened Common
  import opened LeakyBondedQueue
  import opened MetricsLog
  import opened MetricsFigures
  import A2dp = A2dpMetrics

  /** How often the profile was connected since the last dump; a reset does not forget it. */
  function HeadsetSince(ops: seq<Op>, p: Profile): nat {
    if ops == [] || ops[|ops| - 1].Dump? then 0
    else HeadsetSince(ops[..|ops| - 1], p) + (if ops[|ops| - 1] == Headset(p) then 1 else 0)
  }

  function HeadsetCounts(ops: seq<Op>): Counts {
    Counts(HeadsetSince(ops, UnknownProfile), HeadsetSince(ops, Hsp), HeadsetSince(ops, Hfp))
  }

  /** Queues hold the most recent events, counters the true numbers, and the log no event yet. */
  ghost predicate EventsMatch(c: Caps, s: State, pairs: seq<PairEvent>, wakes: seq<WakeEvent>, scans: seq<ScanEvent>) {
    && s.pairQ == LastN(pairs, c.pairs) && s.log.numPairs == |pairs|
    && s.wakeQ == LastN(wakes, c.wakes) && s.log.numWakes == |wakes|
    && s.scanQ == LastN(scans, c.scans) && s.log.numScans == |scans|
    && s.log.sessions == [] && s.log.pairs == [] && s.log.scans == [] && s.log.wakes == [] && s.log.headset == []
  }

  /** None of the session calls touches the event queues or the headset counts. */
  lemma {:induction false} SessionCallsKeepEvents(c: Caps, s: State, op: Op)
    requires op.Start? || op.End? || op.DeviceInfo? || op.A2dpReport?
    ensures var s' := Step(c, s, op);
      && s'.pairQ == s.pairQ && s'.wakeQ == s.wakeQ && s'.scanQ == s.scanQ && s'.headset == s.headset
      && s'.log == s.log.(numSessions := s'.log.numSessions)
  {
  }

  lemma {:induction false} EventStep(c: Caps, s: State, op: Op, pairs: seq<PairEvent>, wakes: seq<WakeEvent>,
                                     scans: seq<ScanEvent>)
    requires c.Valid() && EventsMatch(c, s, pairs, wakes, scans)
    ensures EventsMatch(c, Step(c, s, op), Added(pairs, op, PairOf(op)), Added(wakes, op, WakeOf(op)),
                        Added(scans, op, ScanOf(op)))
  {
    assert pairs + [] == pairs && wakes + [] == wakes && scans + [] == scans;
    match op
    case LogPair(e) => LastNSnoc(pairs, e, c.pairs);
    case LogWake(e) => LastNSnoc(wakes, e, c.wakes);
    case LogScan(e) => LastNSnoc(scans, e, c.scans);
    case Headset(p) =>
    case Dump(now, later) =>
    case Reset =>
    case _ => SessionCallsKeepEvents(c, s, op);
  }

  lemma {:induction false} SessionStep(c: Caps, s: State, t: Track, op: Op)
    requires c.Valid() && SessionMatches(s, t) && ClosedMatches(c, s, t) && s.log.sessions == []
    ensures SessionMatches(Step(c, s, op), TrackStep(t, op))
    ensures ClosedMatches(c, Step(c, s, op), TrackStep(t, op))
  {
    match op
    case Start(tech, at, now, later) => StartMatches(c, s, t, tech, at, now, later);
    case End(reason, at, now) => EndMatches(c, s, t, reason, at, now);
    case DeviceInfo(deviceClass, now) =>
    case A2dpReport(r, now) => A2dpMatches(c, s, t, r, now);
    case Dump(now, later) => DumpMatches(c, s, t, now, later);
    case _ =>
  }

  lemma {:induction false} StartMatches(c: Caps, s: State, t: Track, tech: Tech, at: int, now: int, later: int)
    requires c.Valid() && SessionMatches(s, t) && ClosedMatches(c, s, t)
    ensures var op := Start(tech, at, now, later);
      SessionMatches(Step(c, s, op), TrackStep(t, op)) && ClosedMatches(c, Step(c, s, op), TrackStep(t, op))
  {
    EndMatches(c, s, t, NextStartWithoutEndPrevious, 0, now);
  }

  /** A report with no session open first opens one, for BR/EDR audio. */
  lemma {:induction false} AutoStartMatches(c: Caps, s: State, t: Track, now: int)
    requires c.Valid() && SessionMatches(s, t) && ClosedMatches(c, s, t) && t.open == None
    ensures var s1 := SetDevice(c, StartSession(c, s, BrEdr, 0, now, now), BTM_COD_MAJOR_AUDIO, now);
      var t1 := t.(open := Some(Segment(BrEdr, Some(Device(BTM_COD_MAJOR_AUDIO, BrEdrDevice)), now, [])));
      SessionMatches(s1, t1) && ClosedMatches(c, s1, t1)
  {
  }

  lemma {:induction false} ReportMatches(c: Caps, s: State, t: Track, r: A2dp.Metrics, now: int)
    requires SessionMatches(s, t) && ClosedMatches(c, s, t) && t.open.Some?
    ensures var t1 := t.(open := Some(t.open.value.(reports := t.open.value.reports + [r])));
      SessionMatches(LogA2dp(c, s, r, now), t1) && ClosedMatches(c, LogA2dp(c, s, r, now), t1)
  {
    FoldSnoc(t.open.value.reports, r);
  }

  lemma {:induction false} A2dpMatches(c: Caps, s: State, t: Track, r: A2dp.Metrics, now: int)
    requires c.Valid() && SessionMatches(s, t) && ClosedMatches(c, s, t)
    ensures var op := A2dpReport(r, now);
      SessionMatches(Step(c, s, op), TrackStep(t, op)) && ClosedMatches(c, Step(c, s, op), TrackStep(t, op))
  {
    if t.open.Some? {
      ReportMatches(c, s, t, r, now);
    } else {
      var s1 := SetDevice(c, StartSession(c, s, BrEdr, 0, now, now), BTM_COD_MAJOR_AUDIO, now);
      var t1 := t.(open := Some(Segment(BrEdr, Some(Device(BTM_COD_MAJOR_AUDIO, BrEdrDevice)), now, [])));
      AutoStartMatches(c, s, t, now);
      ReportMatches(c, s1, t1, r, now);
      assert LogA2dp(c, s, r, now) == LogA2dp(c, s1, r, now);
    }
  }

  /** A cut ends the segment as a dump does, and opens one like it without reports. */
  lemma {:induction false} CutMatches(c: Caps, s: State, t: Track, now: int, later: int)
    requires c.Valid() && SessionMatches(s, t) && ClosedMatches(c, s, t)
    ensures var s1, t1 := Cutoff(c, s, now, later), Close(t, MetricsDump, now);
      && ClosedMatches(c, s1, t1)
      && SessionMatches(s1, t1.(open := if t.open == None then None else Some(t.open.value.(startMs := later, reports := []))))
  {
    EndMatches(c, s, t, MetricsDump, 0, now);
  }

  lemma {:induction false} DumpMatches(c: Caps, s: State, t: Track, now: int, later: int)
    requires c.Valid() && SessionMatches(s, t) && ClosedMatches(c, s, t) && s.log.sessions == []
    ensures var op := Dump(now, later);
      SessionMatches(Step(c, s, op), TrackStep(t, op)) && ClosedMatches(c, Step(c, s, op), TrackStep(t, op))
  {
    CutMatches(c, s, t, now, later);
  }

  // ---------- The theorems ----------

  /** After every run the logger's queues, counters and open session are what the reference says. */
  lemma {:induction false} EveryRunMatches(c: Caps, ops: seq<Op>)
    requires c.Valid()
    ensures EventsMatch(c, Run(c, ops), Since(ops, PairOf), Since(ops, WakeOf), Since(ops, ScanOf))
    ensures SessionMatches(Run(c, ops), Tracked(ops)) && ClosedMatches(c, Run(c, ops), Tracked(ops))
  {
    if ops != [] {
      var before, op := ops[..|ops| - 1], ops[|ops| - 1];
      EveryRunMatches(c, before);
      var s := Run(c, before);
      EventStep(c, s, op, Since(before, PairOf), Since(before, WakeOf), Since(before, ScanOf));
      SessionStep(c, s, Tracked(before), op);
    }
  }

  lemma {:induction false} HeadsetStep(c: Caps, s: State, op: Op)
    ensures Step(c, s, op).headset == HeadsetNext(s.headset, op)
  {
    if op.Start? || op.End? || op.DeviceInfo? || op.A2dpReport? { SessionCallsKeepEvents(c, s, op); }
  }

  function HeadsetNext(h: Counts, op: Op): Counts {
    if op.Headset? then Count(h, op.profile) else if op.Dump? then Counts(0, 0, 0) else h
  }

  lemma {:induction false} HeadsetCountsNext(ops: seq<Op>)
    requires ops != []
    ensures HeadsetCounts(ops) == HeadsetNext(HeadsetCounts(ops[..|ops| - 1]), ops[|ops| - 1])
  {
  }

  /** The three counters hold the connections of each profile since the last dump. */
  lemma {:induction false} EveryRunCountsHeadsets(c: Caps, ops: seq<Op>)
    ensures Run(c, ops).headset == HeadsetCounts(ops)
  {
    if ops != [] {
      EveryRunCountsHeadsets(c, ops[..|ops| - 1]);
      HeadsetStep(c, Run(c, ops[..|ops| - 1]), ops[|ops| - 1]);
      HeadsetCountsNext(ops);
    }
  }

  /** The log a dump writes, for given events and sessions since the last one. */
  ghost predicate Emits(c: Caps, log: Log, pairs: seq<PairEvent>, wakes: seq<WakeEvent>, scans: seq<ScanEvent>,
                        sessions: seq<Session>) {
    && log.pairs == LastN(pairs, c.pairs) && log.numPairs == |pairs|
    && log.wakes == LastN(wakes, c.wakes) && log.numWakes == |wakes|
    && log.scans == LastN(scans, c.scans) && log.numScans == |scans|
    && log.sessions == LastN(sessions, c.sessions) && log.numSessions == |sessions|
  }

  ghost predicate Emptied(s: State) {
    s.sessionQ == [] && s.pairQ == [] && s.wakeQ == [] && s.scanQ == [] && s.log == NO_LOG
  }

  lemma {:induction false} MatchingStateEmits(c: Caps, s: State, t: Track, pairs: seq<PairEvent>,
                                              wakes: seq<WakeEvent>, scans: seq<ScanEvent>,
                           now: int, later: int)
    requires c.Valid() && EventsMatch(c, s, pairs, wakes, scans) && SessionMatches(s, t) && ClosedMatches(c, s, t)
    ensures var b := Build(c, s, now, later);
      && Emits(c, b.log, pairs, wakes, scans, SessionsSince(Close(t, MetricsDump, now)))
      && b.log.headset == HeadsetStats(s.headset)
      && Emptied(Step(c, s, Dump(now, later)))
  {
    CutMatches(c, s, t, now, later);
    CutKeepsEvents(c, s, now, later);
    BuildDrains(c, s, now, later);
  }

  /**
   * A dump after any run emits, for each kind, exactly the last of the events logged since the
   * previous dump or reset, as many as the queue holds, in order and with their true number;
   * the session the dump cuts off is the last of the sessions; each headset profile connected
   * since the previous dump is listed with its number; and all queues are then empty.
   */
  lemma {:induction false} DumpEmitsTheLast(c: Caps, ops: seq<Op>, now: int, later: int)
    requires c.Valid()
    ensures Emits(c, Dumped(c, ops, now, later), Since(ops, PairOf), Since(ops, WakeOf), Since(ops, ScanOf),
                  SessionsSince(Close(Tracked(ops), MetricsDump, now)))
    ensures Lists(Dumped(c, ops, now, later).headset, HeadsetCounts(ops))
    ensures Emptied(Step(c, Run(c, ops), Dump(now, later)))
  {
    EveryRunMatches(c, ops);
    EveryRunCountsHeadsets(c, ops);
    StatsList(HeadsetCounts(ops));
    MatchingStateEmits(c, Run(c, ops), Tracked(ops), Since(ops, PairOf), Since(ops, WakeOf), Since(ops, ScanOf), now, later);
  }

  /** The segments closed since the last dump or reset, with the one that a dump cuts off. */
  function DueSegments(ops: seq<Op>, now: int): seq<Closed> {
    var t := Close(Tracked(ops), MetricsDump, now);
    if t.taken <= |t.closed| then t.closed[t.taken..] else []
  }

  /** The last of the segments, at most n, each told of by the session in its place. */
  ghost predicate TellLast(sessions: seq<Session>, due: seq<Closed>, n: nat) {
    && |sessions| == Min(|due|, n)
    && forall i :: 0 <= i < |sessions| ==> Tells(sessions[i], due[|due| - |sessions| + i])
  }

  lemma {:induction false} LastAt(due: seq<Closed>, n: nat, i: nat)
    requires i < |LastN(ClosedSessions(due), n)|
    ensures |LastN(ClosedSessions(due), n)| == Min(|due|, n)
    ensures LastN(ClosedSessions(due), n)[i] == ClosedSession(due[|due| - Min(|due|, n) + i])
  {
    var all, sessions := ClosedSessions(due), LastN(ClosedSessions(due), n);
    assert sessions[i] == all[|due| - |sessions| + i];
  }

  lemma {:induction false} LastTell(due: seq<Closed>, n: nat)
    ensures TellLast(LastN(ClosedSessions(due), n), due, n)
  {
    var sessions := LastN(ClosedSessions(due), n);
    forall i | 0 <= i < |sessions| ensures Tells(sessions[i], due[|due| - |sessions| + i]) {
      LastAt(due, n, i);
      ClosedTells(due[|due| - |sessions| + i]);
    }
  }

  /**
   * After any run, resets and overflow included, each session a dump emits tells of its own
   * segment: the last of those due, as many as the queue holds, in order.
   */
  lemma {:induction false} DumpTells(c: Caps, ops: seq<Op>, now: int, later: int)
    requires c.Valid()
    ensures TellLast(Dumped(c, ops, now, later).sessions, DueSegments(ops, now), c.sessions)
  {
    DumpEmitsTheLast(c, ops, now, later);
    LastTell(DueSegments(ops, now), c.sessions);
  }

  lemma {:induction false} CutKeepsEvents(c: Caps, s: State, now: int, later: int)
    ensures var s1 := Cutoff(c, s, now, later);
      && s1.pairQ == s.pairQ && s1.wakeQ == s.wakeQ && s1.scanQ == s.scanQ && s1.headset == s.headset
      && s1.log == s.log.(numSessions := s1.log.numSessions)
  {
  }

  /** Queues within their capacities, and a log without events, are drained to the last item. */
  lemma {:induction false} BuildDrains(c: Caps, s: State, now: int, later: int)
    requires var s1 := Cutoff(c, s, now, later);
      && |s1.sessionQ| <= c.sessions && |s1.pairQ| <= c.pairs && |s1.scanQ| <= c.scans && |s1.wakeQ| <= c.wakes
      && s1.log.sessions == [] && s1.log.pairs == [] && s1.log.scans == [] && s1.log.wakes == [] && s1.log.headset == []
    ensures var s1, b := Cutoff(c, s, now, later), Build(c, s, now, later);
      && b.sessionQ == [] && b.pairQ == [] && b.scanQ == [] && b.wakeQ == []
      && b.log == s1.log.(sessions := s1.sessionQ, pairs := s1.pairQ, scans := s1.scanQ, wakes := s1.wakeQ,
                          headset := HeadsetStats(s1.headset))
  {
    var s1 := Cutoff(c, s, now, later);
    assert s1.sessionQ[..|s1.sessionQ|] == s1.sessionQ && s1.pairQ[..|s1.pairQ|] == s1.pairQ;
    assert s1.scanQ[..|s1.scanQ|] == s1.scanQ && s1.wakeQ[..|s1.wakeQ|] == s1.wakeQ;
  }

  /** All A2DP reports of a run, in order. */
  function Reports(ops: seq<Op>): seq<A2dp.Metrics> {
    if ops == [] then [] else Reports(ops[..|ops| - 1]) + ReportOf(ops[|ops| - 1])
  }

  function ReportOf(op: Op): seq<A2dp.Metrics> {
    if op.A2dpReport? then [op.report] else []
  }

  /** The reports of segments, one after the other. */
  function AllReports(ds: seq<Closed>): seq<A2dp.Metrics> {
    if ds == [] then [] else AllReports(ds[..|ds| - 1]) + ds[|ds| - 1].segment.reports
  }

  function OpenReports(t: Track): seq<A2dp.Metrics> {
    if t.open == None then [] else t.open.value.reports
  }

  lemma {:induction false} CloseKeepsReports(t: Track, reason: Reason, endMs: int)
    ensures AllReports(Close(t, reason, endMs).closed) == AllReports(t.closed) + OpenReports(t)
    ensures OpenReports(Close(t, reason, endMs)) == []
  {
    if t.open.Some? {
      var ds := t.closed + [Closed(t.open.value, reason, endMs)];
      assert ds[..|t.closed|] == t.closed;
    }
  }

  /** Every report in the order of the segments: those closed, then the open one. */
  function Kept(t: Track): seq<A2dp.Metrics> {
    AllReports(t.closed) + OpenReports(t)
  }

  lemma {:induction false} ReportStep(t: Track, op: Op)
    requires !op.Reset?
    ensures Kept(TrackStep(t, op)) == Kept(t) + ReportOf(op)
  {
    match op
    case Start(tech, at, now, later) => CloseKeepsReports(t, NextStartWithoutEndPrevious, now);
    case End(reason, at, now) => CloseKeepsReports(t, reason, if at != 0 then at else now);
    case Dump(now, later) => CloseKeepsReports(t, MetricsDump, now);
    case A2dpReport(r, now) => assert OpenReports(TrackStep(t, op)) == OpenReports(t) + [r];
    case DeviceInfo(deviceClass, now) => assert OpenReports(TrackStep(t, op)) == OpenReports(t);
    case _ =>
  }

  /**
   * Every report belongs to exactly one segment: without a reset, the reports of the closed
   * segments and of the open one are, in order, all reports made, none lost and none twice.
   */
  lemma {:induction false} EveryReportInOneSession(ops: seq<Op>)
    requires forall op :: op in ops ==> !op.Reset?
    ensures Kept(Tracked(ops)) == Reports(ops)
  {
    if ops != [] {
      var before := ops[..|ops| - 1];
      EveryReportInOneSession(before);
      ReportStep(Tracked(before), ops[|ops| - 1]);
    }
  }

  // ---------- What the dumps of a run emit, all together ----------

  /** The sessions that an operation writes out. */
  function EmittedBy(c: Caps, before: seq<Op>, op: Op): seq<Session> {
    if op.Dump? then Dumped(c, before, op.now, op.later).sessions else []
  }

  /** The sessions that the dumps of a run have written out. */
  function Emitted(c: Caps, ops: seq<Op>): seq<Session> {
    if ops == [] then []
    else Emitted(c, ops[..|ops| - 1]) + EmittedBy(c, ops[..|ops| - 1], ops[|ops| - 1])
  }

  /** The sessions that are due at a dump: closed since the last one, with the one it cuts off. */
  function DueAt(before: seq<Op>, op: Op): seq<Session>
    requires op.Dump?
  {
    SessionsSince(Close(Tracked(before), MetricsDump, op.now))
  }

  /** At no dump are more sessions due than the queue holds. */
  ghost predicate FitsBetweenDumps(c: Caps, ops: seq<Op>) {
    ops == [] ||
    var before, op := ops[..|ops| - 1], ops[|ops| - 1];
    FitsBetweenDumps(c, before) && (op.Dump? ==> |DueAt(before, op)| <= c.sessions)
  }

  /** The sessions that the run has closed for its dumps. */
  function TakenSessions(t: Track): seq<Session> {
    ClosedSessions(if t.taken <= |t.closed| then t.closed[..t.taken] else t.closed)
  }

  lemma {:induction false} ClosedSplit(ds: seq<Closed>, n: nat)
    requires n <= |ds|
    ensures ClosedSessions(ds) == ClosedSessions(ds[..n]) + ClosedSessions(ds[n..])
  {
    assert ds == ds[..n] + ds[n..];
  }

  lemma {:induction false} TakenBound(ops: seq<Op>)
    ensures Tracked(ops).taken <= |Tracked(ops).closed|
  {
    if ops != [] { TakenBound(ops[..|ops| - 1]); }
  }

  /** A dump takes what is due; nothing else changes what is taken. */
  lemma {:induction false} TakenNext(ops: seq<Op>)
    requires ops != [] && !ops[|ops| - 1].Reset?
    ensures var before, op := ops[..|ops| - 1], ops[|ops| - 1];
      TakenSessions(Tracked(ops)) == TakenSessions(Tracked(before)) + (if op.Dump? then DueAt(before, op) else [])
  {
    var before, op := ops[..|ops| - 1], ops[|ops| - 1];
    var t := Tracked(before);
    TakenBound(before);
    if op.Dump? {
      var t1 := Close(t, MetricsDump, op.now);
      assert t1.closed[..|t1.closed|] == t1.closed && t1.closed[..t.taken] == t.closed[..t.taken];
      ClosedSplit(t1.closed, t.taken);
    } else {
      assert Tracked(ops).taken == t.taken && t.closed <= Tracked(ops).closed;
      assert Tracked(ops).closed[..t.taken] == t.closed[..t.taken];
      assert TakenSessions(t) + [] == TakenSessions(t);
    }
  }

  /** A dump emits the last of what is due. */
  lemma {:induction false} EmitsDue(c: Caps, before: seq<Op>, op: Op)
    requires c.Valid() && op.Dump?
    ensures EmittedBy(c, before, op) == LastN(DueAt(before, op), c.sessions)
  {
    DumpEmitsTheLast(c, before, op.now, op.later);
  }

  lemma {:induction false} EmittedCount(c: Caps, ops: seq<Op>)
    requires c.Valid() && forall op :: op in ops ==> !op.Reset?
    ensures |Emitted(c, ops)| <= |TakenSessions(Tracked(ops))|
    ensures |Emitted(c, ops)| == |TakenSessions(Tracked(ops))| <==> FitsBetweenDumps(c, ops)
  {
    if ops != [] {
      var before, op := ops[..|ops| - 1], ops[|ops| - 1];
      EmittedCount(c, before);
      TakenNext(ops);
      if op.Dump? { EmitsDue(c, before, op); }
    }
  }

  lemma {:induction false} EmittedWhole(c: Caps, ops: seq<Op>)
    requires c.Valid() && (forall op :: op in ops ==> !op.Reset?) && FitsBetweenDumps(c, ops)
    ensures Emitted(c, ops) == TakenSessions(Tracked(ops))
  {
    if ops != [] {
      var before, op := ops[..|ops| - 1], ops[|ops| - 1];
      EmittedWhole(c, before);
      TakenNext(ops);
      if op.Dump? { EmitsDue(c, before, op); }
    }
  }

  /**
   * Without a reset, the dumps of a run together emit every session that the run closed for
   * them, in order and once, exactly if at no dump more are due than the queue holds.
   */
  lemma {:induction false} EveryClosedSessionEmittedIff(c: Caps, ops: seq<Op>)
    requires c.Valid() && forall op :: op in ops ==> !op.Reset?
    ensures Emitted(c, ops) == TakenSessions(Tracked(ops)) <==> FitsBetweenDumps(c, ops)
  {
    EmittedCount(c, ops);
    if FitsBetweenDumps(c, ops) { EmittedWhole(c, ops); }
  }

  /**
   * So after a run that ends with a dump and never has too many due, what was emitted is the
   * sessions of segments whose reports, joined, are all the reports of the run; and each tells of
   * its own segment: its technology, device, end and length, and every A2DP figure of exactly
   * the reports made in it.
   */
  lemma {:induction false} EveryReportEmitted(c: Caps, ops: seq<Op>) returns (segments: seq<Closed>)
    requires c.Valid() && (forall op :: op in ops ==> !op.Reset?) && FitsBetweenDumps(c, ops)
    requires ops != [] && ops[|ops| - 1].Dump?
    ensures AllReports(segments) == Reports(ops) && |Emitted(c, ops)| == |segments|
    ensures forall i :: 0 <= i < |segments| ==> Tells(Emitted(c, ops)[i], segments[i])
  {
    segments := Tracked(ops).closed;
    EmittedWhole(c, ops);
    EveryReportInOneSession(ops);
    AfterDump(ops);
    forall i | 0 <= i < |segments| ensures Tells(Emitted(c, ops)[i], segments[i]) {
      ClosedTells(segments[i]);
      assert ClosedSessions(segments)[i] == ClosedSession(segments[i]);
    }
  }

  /** After a dump all that is closed is taken, and the open segment has no report yet. */
  lemma {:induction false} AfterDump(ops: seq<Op>)
    requires ops != [] && ops[|ops| - 1].Dump?
    ensures TakenSessions(Tracked(ops)) == ClosedSessions(Tracked(ops).closed)
    ensures Kept(Tracked(ops)) == AllReports(Tracked(ops).closed)
  {
    var t := Tracked(ops);
    assert t.taken == |t.closed| && OpenReports(t) == [];
    assert t.closed[..|t.closed|] == t.closed;
    assert AllReports(t.closed) + [] == AllReports(t.closed);
  }
}
