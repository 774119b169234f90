/** The metrics logger as a state machine, and what a dump emits over any run of calls. */
module MetricsLog {
  import opened Common
  import opened LeakyBondedQueue
  import A2dp = A2dpMetrics

  datatype Tech = UnknownTech | Le | BrEdr
  datatype Reason = UnknownReason | MetricsDump | NextStartWithoutEndPrevious
  datatype DeviceType = UnknownDevice | BrEdrDevice | LeDevice | DualDevice
  datatype Codec = UnknownCodec | Sbc | Aac | Aptx | AptxHd | Ldac
  datatype Profile = UnknownProfile | Hsp | Hfp

  datatype Device = Device(deviceClass: int, deviceType: DeviceType)
  datatype PairEvent = PairEvent(reason: int, timestampMs: int, device: Device)
  datatype WakeEvent = WakeEvent(kind: int, requestor: string, name: string, timestampMs: int)
  datatype ScanEvent = ScanEvent(start: bool, initiator: string, tech: int, results: int, timestampMs: int)

  /** The A2DP part of a session. */
  datatype Block = Block(
    durationMs: int, timerMin: int, timerMax: int, timerAvg: int, overrunsMax: int, overruns: int,
    underrunsAverage: real, underruns: int, codec: Codec, offload: bool)

  datatype Session = Session(
    tech: Tech, device: Option<Device>, a2dp: Option<Block>, durationSec: Option<int>, reason: Option<Reason>)

  datatype Log = Log(
    sessions: seq<Session>, pairs: seq<PairEvent>, scans: seq<ScanEvent>, wakes: seq<WakeEvent>,
    numSessions: int, numPairs: int, numScans: int, numWakes: int, headset: seq<(Profile, int)>)

  const NO_LOG := Log([], [], [], [], 0, 0, 0, 0, [])

  datatype Caps = Caps(sessions: nat, pairs: nat, wakes: nat, scans: nat) {
    ghost predicate Valid() { sessions > 0 && pairs > 0 && wakes > 0 && scans > 0 }
  }

  datatype Counts = Counts(unknown: int, hsp: int, hfp: int)

  const BTM_COD_MAJOR_AUDIO := 0x04

  datatype State = State(
    sessionQ: seq<Session>, pairQ: seq<PairEvent>, scanQ: seq<ScanEvent>, wakeQ: seq<WakeEvent>,
    log: Log, headset: Counts,
    current: Option<Session>, startMs: int, metrics: A2dp.Metrics)

  const INITIAL := State([], [], [], [], NO_LOG, Counts(0, 0, 0), None, 0, A2dp.NONE)

  function CodecOf(index: int): Codec {
    if index == 0 then Sbc else if index == 1 then Aac else if index == 2 then Aptx
    else if index == 3 then AptxHd else if index == 4 then Ldac else UnknownCodec
  }

  function BlockOf(m: A2dp.Metrics): Block {
    Block(m.audioDurationMs, m.mediaTimerMinMs, m.mediaTimerMaxMs, m.mediaTimerAvgMs, m.bufferOverrunsMaxCount,
          m.bufferOverrunsTotal, m.bufferUnderrunsAverage, m.bufferUnderrunsCount, CodecOf(m.codecIndex), m.isA2dpOffload)
  }

  /** A timestamp of 0 stands for the clock. */
  function TimeOr(at: int, now: int): int { if at == 0 then now else at }

  /** Whole seconds between two uint64_t milliseconds. */
  function DurationSec(startMs: int, endMs: int): int {
    ((endMs - startMs) % 0x1_0000_0000_0000_0000) / 1000
  }

  // ---------- The calls ----------

  function EndSession(c: Caps, s: State, reason: Reason, at: int, now: int): State {
    if s.current == None then s
    else
      var done := s.current.value.(durationSec := Some(DurationSec(s.startMs, TimeOr(at, now))), reason := Some(reason));
      s.(sessionQ := LastN(s.sessionQ + [done], c.sessions),
         current := None, metrics := A2dp.NONE,
         log := s.log.(numSessions := s.log.numSessions + 1))
  }

  /** `now` is the clock when a session still open is ended, `later` when the new one begins. */
  function StartSession(c: Caps, s: State, tech: Tech, at: int, now: int, later: int): State {
    var s1 := EndSession(c, s, NextStartWithoutEndPrevious, 0, now);
    s1.(startMs := TimeOr(at, later), current := Some(Session(tech, None, None, None, None)))
  }

  /** The device type given is not used: the source always records BR/EDR. */
  function SetDevice(c: Caps, s: State, deviceClass: int, now: int): State {
    var s1 := if s.current == None then StartSession(c, s, UnknownTech, 0, now, now) else s;
    s1.(current := Some(s1.current.value.(device := Some(Device(deviceClass, BrEdrDevice)))))
  }

  function LogA2dp(c: Caps, s: State, r: A2dp.Metrics, now: int): State {
    var s1 :=
      if s.current == None then SetDevice(c, StartSession(c, s, BrEdr, 0, now, now), BTM_COD_MAJOR_AUDIO, now) else s;
    var m := A2dp.Merged(s1.metrics, r);
    s1.(metrics := m, current := Some(s1.current.value.(a2dp := Some(BlockOf(m)))))
  }

  /** Splits an open session in two, for a dump. */
  function Cutoff(c: Caps, s: State, now: int, later: int): State {
    if s.current == None then s
    else
      EndSession(c, s, MetricsDump, 0, now)
      .(current := Some(s.current.value.(a2dp := None)), startMs := later, metrics := A2dp.NONE)
  }

  function HeadsetStats(h: Counts): seq<(Profile, int)> {
    (if h.unknown > 0 then [(UnknownProfile, h.unknown)] else [])
    + (if h.hsp > 0 then [(Hsp, h.hsp)] else [])
    + (if h.hfp > 0 then [(Hfp, h.hfp)] else [])
  }

  /** The four queues moved into the log, as far as the drain loops go. */
  function Drained(c: Caps, s: State): State {
    var ks := DrainCount(|s.log.sessions|, |s.sessionQ|, c.sessions);
    var kp := DrainCount(|s.log.pairs|, |s.pairQ|, c.pairs);
    var kc := DrainCount(|s.log.scans|, |s.scanQ|, c.scans);
    var kw := DrainCount(|s.log.wakes|, |s.wakeQ|, c.wakes);
    s.(sessionQ := s.sessionQ[ks..], pairQ := s.pairQ[kp..], scanQ := s.scanQ[kc..], wakeQ := s.wakeQ[kw..],
       log := s.log.(sessions := s.log.sessions + s.sessionQ[..ks], pairs := s.log.pairs + s.pairQ[..kp],
                     scans := s.log.scans + s.scanQ[..kc], wakes := s.log.wakes + s.wakeQ[..kw]))
  }

  function Build(c: Caps, s: State, now: int, later: int): State {
    var s1 := Drained(c, Cutoff(c, s, now, later));
    s1.(log := s1.log.(headset := s1.log.headset + HeadsetStats(s1.headset)), headset := Counts(0, 0, 0))
  }

  datatype Op =
    | LogPair(pair: PairEvent)
    | LogWake(wake: WakeEvent)
    | LogScan(scan: ScanEvent)
    | Start(tech: Tech, at: int, now: int, later: int)
    | End(reason: Reason, at: int, now: int)
    | DeviceInfo(deviceClass: int, now: int)
    | A2dpReport(report: A2dp.Metrics, now: int)
    | Headset(profile: Profile)
    | Dump(now: int, later: int)
    | Reset

  function Count(h: Counts, p: Profile): Counts {
    match p
    case UnknownProfile => h.(unknown := h.unknown + 1)
    case Hsp => h.(hsp := h.hsp + 1)
    case Hfp => h.(hfp := h.hfp + 1)
  }

  function Step(c: Caps, s: State, op: Op): State {
    match op
    case LogPair(e) => s.(pairQ := LastN(s.pairQ + [e], c.pairs), log := s.log.(numPairs := s.log.numPairs + 1))
    case LogWake(e) => s.(wakeQ := LastN(s.wakeQ + [e], c.wakes), log := s.log.(numWakes := s.log.numWakes + 1))
    case LogScan(e) => s.(scanQ := LastN(s.scanQ + [e], c.scans), log := s.log.(numScans := s.log.numScans + 1))
    case Start(tech, at, now, later) => StartSession(c, s, tech, at, now, later)
    case End(reason, at, now) => EndSession(c, s, reason, at, now)
    case DeviceInfo(deviceClass, now) => SetDevice(c, s, deviceClass, now)
    case A2dpReport(r, now) => LogA2dp(c, s, r, now)
    case Headset(p) => s.(headset := Count(s.headset, p))
    case Dump(now, later) => Build(c, s, now, later).(log := NO_LOG)
    case Reset =>
      s.(sessionQ := [], pairQ := [], scanQ := [], wakeQ := [], log := NO_LOG,
         current := None, startMs := 0, metrics := A2dp.NONE)
  }

  function Run(c: Caps, ops: seq<Op>): State {
    if ops == [] then INITIAL else Step(c, Run(c, ops[..|ops| - 1]), ops[|ops| - 1])
  }

  /** What a dump writes out, at the end of a run. */
  function Dumped(c: Caps, ops: seq<Op>, now: int, later: int): Log {
    Build(c, Run(c, ops), now, later).log
  }

  // ---------- Reference: sessions as the reports made in them ----------

  /** A stretch between a start, or a cut, and the next end or cut, with the reports made in it. */
  datatype Segment = Segment(tech: Tech, device: Option<Device>, startMs: int, reports: seq<A2dp.Metrics>)

  datatype Closed = Closed(segment: Segment, reason: Reason, endMs: int)

  /** The open segment, all those closed so far, and how many of them an earlier dump or reset has taken. */
  datatype Track = Track(open: Option<Segment>, closed: seq<Closed>, taken: nat)

  function Close(t: Track, reason: Reason, endMs: int): Track {
    if t.open == None then t else t.(open := None, closed := t.closed + [Closed(t.open.value, reason, endMs)])
  }

  function TrackStep(t: Track, op: Op): Track {
    match op
    case Start(tech, at, now, later) =>
      Close(t, NextStartWithoutEndPrevious, now).(open := Some(Segment(tech, None, if at != 0 then at else later, [])))
    case End(reason, at, now) => Close(t, reason, if at != 0 then at else now)
    case DeviceInfo(deviceClass, now) =>
      var open := if t.open == None then Segment(UnknownTech, None, now, []) else t.open.value;
      t.(open := Some(open.(device := Some(Device(deviceClass, BrEdrDevice)))))
    case A2dpReport(r, now) =>
      var open :=
        if t.open == None then Segment(BrEdr, Some(Device(BTM_COD_MAJOR_AUDIO, BrEdrDevice)), now, []) else t.open.value;
      t.(open := Some(open.(reports := open.reports + [r])))
    case Dump(now, later) =>
      var t1 := Close(t, MetricsDump, now);
      t1.(open := if t.open == None then None else Some(t.open.value.(startMs := later, reports := [])), taken := |t1.closed|)
    case Reset => t.(open := None, taken := |t.closed|)
    case _ => t
  }

  function Tracked(ops: seq<Op>): Track {
    if ops == [] then Track(None, [], 0) else TrackStep(Tracked(ops[..|ops| - 1]), ops[|ops| - 1])
  }

  /** A segment's A2DP block: nothing without reports, else the fold of Update over exactly its reports. */
  function SegmentBlock(g: Segment): Option<Block> {
    if g.reports == [] then None else Some(BlockOf(A2dp.Fold(g.reports)))
  }

  function OpenSession(g: Segment): Session {
    Session(g.tech, g.device, SegmentBlock(g), None, None)
  }

  function ClosedSession(d: Closed): Session {
    OpenSession(d.segment).(durationSec := Some(DurationSec(d.segment.startMs, d.endMs)), reason := Some(d.reason))
  }

  function ClosedSessions(ds: seq<Closed>): (r: seq<Session>)
    ensures |r| == |ds|
    ensures forall i :: 0 <= i < |ds| ==> r[i] == ClosedSession(ds[i])
  {
    seq(|ds|, i requires 0 <= i < |ds| => ClosedSession(ds[i]))
  }

  /** The sessions closed since the last dump or reset. */
  function SessionsSince(t: Track): seq<Session> {
    ClosedSessions(if t.taken <= |t.closed| then t.closed[t.taken..] else [])
  }

  // ---------- Reference: events since the last dump or reset ----------

  /** What an operation adds to a history that dumps and resets clear. */
  function Added<T>(before: seq<T>, op: Op, new': seq<T>): seq<T> {
    if op.Dump? || op.Reset? then [] else before + new'
  }

  function Since<T>(ops: seq<Op>, pick: Op -> seq<T>): seq<T> {
    if ops == [] then []
    else Added(Since(ops[..|ops| - 1], pick), ops[|ops| - 1], pick(ops[|ops| - 1]))
  }

  function PairOf(op: Op): seq<PairEvent> { if op.LogPair? then [op.pair] else [] }

  function WakeOf(op: Op): seq<WakeEvent> { if op.LogWake? then [op.wake] else [] }

  function ScanOf(op: Op): seq<ScanEvent> { if op.LogScan? then [op.scan] else [] }

  // ---------- The logger keeps up with the reference ----------

  /** The open session is the open segment; with none open the figures are at their default. */
  ghost predicate SessionMatches(s: State, t: Track) {
    match t.open
    case None => s.current == None && s.metrics == A2dp.NONE
    case Some(g) => s.current == Some(OpenSession(g)) && s.startMs == g.startMs && s.metrics == A2dp.Fold(g.reports)
  }

  ghost predicate ClosedMatches(c: Caps, s: State, t: Track) {
    && t.taken <= |t.closed|
    && s.sessionQ == LastN(SessionsSince(t), c.sessions)
    && s.log.numSessions == |SessionsSince(t)|
  }

  lemma {:induction false} ClosedSnoc(t: Track, d: Closed)
    requires t.taken <= |t.closed|
    ensures SessionsSince(t.(closed := t.closed + [d])) == SessionsSince(t) + [ClosedSession(d)]
    ensures forall open :: SessionsSince(t.(open := open)) == SessionsSince(t)
  {
    assert (t.closed + [d])[t.taken..] == t.closed[t.taken..] + [d];
  }

  lemma {:induction false} EndMatches(c: Caps, s: State, t: Track, reason: Reason, at: int, now: int)
    requires c.Valid() && SessionMatches(s, t) && ClosedMatches(c, s, t)
    ensures SessionMatches(EndSession(c, s, reason, at, now), Close(t, reason, TimeOr(at, now)))
    ensures ClosedMatches(c, EndSession(c, s, reason, at, now), Close(t, reason, TimeOr(at, now)))
  {
    if t.open.Some? {
      var d := Closed(t.open.value, reason, TimeOr(at, now));
      ClosedSnoc(t, d);
      assert Close(t, reason, TimeOr(at, now)) == t.(closed := t.closed + [d]).(open := None);
      assert SessionsSince(Close(t, reason, TimeOr(at, now))) == SessionsSince(t) + [ClosedSession(d)];
      LastNSnoc(SessionsSince(t), ClosedSession(d), c.sessions);
    }
  }

  lemma {:induction false} FoldSnoc(reports: seq<A2dp.Metrics>, r: A2dp.Metrics)
    ensures A2dp.Fold(reports + [r]) == A2dp.Merged(A2dp.Fold(reports), r)
  {
    assert (reports + [r])[..|reports|] == reports;
  }
}
