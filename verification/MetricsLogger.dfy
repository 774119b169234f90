/**
 * The metrics logger object: four leaky queues, the log under construction, and the open
 * session. Calls run one at a time; clock readings are parameters.
 */
module MetricsLogger {
  import opened Common
  import opened LeakyBondedQueue
  import opened MetricsLog
  import A2dp = A2dpMetrics

  class BluetoothMetricsLogger {
    const caps: Caps
    const sessionQueue: LeakyBondedQueue<Session>
    const pairQueue: LeakyBondedQueue<PairEvent>
    const scanQueue: LeakyBondedQueue<ScanEvent>
    const wakeQueue: LeakyBondedQueue<WakeEvent>
    var log: Log
    var headset: Counts
    var current: Option<Session>
    var startMs: int
    var metrics: A2dp.Metrics

    ghost function View(): State
      reads this, sessionQueue, pairQueue, scanQueue, wakeQueue
    {
      State(sessionQueue.queue, pairQueue.queue, scanQueue.queue, wakeQueue.queue, log, headset, current, startMs, metrics)
    }

    /** Four separate queues, of the given capacities. */
    ghost predicate Wired()
      reads sessionQueue, pairQueue, scanQueue, wakeQueue
    {
      && sessionQueue as object != pairQueue && sessionQueue as object != scanQueue && sessionQueue as object != wakeQueue
      && pairQueue as object != scanQueue && pairQueue as object != wakeQueue && scanQueue as object != wakeQueue
      && sessionQueue.Valid() && sessionQueue.capacity == caps.sessions
      && pairQueue.Valid() && pairQueue.capacity == caps.pairs
      && scanQueue.Valid() && scanQueue.capacity == caps.scans
      && wakeQueue.Valid() && wakeQueue.capacity == caps.wakes
    }

    /** Between calls no session is in the log yet. */
    ghost predicate Valid()
      reads this, sessionQueue, pairQueue, scanQueue, wakeQueue
    {
      Wired() && log.sessions == []
    }

    constructor (caps: Caps)
      requires caps.Valid()
      ensures Valid() && this.caps == caps && View() == INITIAL
      ensures fresh(sessionQueue) && fresh(pairQueue) && fresh(scanQueue) && fresh(wakeQueue)
    {
      this.caps := caps;
      sessionQueue := new LeakyBondedQueue<Session>(caps.sessions);
      pairQueue := new LeakyBondedQueue<PairEvent>(caps.pairs);
      scanQueue := new LeakyBondedQueue<ScanEvent>(caps.scans);
      wakeQueue := new LeakyBondedQueue<WakeEvent>(caps.wakes);
      log := NO_LOG;
      headset := Counts(0, 0, 0);
      current := None;
      startMs := 0;
      metrics := A2dp.NONE;
    }

    // ---------- Events ----------

    method LogPairEvent(e: PairEvent)
      requires Valid()
      modifies this, pairQueue
      ensures Valid() && View() == Step(caps, old(View()), LogPair(e))
    {
      pairQueue.Enqueue(e);
      log := log.(numPairs := log.numPairs + 1);
    }

    method LogWakeEvent(e: WakeEvent)
      requires Valid()
      modifies this, wakeQueue
      ensures Valid() && View() == Step(caps, old(View()), LogWake(e))
    {
      wakeQueue.Enqueue(e);
      log := log.(numWakes := log.numWakes + 1);
    }

    method LogScanEvent(e: ScanEvent)
      requires Valid()
      modifies this, scanQueue
      ensures Valid() && View() == Step(caps, old(View()), LogScan(e))
    {
      scanQueue.Enqueue(e);
      log := log.(numScans := log.numScans + 1);
    }

    method LogHeadsetProfileRfcConnection(p: Profile)
      requires Valid()
      modifies this
      ensures Valid() && View() == Step(caps, old(View()), Headset(p))
    {
      match p
      case UnknownProfile => headset := headset.(unknown := headset.unknown + 1);
      case Hsp => headset := headset.(hsp := headset.hsp + 1);
      case Hfp => headset := headset.(hfp := headset.hfp + 1);
    }

    // ---------- Sessions ----------

    method LogBluetoothSessionEnd(reason: Reason, at: int, now: int)
      requires Valid()
      modifies this, sessionQueue
      ensures Valid() && View() == EndSession(caps, old(View()), reason, at, now)
    {
      if current == None {
        return;
      }
      var timestamp := if at == 0 then now else at;
      var done := current.value.(durationSec := Some(DurationSec(startMs, timestamp)));
      done := done.(reason := Some(reason));
      sessionQueue.Enqueue(done);
      current := None;
      metrics := A2dp.NONE;
      log := log.(numSessions := log.numSessions + 1);
    }

    method LogBluetoothSessionStart(tech: Tech, at: int, now: int, later: int)
      requires Valid()
      modifies this, sessionQueue
      ensures Valid() && View() == StartSession(caps, old(View()), tech, at, now, later)
      ensures current.Some?
    {
      if current != None {
        LogBluetoothSessionEnd(NextStartWithoutEndPrevious, 0, now);
      }
      startMs := if at == 0 then later else at;
      current := Some(Session(tech, None, None, None, None));
    }

    method LogBluetoothSessionDeviceInfo(deviceClass: int, now: int)
      requires Valid()
      modifies this, sessionQueue
      ensures Valid() && View() == SetDevice(caps, old(View()), deviceClass, now)
      ensures current.Some?
    {
      if current == None {
        LogBluetoothSessionStart(UnknownTech, 0, now, now);
      }
      current := Some(current.value.(device := Some(Device(deviceClass, BrEdrDevice))));
    }

    method LogA2dpSession(report: A2dp.Metrics, now: int)
      requires Valid()
      modifies this, sessionQueue
      ensures Valid() && View() == LogA2dp(caps, old(View()), report, now)
    {
      if current == None {
        LogBluetoothSessionStart(BrEdr, 0, now, now);
        LogBluetoothSessionDeviceInfo(BTM_COD_MAJOR_AUDIO, now);
      }
      metrics := A2dp.Update(metrics, report);
      current := Some(current.value.(a2dp := Some(BlockOf(metrics))));
    }

    /** Splits the open session: a copy without its A2DP part goes on after the original has ended. */
    method CutoffSession(now: int, later: int)
      requires Valid()
      modifies this, sessionQueue
      ensures Valid() && View() == Cutoff(caps, old(View()), now, later)
    {
      if current != None {
        var continued := current.value.(a2dp := None);
        LogBluetoothSessionEnd(MetricsDump, 0, now);
        current := Some(continued);
        startMs := later;
        metrics := A2dp.NONE;
      }
    }

    // ---------- Dumps ----------

    /**
     * The fifth drain loop of the source, which would dequeue from the wake queue while the
     * session queue has items, never runs: the first loop leaves the session queue empty.
     */
    method Build(now: int, later: int)
      requires Valid()
      modifies this, sessionQueue, pairQueue, scanQueue, wakeQueue
      ensures Wired() && View() == MetricsLog.Build(caps, old(View()), now, later)
    {
      CutoffSession(now, later);
      DrainQueues();
      if |sessionQueue.queue| > 0 && |log.wakes| <= caps.wakes {
        assert false;
      }
      log := log.(headset := log.headset + HeadsetStats(headset));
      headset := Counts(0, 0, 0);
    }

    /** The first four drain loops. */
    method DrainQueues()
      requires Valid()
      modifies this, sessionQueue, pairQueue, scanQueue, wakeQueue
      ensures Wired() && View() == Drained(caps, old(View()))
      ensures sessionQueue.queue == []
    {
      var sessions := sessionQueue.Drain(log.sessions);
      var pairs := pairQueue.Drain(log.pairs);
      var scans := scanQueue.Drain(log.scans);
      var wakes := wakeQueue.Drain(log.wakes);
      log := log.(sessions := sessions, pairs := pairs, scans := scans, wakes := wakes);
    }

    /** Returns the log that is serialized; it is cleared whether or not that succeeds. */
    method WriteString(now: int, later: int) returns (written: Log)
      requires Valid()
      modifies this, sessionQueue, pairQueue, scanQueue, wakeQueue
      ensures Valid()
      ensures written == MetricsLog.Build(caps, old(View()), now, later).log
      ensures View() == Step(caps, old(View()), Dump(now, later))
    {
      Build(now, later);
      written := log;
      log := NO_LOG;
    }

    method Reset()
      requires Valid()
      modifies this, sessionQueue, pairQueue, scanQueue, wakeQueue
      ensures Valid() && View() == Step(caps, old(View()), Op.Reset)
    {
      current := None;
      startMs := 0;
      metrics := A2dp.NONE;
      log := NO_LOG;
      sessionQueue.Clear();
      pairQueue.Clear();
      wakeQueue.Clear();
      scanQueue.Clear();
    }
  }
}
