/**
 * Over whole runs: when the callback of a notification runs. All notions here are read off
 * the events and outputs of a run; times are positions in it.
 */
module GattIndications {
  import opened Common
  import opened Addresses
  import opened GattServerState
  import opened GattResponses

  /** Call number t was sent on connection `c`. */
  predicate SentOn(outs: seq<Output>, t: nat, c: int)
    requires t < |outs|
  {
    outs[t].Sending? && c in outs[t].conns
  }

  /** Connection `c` has reported between t and n. */
  ghost predicate Reported(events: seq<Event>, t: nat, n: nat, c: int)
    requires n <= |events|
  {
    exists m :: t < m < n && events[m].Report? && events[m].connId == c
  }

  /** Call number t is still waiting, before event n, for connection `c` to report. */
  ghost predicate Waits(events: seq<Event>, outs: seq<Output>, t: nat, n: nat, c: int)
    requires n <= |events| == |outs|
  {
    t < n && SentOn(outs, t, c) && !Reported(events, t, n, c)
  }

  /** Some call is waiting, before event n, for connection `c` to report. */
  ghost predicate Awaited(events: seq<Event>, outs: seq<Output>, n: nat, c: int)
    requires n <= |events| == |outs|
  {
    exists t :: 0 <= t < n && Waits(events, outs, t, n, c)
  }

  /** Event m is the report of success, on a connection that call t was sent on and awaits. */
  ghost predicate GoodReport(events: seq<Event>, outs: seq<Output>, t: nat, m: nat)
    requires m < |events| == |outs|
  {
    events[m].Report? && events[m].status == SUCCESS && Waits(events, outs, t, m, events[m].connId)
  }

  /** One of the connections that call t was sent on has reported success, before event n. */
  ghost predicate Succeeded(events: seq<Event>, outs: seq<Output>, t: nat, n: nat)
    requires n <= |events| == |outs|
  {
    exists m :: t < m < n && GoodReport(events, outs, t, m)
  }

  // ---------- One event more ----------

  lemma {:induction false} ReportedNext(events: seq<Event>, t: nat, n: nat, c: int)
    requires t <= n < |events|
    ensures Reported(events, t, n + 1, c) <==>
            Reported(events, t, n, c) || (t < n && events[n].Report? && events[n].connId == c)
  {
  }

  lemma {:induction false} WaitsNext(events: seq<Event>, outs: seq<Output>, t: nat, n: nat, c: int)
    requires t <= n < |events| == |outs|
    ensures Waits(events, outs, t, n + 1, c) <==>
            if t == n then SentOn(outs, n, c)
            else Waits(events, outs, t, n, c) && !(events[n].Report? && events[n].connId == c)
  {
    ReportedNext(events, t, n, c);
  }

  lemma {:induction false} SucceededNext(events: seq<Event>, outs: seq<Output>, t: nat, n: nat)
    requires t <= n < |events| == |outs|
    ensures Succeeded(events, outs, t, n + 1) <==>
            Succeeded(events, outs, t, n) || (t < n && GoodReport(events, outs, t, n))
  {
  }

  // ---------- What the server remembers ----------

  /** Every indication sent is known, newer ones under larger numbers, with its callback. */
  ghost predicate Numbered(events: seq<Event>, outs: seq<Output>, n: nat, s: State)
    requires n <= |events| == |outs|
  {
    && (forall t :: 0 <= t < n && outs[t].Sending? ==>
          outs[t].indication < |s.indications| && events[t].Notify?
          && s.indications[outs[t].indication].hasCallback == events[t].hasCallback)
    && (forall t, u :: 0 <= t < u < n && outs[t].Sending? && outs[u].Sending? ==> outs[t].indication < outs[u].indication)
  }

  /** The pending map says which call each connection is awaited by. */
  ghost predicate PendingRight(events: seq<Event>, outs: seq<Output>, n: nat, s: State)
    requires n <= |events| == |outs|
  {
    && (forall t, c :: 0 <= t < n && Waits(events, outs, t, n, c) ==> c in s.pending && s.pending[c] == outs[t].indication)
    && (forall c :: c in s.pending ==> Awaited(events, outs, n, c))
  }

  /** The success flag says whether a success has been reported. */
  ghost predicate FlagsRight(events: seq<Event>, outs: seq<Output>, n: nat, s: State)
    requires n <= |events| == |outs|
  {
    forall t :: 0 <= t < n && outs[t].Sending? && outs[t].indication < |s.indications| ==>
      (s.indications[outs[t].indication].hasSuccess <==> Succeeded(events, outs, t, n))
  }

  ghost predicate Remembers(events: seq<Event>, outs: seq<Output>, n: nat, s: State)
    requires n <= |events| == |outs|
  {
    Numbered(events, outs, n, s) && PendingRight(events, outs, n, s) && FlagsRight(events, outs, n, s)
  }

  // ---------- Events that are neither a notification nor a report ----------

  lemma {:induction false} OtherEvents(events: seq<Event>, outs: seq<Output>, n: nat, s: State, s': State)
    requires n < |events| == |outs| && Remembers(events, outs, n, s)
    requires !events[n].Report? && !outs[n].Sending? && s'.pending == s.pending && s'.indications == s.indications
    ensures Remembers(events, outs, n + 1, s')
  {
    forall t, c | 0 <= t <= n ensures Waits(events, outs, t, n + 1, c) <==> t < n && Waits(events, outs, t, n, c) {
      WaitsNext(events, outs, t, n, c);
    }
    forall t | 0 <= t <= n ensures Succeeded(events, outs, t, n + 1) <==> Succeeded(events, outs, t, n) {
      SucceededNext(events, outs, t, n);
    }
    forall c | c in s'.pending ensures Awaited(events, outs, n + 1, c) {
      var t :| 0 <= t < n && Waits(events, outs, t, n, c);
      assert Waits(events, outs, t, n + 1, c);
    }
  }

  // ---------- A notification ----------

  /** Place j of the list is connection `c`, and the stack takes an indication there. */
  predicate Takes(s: State, ps: seq<nat>, halOks: seq<bool>, j: nat, c: int) {
    j < |ps| && ps[j] < |s.records| && s.records[ps[j]].connId == c && j < |halOks| && halOks[j]
  }

  /** Sent only on connections that were free, which are then all pending under the new number. */
  lemma {:induction false} NotifiedFacts(s: State, ps: seq<nat>, halOks: seq<bool>, indication: nat, i: nat)
    requires i <= |ps|
    ensures var (pending, sent) := Notified(s, ps, halOks, indication, i);
      && sent !! s.pending.Keys
      && pending.Keys == s.pending.Keys + sent
      && (forall c :: c in sent ==> pending[c] == indication)
      && (forall c :: c in s.pending ==> pending[c] == s.pending[c])
      && (sent == {} ==> pending == s.pending)
  {
    if i > 0 { NotifiedFacts(s, ps, halOks, indication, i - 1); }
  }

  lemma {:induction false} SomeOf(conns: set<int>) returns (c: int)
    requires conns != {}
    ensures c in conns
  {
    if !(exists x :: x in conns) { assert false; }
    c :| c in conns;
  }

  ghost predicate TakenBefore(s: State, ps: seq<nat>, halOks: seq<bool>, i: nat, c: int) {
    exists j: nat :: j < i && Takes(s, ps, halOks, j, c)
  }

  lemma {:induction false} TakenNext(s: State, ps: seq<nat>, halOks: seq<bool>, i: nat, c: int)
    requires i > 0
    ensures TakenBefore(s, ps, halOks, i, c) <==> TakenBefore(s, ps, halOks, i - 1, c) || Takes(s, ps, halOks, i - 1, c)
  {
  }

  /** Sent on exactly the connections that are free and that the stack takes. */
  lemma {:induction false} SentIff(s: State, ps: seq<nat>, halOks: seq<bool>, indication: nat, i: nat, c: int)
    requires i <= |ps|
    ensures c in Notified(s, ps, halOks, indication, i).1 <==> c !in s.pending && TakenBefore(s, ps, halOks, i, c)
  {
    if i > 0 {
      SentIff(s, ps, halOks, indication, i - 1, c);
      NotifiedFacts(s, ps, halOks, indication, i - 1);
      TakenNext(s, ps, halOks, i, c);
    }
  }

  /** Connection `c` is listed for the device, free, and taken by the stack. */
  ghost predicate Sendable(s: State, device: string, halOks: seq<bool>, c: int) {
    device in s.byAddr && c !in s.pending && exists j: nat :: Takes(s, s.byAddr[device], halOks, j, c)
  }

  /**
   * A notification to a well-formed address is sent on exactly the listed connections that are
   * free and taken; the call returns true exactly if there is one; and on each of them the new
   * indication is then pending.
   */
  lemma {:induction false} NotifySendsIff(s: State, device: string, halOks: seq<bool>, hasCallback: bool)
    ensures var (s', out) := NotifyStep(s, device, halOks, hasCallback);
      && (out.Sending? <==> IsAddress(device) && exists c :: Sendable(s, device, halOks, c))
      && (out.Sending? ==>
            && out.indication == |s.indications|
            && (forall c :: c in out.conns <==> Sendable(s, device, halOks, c))
            && (forall c :: c in out.conns ==> c in s'.pending && s'.pending[c] == out.indication))
      && (!out.Sending? ==> out == Quiet && s'.pending == s.pending)
      && (forall c :: c in s.pending ==> c in s'.pending && s'.pending[c] == s.pending[c])
  {
    if IsAddress(device) && device in s.byAddr {
      var ps := s.byAddr[device];
      var sent := Notified(s, ps, halOks, |s.indications|, |ps|).1;
      NotifiedFacts(s, ps, halOks, |s.indications|, |ps|);
      forall c ensures c in sent <==> Sendable(s, device, halOks, c) {
        SentIff(s, ps, halOks, |s.indications|, |ps|, c);
        if j: nat :| Takes(s, ps, halOks, j, c) { assert j < |ps|; }
      }
      if sent != {} { var c := SomeOf(sent); }
    }
  }

  lemma {:induction false} NotifyRemembers(events: seq<Event>, outs: seq<Output>, n: nat, s: State, s': State)
    requires n < |events| == |outs| && Remembers(events, outs, n, s)
    requires events[n].Notify? && outs[n].Sending? && outs[n].indication == |s.indications|
    requires s'.indications == s.indications + [Indication(false, events[n].hasCallback)]
    requires outs[n].conns !! s.pending.Keys && s'.pending.Keys == s.pending.Keys + outs[n].conns
    requires forall c :: c in outs[n].conns ==> s'.pending[c] == |s.indications|
    requires forall c :: c in s.pending ==> s'.pending[c] == s.pending[c]
    ensures Remembers(events, outs, n + 1, s')
  {
    forall t, c | 0 <= t <= n
      ensures Waits(events, outs, t, n + 1, c) <==> if t == n then c in outs[n].conns else Waits(events, outs, t, n, c) {
      WaitsNext(events, outs, t, n, c);
    }
    forall t | 0 <= t <= n ensures Succeeded(events, outs, t, n + 1) <==> Succeeded(events, outs, t, n) {
      SucceededNext(events, outs, t, n);
    }
    forall c | c in s'.pending ensures Awaited(events, outs, n + 1, c) {
      if c in s.pending {
        var t :| 0 <= t < n && Waits(events, outs, t, n, c);
        assert Waits(events, outs, t, n + 1, c);
      } else {
        assert Waits(events, outs, n, n + 1, c);
      }
    }
  }

  /** An indication sent nowhere leaves no trace. */
  lemma {:induction false} UnsentRemembers(events: seq<Event>, outs: seq<Output>, n: nat, s: State, s': State,
                                           extra: Indication)
    requires n < |events| == |outs| && Remembers(events, outs, n, s)
    requires !events[n].Report? && !outs[n].Sending?
    requires s'.pending == s.pending && s'.indications == s.indications + [extra]
    ensures Remembers(events, outs, n + 1, s')
  {
    assert Remembers(events, outs, n, s');
    OtherEvents(events, outs, n, s', s');
  }

  // ---------- A report ----------

  lemma {:induction false} OnlyWaiter(events: seq<Event>, outs: seq<Output>, n: nat, s: State, t: nat, u: nat, c: int)
    requires n <= |events| == |outs| && Remembers(events, outs, n, s)
    requires Waits(events, outs, t, n, c) && u < n && outs[u].Sending? && outs[u].indication == outs[t].indication
    ensures t == u
  {
  }

  lemma {:induction false} ReportPending(events: seq<Event>, outs: seq<Output>, n: nat, s: State, s': State)
    requires n < |events| == |outs| && Remembers(events, outs, n, s)
    requires events[n].Report? && !outs[n].Sending? && s'.pending == s.pending - {events[n].connId}
    ensures PendingRight(events, outs, n + 1, s')
  {
    forall t, c | 0 <= t <= n
      ensures Waits(events, outs, t, n + 1, c) <==> t < n && Waits(events, outs, t, n, c) && c != events[n].connId {
      WaitsNext(events, outs, t, n, c);
    }
    forall c | c in s'.pending ensures Awaited(events, outs, n + 1, c) {
      var t :| 0 <= t < n && Waits(events, outs, t, n, c);
      assert Waits(events, outs, t, n + 1, c);
    }
  }

  /** A report nobody waits for changes nothing. */
  lemma {:induction false} StrayReport(events: seq<Event>, outs: seq<Output>, n: nat, s: State)
    requires n < |events| == |outs| && Remembers(events, outs, n, s)
    requires events[n].Report? && !outs[n].Sending? && events[n].connId !in s.pending
    ensures Remembers(events, outs, n + 1, s)
  {
    assert s.pending - {events[n].connId} == s.pending;
    ReportPending(events, outs, n, s, s);
    forall t | 0 <= t < n ensures Succeeded(events, outs, t, n + 1) <==> Succeeded(events, outs, t, n) {
      SucceededNext(events, outs, t, n);
      assert !Waits(events, outs, t, n, events[n].connId);
    }
  }

  lemma {:induction false} ReportFlags(events: seq<Event>, outs: seq<Output>, n: nat, s: State, s': State)
    requires n < |events| == |outs| && Remembers(events, outs, n, s)
    requires events[n].Report? && !outs[n].Sending? && events[n].connId in s.pending
    requires var i := s.pending[events[n].connId];
      i < |s.indications|
      && s'.indications == s.indications[i :=
           s.indications[i].(hasSuccess := s.indications[i].hasSuccess || events[n].status == SUCCESS)]
    ensures FlagsRight(events, outs, n + 1, s')
  {
    var c := events[n].connId;
    forall t | 0 <= t < n && outs[t].Sending?
      ensures s'.indications[outs[t].indication].hasSuccess <==> Succeeded(events, outs, t, n + 1)
    {
      SucceededNext(events, outs, t, n);
      var w :| 0 <= w < n && Waits(events, outs, w, n, c);
      if outs[t].indication == s.pending[c] { OnlyWaiter(events, outs, n, s, w, t, c); }
    }
  }

  lemma {:induction false} ReportRemembers(events: seq<Event>, outs: seq<Output>, n: nat, s: State)
    requires n < |events| == |outs| && Remembers(events, outs, n, s)
    requires events[n].Report? && outs[n] == Step(s, events[n]).1
    ensures Remembers(events, outs, n + 1, Step(s, events[n]).0)
  {
    var c := events[n].connId;
    if c !in s.pending {
      StrayReport(events, outs, n, s);
    } else {
      var t :| 0 <= t < n && Waits(events, outs, t, n, c);
      var s' := Step(s, events[n]).0;
      ReportPending(events, outs, n, s, s');
      ReportFlags(events, outs, n, s, s');
    }
  }

  // ---------- Whole runs ----------

  lemma {:induction false} StepRemembers(events: seq<Event>, outs: seq<Output>, n: nat, s: State)
    requires n < |events| == |outs| && Remembers(events, outs, n, s) && outs[n] == Step(s, events[n]).1
    ensures Remembers(events, outs, n + 1, Step(s, events[n]).0)
  {
    var s' := Step(s, events[n]).0;
    match events[n]
    case Report(c, status) => ReportRemembers(events, outs, n, s);
    case Notify(device, halOks, hasCallback) =>
      if IsAddress(device) && device in s.byAddr {
        NotifiedFacts(s, s.byAddr[device], halOks, |s.indications|, |s.byAddr[device]|);
        if outs[n].Sending? {
          NotifyRemembers(events, outs, n, s, s');
        } else {
          UnsentRemembers(events, outs, n, s, s', Indication(false, hasCallback));
        }
      } else {
        OtherEvents(events, outs, n, s, s');
      }
    case _ => OtherEvents(events, outs, n, s, s');
  }

  lemma {:induction false} EveryRunRemembers(events: seq<Event>, outs: seq<Output>, n: nat)
    requires Gives(events, outs) && n <= |events|
    ensures Remembers(events, outs, n, StateAt(events, n))
  {
    if n > 0 {
      EveryRunRemembers(events, outs, n - 1);
      assert outs[n - 1] == OutputAt(events, n - 1);
      StepRemembers(events, outs, n - 1, StateAt(events, n - 1));
    }
  }

  /** A connection is never awaited by two notifications. */
  lemma {:induction false} NeverTwoPending(events: seq<Event>, outs: seq<Output>, n: nat, t: nat, u: nat, c: int)
    requires Gives(events, outs) && n <= |events|
    requires Waits(events, outs, t, n, c) && Waits(events, outs, u, n, c)
    ensures t == u
  {
    EveryRunRemembers(events, outs, n);
    OnlyWaiter(events, outs, n, StateAt(events, n), t, u, c);
  }

  /** The report at n is the last that call t waits for. */
  ghost predicate LastReport(events: seq<Event>, outs: seq<Output>, t: nat, n: nat)
    requires n < |events| == |outs|
  {
    && events[n].Report? && Waits(events, outs, t, n, events[n].connId)
    && (forall d :: Waits(events, outs, t, n, d) ==> d == events[n].connId)
  }

  lemma {:induction false} StepFiresIff(events: seq<Event>, outs: seq<Output>, n: nat, s: State, t: nat)
    requires n < |events| == |outs| && Remembers(events, outs, n, s) && outs[n] == Step(s, events[n]).1
    requires events[n].Report? && Waits(events, outs, t, n, events[n].connId)
    ensures outs[n].Fired? <==> events[t].hasCallback && LastReport(events, outs, t, n)
    ensures outs[n].Fired? ==>
      && outs[n].indication == outs[t].indication
      && (outs[n].success <==> Succeeded(events, outs, t, n + 1))
      && outs[n].status == if outs[n].success then SUCCESS else events[n].status
  {
    var c, i := events[n].connId, outs[t].indication;
    assert c in s.pending && s.pending[c] == i;
    SucceededNext(events, outs, t, n);
    var left := s.pending - {c};
    if d :| d in left && left[d] == i {
      var w :| 0 <= w < n && Waits(events, outs, w, n, d);
      OnlyWaiter(events, outs, n, s, t, w, c);
      assert Waits(events, outs, t, n, d);
    } else {
      forall d | Waits(events, outs, t, n, d) ensures d == c { assert s.pending[d] == i && (d in left <==> d != c); }
    }
  }

  /**
   * In every run, for every call that was sent: its callback runs exactly at the last report
   * it waits for, if it has a callback, with success exactly if at least one of its
   * connections reported success and otherwise with the status of that last report.
   */
  lemma {:induction false} CallbackRunsIff(events: seq<Event>, outs: seq<Output>, t: nat, n: nat)
    requires Gives(events, outs) && t < n < |events| && outs[t].Sending?
    ensures (outs[n].Fired? && outs[n].indication == outs[t].indication)
            <==> events[t].Notify? && events[t].hasCallback && LastReport(events, outs, t, n)
    ensures outs[n].Fired? && outs[n].indication == outs[t].indication ==>
      && (outs[n].success <==> Succeeded(events, outs, t, n + 1))
      && outs[n].status == if outs[n].success then SUCCESS else events[n].status
  {
    var s := StateAt(events, n);
    EveryRunRemembers(events, outs, n);
    assert outs[n] == OutputAt(events, n);
    if events[n].Report? && Waits(events, outs, t, n, events[n].connId) {
      StepFiresIff(events, outs, n, s, t);
    } else if outs[n].Fired? {
      FiredForSome(events, outs, n, s, t);
    }
  }

  lemma {:induction false} FiredForSome(events: seq<Event>, outs: seq<Output>, n: nat, s: State, t: nat)
    requires n < |events| == |outs| && Remembers(events, outs, n, s) && outs[n] == Step(s, events[n]).1
    requires outs[n].Fired? && t < n && outs[t].Sending?
    requires !(events[n].Report? && Waits(events, outs, t, n, events[n].connId))
    ensures outs[n].indication != outs[t].indication
  {
    var c := events[n].connId;
    var w :| 0 <= w < n && Waits(events, outs, w, n, c);
    if outs[n].indication == outs[t].indication { OnlyWaiter(events, outs, n, s, w, t, c); }
  }

  /** Every callback that runs belongs to a call that was sent, so a call that returned false has none. */
  lemma {:induction false} EveryCallbackWasSent(events: seq<Event>, outs: seq<Output>, n: nat) returns (t: nat)
    requires Gives(events, outs) && n < |events| && outs[n].Fired?
    ensures t < n && outs[t].Sending? && outs[t].indication == outs[n].indication && LastReport(events, outs, t, n)
  {
    var s := StateAt(events, n);
    EveryRunRemembers(events, outs, n);
    assert outs[n] == OutputAt(events, n);
    t :| 0 <= t < n && Waits(events, outs, t, n, events[n].connId);
    StepFiresIff(events, outs, n, s, t);
  }

  /** A callback runs at most once. */
  lemma {:induction false} CallbackRunsOnce(events: seq<Event>, outs: seq<Output>, m: nat, n: nat)
    requires Gives(events, outs) && m < n < |events| && outs[m].Fired? && outs[n].Fired?
    ensures outs[m].indication != outs[n].indication
  {
    var t := EveryCallbackWasSent(events, outs, m);
    var u := EveryCallbackWasSent(events, outs, n);
    if outs[m].indication == outs[n].indication {
      EveryRunRemembers(events, outs, n);
      OnlyWaiter(events, outs, n, StateAt(events, n), u, t, events[n].connId);
      assert Waits(events, outs, t, m, events[n].connId);
    }
  }

  // ---------- When the result of a call is reported ----------

  /** The callback of call number t runs at m. */
  predicate FiresFor(outs: seq<Output>, t: nat, m: nat)
    requires t < |outs| && m < |outs|
  {
    outs[t].Sending? && outs[m].Fired? && outs[m].indication == outs[t].indication
  }

  ghost predicate AllReported(events: seq<Event>, outs: seq<Output>, t: nat, n: nat)
    requires t < n <= |events| == |outs|
  {
    outs[t].Sending? && forall c :: c in outs[t].conns ==> Reported(events, t, n, c)
  }

  /** The callback has run at the moment all have reported. */
  lemma {:induction false} FiredWhenAllReported(events: seq<Event>, outs: seq<Output>, t: nat, n: nat) returns (m: nat)
    requires Gives(events, outs) && t < n <= |events| && AllReported(events, outs, t, n)
    requires events[t].Notify? && events[t].hasCallback && outs[t].conns != {}
    ensures t < m < n && FiresFor(outs, t, m)
  {
    m := n - 1;
    var c := SomeOf(outs[t].conns);
    assert Reported(events, t, n, c);
    if AllReported(events, outs, t, m) {
      m := FiredWhenAllReported(events, outs, t, m);
    } else {
      var d :| d in outs[t].conns && !Reported(events, t, m, d);
      forall x | Waits(events, outs, t, m, x) ensures x == events[m].connId && events[m].Report? {
        ReportedNext(events, t, m, x);
      }
      assert Waits(events, outs, t, m, d);
      CallbackRunsIff(events, outs, t, m);
    }
  }

  lemma {:induction false} AllReportedWhenFired(events: seq<Event>, outs: seq<Output>, t: nat, m: nat, n: nat)
    requires Gives(events, outs) && t < m < n <= |events| && FiresFor(outs, t, m)
    ensures AllReported(events, outs, t, n)
  {
    CallbackRunsIff(events, outs, t, m);
    forall c | c in outs[t].conns ensures Reported(events, t, n, c) {
      if Reported(events, t, m, c) {
        var k :| t < k < m && events[k].Report? && events[k].connId == c;
      } else {
        assert Waits(events, outs, t, m, c);
      }
    }
  }

  lemma {:induction false} SentSomewhere(events: seq<Event>, outs: seq<Output>, t: nat)
    requires Gives(events, outs) && t < |events| && outs[t].Sending?
    ensures events[t].Notify? && outs[t].conns != {}
  {
    assert outs[t] == OutputAt(events, t);
  }

  /**
   * In every run, for a call that returned true with a callback: the callback has run before n
   * exactly if every connection it was sent on has reported by then. A disconnect is no report.
   */
  lemma {:induction false} ResultReportedIff(events: seq<Event>, outs: seq<Output>, t: nat, n: nat)
    requires Gives(events, outs) && t < n <= |events| && outs[t].Sending? && events[t].Notify? && events[t].hasCallback
    ensures (exists m :: t < m < n && FiresFor(outs, t, m)) <==> (forall c :: c in outs[t].conns ==> Reported(events, t, n, c))
  {
    SentSomewhere(events, outs, t);
    if m :| t < m < n && FiresFor(outs, t, m) {
      AllReportedWhenFired(events, outs, t, m, n);
    } else if AllReported(events, outs, t, n) {
      var m := FiredWhenAllReported(events, outs, t, n);
    }
  }

  /**
   * A connection lost before it reported: the callback does not run, and a notification on a new
   * connection under the same id is refused, although nothing was ever sent there.
   */
  lemma {:induction false} SilentAfterDisconnect(a: RawAddress, c: int)
    ensures var d := BtAddrString(a);
      var events := [Connect(c, a), Notify(d, [true], true), Disconnect(c, a), Connect(c, a), Notify(d, [true], true)];
      && OutputAt(events, 1) == Sending(0, {c}) && OutputAt(events, 4) == Quiet
      && (forall n :: 1 < n < 5 ==> !OutputAt(events, n).Fired?)
      && StateAt(events, 4).byId == map[c := 1] && StateAt(events, 4).pending == map[c := 0]
  {
    var d := BtAddrString(a);
    var events := [Connect(c, a), Notify(d, [true], true), Disconnect(c, a), Connect(c, a), Notify(d, [true], true)];
    var one, sent := Connection(c, a, map[]), Indication(false, true);
    var s1 := State([one], map[c := 0], map[d := [0]], [], map[]);
    var s2 := s1.(indications := [sent], pending := map[c := 0]);
    var s3 := s2.(byId := map[], byAddr := map[d := []]);
    var s4 := State([one, one], map[c := 1], map[d := [1]], [sent], map[c := 0]);
    FirstConnect(c, a);
    assert StateAt(events, 0) == INITIAL && StateAt(events, 1) == s1;
    FirstNotify(s1, c, d, a);
    assert StateAt(events, 2) == s2;
    assert Erased(s2.records, [0], c) == [];
    assert StateAt(events, 3) == s3;
    assert [one] + [one] == [one, one] && [] + [1] == [1];
    assert StateAt(events, 4) == s4;
    SecondNotify(s4, c, d);
  }

  lemma {:induction false} FirstConnect(c: int, a: RawAddress)
    ensures ConnectStep(INITIAL, c, a)
            == State([Connection(c, a, map[])], map[c := 0], map[BtAddrString(a) := [0]], [], map[])
  {
    assert [] + [Connection(c, a, map[])] == [Connection(c, a, map[])] && [] + [0] == [0];
  }

  lemma {:induction false} FirstNotify(s: State, c: int, d: string, a: RawAddress)
    requires |s.records| == 1 && s.records[0].connId == c && s.byAddr == map[d := [0]] && s.indications == []
    requires s.pending == map[] && d == BtAddrString(a)
    ensures NotifyStep(s, d, [true], true)
            == (s.(indications := [Indication(false, true)], pending := map[c := 0]), Sending(0, {c}))
  {
    BtAddrStringIsAddress(a);
    assert Notified(s, [0], [true], 0, 0) == (s.pending, {});
    assert s.pending[c := 0] == map[c := 0] && {} + {c} == {c};
    assert s.indications + [Indication(false, true)] == [Indication(false, true)];
  }

  lemma {:induction false} SecondNotify(s: State, c: int, d: string)
    requires |s.records| == 2 && s.records[1].connId == c && s.byAddr == map[d := [1]] && s.pending == map[c := 0]
    ensures NotifyStep(s, d, [true], true).1 == Quiet
  {
    assert Notified(s, [1], [true], |s.indications|, 0) == (map[c := 0], {});
    assert Notified(s, [1], [true], |s.indications|, 1) == (map[c := 0], {});
  }
}
