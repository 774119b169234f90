/** Which connection is answered when several of one device wait under the same id. */
module GattAnswers {
  import opened Common
  import opened Addresses
  import opened GattServerState
  import opened GattConnections
  import opened GattResponses

  ghost predicate Ascending(ps: seq<nat>) {
    forall i, j :: 0 <= i < j < |ps| ==> ps[i] < ps[j]
  }

  /** A list that ascends, of numbers below n. */
  ghost predicate AscendingBelow(ps: seq<nat>, n: nat) {
    Ascending(ps) && forall i :: 0 <= i < |ps| ==> ps[i] < n
  }

  /** The connections of each device are listed in the order in which they came. */
  ghost predicate OldestFirst(s: State) {
    forall d :: d in s.byAddr ==> AscendingBelow(s.byAddr[d], |s.records|)
  }

  lemma {:induction false} AscendingSnoc(ps: seq<nat>, n: nat)
    requires AscendingBelow(ps, n)
    ensures AscendingBelow(ps + [n], n + 1)
  {
  }

  lemma {:induction false} AscendingCons(p: nat, rest: seq<nat>, n: nat)
    requires AscendingBelow(rest, n) && p < n && forall i :: 0 <= i < |rest| ==> p < rest[i]
    ensures AscendingBelow([p] + rest, n)
  {
  }

  lemma {:induction false} ConnectKeepsOrder(s: State, c: int, a: RawAddress)
    requires OldestFirst(s)
    ensures OldestFirst(ConnectStep(s, c, a))
  {
    var device := BtAddrString(a);
    var ps := if device in s.byAddr then s.byAddr[device] else [];
    AscendingSnoc(ps, |s.records|);
  }

  lemma {:induction false} ErasedAscends(records: seq<Connection>, ps: seq<nat>, c: int, n: nat)
    requires AscendingBelow(ps, n)
    ensures AscendingBelow(Erased(records, ps, c), n)
    ensures forall i :: 0 <= i < |Erased(records, ps, c)| ==> ps[0] <= Erased(records, ps, c)[i]
  {
    if ps != [] {
      var rest := ps[1..];
      assert forall i :: 0 <= i < |rest| ==> rest[i] == ps[i + 1];
      ErasedAscends(records, rest, c, n);
      if !(ps[0] < |records| && records[ps[0]].connId == c) {
        AscendingCons(ps[0], Erased(records, rest, c), n);
      }
    }
  }

  lemma {:induction false} StepKeepsOrder(s: State, e: Event)
    requires OldestFirst(s)
    ensures OldestFirst(Step(s, e).0)
  {
    match e
    case Connect(c, a) => ConnectKeepsOrder(s, c, a);
    case Disconnect(c, a) =>
      var device := BtAddrString(a);
      if device in s.byAddr { ErasedAscends(s.records, s.byAddr[device], c, |s.records|); }
    case _ => OthersKeepIndexes(s, e);
  }

  /** In every run, whatever devices its disconnects name. */
  lemma {:induction false} EveryRunOldestFirst(events: seq<Event>, n: nat)
    requires n <= |events|
    ensures OldestFirst(StateAt(events, n))
  {
    if n > 0 {
      EveryRunOldestFirst(events, n - 1);
      StepKeepsOrder(StateAt(events, n - 1), events[n - 1]);
    }
  }

  /** The record chosen for an answer comes last of those with the request. */
  lemma {:induction false} LastWithIsLast(records: seq<Connection>, ps: seq<nat>, id: int, q: nat)
    requires Ascending(ps) && q in ps && q < |records| && id in records[q].requests
    ensures var p := LastWith(records, ps, id); p.Some? && q <= p.value
  {
    var n := |ps| - 1;
    if q != ps[n] && !(ps[n] < |records| && id in records[ps[n]].requests) {
      LastWithIsLast(records, ps[..n], id, q);
    }
  }

  ghost predicate HasRecord(s: State, c: int, p: nat, a: RawAddress) {
    c in s.byId && s.byId[c] == p < |s.records| && s.records[p].addr == a
  }

  lemma {:induction false} StepKeepsRecord(s: State, e: Event, c: int, p: nat, a: RawAddress)
    requires HasRecord(s, c, p, a) && !(e.Disconnect? && e.connId == c)
    ensures HasRecord(Step(s, e).0, c, p, a)
  {
    if !e.Connect? && !e.Disconnect? { OthersKeepIndexes(s, e); }
  }

  lemma {:induction false} ConnectRecords(s: State, c: int, a: RawAddress)
    requires c !in s.byId
    ensures HasRecord(Step(s, Connect(c, a)).0, c, |s.records|, a)
  {
  }

  lemma {:induction false} RecordStays(events: seq<Event>, k: nat, n: nat, c: int, p: nat, a: RawAddress)
    requires k <= n <= |events| && HasRecord(StateAt(events, k), c, p, a)
    requires forall j :: k <= j < n ==> !(events[j].Disconnect? && events[j].connId == c)
    ensures HasRecord(StateAt(events, n), c, p, a)
  {
    if k < n {
      RecordStays(events, k, n - 1, c, p, a);
      StepKeepsRecord(StateAt(events, n - 1), events[n - 1], c, p, a);
    }
  }

  /** A connection's record has the number of records there were when it connected. */
  lemma {:induction false} RecordOf(events: seq<Event>, k: nat, n: nat, c: int, a: RawAddress)
    requires n <= |events| && ConnectedSince(events, k, n, c, a)
    ensures HasRecord(StateAt(events, n), c, |StateAt(events, k).records|, a)
  {
    EveryRunIndexesPeers(events, k, c);
    ConnectRecords(StateAt(events, k), c, a);
    RecordStays(events, k + 1, n, c, |StateAt(events, k).records|, a);
  }

  /** The chosen record, told by its connection. */
  lemma {:induction false} AnswersLastRecord(s: State, e: Event, c: int)
    requires Agree(s) && OldestFirst(s) && e.Respond? && Step(s, e).1.Response?
    requires Owed(s, c, e.id).Some? && BtAddrString(Owed(s, c, e.id).value.0) == e.device
    ensures var x := Step(s, e).1.connId; x in s.byId && s.byId[c] <= s.byId[x]
  {
    var ps := s.byAddr[e.device];
    LastWithIsLast(s.records, ps, e.id, s.byId[c]);
    LastWithIsListed(s.records, ps, e.id);
    var p := LastWith(s.records, ps, e.id).value;
    var i :| 0 <= i < |ps| && ps[i] == p;
    assert ListedRight(s, e.device, ps[i]);
  }

  /**
   * In every run: of the connections of the named device on which the request is open, the answer
   * goes to the one that connected last.
   */
  lemma {:induction false} AnswersTheNewest(events: seq<Event>, outs: seq<Output>, n: nat,
                                            k: nat, a: RawAddress, k': nat, c': int, a': RawAddress)
    requires Gives(events, outs) && RightDevices(events) && n < |events|
    requires events[n].Respond? && outs[n].Response? && ConnectedSince(events, k, n, outs[n].connId, a)
    requires ConnectedSince(events, k', n, c', a') && BtAddrString(a') == events[n].device
    requires SomeOpen(events, outs, n, c', events[n].id)
    ensures k' <= k
  {
    var s := StateAt(events, n);
    assert outs[n] == OutputAt(events, n);
    EveryRunAgrees(events, n);
    EveryRunOldestFirst(events, n);
    OwedIffOpen(events, outs, n, c', events[n].id);
    RecordOf(events, k, n, outs[n].connId, a);
    RecordOf(events, k', n, c', a');
    AnswersLastRecord(s, events[n], c');
    if k < k' { RecordOf(events, k, k', outs[n].connId, a); }
  }
}
