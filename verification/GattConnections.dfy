/** In every run the two indexes agree, and a response goes to where its request came from. */
module GattConnections {
  import opened Common
  import opened Addresses
  import opened GattServerState

  /** Both indexes hold the same connections, each under its own id and the text of its own address. */
  ghost predicate Agree(s: State) {
    && (forall c :: c in s.byId ==>
          && s.byId[c] < |s.records| && s.records[s.byId[c]].connId == c
          && BtAddrString(s.records[s.byId[c]].addr) in s.byAddr
          && s.byId[c] in s.byAddr[BtAddrString(s.records[s.byId[c]].addr)])
    && (forall d, i :: d in s.byAddr && 0 <= i < |s.byAddr[d]| ==> ListedRight(s, d, s.byAddr[d][i]))
    && (forall d :: d in s.byAddr ==> NoDuplicates(s.byAddr[d]))
  }

  ghost predicate ListedRight(s: State, d: string, p: nat) {
    && p < |s.records|
    && d == BtAddrString(s.records[p].addr)
    && s.records[p].connId in s.byId && s.byId[s.records[p].connId] == p
  }

  ghost predicate NoDuplicates(ps: seq<nat>) {
    forall i, j :: 0 <= i < j < |ps| ==> ps[i] != ps[j]
  }

  // ---------- Every step keeps the indexes in agreement, a disconnect if it names the right device ----------

  /** Changes to the pending requests alone. */
  lemma {:induction false} SameIndexesAgree(s: State, s': State)
    requires Agree(s) && s'.byId == s.byId && s'.byAddr == s.byAddr && |s'.records| == |s.records|
    requires forall p :: 0 <= p < |s.records| ==>
               s'.records[p].connId == s.records[p].connId && s'.records[p].addr == s.records[p].addr
    ensures Agree(s')
  {
    forall d, i | d in s'.byAddr && 0 <= i < |s'.byAddr[d]| ensures ListedRight(s', d, s'.byAddr[d][i]) {
      assert ListedRight(s, d, s.byAddr[d][i]);
    }
  }

  function Listed(s: State, d: string): seq<nat> {
    if d in s.byAddr then s.byAddr[d] else []
  }

  lemma {:induction false} ConnectLists(s: State, c: int, a: RawAddress, d: string)
    requires Agree(s) && c !in s.byId
    ensures var s' := ConnectStep(s, c, a);
      && (forall i :: 0 <= i < |Listed(s', d)| ==> ListedRight(s', d, Listed(s', d)[i]))
      && NoDuplicates(Listed(s', d))
  {
    var s', p := ConnectStep(s, c, a), |s.records|;
    var before := Listed(s, d);
    forall i | 0 <= i < |before| ensures ListedRight(s', d, before[i]) && before[i] != p {
      assert ListedRight(s, d, before[i]);
    }
    if d == BtAddrString(a) {
      assert Listed(s', d) == before + [p];
      assert ListedRight(s', d, p);
    } else {
      assert Listed(s', d) == before;
    }
  }

  lemma {:induction false} ConnectIndexes(s: State, c: int, a: RawAddress, x: int)
    requires Agree(s) && c !in s.byId && x in ConnectStep(s, c, a).byId
    ensures var s' := ConnectStep(s, c, a);
      var p := s'.byId[x];
      p < |s'.records| && s'.records[p].connId == x && p in Listed(s', BtAddrString(s'.records[p].addr))
  {
    var s', device := ConnectStep(s, c, a), BtAddrString(a);
    var before := Listed(s, device);
    assert Listed(s', device) == before + [|s.records|];
    if x == c { assert Listed(s', device)[|before|] == |s.records|; }
  }

  lemma {:induction false} ConnectAgrees(s: State, c: int, a: RawAddress)
    requires Agree(s)
    ensures Agree(ConnectStep(s, c, a))
  {
    if c !in s.byId {
      var s' := ConnectStep(s, c, a);
      forall d | d in s'.byAddr
        ensures NoDuplicates(s'.byAddr[d])
        ensures forall i :: 0 <= i < |s'.byAddr[d]| ==> ListedRight(s', d, s'.byAddr[d][i])
      {
        ConnectLists(s, c, a, d);
        assert Listed(s', d) == s'.byAddr[d];
      }
      forall x | x in s'.byId
        ensures s'.byId[x] < |s'.records| && s'.records[s'.byId[x]].connId == x
        ensures var d := BtAddrString(s'.records[s'.byId[x]].addr); d in s'.byAddr && s'.byId[x] in s'.byAddr[d]
      {
        ConnectIndexes(s, c, a, x);
      }
    }
  }

  /** Erasing a connection from a list that has each connection once takes out exactly that one. */
  lemma {:induction false} ErasedIsFilter(records: seq<Connection>, ps: seq<nat>, c: int, p: nat)
    requires forall i :: 0 <= i < |ps| ==> ps[i] < |records|
    requires forall i, j :: 0 <= i < j < |ps| ==> records[ps[i]].connId != records[ps[j]].connId
    ensures p in Erased(records, ps, c) <==> p in ps && records[p].connId != c
  {
    if ps != [] {
      var rest := ps[1..];
      assert forall i :: 0 <= i < |rest| ==> rest[i] == ps[i + 1];
      ErasedIsFilter(records, rest, c, p);
      assert ps == [ps[0]] + rest;
    }
  }

  lemma {:induction false} ErasedOnce(records: seq<Connection>, ps: seq<nat>, c: int)
    requires forall i :: 0 <= i < |ps| ==> ps[i] < |records|
    requires NoDuplicates(ps)
    ensures NoDuplicates(Erased(records, ps, c))
    ensures forall p :: p in Erased(records, ps, c) ==> p in ps
  {
    if ps != [] {
      var rest := ps[1..];
      assert forall i :: 0 <= i < |rest| ==> rest[i] == ps[i + 1];
      ErasedOnce(records, rest, c);
      assert ps == [ps[0]] + rest;
      assert ps[0] !in rest;
    }
  }

  lemma {:induction false} ListErased(s: State, d: string, c: int)
    requires Agree(s) && d in s.byAddr
    ensures forall p :: p in Erased(s.records, s.byAddr[d], c) <==> p in s.byAddr[d] && s.records[p].connId != c
    ensures NoDuplicates(Erased(s.records, s.byAddr[d], c))
  {
    var ps := s.byAddr[d];
    forall i | 0 <= i < |ps| ensures ListedRight(s, d, ps[i]) { }
    forall p: nat ensures p in Erased(s.records, ps, c) <==> p in ps && s.records[p].connId != c {
      ErasedIsFilter(s.records, ps, c, p);
    }
    ErasedOnce(s.records, ps, c);
  }

  /** The stack reports a disconnect with the address of the connection, or for a connection not known here. */
  predicate RightDevice(s: State, c: int, a: RawAddress) {
    c in s.byId ==> s.byId[c] < |s.records| && s.records[s.byId[c]].addr == a
  }

  lemma {:induction false} RightDisconnectAgrees(s: State, c: int, a: RawAddress)
    requires Agree(s) && RightDevice(s, c, a)
    ensures Agree(DisconnectStep(s, c, a))
  {
    var s', device := DisconnectStep(s, c, a), BtAddrString(a);
    if device in s.byAddr { ListErased(s, device, c); }
    forall d, i | d in s'.byAddr && 0 <= i < |s'.byAddr[d]| ensures ListedRight(s', d, s'.byAddr[d][i]) {
      var p := s'.byAddr[d][i];
      assert p in s.byAddr[d];
      var j :| 0 <= j < |s.byAddr[d]| && s.byAddr[d][j] == p;
      assert ListedRight(s, d, s.byAddr[d][j]);
    }
  }

  /** Why the device must be right: otherwise a connection stays listed that no longer exists. */
  lemma {:induction false} WrongDisconnectDisagrees(s: State, c: int, a: RawAddress)
    requires Agree(s) && !RightDevice(s, c, a)
    ensures !Agree(DisconnectStep(s, c, a))
  {
    var s', p := DisconnectStep(s, c, a), s.byId[c];
    var d := BtAddrString(s.records[p].addr);
    if d == BtAddrString(a) { BtAddrStringInjective(s.records[p].addr, a); }
    var i :| 0 <= i < |s.byAddr[d]| && s.byAddr[d][i] == p;
    assert !ListedRight(s', d, s'.byAddr[d][i]);
  }

  lemma {:induction false} DisconnectAgreesIff(s: State, c: int, a: RawAddress)
    requires Agree(s)
    ensures Agree(DisconnectStep(s, c, a)) <==> RightDevice(s, c, a)
  {
    if RightDevice(s, c, a) { RightDisconnectAgrees(s, c, a); } else { WrongDisconnectDisagrees(s, c, a); }
  }

  lemma {:induction false} StepAgreesIff(s: State, e: Event)
    requires Agree(s)
    ensures Agree(Step(s, e).0) <==> (e.Disconnect? ==> RightDevice(s, e.connId, e.addr))
  {
    match e
    case Connect(c, a) => ConnectAgrees(s, c, a);
    case Disconnect(c, a) => DisconnectAgreesIff(s, c, a);
    case _ =>
      OthersKeepIndexes(s, e);
      SameIndexesAgree(s, Step(s, e).0);
  }

  lemma {:induction false} OthersKeepIndexes(s: State, e: Event)
    requires !e.Connect? && !e.Disconnect?
    ensures var s' := Step(s, e).0;
      && s'.byId == s.byId && s'.byAddr == s.byAddr && |s'.records| == |s.records|
      && (forall p :: 0 <= p < |s.records| ==>
            s'.records[p].connId == s.records[p].connId && s'.records[p].addr == s.records[p].addr)
  {
  }

  /** Every disconnect of the run names the right device. */
  ghost predicate RightDevices(events: seq<Event>) {
    forall n :: 0 <= n < |events| && events[n].Disconnect? ==>
      RightDevice(StateAt(events, n), events[n].connId, events[n].addr)
  }

  lemma {:induction false} EveryRunAgrees(events: seq<Event>, n: nat)
    requires RightDevices(events) && n <= |events|
    ensures Agree(StateAt(events, n))
  {
    if n > 0 {
      EveryRunAgrees(events, n - 1);
      StepAgreesIff(StateAt(events, n - 1), events[n - 1]);
    }
  }

  // ---------- Which device a connection id stands for, read off the events ----------

  /** The device of the last connect of `c` that found the id free, if it has not been disconnected since. */
  function Peer(events: seq<Event>, n: nat, c: int): Option<RawAddress>
    requires n <= |events|
  {
    if n == 0 then None
    else
      match events[n - 1]
      case Connect(x, a) => if x == c && Peer(events, n - 1, c) == None then Some(a) else Peer(events, n - 1, c)
      case Disconnect(x, _) => if x == c then None else Peer(events, n - 1, c)
      case _ => Peer(events, n - 1, c)
  }

  /** Connect number k of `c` takes effect and is in force before n. */
  ghost predicate ConnectedSince(events: seq<Event>, k: nat, n: nat, c: int, a: RawAddress)
    requires n <= |events|
  {
    && k < n && events[k] == Connect(c, a) && Peer(events, k, c) == None
    && (forall j :: k < j < n ==> !(events[j].Disconnect? && events[j].connId == c))
  }

  lemma {:induction false} PeerConnected(events: seq<Event>, n: nat, c: int) returns (k: nat)
    requires n <= |events| && Peer(events, n, c).Some?
    ensures ConnectedSince(events, k, n, c, Peer(events, n, c).value)
  {
    k := n - 1;
    if Peer(events, n - 1, c).Some? { k := PeerConnected(events, n - 1, c); }
  }

  lemma {:induction false} ConnectedIsPeer(events: seq<Event>, k: nat, n: nat, c: int, a: RawAddress)
    requires n <= |events| && ConnectedSince(events, k, n, c, a)
    ensures Peer(events, n, c) == Some(a)
  {
    if k < n - 1 { ConnectedIsPeer(events, k, n - 1, c, a); }
  }

  /** An id is indexed exactly while it stands for a device, by a record of that device. */
  ghost predicate IndexesPeer(s: State, peer: Option<RawAddress>, c: int) {
    if peer == None then c !in s.byId
    else c in s.byId && s.byId[c] < |s.records| && s.records[s.byId[c]].addr == peer.value
  }

  lemma {:induction false} StepIndexesPeer(s: State, e: Event, peer: Option<RawAddress>, c: int)
    requires IndexesPeer(s, peer, c)
    ensures IndexesPeer(Step(s, e).0,
                        if e.Connect? && e.connId == c && peer == None then Some(e.addr)
                        else if e.Disconnect? && e.connId == c then None else peer, c)
  {
    if !e.Connect? && !e.Disconnect? { OthersKeepIndexes(s, e); }
  }

  /** In every run, whatever devices its disconnects name. */
  lemma {:induction false} EveryRunIndexesPeers(events: seq<Event>, n: nat, c: int)
    requires n <= |events|
    ensures IndexesPeer(StateAt(events, n), Peer(events, n, c), c)
  {
    if n > 0 {
      EveryRunIndexesPeers(events, n - 1, c);
      StepIndexesPeer(StateAt(events, n - 1), events[n - 1], Peer(events, n - 1, c), c);
    }
  }
}
