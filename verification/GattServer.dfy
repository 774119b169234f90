/**
 * The GATT server object. A shared pointer to a connection or a pending indication is its
 * number in `connections` or `indications`; what the stack answers to a call is a parameter.
 */
module GattServer {
  import opened Common
  import opened Addresses
  import opened GattServerState

  class GattServer {
    const serverId: int
    var connections: seq<Connection>
    var connIdMap: map<int, nat>
    var connAddrMap: map<string, seq<nat>>
    var indications: seq<Indication>
    var pendingIndications: map<int, nat>

    ghost function View(): State
      reads this
    {
      State(connections, connIdMap, connAddrMap, indications, pendingIndications)
    }

    /** Pointers point to something. */
    ghost predicate Valid()
      reads this
    {
      && (forall c :: c in connIdMap ==> connIdMap[c] < |connections|)
      && (forall d, i :: d in connAddrMap && 0 <= i < |connAddrMap[d]| ==> connAddrMap[d][i] < |connections|)
      && (forall c :: c in pendingIndications ==> pendingIndications[c] < |indications|)
    }

    constructor (serverId: int)
      ensures Valid() && View() == INITIAL && this.serverId == serverId
    {
      this.serverId := serverId;
      connections := [];
      connIdMap := map[];
      connAddrMap := map[];
      indications := [];
      pendingIndications := map[];
    }

    /** Connections of other servers are ignored. */
    method ConnectionCallback(connId: int, server: int, connected: bool, bda: RawAddress)
      requires Valid()
      modifies this
      ensures Valid()
      ensures View() ==
        if server != serverId then old(View())
        else Step(old(View()), if connected then Connect(connId, bda) else Disconnect(connId, bda)).0
    {
      if server != serverId {
        return;
      }
      var device := BtAddrString(bda);
      if !connected {
        connIdMap := connIdMap - {connId};
        if device in connAddrMap {
          var list := EraseConnection(connAddrMap[device], connId);
          connAddrMap := connAddrMap[device := list];
        }
        return;
      }
      if connId in connIdMap {
        return;
      }
      var p := |connections|;
      connections := connections + [Connection(connId, bda, map[])];
      connIdMap := connIdMap[connId := p];
      connAddrMap := connAddrMap[device := (if device in connAddrMap then connAddrMap[device] else []) + [p]];
    }

    /** The loop over a device's connections on a disconnect. */
    method EraseConnection(list: seq<nat>, connId: int) returns (left: seq<nat>)
      requires forall i :: 0 <= i < |list| ==> list[i] < |connections|
      ensures left == Erased(connections, list, connId)
      ensures forall i :: 0 <= i < |left| ==> left[i] < |connections|
    {
      var i := 0;
      while i < |list| && connections[list[i]].connId != connId
        invariant 0 <= i <= |list| && forall j :: 0 <= j < i ==> connections[list[j]].connId != connId
      {
        i := i + 1;
      }
      ErasedSplit(connections, list, connId, i);
      left := if i == |list| then list else list[..i] + list[i + 1..];
    }

    /**
     * The read, write and execute-write callbacks: a request is noted unless it needs no
     * response, under handle -1 for an execute-write, and passed on to the delegate.
     */
    method RequestCallback(connId: int, transId: int, bda: RawAddress, handle: int, needRsp: bool) returns (accepted: bool)
      requires Valid()
      modifies this
      ensures Valid()
      ensures var (s, out) := Step(old(View()), Request(connId, transId, bda, handle, needRsp));
        View() == s && (accepted <==> out == Accepted)
    {
      if connId !in connIdMap {
        return false;
      }
      var p := connIdMap[connId];
      var conn := connections[p];
      if conn.addr != bda {
        return false;
      }
      if transId in conn.requests {
        return false;
      }
      if needRsp {
        connections := connections[p := conn.(requests := conn.requests[transId := handle])];
      }
      return true;
    }

    method SendResponse(device: string, requestId: int, offset: int, value: seq<int>, halOk: bool)
      returns (ok: bool, sent: Output)
      requires Valid()
      modifies this
      ensures Valid()
      ensures (View(), sent) == Step(old(View()), Respond(device, requestId, offset, value, halOk))
      ensures ok <==> sent.Response? && halOk
    {
      sent := Quiet;
      if !IsAddress(device) {
        return false, Quiet;
      }
      if offset < 0 {
        return false, Quiet;
      }
      if |value| + offset > MAX_ATTR_LEN {
        return false, Quiet;
      }
      if device !in connAddrMap {
        return false, Quiet;
      }
      var found := FindWithRequest(connAddrMap[device], requestId);
      if found == None {
        return false, Quiet;
      }
      var conn := connections[found.value];
      var handle := conn.requests[requestId];
      sent := Response(conn.connId, requestId, handle, 0, [], halOk);
      if handle != EXECUTE_WRITE {
        sent := sent.(offset := offset, value := value);
      }
      if !halOk {
        return false, sent;
      }
      connections := connections[found.value := conn.(requests := conn.requests - {requestId})];
      return true, sent;
    }

    /** The loop that looks for the connection with a request; a later one in the list wins. */
    method FindWithRequest(list: seq<nat>, requestId: int) returns (found: Option<nat>)
      requires forall i :: 0 <= i < |list| ==> list[i] < |connections|
      ensures found == LastWith(connections, list, requestId)
      ensures found.Some? ==> found.value < |connections| && requestId in connections[found.value].requests
    {
      found := None;
      for i := 0 to |list|
        invariant found == LastWith(connections, list[..i], requestId)
        invariant found.Some? ==> found.value < |connections| && requestId in connections[found.value].requests
      {
        assert list[..i + 1][..i] == list[..i];
        if requestId in connections[list[i]].requests {
          found := Some(list[i]);
        }
      }
      assert list[..|list|] == list;
    }

    /** `halOks` says, for each connection in the list, whether the stack takes the indication. */
    method SendNotification(device: string, halOks: seq<bool>, hasCallback: bool) returns (ok: bool, ghost sent: Output)
      requires Valid()
      modifies this
      ensures Valid()
      ensures (View(), sent) == Step(old(View()), Notify(device, halOks, hasCallback))
      ensures ok <==> sent.Sending?
    {
      if !IsAddress(device) {
        return false, Quiet;
      }
      if device !in connAddrMap {
        return false, Quiet;
      }
      ok, sent := SendToAll(connAddrMap[device], halOks, hasCallback);
    }

    /** The loop over a device's connections: skip those with an indication pending, count those sent. */
    method SendToAll(list: seq<nat>, halOks: seq<bool>, hasCallback: bool) returns (ok: bool, ghost sent: Output)
      requires Valid() && forall i :: 0 <= i < |list| ==> list[i] < |connections|
      modifies this`indications, this`pendingIndications
      ensures Valid()
      ensures var n := old(|indications|);
        var (pending, conns) := Notified(old(View()), list, halOks, n, |list|);
        && indications == old(indications) + [Indication(false, hasCallback)] && pendingIndications == pending
        && sent == (if conns == {} then Quiet else Sending(n, conns))
        && (ok <==> conns != {})
    {
      ghost var s := View();
      ghost var conns: set<int> := {};
      var pendingInd := |indications|;
      indications := indications + [Indication(false, hasCallback)];
      var sendCount := 0;
      for i := 0 to |list|
        invariant (pendingIndications, conns) == Notified(s, list, halOks, pendingInd, i)
        invariant sendCount >= 0 && (sendCount == 0 <==> conns == {})
        invariant forall c :: c in pendingIndications ==> pendingIndications[c] < |indications|
        invariant indications == s.indications + [Indication(false, hasCallback)]
      {
        var connId := connections[list[i]].connId;
        if connId !in pendingIndications && i < |halOks| && halOks[i] {
          sendCount := sendCount + 1;
          pendingIndications := pendingIndications[connId := pendingInd];
          conns := conns + {connId};
        }
      }
      ok := sendCount != 0;
      sent := if conns == {} then Quiet else Sending(pendingInd, conns);
    }

    method IndicationSentCallback(connId: int, status: int) returns (fired: Output)
      requires Valid()
      modifies this
      ensures Valid()
      ensures (View(), fired) == Step(old(View()), Report(connId, status))
    {
      if connId !in pendingIndications {
        return Quiet;
      }
      var n := pendingIndications[connId];
      pendingIndications := pendingIndications - {connId};
      if status == SUCCESS {
        indications := indications[n := indications[n].(hasSuccess := true)];
      }
      assert indications == old(indications)[n := old(indications)[n].(hasSuccess := indications[n].hasSuccess)];
      var unique := forall d :: d in pendingIndications ==> pendingIndications[d] != n;
      if unique && indications[n].hasCallback {
        return Fired(n, indications[n].hasSuccess, if indications[n].hasSuccess then SUCCESS else status);
      }
      return Quiet;
    }
  }

  /** Up to the first match nothing is erased. */
  lemma {:induction false} ErasedSplit(records: seq<Connection>, list: seq<nat>, c: int, i: nat)
    requires i <= |list| && forall j :: 0 <= j < |list| ==> list[j] < |records|
    requires forall j :: 0 <= j < i ==> records[list[j]].connId != c
    requires i < |list| ==> records[list[i]].connId == c
    ensures Erased(records, list, c) == if i == |list| then list else list[..i] + list[i + 1..]
  {
    if i > 0 {
      ErasedSplit(records, list[1..], c, i - 1);
      assert list == [list[0]] + list[1..];
      if i < |list| { assert list[..i] + list[i + 1..] == [list[0]] + (list[1..][..i - 1] + list[1..][i..]); }
    } else if list != [] {
      assert list[..0] + list[1..] == list[1..];
    }
  }
}
