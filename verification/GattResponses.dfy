/** Over whole runs: which requests are owed a response, and who gets it. */
module GattResponses {
  import opened Common
  import opened Addresses
  import opened GattServerState
  import opened GattConnections

  /** A request with that id is pending on the live connection `c`: the device it came from and its handle. */
  ghost function Owed(s: State, c: int, id: int): Option<(RawAddress, int)> {
    if c in s.byId && s.byId[c] < |s.records| && id in s.records[s.byId[c]].requests
    then Some((s.records[s.byId[c]].addr, s.records[s.byId[c]].requests[id])) else None
  }

  /** A request that the server takes and must answer. */
  predicate Asks(e: Event, out: Output, c: int, id: int) {
    e.Request? && e.connId == c && e.id == id && e.needRsp && out == Accepted
  }

  /** A response that the stack took. */
  predicate Answers(out: Output, c: int, id: int) {
    out.Response? && out.connId == c && out.id == id && out.ok
  }

  /** What settles a pending request: its answer, or the end of its connection. */
  predicate Settles(e: Event, out: Output, c: int, id: int) {
    (e.Disconnect? && e.connId == c) || Answers(out, c, id)
  }

  /** The chosen record: it is in the list, and has the request. */
  lemma {:induction false} LastWithIsListed(records: seq<Connection>, ps: seq<nat>, id: int)
    ensures var p := LastWith(records, ps, id);
      if p.Some? then p.value in ps && p.value < |records| && id in records[p.value].requests
      else forall q :: q in ps && q < |records| ==> id !in records[q].requests
  {
    if ps != [] {
      LastWithIsListed(records, ps[..|ps| - 1], id);
      assert ps == ps[..|ps| - 1] + [ps[|ps| - 1]];
    }
  }

  /** A response handed to the stack is for a live connection of the named device, and a request pending there. */
  lemma {:induction false} ResponseIsOwed(s: State, device: string, id: int, offset: int, value: seq<int>, halOk: bool)
    requires Agree(s)
    ensures var out := RespondStep(s, device, id, offset, value, halOk).1;
      out.Response? ==>
        && Owed(s, out.connId, id).Some? && out.id == id && out.ok == halOk
        && BtAddrString(Owed(s, out.connId, id).value.0) == device
        && Owed(s, out.connId, id).value.1 == out.handle
        && (if out.handle == EXECUTE_WRITE then out.offset == 0 && out.value == []
            else out.offset == offset && out.value == value)
        && 0 <= out.offset && out.offset + |out.value| <= MAX_ATTR_LEN
  {
    if device in s.byAddr {
      var p := LastWith(s.records, s.byAddr[device], id);
      LastWithIsListed(s.records, s.byAddr[device], id);
      if p.Some? {
        var i :| 0 <= i < |s.byAddr[device]| && s.byAddr[device][i] == p.value;
        assert ListedRight(s, device, s.byAddr[device][i]);
      }
    }
  }

  lemma {:induction false} HexPair(x: Octet)
    ensures IsHex(Hex2(x)[0]) && IsHex(Hex2(x)[1])
  {
    assert forall i :: 0 <= i < 16 ==> IsHex(HEX_DIGITS[i]);
  }

  /** `s` is made of `n` hexadecimal pairs, with a colon after each but the last. */
  ghost predicate Pairs(s: string, n: nat) {
    && n > 0 && |s| == 3 * n - 1
    && (forall i :: 0 <= i < n ==> IsHex(s[3 * i]) && IsHex(s[3 * i + 1]))
    && (forall i :: 0 <= i < n - 1 ==> s[3 * i + 2] == ':')
  }

  lemma {:induction false} HexTextPairs(octets: seq<Octet>)
    requires octets != []
    ensures Pairs(HexText(octets), |octets|)
  {
    HexPair(octets[0]);
    if |octets| > 1 {
      var s, rest, n := HexText(octets), HexText(octets[1..]), |octets|;
      HexTextPairs(octets[1..]);
      forall i | 0 <= i < n ensures IsHex(s[3 * i]) && IsHex(s[3 * i + 1]) {
        if i > 0 { assert s[3 * i] == rest[3 * (i - 1)] && s[3 * i + 1] == rest[3 * (i - 1) + 1]; }
      }
      forall i | 0 <= i < n - 1 ensures s[3 * i + 2] == ':' {
        if i > 0 { assert s[3 * i + 2] == rest[3 * (i - 1) + 2]; }
      }
    }
  }

  /** Every address text of a device passes the check that calls make on their argument. */
  lemma {:induction false} BtAddrStringIsAddress(a: RawAddress)
    ensures IsAddress(BtAddrString(a))
  {
    HexTextPairs(a.Octets());
  }

  /**
   * An answer is handed over exactly if its address, offset and size are well formed, and some
   * connection of that device has the request pending.
   */
  lemma {:induction false} RespondsIff(s: State, device: string, id: int, offset: int, value: seq<int>, halOk: bool)
    requires Agree(s)
    ensures RespondStep(s, device, id, offset, value, halOk).1.Response? <==>
            && IsAddress(device) && 0 <= offset && offset + |value| <= MAX_ATTR_LEN
            && exists c :: Owed(s, c, id).Some? && BtAddrString(Owed(s, c, id).value.0) == device
  {
    var out := RespondStep(s, device, id, offset, value, halOk).1;
    ResponseIsOwed(s, device, id, offset, value, halOk);
    if !out.Response? && IsAddress(device) && 0 <= offset && offset + |value| <= MAX_ATTR_LEN {
      if c :| Owed(s, c, id).Some? && BtAddrString(Owed(s, c, id).value.0) == device {
        assert s.byId[c] in s.byAddr[device];
        LastWithIsListed(s.records, s.byAddr[device], id);
        assert false;
      }
    }
  }

  // ---------- How a step changes what is owed ----------

  lemma {:induction false} OtherRecordsOwe(s: State, s': State, x: int, c: int, id: int)
    requires Agree(s) && x in s.byId && c != x && s'.byId == s.byId
    requires forall p :: 0 <= p < |s.records| && p != s.byId[x] ==> p < |s'.records| && s'.records[p] == s.records[p]
    requires |s'.records| == |s.records|
    ensures Owed(s', c, id) == Owed(s, c, id)
  {
    if c in s.byId { assert s.byId[c] != s.byId[x]; }
  }

  lemma {:induction false} RespondOwes(s: State, e: Event, c: int, id: int)
    requires Agree(s) && e.Respond?
    ensures Owed(Step(s, e).0, c, id) == if Answers(Step(s, e).1, c, id) then None else Owed(s, c, id)
  {
    var (s', out) := Step(s, e);
    ResponseIsOwed(s, e.device, e.id, e.offset, e.value, e.halOk);
    if out.Response? && e.halOk {
      var p := LastWith(s.records, s.byAddr[e.device], e.id).value;
      LastWithIsListed(s.records, s.byAddr[e.device], e.id);
      var i :| 0 <= i < |s.byAddr[e.device]| && s.byAddr[e.device][i] == p;
      assert ListedRight(s, e.device, s.byAddr[e.device][i]);
      if c != out.connId { OtherRecordsOwe(s, s', out.connId, c, id); }
    }
  }

  lemma {:induction false} RequestOwes(s: State, e: Event, c: int, id: int)
    requires Agree(s) && e.Request?
    ensures Owed(Step(s, e).0, c, id)
            == if Asks(e, Step(s, e).1, c, id) then Some((e.addr, e.handle)) else Owed(s, c, id)
  {
    var p := GetConnection(s, e.connId, e.addr, e.id);
    if p.Some? && e.needRsp && c != e.connId { OtherRecordsOwe(s, Step(s, e).0, e.connId, c, id); }
  }

  /** A step makes a request owed only by taking it, and settles it only by its answer or its disconnect. */
  lemma {:induction false} StepOwes(s: State, e: Event, c: int, id: int)
    requires Agree(s)
    ensures var (s', out) := Step(s, e);
      Owed(s', c, id)
      == if Asks(e, out, c, id) then Some((e.addr, e.handle))
         else if Settles(e, out, c, id) then None
         else Owed(s, c, id)
  {
    match e
    case Request(x, i, a, h, needRsp) => RequestOwes(s, e, c, id);
    case Respond(device, i, offset, value, halOk) => RespondOwes(s, e, c, id);
    case _ => OthersOwe(s, e, c, id);
  }

  lemma {:induction false} OthersOwe(s: State, e: Event, c: int, id: int)
    requires Agree(s) && !e.Request? && !e.Respond?
    ensures Owed(Step(s, e).0, c, id) == if e.Disconnect? && e.connId == c then None else Owed(s, c, id)
    ensures !Step(s, e).1.Response? && Step(s, e).1 != Accepted
  {
  }

  // ---------- Whole runs ----------

  /** Request number m is still open before event n: taken from `a`, and not settled since. */
  ghost predicate OpenSince(events: seq<Event>, outs: seq<Output>, m: nat, n: nat, c: int, id: int,
                            a: RawAddress, handle: int)
    requires n <= |events| == |outs|
  {
    && m < n
    && events[m] == Request(c, id, a, handle, true) && outs[m] == Accepted
    && (forall k :: m < k < n ==> !Settles(events[k], outs[k], c, id))
  }

  lemma {:induction false} OwedAfter(events: seq<Event>, outs: seq<Output>, n: nat, c: int, id: int)
    requires Gives(events, outs) && RightDevices(events) && n < |events|
    ensures Owed(StateAt(events, n + 1), c, id)
            == if Asks(events[n], outs[n], c, id) then Some((events[n].addr, events[n].handle))
               else if Settles(events[n], outs[n], c, id) then None
               else Owed(StateAt(events, n), c, id)
  {
    assert outs[n] == OutputAt(events, n);
    EveryRunAgrees(events, n);
    StepOwes(StateAt(events, n), events[n], c, id);
  }

  lemma {:induction false} OwedSinceRequest(events: seq<Event>, outs: seq<Output>, n: nat, c: int, id: int) returns (m: nat)
    requires Gives(events, outs) && RightDevices(events) && n <= |events|
    requires Owed(StateAt(events, n), c, id).Some?
    ensures var (a, handle) := Owed(StateAt(events, n), c, id).value;
      OpenSince(events, outs, m, n, c, id, a, handle)
  {
    var (a, handle) := Owed(StateAt(events, n), c, id).value;
    m := n - 1;
    OwedAfter(events, outs, n - 1, c, id);
    if !Asks(events[n - 1], outs[n - 1], c, id) {
      m := OwedSinceRequest(events, outs, n - 1, c, id);
      StaysOpen(events, outs, m, n - 1, c, id, a, handle);
    }
  }

  lemma {:induction false} StaysOpen(events: seq<Event>, outs: seq<Output>, m: nat, n: nat, c: int, id: int,
                                     a: RawAddress, handle: int)
    requires n < |events| == |outs| && OpenSince(events, outs, m, n, c, id, a, handle)
    requires !Settles(events[n], outs[n], c, id)
    ensures OpenSince(events, outs, m, n + 1, c, id, a, handle)
  {
  }

  /**
   * In every run: a response handed to the stack answers a request that came in on that very
   * connection from the named device, carries its handle, and the request has neither been
   * answered nor lost its connection since.
   */
  lemma {:induction false} EveryResponseIsOwed(events: seq<Event>, outs: seq<Output>, n: nat) returns (m: nat, a: RawAddress)
    requires Gives(events, outs) && RightDevices(events) && n < |events|
    requires events[n].Respond? && outs[n].Response?
    ensures OpenSince(events, outs, m, n, outs[n].connId, outs[n].id, a, outs[n].handle)
    ensures BtAddrString(a) == events[n].device
  {
    var s, e := StateAt(events, n), events[n];
    assert outs[n] == OutputAt(events, n);
    EveryRunAgrees(events, n);
    ResponseIsOwed(s, e.device, e.id, e.offset, e.value, e.halOk);
    m := OwedSinceRequest(events, outs, n, outs[n].connId, outs[n].id);
    a := Owed(s, outs[n].connId, outs[n].id).value.0;
  }

  /** So between an answer to a connection and id, or a disconnect, and the next answer, a new request came in. */
  lemma {:induction false} NeverAnsweredTwice(events: seq<Event>, outs: seq<Output>, k: nat, n: nat)
    requires Gives(events, outs) && RightDevices(events) && k < n < |events|
    requires events[n].Respond? && outs[n].Response?
    requires Settles(events[k], outs[k], outs[n].connId, outs[n].id)
    ensures exists m :: k < m < n && Asks(events[m], outs[m], outs[n].connId, outs[n].id)
  {
    var m, a := EveryResponseIsOwed(events, outs, n);
    assert Asks(events[m], outs[m], outs[n].connId, outs[n].id);
  }

  // ---------- Which requests are taken ----------

  /** A request that is open is pending. */
  lemma {:induction false} OpenIsOwed(events: seq<Event>, outs: seq<Output>, m: nat, n: nat, c: int, id: int,
                                      a: RawAddress, handle: int)
    requires Gives(events, outs) && RightDevices(events) && n <= |events|
    requires OpenSince(events, outs, m, n, c, id, a, handle)
    ensures Owed(StateAt(events, n), c, id).Some?
  {
    OwedAfter(events, outs, n - 1, c, id);
    if m < n - 1 {
      OpenBefore(events, outs, m, n, c, id, a, handle);
      OpenIsOwed(events, outs, m, n - 1, c, id, a, handle);
    } else {
      assert Asks(events[n - 1], outs[n - 1], c, id);
    }
  }

  lemma {:induction false} OpenBefore(events: seq<Event>, outs: seq<Output>, m: nat, n: nat, c: int, id: int,
                                      a: RawAddress, handle: int)
    requires m < n - 1 && n <= |events| == |outs| && OpenSince(events, outs, m, n, c, id, a, handle)
    ensures OpenSince(events, outs, m, n - 1, c, id, a, handle) && !Settles(events[n - 1], outs[n - 1], c, id)
  {
  }

  /** Some request of that id on that connection waits for its answer. */
  ghost predicate SomeOpen(events: seq<Event>, outs: seq<Output>, n: nat, c: int, id: int)
    requires n <= |events| == |outs|
  {
    exists m: nat, a, handle :: OpenSince(events, outs, m, n, c, id, a, handle)
  }

  lemma {:induction false} OwedIffOpen(events: seq<Event>, outs: seq<Output>, n: nat, c: int, id: int)
    requires Gives(events, outs) && RightDevices(events) && n <= |events|
    ensures Owed(StateAt(events, n), c, id).Some? <==> SomeOpen(events, outs, n, c, id)
  {
    if Owed(StateAt(events, n), c, id).Some? {
      var m := OwedSinceRequest(events, outs, n, c, id);
    } else if SomeOpen(events, outs, n, c, id) {
      var m: nat, a, handle :| OpenSince(events, outs, m, n, c, id, a, handle);
      OpenIsOwed(events, outs, m, n, c, id, a, handle);
    }
  }

  /**
   * In every run: a request is taken, and told to the delegate, exactly if its connection stands
   * for the device it names and no request of that id waits there for its answer.
   */
  lemma {:induction false} RequestTakenIff(events: seq<Event>, outs: seq<Output>, n: nat)
    requires Gives(events, outs) && RightDevices(events) && n < |events| && events[n].Request?
    ensures var e := events[n];
      outs[n] == Accepted <==> Peer(events, n, e.connId) == Some(e.addr) && !SomeOpen(events, outs, n, e.connId, e.id)
  {
    var e := events[n];
    assert outs[n] == OutputAt(events, n);
    EveryRunIndexesPeers(events, n, e.connId);
    OwedIffOpen(events, outs, n, e.connId, e.id);
  }
}
