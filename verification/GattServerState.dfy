/**
 * The GATT server's bookkeeping as a state machine. Connections are records shared by two
 * indexes, by connection id and by device address text; a shared pointer is the number of
 * the record it points to. Each callback or call is one step under the server's mutex.
 */
module GattServerState {
  import opened Common
  import opened Addresses

  datatype Connection = Connection(connId: int, addr: RawAddress, requests: map<int, int>)

  datatype Indication = Indication(hasSuccess: bool, hasCallback: bool)

  datatype State = State(
    records: seq<Connection>,             // every connection record ever made
    byId: map<int, nat>,                  // conn_id_map_
    byAddr: map<string, seq<nat>>,        // conn_addr_map_
    indications: seq<Indication>,         // every pending indication ever made
    pending: map<int, nat>)               // pending_indications_, by connection id

  const INITIAL := State([], map[], map[], [], map[])

  const MAX_ATTR_LEN := 600
  const EXECUTE_WRITE := -1
  const SUCCESS := 0

  datatype Event =
    | Connect(connId: int, addr: RawAddress)
    | Disconnect(connId: int, addr: RawAddress)
    | Request(connId: int, id: int, addr: RawAddress, handle: int, needRsp: bool)
    | Respond(device: string, id: int, offset: int, value: seq<int>, halOk: bool)
    | Notify(device: string, halOks: seq<bool>, hasCallback: bool)
    | Report(connId: int, status: int)

  /** What a step gives out, to the stack or to whoever called. */
  datatype Output =
    | Quiet                                                     // ignored, or refused with false
    | Accepted                                                  // a request passed on to the delegate
    | Response(connId: int, id: int, handle: int, offset: int, value: seq<int>, ok: bool)
    | Sending(indication: nat, conns: set<int>)                 // true: sent on these connections
    | Fired(indication: nat, success: bool, status: int)        // the callback is run

  // ---------- Addresses as texts ----------

  predicate IsHex(c: char) {
    '0' <= c <= '9' || 'A' <= c <= 'F' || 'a' <= c <= 'f'
  }

  /** Two characters that strtol, base 16, reads up to a NUL: a digit may follow a sign, and a NUL ends the text. */
  predicate IsToken(x: char, y: char) {
    || ((IsHex(x) || x == '+' || x == '-') && IsHex(y))
    || (IsHex(x) && y == '\0')
    || (x == '\0' && y != ':' && y != ' ' && !('\t' <= y <= '\r'))
  }

  /** What RawAddress::FromString accepts: six such tokens between colons. */
  predicate IsAddress(s: string) {
    && |s| == 17
    && (forall i :: 0 <= i < 5 ==> s[3 * i + 2] == ':')
    && (forall i :: 0 <= i < 6 ==> IsToken(s[3 * i], s[3 * i + 1]))
  }

  // ---------- The steps ----------

  function ConnectStep(s: State, c: int, a: RawAddress): State {
    if c in s.byId then s
    else
      var p := |s.records|;
      var device := BtAddrString(a);
      s.(records := s.records + [Connection(c, a, map[])],
         byId := s.byId[c := p],
         byAddr := s.byAddr[device := (if device in s.byAddr then s.byAddr[device] else []) + [p]])
  }

  /** The list without its first record of connection `c`. */
  function Erased(records: seq<Connection>, ps: seq<nat>, c: int): seq<nat> {
    if ps == [] then []
    else if ps[0] < |records| && records[ps[0]].connId == c then ps[1..]
    else [ps[0]] + Erased(records, ps[1..], c)
  }

  /** A pending indication is left alone. */
  function DisconnectStep(s: State, c: int, a: RawAddress): State {
    var device := BtAddrString(a);
    var s1 := s.(byId := s.byId - {c});
    if device in s.byAddr then s1.(byAddr := s.byAddr[device := Erased(s.records, s.byAddr[device], c)]) else s1
  }

  /** The record a request belongs to: known, of that device, and without a pending request of that id. */
  function GetConnection(s: State, c: int, a: RawAddress, id: int): Option<nat> {
    if c in s.byId && s.byId[c] < |s.records| && s.records[s.byId[c]].addr == a && id !in s.records[s.byId[c]].requests
    then Some(s.byId[c]) else None
  }

  function RequestStep(s: State, c: int, id: int, a: RawAddress, handle: int, needRsp: bool): (State, Output) {
    var p := GetConnection(s, c, a, id);
    if p == None then (s, Quiet)
    else if !needRsp then (s, Accepted)
    else
      var conn := s.records[p.value];
      (s.(records := s.records[p.value := conn.(requests := conn.requests[id := handle])]), Accepted)
  }

  /** The last record in the list with a pending request `id`. */
  function LastWith(records: seq<Connection>, ps: seq<nat>, id: int): Option<nat> {
    if ps == [] then None
    else
      var p := ps[|ps| - 1];
      if p < |records| && id in records[p].requests then Some(p) else LastWith(records, ps[..|ps| - 1], id)
  }

  function RespondStep(s: State, device: string, id: int, offset: int, value: seq<int>, halOk: bool): (State, Output) {
    if !IsAddress(device) || offset < 0 || |value| + offset > MAX_ATTR_LEN || device !in s.byAddr then (s, Quiet)
    else
      var p := LastWith(s.records, s.byAddr[device], id);
      if p == None || p.value >= |s.records| || id !in s.records[p.value].requests then (s, Quiet)
      else
        var conn := s.records[p.value];
        var handle := conn.requests[id];
        var out := Response(conn.connId, id, handle,
                            if handle == EXECUTE_WRITE then 0 else offset,
                            if handle == EXECUTE_WRITE then [] else value, halOk);
        (if halOk then s.(records := s.records[p.value := conn.(requests := conn.requests - {id})]) else s, out)
  }

  /** The pending map, and the connections sent on, after the first `i` records of the list. */
  function Notified(s: State, ps: seq<nat>, halOks: seq<bool>, indication: nat, i: nat): (map<int, nat>, set<int>)
    requires i <= |ps|
  {
    if i == 0 then (s.pending, {})
    else
      var (pending, sent) := Notified(s, ps, halOks, indication, i - 1);
      var p := ps[i - 1];
      if p >= |s.records| || s.records[p].connId in pending || i - 1 >= |halOks| || !halOks[i - 1] then (pending, sent)
      else (pending[s.records[p].connId := indication], sent + {s.records[p].connId})
  }

  function NotifyStep(s: State, device: string, halOks: seq<bool>, hasCallback: bool): (State, Output) {
    if !IsAddress(device) || device !in s.byAddr then (s, Quiet)
    else
      var n := |s.indications|;
      var (pending, sent) := Notified(s, s.byAddr[device], halOks, n, |s.byAddr[device]|);
      (s.(indications := s.indications + [Indication(false, hasCallback)], pending := pending),
       if sent == {} then Quiet else Sending(n, sent))
  }

  /** The callback runs if no other connection still holds the indication. */
  function ReportStep(s: State, c: int, status: int): (State, Output) {
    if c !in s.pending || s.pending[c] >= |s.indications| then (s, Quiet)
    else
      var n := s.pending[c];
      var pending := s.pending - {c};
      var success := s.indications[n].hasSuccess || status == SUCCESS;
      (s.(pending := pending, indications := s.indications[n := s.indications[n].(hasSuccess := success)]),
       if (forall d :: d in pending ==> pending[d] != n) && s.indications[n].hasCallback
       then Fired(n, success, if success then SUCCESS else status) else Quiet)
  }

  function Step(s: State, e: Event): (State, Output) {
    match e
    case Connect(c, a) => (ConnectStep(s, c, a), Quiet)
    case Disconnect(c, a) => (DisconnectStep(s, c, a), Quiet)
    case Request(c, id, a, handle, needRsp) => RequestStep(s, c, id, a, handle, needRsp)
    case Respond(device, id, offset, value, halOk) => RespondStep(s, device, id, offset, value, halOk)
    case Notify(device, halOks, hasCallback) => NotifyStep(s, device, halOks, hasCallback)
    case Report(c, status) => ReportStep(s, c, status)
  }

  /** The state before event number n of a run. */
  function StateAt(events: seq<Event>, n: nat): State
    requires n <= |events|
  {
    if n == 0 then INITIAL else Step(StateAt(events, n - 1), events[n - 1]).0
  }

  function OutputAt(events: seq<Event>, n: nat): Output
    requires n < |events|
  {
    Step(StateAt(events, n), events[n]).1
  }

  /** `outs` lists the outputs of the run. */
  ghost predicate Gives(events: seq<Event>, outs: seq<Output>) {
    |outs| == |events| && forall n {:trigger OutputAt(events, n)} :: 0 <= n < |events| ==> outs[n] == OutputAt(events, n)
  }
}
