/**
 * Blob characteristics of the older GATT server: values longer than an attribute are read
 * in sections chosen through a control attribute, from a value latched by the first read.
 */
module GattBlobs {
  import opened Common

  const MAX_ATTRIBUTE: nat := 512

  datatype Characteristic = Characteristic(
    blob: seq<Octet>, nextBlob: seq<Octet>, pending: bool, section: nat)

  /** What an unknown handle is taken for, and inserted as. */
  const FRESH := Characteristic([], [], false, 0)

  datatype State = State(characteristics: map<int, Characteristic>, controlled: map<int, int>)

  function At(s: State, attr: int): Characteristic {
    if attr in s.characteristics then s.characteristics[attr] else FRESH
  }

  function Put(s: State, attr: int, ch: Characteristic): State {
    s.(characteristics := s.characteristics[attr := ch])
  }

  /** A read at the very start takes over a value set since. */
  predicate Latches(ch: Characteristic, offset: nat) {
    ch.pending && offset == 0 && ch.section == 0
  }

  function Latched(ch: Characteristic, offset: nat): Characteristic {
    if Latches(ch, offset) then ch.(blob := ch.nextBlob, nextBlob := ch.blob, pending := false) else ch
  }

  /** The octets a read answers with. */
  function Answer(blob: seq<Octet>, section: nat, offset: nat): seq<Octet> {
    var start := Min(|blob|, section * MAX_ATTRIBUTE);
    var size := Min(MAX_ATTRIBUTE, |blob| - start);
    if offset < size then blob[start + offset..start + size] else []
  }

  /** vector::resize: cut, or padded with zeros. */
  function Resized(b: seq<Octet>, n: nat): (r: seq<Octet>)
    ensures |r| == n
  {
    if n <= |b| then b[..n] else b + seq(n - |b|, _ => 0)
  }

  function Written(b: seq<Octet>, offset: nat, value: seq<Octet>): seq<Octet> {
    Resized(b, offset + |value|)[..offset] + value
  }

  datatype Event =
    | Read(attr: int, offset: nat)
    | Write(attr: int, offset: nat, value: seq<Octet>)
    | SetValue(attr: int, value: seq<Octet>)
    | AddBlob(attr: int, control: int)

  function WriteStep(s: State, attr: int, offset: nat, value: seq<Octet>): State {
    var blob := Written(At(s, attr).blob, offset, value);
    var s1 := Put(s, attr, At(s, attr).(blob := blob));
    if attr in s.controlled && |blob| == 1
    then Put(s1, s.controlled[attr], At(s1, s.controlled[attr]).(section := blob[0]))
    else s1
  }

  function Step(s: State, e: Event): State {
    match e
    case Read(attr, offset) => Put(s, attr, Latched(At(s, attr), offset))
    case Write(attr, offset, value) => WriteStep(s, attr, offset, value)
    case SetValue(attr, value) => Put(s, attr, At(s, attr).(nextBlob := value, pending := true))
    case AddBlob(attr, control) =>
      var s1 := Put(s, attr, At(s, attr).(section := 0));
      Put(s1, control, At(s1, control).(nextBlob := [0], pending := true, section := 0))
      .(controlled := s.controlled[control := attr])
  }

  /** The answer to a read, in the state it meets. */
  function Reply(s: State, attr: int, offset: nat): seq<Octet> {
    var ch := Latched(At(s, attr), offset);
    Answer(ch.blob, ch.section, offset)
  }

  /** The state after the first n events of a run. */
  function Run(s: State, events: seq<Event>, n: nat): State
    requires n <= |events|
  {
    if n == 0 then s else Step(Run(s, events, n - 1), events[n - 1])
  }

  // ---------- The object ----------

  class ServerInternals {
    var characteristics: map<int, Characteristic>
    var controlledBlobs: map<int, int>

    ghost function View(): State
      reads this
    {
      State(characteristics, controlledBlobs)
    }

    constructor ()
      ensures View() == State(map[], map[])
    {
      characteristics := map[];
      controlledBlobs := map[];
    }

    /** A blob characteristic and, right after it, its control attribute, which reads as zero at first. */
    method AddBlob(attr: int, control: int)
      modifies this
      ensures View() == Step(old(View()), Event.AddBlob(attr, control))
    {
      var ch := if attr in characteristics then characteristics[attr] else FRESH;
      characteristics := characteristics[attr := ch.(section := 0)];
      controlledBlobs := controlledBlobs[control := attr];
      var ctrl := if control in characteristics then characteristics[control] else FRESH;
      characteristics := characteristics[control := ctrl.(nextBlob := [0], pending := true, section := 0)];
    }

    method RequestRead(attr: int, offset: nat) returns (value: seq<Octet>)
      modifies this
      ensures View() == Step(old(View()), Read(attr, offset))
      ensures value == Reply(old(View()), attr, offset)
      ensures |value| <= MAX_ATTRIBUTE
    {
      var ch := if attr in characteristics then characteristics[attr] else FRESH;
      if ch.pending && offset == 0 && ch.section == 0 {
        ch := ch.(blob := ch.nextBlob, nextBlob := ch.blob);
        ch := ch.(pending := false);
      }
      characteristics := characteristics[attr := ch];
      var blobOffset := Min(|ch.blob|, ch.section * MAX_ATTRIBUTE);
      var remaining := |ch.blob| - blobOffset;
      var size := Min(MAX_ATTRIBUTE, remaining);
      value := [];
      if offset < size {
        value := ch.blob[blobOffset + offset..blobOffset + size];
      }
    }

    /** Whoever waits for writes is woken by one that is complete, unless it only chooses a section. */
    method RequestWrite(attr: int, offset: nat, value: seq<Octet>, needRsp: bool, isPrep: bool)
      returns (response: Option<seq<Octet>>, wakes: bool)
      modifies this
      ensures View() == Step(old(View()), Write(attr, offset, value))
      ensures response == if needRsp then Some(value) else None
      ensures wakes <==> !isPrep && !(attr in old(controlledBlobs) && offset + |value| == 1)
    {
      wakes := false;
      var ch := if attr in characteristics then characteristics[attr] else FRESH;
      ch := ch.(blob := Resized(ch.blob, offset + |value|)[..offset] + value);
      characteristics := characteristics[attr := ch];
      if attr in controlledBlobs && |ch.blob| == 1 {
        var target := controlledBlobs[attr];
        var t := if target in characteristics then characteristics[target] else FRESH;
        characteristics := characteristics[target := t.(section := ch.blob[0])];
      } else if !isPrep {
        wakes := true;
      }
      response := if needRsp then Some(value) else None;
    }

    method SetCharacteristicValue(attr: int, value: seq<Octet>)
      modifies this
      ensures View() == Step(old(View()), SetValue(attr, value))
    {
      var ch := if attr in characteristics then characteristics[attr] else FRESH;
      characteristics := characteristics[attr := ch.(nextBlob := value, pending := true)];
    }
  }

  /** A write keeps what was before its offset, padded with zeros, and ends with its value. */
  lemma {:induction false} WrittenIs(b: seq<Octet>, offset: nat, value: seq<Octet>)
    ensures var w := Written(b, offset, value);
      && |w| == offset + |value| && w[offset..] == value
      && (forall i :: 0 <= i < offset ==> w[i] == if i < |b| then b[i] else 0)
  {
  }

  /** A write leaves its value at its offset, after what was there before; a control attribute may be its own. */
  lemma {:induction false} WriteContents(s: State, attr: int, offset: nat, value: seq<Octet>)
    ensures var b, before := At(Step(s, Write(attr, offset, value)), attr).blob, At(s, attr).blob;
      && |b| == offset + |value| && b[offset..] == value
      && (forall i :: 0 <= i < offset ==> b[i] == if i < |before| then before[i] else 0)
  {
    WrittenIs(At(s, attr).blob, offset, value);
    WriteBlob(s, attr, offset, value);
  }

  lemma {:induction false} WriteBlob(s: State, attr: int, offset: nat, value: seq<Octet>)
    ensures At(Step(s, Write(attr, offset, value)), attr).blob == Written(At(s, attr).blob, offset, value)
  {
  }

  /** It touches no other attribute, but for the section of the one it controls, and that only if it is one octet long. */
  lemma {:induction false} WriteTouches(s: State, attr: int, offset: nat, value: seq<Octet>, x: int)
    ensures var s' := Step(s, Write(attr, offset, value));
      && s'.controlled == s.controlled
      && (x != attr ==> At(s', x).blob == At(s, x).blob)
      && At(s', x).nextBlob == At(s, x).nextBlob && At(s', x).pending == At(s, x).pending
      && (if attr in s.controlled && s.controlled[attr] == x && offset + |value| == 1
          then [At(s', x).section] == At(s', attr).blob
          else At(s', x).section == At(s, x).section)
  {
  }

  /** A new control attribute reads as zero, and controls its blob, which starts at section 0. */
  lemma {:induction false} ControlReadsZero(s: State, attr: int, control: int)
    ensures var s' := Step(s, AddBlob(attr, control));
      && Reply(s', control, 0) == [0]
      && control in s'.controlled && s'.controlled[control] == attr
      && At(s', attr).section == 0 && At(s', attr).blob == At(s, attr).blob
      && (forall x :: x != attr && x != control ==> At(s', x) == At(s, x))
  {
  }

  // ---------- Until the next latch, nothing but a write changes what is read ----------

  /** A write to the characteristic, or a read that latches a new value. */
  predicate Disturbs(s: State, e: Event, attr: int) {
    e.attr == attr && (e.Write? || (e.Read? && Latches(At(s, attr), e.offset)))
  }

  ghost predicate Undisturbed(s: State, events: seq<Event>, attr: int, m: nat, n: nat)
    requires m <= n <= |events|
  {
    n == m || (Undisturbed(s, events, attr, m, n - 1) && !Disturbs(Run(s, events, n - 1), events[n - 1], attr))
  }

  /**
   * However values are set, other attributes read or written and sections chosen: until a
   * read at the start latches again, every read answers from the same value.
   */
  lemma {:induction false} ReadsSeeTheLatchedValue(s: State, events: seq<Event>, attr: int, m: nat, n: nat, offset: nat)
    requires m <= n <= |events| && Undisturbed(s, events, attr, m, n)
    ensures At(Run(s, events, n), attr).blob == At(Run(s, events, m), attr).blob
    ensures var now := At(Run(s, events, n), attr);
      !Latches(now, offset) ==>
        Reply(Run(s, events, n), attr, offset) == Answer(At(Run(s, events, m), attr).blob, now.section, offset)
  {
    if m < n {
      ReadsSeeTheLatchedValue(s, events, attr, m, n - 1, offset);
      StepKeepsBlob(Run(s, events, n - 1), events[n - 1], attr);
    }
  }

  lemma {:induction false} StepKeepsBlob(s: State, e: Event, attr: int)
    requires !Disturbs(s, e, attr)
    ensures At(Step(s, e), attr).blob == At(s, attr).blob
  {
  }

  // ---------- A read at the start takes over what was set ----------

  /** The event gives the attribute a new value, which waits for a read. */
  predicate Sets(e: Event, attr: int) {
    (e.SetValue? && e.attr == attr) || (e.AddBlob? && e.control == attr)
  }

  function SetTo(e: Event): seq<Octet> {
    if e.SetValue? then e.value else [0]
  }

  /** The event is a read at the very start of the attribute. */
  predicate ReadsStart(s: State, e: Event, attr: int) {
    e == Read(attr, 0) && At(s, attr).section == 0
  }

  /** Between k and n the attribute is neither set again nor read from the start. */
  ghost predicate SetLast(s: State, events: seq<Event>, attr: int, k: nat, n: nat)
    requires k < n <= |events|
  {
    if n == k + 1 then Sets(events[k], attr)
    else
      && SetLast(s, events, attr, k, n - 1)
      && !Sets(events[n - 1], attr) && !ReadsStart(Run(s, events, n - 1), events[n - 1], attr)
  }

  lemma {:induction false} SetWaits(s: State, events: seq<Event>, attr: int, k: nat, n: nat)
    requires k < n <= |events| && SetLast(s, events, attr, k, n)
    ensures At(Run(s, events, n), attr).pending && At(Run(s, events, n), attr).nextBlob == SetTo(events[k])
  {
    if k < n - 1 { SetWaits(s, events, attr, k, n - 1); }
  }

  /** The value set at k is taken over by the read at m. */
  ghost predicate TakenOver(s: State, events: seq<Event>, attr: int, k: nat, m: nat)
    requires k < m < |events|
  {
    SetLast(s, events, attr, k, m) && ReadsStart(Run(s, events, m), events[m], attr)
  }

  /** The first read at the start, after a value is set, answers that value, as far as it fits. */
  lemma {:induction false} ReadAnswersWhatWasSet(s: State, events: seq<Event>, attr: int, k: nat, m: nat)
    requires k < m < |events| && TakenOver(s, events, attr, k, m)
    ensures var v := SetTo(events[k]);
      && Reply(Run(s, events, m), attr, 0) == v[..Min(|v|, MAX_ATTRIBUTE)]
      && At(Run(s, events, m + 1), attr).blob == v && !At(Run(s, events, m + 1), attr).pending
  {
    SetWaits(s, events, attr, k, m);
  }

  predicate Writes(e: Event, attr: int) { e.Write? && e.attr == attr }

  /** The attribute is set after position m and before n. */
  predicate SetBetween(events: seq<Event>, attr: int, m: nat, n: nat)
    requires m < n <= |events|
  {
    n > m + 1 && (SetBetween(events, attr, m, n - 1) || Sets(events[n - 1], attr))
  }

  /** After position m and before n no value is set and then read from the start. */
  ghost predicate NoneTakenOver(s: State, events: seq<Event>, attr: int, m: nat, n: nat)
    requires m < n <= |events|
  {
    n == m + 1 ||
    (&& NoneTakenOver(s, events, attr, m, n - 1)
     && (SetBetween(events, attr, m, n - 1) ==> !ReadsStart(Run(s, events, n - 1), events[n - 1], attr)))
  }

  predicate NoneWritten(events: seq<Event>, attr: int, m: nat, n: nat)
    requires m < n <= |events|
  {
    n == m + 1 || (NoneWritten(events, attr, m, n - 1) && !Writes(events[n - 1], attr))
  }

  /** From then on the attribute has that value, until it is written or another is set and taken over. */
  lemma {:induction false} ValueIsWhatWasSet(s: State, events: seq<Event>, attr: int, k: nat, m: nat, n: nat)
    requires k < m < n <= |events| && TakenOver(s, events, attr, k, m)
    requires NoneWritten(events, attr, m, n) && NoneTakenOver(s, events, attr, m, n)
    ensures At(Run(s, events, n), attr).blob == SetTo(events[k])
    ensures At(Run(s, events, n), attr).pending ==> SetBetween(events, attr, m, n)
  {
    if m == n - 1 {
      ReadAnswersWhatWasSet(s, events, attr, k, m);
    } else {
      ValueIsWhatWasSet(s, events, attr, k, m, n - 1);
      KeptByStep(Run(s, events, n - 1), events[n - 1], attr);
    }
  }

  lemma {:induction false} KeptByStep(s: State, e: Event, attr: int)
    requires !Writes(e, attr) && (At(s, attr).pending ==> !ReadsStart(s, e, attr))
    ensures At(Step(s, e), attr).blob == At(s, attr).blob
    ensures At(Step(s, e), attr).pending ==> At(s, attr).pending || Sets(e, attr)
  {
  }

  /**
   * So every later read answers from it: in every run, once a value that was set has been taken
   * over, and until it is written or another is set and taken over, a read at any offset answers
   * the rest of the chosen section of that value.
   */
  lemma {:induction false} ReadsAnswerWhatWasSet(s: State, events: seq<Event>, attr: int, k: nat, m: nat, n: nat, offset: nat)
    requires k < m < n < |events| && TakenOver(s, events, attr, k, m) && events[n] == Read(attr, offset)
    requires NoneWritten(events, attr, m, n) && NoneTakenOver(s, events, attr, m, n + 1)
    ensures var rest := Section(SetTo(events[k]), At(Run(s, events, n), attr).section);
      Reply(Run(s, events, n), attr, offset) == if offset <= |rest| then rest[offset..] else []
  {
    ValueIsWhatWasSet(s, events, attr, k, m, n);
    assert !Latches(At(Run(s, events, n), attr), offset);
    AnswerIsRest(SetTo(events[k]), At(Run(s, events, n), attr).section, offset);
  }

  // ---------- Reassembly ----------

  /** The octets of section k. */
  function Section(v: seq<Octet>, k: nat): seq<Octet> {
    v[Min(|v|, k * MAX_ATTRIBUTE)..Min(|v|, (k + 1) * MAX_ATTRIBUTE)]
  }

  /** A read at an offset answers with the rest of the section from there. */
  lemma {:induction false} AnswerIsRest(v: seq<Octet>, k: nat, offset: nat)
    ensures |Section(v, k)| <= MAX_ATTRIBUTE
    ensures Answer(v, k, offset) == if offset <= |Section(v, k)| then Section(v, k)[offset..] else []
  {
    assert (k + 1) * MAX_ATTRIBUTE == k * MAX_ATTRIBUTE + MAX_ATTRIBUTE;
    var start := Min(|v|, k * MAX_ATTRIBUTE);
    var size := Min(MAX_ATTRIBUTE, |v| - start);
    assert Min(|v|, (k + 1) * MAX_ATTRIBUTE) == start + size;
    if offset <= size { assert Section(v, k)[offset..] == v[start + offset..start + size]; }
  }

  /** Sections 0 to n - 1, one after the other. */
  function Sections(v: seq<Octet>, n: nat): seq<Octet> {
    if n == 0 then [] else Sections(v, n - 1) + Section(v, n - 1)
  }

  lemma {:induction false} SectionsArePrefix(v: seq<Octet>, n: nat)
    ensures Sections(v, n) == v[..Min(|v|, n * MAX_ATTRIBUTE)]
  {
    if n > 0 {
      SectionsArePrefix(v, n - 1);
      assert n * MAX_ATTRIBUTE == (n - 1) * MAX_ATTRIBUTE + MAX_ATTRIBUTE;
      var a, b := Min(|v|, (n - 1) * MAX_ATTRIBUTE), Min(|v|, n * MAX_ATTRIBUTE);
      assert v[..a] + v[a..b] == v[..b];
    }
  }

  /** All the sections a one-octet section number can name give back exactly the values of up to 128 KiB. */
  lemma {:induction false} WholeBlobIff(v: seq<Octet>)
    ensures Sections(v, 256) == v <==> |v| <= 256 * MAX_ATTRIBUTE
  {
    SectionsArePrefix(v, 256);
    if |v| <= 256 * MAX_ATTRIBUTE { assert v[..|v|] == v; }
  }

  // ---------- A client that reads section by section, in any run ----------

  /**
   * A client's place in its sweep: the section it has chosen (-1 before the first), what it has
   * of it, whether its last answer came whole, and the sections before, joined.
   */
  datatype Client = Client(section: int, buffer: seq<Octet>, whole: bool, total: seq<Octet>)

  const BEGIN := Client(-1, [], true, [])

  /** The client writes the number of the next section to the control attribute. */
  predicate Chooses(c: Client, e: Event, control: int) {
    -1 <= c.section < 255 && e == Write(control, 0, [c.section + 1])
  }

  /** An answer is taken into the buffer at its offset; the link may cut it to `cut` octets. */
  function ClientStep(s: State, c: Client, e: Event, cut: nat, attr: int, control: int): Client
    requires -1 <= c.section
  {
    if Chooses(c, e, control) then Client(c.section + 1, [], false, c.total + c.buffer)
    else if e.Read? && e.attr == attr then
      var reply := Reply(s, attr, e.offset);
      c.(buffer := c.buffer[..Min(|c.buffer|, e.offset)] + reply[..Min(|reply|, cut)], whole := |reply| <= cut)
    else c
  }

  /** Events of others: all but reads and writes of the attribute, and whatever would choose its section. */
  predicate Harmless(s: State, e: Event, attr: int, control: int) {
    match e
    case Read(x, _) => x != attr
    case Write(x, _, _) => x != attr && x != control && !(x in s.controlled && s.controlled[x] == attr)
    case SetValue(_, _) => true
    case AddBlob(x, y) => x != attr && y != attr && y != control
  }

  /**
   * What may happen in a sweep: the client goes on to the next section once an answer came
   * whole; it reads at any offset up to what it has; and others do what is harmless to it.
   */
  predicate Allowed(s: State, c: Client, e: Event, attr: int, control: int) {
    || (Chooses(c, e, control) && c.whole)
    || (e.Read? && e.attr == attr && 0 <= c.section && e.offset <= |c.buffer|)
    || Harmless(s, e, attr, control)
  }

  /** The client after the first n events of a run, with what the link cuts from each answer. */
  function ClientAt(s: State, events: seq<Event>, cuts: nat -> nat, attr: int, control: int, n: nat): (c: Client)
    requires n <= |events|
    ensures -1 <= c.section
  {
    if n == 0 then BEGIN
    else
      ClientStep(Run(s, events, n - 1), ClientAt(s, events, cuts, attr, control, n - 1), events[n - 1], cuts(n - 1), attr, control)
  }

  ghost predicate IsSweep(s: State, events: seq<Event>, cuts: nat -> nat, attr: int, control: int, n: nat)
    requires n <= |events|
  {
    n == 0 ||
    (&& IsSweep(s, events, cuts, attr, control, n - 1)
     && Allowed(Run(s, events, n - 1), ClientAt(s, events, cuts, attr, control, n - 1), events[n - 1], attr, control))
  }

  ghost predicate Controls(s: State, control: int, attr: int) {
    control in s.controlled && s.controlled[control] == attr && control != attr
  }

  /** What the client has is of the value that the attribute now has. */
  ghost predicate OfOneValue(s: State, c: Client, attr: int) {
    0 <= c.section ==>
      var v := At(s, attr).blob;
      && At(s, attr).section == c.section <= 255
      && |c.buffer| <= |Section(v, c.section)| && c.buffer == Section(v, c.section)[..|c.buffer|]
      && (c.whole ==> c.buffer == Section(v, c.section))
      && c.total == Sections(v, c.section)
  }

  lemma {:induction false} JoinCuts(s: seq<Octet>, i: nat, j: nat)
    requires i <= j <= |s|
    ensures s[..i] + s[i..][..j - i] == s[..j]
  {
  }

  lemma {:induction false} HarmlessStep(s: State, e: Event, attr: int, control: int)
    requires Controls(s, control, attr) && Harmless(s, e, attr, control)
    ensures Controls(Step(s, e), control, attr)
    ensures At(Step(s, e), attr).blob == At(s, attr).blob && At(Step(s, e), attr).section == At(s, attr).section
  {
  }

  lemma {:induction false} ChooseStep(s: State, k: Octet, attr: int, control: int)
    requires Controls(s, control, attr)
    ensures var t := Step(s, Write(control, 0, [k]));
      Controls(t, control, attr) && At(t, attr) == At(s, attr).(section := k)
  {
    assert Written(At(s, control).blob, 0, [k]) == [k];
  }

  /** A read within a section: the buffer stays a prefix of it, and is all of it if the answer comes whole. */
  lemma {:induction false} BufferGrows(v: seq<Octet>, k: nat, buffer: seq<Octet>, offset: nat, cut: nat)
    requires |buffer| <= |Section(v, k)| && buffer == Section(v, k)[..|buffer|] && offset <= |buffer|
    ensures var reply := Answer(v, k, offset);
      var b := buffer[..offset] + reply[..Min(|reply|, cut)];
      |b| <= |Section(v, k)| && b == Section(v, k)[..|b|] && (|reply| <= cut ==> b == Section(v, k))
  {
    var reply := Answer(v, k, offset);
    AnswerIsRest(v, k, offset);
    JoinCuts(Section(v, k), offset, offset + Min(|reply|, cut));
    assert buffer[..offset] == Section(v, k)[..offset];
    assert Section(v, k)[..|Section(v, k)|] == Section(v, k);
  }

  /** A read in section 0 starts over with the value it latches; in any other section none is latched. */
  lemma {:induction false} ReadStep(s: State, c: Client, offset: nat, cut: nat, attr: int, control: int)
    requires Controls(s, control, attr) && OfOneValue(s, c, attr) && 0 <= c.section && offset <= |c.buffer|
    ensures var e := Read(attr, offset);
      && OfOneValue(Step(s, e), ClientStep(s, c, e, cut, attr, control), attr) && Controls(Step(s, e), control, attr)
      && (0 < c.section ==> At(Step(s, e), attr).blob == At(s, attr).blob)
  {
    var now := Latched(At(s, attr), offset);
    if Latches(At(s, attr), offset) {
      assert c.buffer[..0] == [] == Section(now.blob, 0)[..0];
      BufferGrows(now.blob, 0, [], 0, cut);
      assert c.total == Sections(now.blob, 0);
    } else {
      BufferGrows(now.blob, c.section, c.buffer, offset, cut);
    }
    assert Min(|c.buffer|, offset) == offset;
  }

  lemma {:induction false} SweepStep(s: State, c: Client, e: Event, cut: nat, attr: int, control: int)
    requires Controls(s, control, attr) && OfOneValue(s, c, attr) && -1 <= c.section && Allowed(s, c, e, attr, control)
    requires c.section == -1 ==> c == BEGIN
    ensures var c' := ClientStep(s, c, e, cut, attr, control);
      && OfOneValue(Step(s, e), c', attr) && Controls(Step(s, e), control, attr)
      && (c'.section == -1 ==> c' == BEGIN)
      && (0 < c'.section ==> At(Step(s, e), attr).blob == At(s, attr).blob)
  {
    if Chooses(c, e, control) {
      ChooseStep(s, c.section + 1, attr, control);
      assert Section(At(s, attr).blob, c.section + 1)[..0] == [];
    } else if e.Read? && e.attr == attr {
      ReadStep(s, c, e.offset, cut, attr, control);
    } else {
      HarmlessStep(s, e, attr, control);
    }
  }

  lemma {:induction false} EverySweep(s: State, events: seq<Event>, cuts: nat -> nat, attr: int, control: int, n: nat)
    requires n <= |events| && Controls(s, control, attr) && IsSweep(s, events, cuts, attr, control, n)
    ensures var t, c := Run(s, events, n), ClientAt(s, events, cuts, attr, control, n);
      OfOneValue(t, c, attr) && Controls(t, control, attr) && (c.section == -1 ==> c == BEGIN)
  {
    if n > 0 {
      EverySweep(s, events, cuts, attr, control, n - 1);
      SweepStep(Run(s, events, n - 1), ClientAt(s, events, cuts, attr, control, n - 1), events[n - 1], cuts(n - 1), attr, control);
    }
  }

  lemma {:induction false} ValueStaysNext(s: State, events: seq<Event>, cuts: nat -> nat, attr: int, control: int, n: nat)
    requires 0 < n <= |events| && Controls(s, control, attr) && IsSweep(s, events, cuts, attr, control, n)
    requires 0 < ClientAt(s, events, cuts, attr, control, n - 1).section
    ensures 0 < ClientAt(s, events, cuts, attr, control, n).section
    ensures At(Run(s, events, n), attr).blob == At(Run(s, events, n - 1), attr).blob
  {
    EverySweep(s, events, cuts, attr, control, n - 1);
    SweepStep(Run(s, events, n - 1), ClientAt(s, events, cuts, attr, control, n - 1), events[n - 1], cuts(n - 1), attr, control);
  }

  /** Once past section 0 the value is fixed, whatever is set. */
  lemma {:induction false} ValueStays(s: State, events: seq<Event>, cuts: nat -> nat, attr: int, control: int,
                                      m: nat, n: nat)
    requires m <= n <= |events| && Controls(s, control, attr) && IsSweep(s, events, cuts, attr, control, n)
    requires 0 < ClientAt(s, events, cuts, attr, control, m).section
    ensures 0 < ClientAt(s, events, cuts, attr, control, n).section
    ensures At(Run(s, events, n), attr).blob == At(Run(s, events, m), attr).blob
  {
    if m < n {
      ValueStays(s, events, cuts, attr, control, m, n - 1);
      ValueStaysNext(s, events, cuts, attr, control, n);
    }
  }

  /** What the client has is of the value `v`: the sections before, and a prefix of the one it reads, or all of it. */
  ghost predicate HasOf(c: Client, v: seq<Octet>) {
    0 <= c.section ==>
      && c.total == Sections(v, c.section)
      && |c.buffer| <= |Section(v, c.section)| && c.buffer == Section(v, c.section)[..|c.buffer|]
      && (c.whole ==> c.total + c.buffer == Sections(v, c.section + 1))
  }

  /**
   * In every run, whatever is set or done to other attributes in between, and wherever the link
   * cuts: a client that reads section after section, at any chain of offsets, has the sections
   * of one value, the one the attribute now has.
   */
  lemma {:induction false} SweepReadsOneValue(s: State, events: seq<Event>, cuts: nat -> nat, attr: int, control: int, n: nat)
    requires n <= |events| && Controls(s, control, attr) && IsSweep(s, events, cuts, attr, control, n)
    ensures HasOf(ClientAt(s, events, cuts, attr, control, n), At(Run(s, events, n), attr).blob)
  {
    EverySweep(s, events, cuts, attr, control, n);
  }

  lemma {:induction false} NoneWrittenInSweep(s: State, events: seq<Event>, cuts: nat -> nat, attr: int, control: int,
                                              m: nat, n: nat)
    requires m < n <= |events| && control != attr && IsSweep(s, events, cuts, attr, control, n)
    ensures NoneWritten(events, attr, m, n)
  {
    if m < n - 1 { NoneWrittenInSweep(s, events, cuts, attr, control, m, n - 1); }
  }

  /**
   * And that value is the one that was set: if the value set at k is the last before the client's
   * read at m, at the start of section 0, and no later one is set and then read from the start,
   * the client has sections of exactly that value.
   */
  lemma {:induction false} SweepReadsWhatWasSet(s: State, events: seq<Event>, cuts: nat -> nat, attr: int, control: int,
                                                k: nat, m: nat, n: nat)
    requires k < m < n <= |events| && Controls(s, control, attr) && IsSweep(s, events, cuts, attr, control, n)
    requires TakenOver(s, events, attr, k, m) && NoneTakenOver(s, events, attr, m, n)
    ensures HasOf(ClientAt(s, events, cuts, attr, control, n), SetTo(events[k]))
  {
    NoneWrittenInSweep(s, events, cuts, attr, control, m, n);
    ValueIsWhatWasSet(s, events, attr, k, m, n);
    SweepReadsOneValue(s, events, cuts, attr, control, n);
  }

  /** At the end of section 255 the client has the whole value exactly if that is no longer than 256 sections. */
  lemma {:induction false} SweepReturnsWholeIff(s: State, events: seq<Event>, cuts: nat -> nat, attr: int, control: int, n: nat)
    requires n <= |events| && Controls(s, control, attr) && IsSweep(s, events, cuts, attr, control, n)
    requires var c := ClientAt(s, events, cuts, attr, control, n); c.section == 255 && c.whole
    ensures var c, v := ClientAt(s, events, cuts, attr, control, n), At(Run(s, events, n), attr).blob;
      c.total + c.buffer == v <==> |v| <= 256 * MAX_ATTRIBUTE
  {
    SweepReadsOneValue(s, events, cuts, attr, control, n);
    WholeBlobIff(At(Run(s, events, n), attr).blob);
  }
}
