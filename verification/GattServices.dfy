/** Turning a service into the flat list the stack takes, and back when it was added. */
module GattServices {
  import opened Common

  datatype Descriptor = Descriptor(handle: int, uuid: int, permissions: int)
  datatype Characteristic = Characteristic(
    handle: int, uuid: int, properties: int, permissions: int, descriptors: seq<Descriptor>)
  datatype Service = Service(
    handle: int, primary: bool, uuid: int, characteristics: seq<Characteristic>, included: seq<Service>)

  datatype Kind = PrimaryService | SecondaryService | CharacteristicKind | DescriptorKind | IncludedService

  /** A btgatt_db_element_t; fields an initializer leaves out are 0. */
  datatype Element = Element(kind: Kind, uuid: int, handle: int, properties: int, permissions: int)

  // ---------- Flattening ----------

  function DescriptorElement(d: Descriptor): Element { Element(DescriptorKind, d.uuid, 0, 0, d.permissions) }

  function FlattenDescriptors(ds: seq<Descriptor>): (r: seq<Element>)
    ensures |r| == |ds|
  {
    if ds == [] then [] else FlattenDescriptors(ds[..|ds| - 1]) + [DescriptorElement(ds[|ds| - 1])]
  }

  function FlattenCharacteristic(c: Characteristic): seq<Element> {
    [Element(CharacteristicKind, c.uuid, 0, c.properties, c.permissions)] + FlattenDescriptors(c.descriptors)
  }

  function FlattenCharacteristics(cs: seq<Characteristic>): seq<Element> {
    if cs == [] then [] else FlattenCharacteristics(cs[..|cs| - 1]) + FlattenCharacteristic(cs[|cs| - 1])
  }

  function FlattenIncluded(ss: seq<Service>): seq<Element> {
    if ss == [] then [] else FlattenIncluded(ss[..|ss| - 1]) + [Element(IncludedService, 0, ss[|ss| - 1].handle, 0, 0)]
  }

  function Flatten(s: Service): (r: seq<Element>)
    ensures r != []
  {
    [Element(if s.primary then PrimaryService else SecondaryService, s.uuid, 0, 0, 0)]
    + FlattenCharacteristics(s.characteristics) + FlattenIncluded(s.included)
  }

  // ---------- What the list says, place by place ----------

  /** How many elements the first i characteristics and their descriptors take. */
  function Before(cs: seq<Characteristic>, i: nat): nat
    requires i <= |cs|
  {
    if i == 0 then 0 else Before(cs, i - 1) + 1 + |cs[i - 1].descriptors|
  }

  lemma {:induction false} BeforePrefix(cs: seq<Characteristic>, n: nat, i: nat)
    requires i <= n <= |cs|
    ensures Before(cs[..n], i) == Before(cs, i)
  {
    if i > 0 { BeforePrefix(cs, n, i - 1); }
  }

  lemma {:induction false} FlattenLength(cs: seq<Characteristic>)
    ensures |FlattenCharacteristics(cs)| == Before(cs, |cs|)
  {
    if cs != [] {
      var n := |cs| - 1;
      FlattenLength(cs[..n]);
      BeforePrefix(cs, n, n);
      PieceLength(cs[n]);
      assert FlattenCharacteristics(cs) == FlattenCharacteristics(cs[..n]) + FlattenCharacteristic(cs[n]);
    }
  }

  lemma {:induction false} PieceLength(c: Characteristic)
    ensures |FlattenCharacteristic(c)| == 1 + |c.descriptors|
  {
  }

  lemma {:induction false} DescriptorAt(ds: seq<Descriptor>, j: nat)
    requires j < |ds|
    ensures FlattenDescriptors(ds)[j] == Element(DescriptorKind, ds[j].uuid, 0, 0, ds[j].permissions)
  {
    if j < |ds| - 1 { DescriptorAt(ds[..|ds| - 1], j); }
  }

  /** A characteristic with its descriptors is a stretch of the list. */
  lemma {:induction false} CharacteristicAt(cs: seq<Characteristic>, i: nat)
    requires i < |cs|
    ensures Before(cs, i + 1) <= |FlattenCharacteristics(cs)|
    ensures FlattenCharacteristics(cs)[Before(cs, i)..Before(cs, i + 1)] == FlattenCharacteristic(cs[i])
  {
    var n := |cs| - 1;
    var es, x := FlattenCharacteristics(cs), FlattenCharacteristics(cs[..n]);
    FlattenLength(cs[..n]);
    BeforePrefix(cs, n, n);
    if i < n {
      CharacteristicAt(cs[..n], i);
      BeforePrefix(cs, n, i);
      BeforePrefix(cs, n, i + 1);
      assert es[Before(cs, i)..Before(cs, i + 1)] == x[Before(cs, i)..Before(cs, i + 1)];
    } else {
      assert es[Before(cs, i)..Before(cs, i + 1)] == FlattenCharacteristic(cs[i]);
    }
  }

  lemma {:induction false} IncludedAt(ss: seq<Service>, i: nat)
    requires i < |ss|
    ensures |FlattenIncluded(ss)| == |ss|
    ensures FlattenIncluded(ss)[i] == Element(IncludedService, 0, ss[i].handle, 0, 0)
  {
    if |ss| > 1 { IncludedAt(ss[..|ss| - 1], if i < |ss| - 1 then i else 0); }
  }

  /** The element says what the characteristic is, and leaves its handle open. */
  predicate Describes(e: Element, c: Characteristic) {
    e.kind == CharacteristicKind && e.uuid == c.uuid && e.properties == c.properties && e.permissions == c.permissions
    && e.handle == 0
  }

  predicate DescribesDescriptor(e: Element, d: Descriptor) {
    e.kind == DescriptorKind && e.uuid == d.uuid && e.permissions == d.permissions && e.handle == 0
  }

  predicate DescribesIncluded(e: Element, s: Service) {
    e.kind == IncludedService && e.handle == s.handle
  }

  /** The list begins with the service, primary or secondary as it is, and ends with its included services. */
  lemma {:induction false} FlattenEnds(s: Service)
    ensures var es, n := Flatten(s), |s.included|;
      && |es| == 1 + Before(s.characteristics, |s.characteristics|) + n
      && (es[0].kind == PrimaryService <==> s.primary) && (es[0].kind == SecondaryService <==> !s.primary)
      && es[0].uuid == s.uuid && es[0].handle == 0
      && (forall i :: 0 <= i < n ==> DescribesIncluded(es[|es| - n + i], s.included[i]))
  {
    FlattenLength(s.characteristics);
    var n, inc := |s.included|, FlattenIncluded(s.included);
    if n > 0 { IncludedAt(s.included, 0); } else { assert inc == []; }
    forall i | 0 <= i < n ensures DescribesIncluded(Flatten(s)[|Flatten(s)| - n + i], s.included[i]) {
      IncludedAt(s.included, i);
      assert Flatten(s)[|Flatten(s)| - n + i] == inc[i];
    }
  }

  /** In between, each characteristic stands at its place, with its descriptors right after it. */
  lemma {:induction false} FlattenMiddle(s: Service, i: nat)
    requires i < |s.characteristics|
    ensures var es, c, at := Flatten(s), s.characteristics[i], 1 + Before(s.characteristics, i);
      && at + |c.descriptors| < |es| && Describes(es[at], c)
      && (forall j :: 0 <= j < |c.descriptors| ==> DescribesDescriptor(es[at + 1 + j], c.descriptors[j]))
  {
    var c := s.characteristics[i];
    MiddlePiece(s, i, 0);
    forall j | 0 <= j < |c.descriptors|
      ensures DescribesDescriptor(Flatten(s)[1 + Before(s.characteristics, i) + 1 + j], c.descriptors[j])
    {
      MiddlePiece(s, i, j + 1);
      DescriptorAt(c.descriptors, j);
    }
  }

  lemma {:induction false} MiddlePiece(s: Service, i: nat, j: nat)
    requires i < |s.characteristics| && j <= |s.characteristics[i].descriptors|
    ensures var at, piece := 1 + Before(s.characteristics, i), FlattenCharacteristic(s.characteristics[i]);
      at + |s.characteristics[i].descriptors| < |Flatten(s)| && Flatten(s)[at + j] == piece[j]
  {
    var cs := s.characteristics;
    var x, at, end := FlattenCharacteristics(cs), Before(cs, i), Before(cs, i + 1);
    CharacteristicAt(cs, i);
    PieceLength(cs[i]);
    assert x[at..end][j] == x[at + j];
  }

  /** The list AddService builds. */
  method ServiceElements(service: Service) returns (svc: seq<Element>)
    ensures svc == Flatten(service)
  {
    svc := [Element(if service.primary then PrimaryService else SecondaryService, service.uuid, 0, 0, 0)];
    ghost var head := svc;
    var cs := service.characteristics;
    for i := 0 to |cs|
      invariant svc == head + FlattenCharacteristics(cs[..i])
    {
      svc := PushCharacteristic(svc, cs[i]);
      assert cs[..i + 1][..i] == cs[..i];
    }
    assert cs[..|cs|] == cs;
    ghost var body := svc;
    var ss := service.included;
    for i := 0 to |ss|
      invariant svc == body + FlattenIncluded(ss[..i])
    {
      svc := svc + [Element(IncludedService, 0, ss[i].handle, 0, 0)];
      assert ss[..i + 1][..i] == ss[..i];
    }
    assert ss[..|ss|] == ss;
  }

  method PushCharacteristic(svc: seq<Element>, c: Characteristic) returns (r: seq<Element>)
    ensures r == svc + FlattenCharacteristic(c)
  {
    r := svc + [Element(CharacteristicKind, c.uuid, 0, c.properties, c.permissions)];
    ghost var front := r;
    var ds := c.descriptors;
    for i := 0 to |ds|
      invariant r == front + FlattenDescriptors(ds[..i])
    {
      r := r + [DescriptorElement(ds[i])];
      assert ds[..i + 1][..i] == ds[..i];
    }
    assert ds[..|ds|] == ds;
  }

  // ---------- Rebuilding ----------

  /** One element added to the characteristics so far; None where the source would use the last of an empty list. */
  function AddElement(cs: seq<Characteristic>, e: Element): Option<seq<Characteristic>> {
    match e.kind
    case CharacteristicKind => Some(cs + [Characteristic(e.handle, e.uuid, e.properties, e.permissions, [])])
    case DescriptorKind =>
      if cs == [] then None
      else
        var last := cs[|cs| - 1];
        Some(cs[..|cs| - 1] + [last.(descriptors := last.descriptors + [Descriptor(e.handle, e.uuid, e.permissions)])])
    case _ => Some(cs)
  }

  function AddElements(cs: seq<Characteristic>, es: seq<Element>): Option<seq<Characteristic>> {
    if es == [] then Some(cs)
    else
      var before := AddElements(cs, es[..|es| - 1]);
      if before == None then None else AddElement(before.value, es[|es| - 1])
  }

  /** The service the stack's list stands for: always primary, and without included services. */
  function Rebuild(svc: seq<Element>): Option<Service>
    requires svc != []
  {
    var cs := AddElements([], svc[1..]);
    if cs == None then None else Some(Service(svc[0].handle, true, svc[0].uuid, cs.value, []))
  }

  method ServiceAdded(svc: seq<Element>) returns (service: Option<Service>)
    requires svc != []
    ensures service == Rebuild(svc)
  {
    var cs: seq<Characteristic> := [];
    ghost var es := svc[1..];
    for i := 1 to |svc|
      invariant AddElements([], es[..i - 1]) == Some(cs)
    {
      assert es[..i][..i - 1] == es[..i - 1] && es[i - 1] == svc[i];
      var added := AddElement(cs, svc[i]);
      if added == None {
        FailsEarly([], es, i);
        return None;
      }
      cs := added.value;
    }
    assert es[..|es|] == es;
    return Some(Service(svc[0].handle, true, svc[0].uuid, cs, []));
  }

  lemma {:induction false} FailsEarly(cs: seq<Characteristic>, es: seq<Element>, i: nat)
    requires i <= |es| && AddElements(cs, es[..i]) == None
    ensures AddElements(cs, es) == None
    decreases |es|
  {
    if i < |es| {
      var before := es[..|es| - 1];
      assert before[..i] == es[..i];
      FailsEarly(cs, before, i);
    } else {
      assert es[..i] == es;
    }
  }

  /** A list cannot be rebuilt exactly if it has a descriptor with no characteristic before it. */
  lemma {:induction false} FailsIff(es: seq<Element>)
    ensures AddElements([], es) == None <==>
            exists i :: 0 <= i < |es| && es[i].kind == DescriptorKind && NoCharacteristic(es[..i])
    ensures AddElements([], es).Some? ==> (AddElements([], es).value == [] <==> NoCharacteristic(es))
  {
    if es != [] {
      var n := |es| - 1;
      var before := es[..n];
      FailsIff(before);
      assert forall i :: 0 <= i < n ==> before[..i] == es[..i] && before[i] == es[i];
      assert NoCharacteristic(es) <==> NoCharacteristic(before) && es[n].kind != CharacteristicKind;
      if AddElements([], before) == None {
        var i :| 0 <= i < n && before[i].kind == DescriptorKind && NoCharacteristic(before[..i]);
        assert es[i].kind == DescriptorKind && NoCharacteristic(es[..i]);
      }
    }
  }

  ghost predicate NoCharacteristic(es: seq<Element>) {
    forall i :: 0 <= i < |es| ==> es[i].kind != CharacteristicKind
  }

  // ---------- There and back ----------

  /** The list as the stack returns it: a handle filled in for every element. */
  function WithHandles(es: seq<Element>, handle: nat -> int, at: nat): (r: seq<Element>)
    ensures |r| == |es|
    ensures forall i :: 0 <= i < |es| ==> r[i] == es[i].(handle := handle(at + i))
  {
    seq(|es|, i requires 0 <= i < |es| => es[i].(handle := handle(at + i)))
  }

  /** The same descriptors, with the handles of the places they were given. */
  function PlacedDescriptors(ds: seq<Descriptor>, handle: nat -> int, at: nat): (r: seq<Descriptor>)
    ensures |r| == |ds|
    ensures forall i :: 0 <= i < |ds| ==> r[i] == ds[i].(handle := handle(at + i))
  {
    seq(|ds|, i requires 0 <= i < |ds| => ds[i].(handle := handle(at + i)))
  }

  function PlacedCharacteristic(c: Characteristic, handle: nat -> int, at: nat): Characteristic {
    c.(handle := handle(at), descriptors := PlacedDescriptors(c.descriptors, handle, at + 1))
  }

  /** The same tree of characteristics, each with the handle of its place in the flat list. */
  function Placed(cs: seq<Characteristic>, handle: nat -> int, at: nat): (r: seq<Characteristic>)
    ensures |r| == |cs|
  {
    if cs == [] then []
    else
      var before := cs[..|cs| - 1];
      Placed(before, handle, at)
      + [PlacedCharacteristic(cs[|cs| - 1], handle, at + |FlattenCharacteristics(before)|)]
  }

  lemma {:induction false} AddElementsAppend(cs: seq<Characteristic>, x: seq<Element>, y: seq<Element>)
    requires AddElements(cs, x).Some?
    ensures AddElements(cs, x + y) == AddElements(AddElements(cs, x).value, y)
  {
    if y == [] {
      assert x + y == x;
    } else {
      assert (x + y)[..|x + y| - 1] == x + y[..|y| - 1];
      AddElementsAppend(cs, x, y[..|y| - 1]);
    }
  }

  lemma {:induction false} WithHandlesAppend(x: seq<Element>, y: seq<Element>, handle: nat -> int, at: nat)
    ensures WithHandles(x + y, handle, at) == WithHandles(x, handle, at) + WithHandles(y, handle, at + |x|)
  {
  }

  /** Two stretches of a list, rebuilt one after the other. */
  lemma {:induction false} RebuildBoth(cs: seq<Characteristic>, x: seq<Element>, y: seq<Element>, handle: nat -> int, at: nat,
                                       mid: seq<Characteristic>, out: seq<Characteristic>)
    requires AddElements(cs, WithHandles(x, handle, at)) == Some(mid)
    requires AddElements(mid, WithHandles(y, handle, at + |x|)) == Some(out)
    ensures AddElements(cs, WithHandles(x + y, handle, at)) == Some(out)
  {
    WithHandlesAppend(x, y, handle, at);
    AddElementsAppend(cs, WithHandles(x, handle, at), WithHandles(y, handle, at + |x|));
  }

  lemma {:induction false} RebuildDescriptor(cs: seq<Characteristic>, c: Characteristic, e: Element)
    requires e.kind == DescriptorKind
    ensures AddElement(cs + [c], e)
            == Some(cs + [c.(descriptors := c.descriptors + [Descriptor(e.handle, e.uuid, e.permissions)])])
  {
    assert (cs + [c])[..|cs|] == cs;
  }

  /** Descriptors that follow a characteristic all go to it, in order. */
  lemma {:induction false} RebuildDescriptors(cs: seq<Characteristic>, c: Characteristic, ds: seq<Descriptor>,
                                              handle: nat -> int, at: nat)
    requires c.descriptors == []
    ensures AddElements(cs + [c], WithHandles(FlattenDescriptors(ds), handle, at))
            == Some(cs + [c.(descriptors := PlacedDescriptors(ds, handle, at))])
  {
    if ds != [] {
      var n := |ds| - 1;
      RebuildDescriptors(cs, c, ds[..n], handle, at);
      DescriptorsSnoc(ds, handle, at);
      RebuildLast(cs, c, ds, handle, at);
      RebuildBoth(cs + [c], FlattenDescriptors(ds[..n]), [DescriptorElement(ds[n])], handle, at,
                  cs + [c.(descriptors := PlacedDescriptors(ds[..n], handle, at))],
                  cs + [c.(descriptors := PlacedDescriptors(ds, handle, at))]);
    } else {
      assert c.(descriptors := PlacedDescriptors([], handle, at)) == c;
    }
  }

  lemma {:induction false} RebuildLast(cs: seq<Characteristic>, c: Characteristic, ds: seq<Descriptor>,
                                       handle: nat -> int, at: nat)
    requires ds != []
    ensures var n := |ds| - 1;
      AddElements(cs + [c.(descriptors := PlacedDescriptors(ds[..n], handle, at))],
                  WithHandles([DescriptorElement(ds[n])], handle, at + |FlattenDescriptors(ds[..n])|))
      == Some(cs + [c.(descriptors := PlacedDescriptors(ds, handle, at))])
  {
    var n := |ds| - 1;
    var mid, e := c.(descriptors := PlacedDescriptors(ds[..n], handle, at)), DescriptorElement(ds[n]);
    var place := at + |FlattenDescriptors(ds[..n])|;
    DescriptorsSnoc(ds, handle, at);
    RebuildOne(cs + [mid], e, handle, place);
    RebuildDescriptor(cs, mid, e.(handle := handle(place)));
    assert ds[n].(handle := handle(place)) == Descriptor(handle(place), e.uuid, e.permissions);
  }

  lemma {:induction false} DescriptorsSnoc(ds: seq<Descriptor>, handle: nat -> int, at: nat)
    requires ds != []
    ensures var n := |ds| - 1;
      && FlattenDescriptors(ds) == FlattenDescriptors(ds[..n]) + [DescriptorElement(ds[n])]
      && |FlattenDescriptors(ds[..n])| == n
      && PlacedDescriptors(ds, handle, at) == PlacedDescriptors(ds[..n], handle, at) + [ds[n].(handle := handle(at + n))]
  {
  }

  lemma {:induction false} RebuildCharacteristic(cs: seq<Characteristic>, c: Characteristic, handle: nat -> int, at: nat)
    ensures AddElements(cs, WithHandles(FlattenCharacteristic(c), handle, at))
            == Some(cs + [PlacedCharacteristic(c, handle, at)])
  {
    var e := Element(CharacteristicKind, c.uuid, 0, c.properties, c.permissions);
    var bare := c.(handle := handle(at), descriptors := []);
    RebuildOne(cs, e, handle, at);
    RebuildDescriptors(cs, bare, c.descriptors, handle, at + 1);
    RebuildBoth(cs, [e], FlattenDescriptors(c.descriptors), handle, at, cs + [bare], cs + [PlacedCharacteristic(c, handle, at)]);
  }

  lemma {:induction false} RebuildOne(cs: seq<Characteristic>, e: Element, handle: nat -> int, at: nat)
    ensures AddElements(cs, WithHandles([e], handle, at)) == AddElement(cs, e.(handle := handle(at)))
  {
    var es := WithHandles([e], handle, at);
    assert es[..0] == [] && es[0] == e.(handle := handle(at));
  }

  lemma {:induction false} RebuildCharacteristics(cs: seq<Characteristic>, handle: nat -> int, at: nat)
    ensures AddElements([], WithHandles(FlattenCharacteristics(cs), handle, at)) == Some(Placed(cs, handle, at))
  {
    if cs != [] {
      var before, c := cs[..|cs| - 1], cs[|cs| - 1];
      var x := FlattenCharacteristics(before);
      RebuildCharacteristics(before, handle, at);
      RebuildCharacteristic(Placed(before, handle, at), c, handle, at + |x|);
      var after := Placed(before, handle, at) + [PlacedCharacteristic(c, handle, at + |x|)];
      RebuildBoth([], x, FlattenCharacteristic(c), handle, at, Placed(before, handle, at), after);
      CharacteristicsSnoc(cs, handle, at);
    }
  }

  lemma {:induction false} CharacteristicsSnoc(cs: seq<Characteristic>, handle: nat -> int, at: nat)
    requires cs != []
    ensures var before, c := cs[..|cs| - 1], cs[|cs| - 1];
      && FlattenCharacteristics(cs) == FlattenCharacteristics(before) + FlattenCharacteristic(c)
      && Placed(cs, handle, at)
         == Placed(before, handle, at) + [PlacedCharacteristic(c, handle, at + |FlattenCharacteristics(before)|)]
  {
  }

  lemma {:induction false} IncludedIgnored(cs: seq<Characteristic>, ss: seq<Service>, handle: nat -> int, at: nat)
    ensures AddElements(cs, WithHandles(FlattenIncluded(ss), handle, at)) == Some(cs)
  {
    if ss != [] {
      var n := |ss| - 1;
      IncludedIgnored(cs, ss[..n], handle, at);
      var es := WithHandles(FlattenIncluded(ss), handle, at);
      assert es[..|es| - 1] == WithHandles(FlattenIncluded(ss[..n]), handle, at);
    }
  }

  /**
   * For every service and whatever handles the stack fills in: rebuilding never meets a
   * descriptor before a characteristic, and gives the same tree of characteristics and
   * descriptors, each with the handle of its place in the list.
   */
  lemma {:induction false} RebuildsTheTree(s: Service, handle: nat -> int)
    ensures Rebuild(WithHandles(Flatten(s), handle, 0))
            == Some(Service(handle(0), true, s.uuid, Placed(s.characteristics, handle, 1), []))
  {
    var cs, ss := FlattenCharacteristics(s.characteristics), FlattenIncluded(s.included);
    var placed := Placed(s.characteristics, handle, 1);
    RebuildCharacteristics(s.characteristics, handle, 1);
    IncludedIgnored(placed, s.included, handle, 1 + |cs|);
    RebuildBoth([], cs, ss, handle, 1, placed, placed);
    HeadAndRest(s, handle);
  }

  lemma {:induction false} HeadAndRest(s: Service, handle: nat -> int)
    ensures var es := WithHandles(Flatten(s), handle, 0);
      && es != [] && es[0].handle == handle(0) && es[0].uuid == s.uuid
      && es[1..] == WithHandles(FlattenCharacteristics(s.characteristics) + FlattenIncluded(s.included), handle, 1)
  {
    assert Flatten(s)[1..] == FlattenCharacteristics(s.characteristics) + FlattenIncluded(s.included);
  }

  /** The handles aside, which characteristics there are and which descriptors each has. */
  function Shape(cs: seq<Characteristic>): (r: seq<Characteristic>)
    ensures |r| == |cs|
    ensures forall i :: 0 <= i < |cs| ==>
              r[i] == cs[i].(handle := 0, descriptors := PlacedDescriptors(cs[i].descriptors, _ => 0, 0))
  {
    seq(|cs|, i requires 0 <= i < |cs| => cs[i].(handle := 0, descriptors := PlacedDescriptors(cs[i].descriptors, _ => 0, 0)))
  }

  lemma {:induction false} PlacedKeepsShape(cs: seq<Characteristic>, handle: nat -> int, at: nat)
    ensures Shape(Placed(cs, handle, at)) == Shape(cs)
  {
    if cs != [] {
      var n := |cs| - 1;
      PlacedKeepsShape(cs[..n], handle, at);
      var p := Placed(cs, handle, at);
      assert p[..n] == Placed(cs[..n], handle, at);
      forall i | 0 <= i < |cs| ensures Shape(p)[i] == Shape(cs)[i] {
        if i < n {
          assert Shape(p[..n])[i] == Shape(p)[i] && Shape(cs[..n])[i] == Shape(cs)[i];
        } else {
          assert PlacedDescriptors(p[n].descriptors, _ => 0, 0) == PlacedDescriptors(cs[n].descriptors, _ => 0, 0);
        }
      }
    }
  }

  /** The service that comes back is, handles aside, the one added exactly if that was primary and included no other. */
  lemma {:induction false} ComesBackIff(s: Service, handle: nat -> int)
    ensures Rebuild(WithHandles(Flatten(s), handle, 0)).Some?
    ensures var r := Rebuild(WithHandles(Flatten(s), handle, 0)).value;
      && r.uuid == s.uuid && Shape(r.characteristics) == Shape(s.characteristics)
      && (r.primary == s.primary && r.included == s.included <==> s.primary && s.included == [])
  {
    RebuildsTheTree(s, handle);
    PlacedKeepsShape(s.characteristics, handle, 1);
  }
}
