/** What an accepted trace means, read off its events alone. */
module ModuleTraces {
  import opened Common
  import opened ModuleRegistry

  /** `g` was registered and has not been deleted since. */
  ghost predicate Live(t: seq<Event>, g: Factory) {
    exists m :: 0 <= m < |t| && t[m].Registered? && t[m].f == g && NotDeletedAfter(t, m, g)
  }

  /** `g` was stopped and has not been deleted since. */
  ghost predicate StoppedSince(t: seq<Event>, g: Factory) {
    exists m :: 0 <= m < |t| && t[m].Stopped? && t[m].f == g && NotDeletedAfter(t, m, g)
  }

  ghost predicate NotDeletedAfter(t: seq<Event>, m: int, g: Factory) {
    forall n :: m < n < |t| ==> !(n >= 0 && t[n].Deleted? && t[n].f == g)
  }

  lemma {:induction false} NotDeletedSnoc(t: seq<Event>, e: Event, m: nat, g: Factory)
    requires m < |t|
    ensures NotDeletedAfter(t + [e], m, g) <==> NotDeletedAfter(t, m, g) && !(e.Deleted? && e.f == g)
  {
    var r := t + [e];
    assert r[|t|] == e;
    assert forall n :: 0 <= n < |t| ==> r[n] == t[n];
    if NotDeletedAfter(r, m, g) {
      forall n | m < n < |t| ensures !(t[n].Deleted? && t[n].f == g) { assert r[n] == t[n]; }
    }
  }

  lemma {:induction false} LiveSnoc(t: seq<Event>, e: Event, g: Factory)
    ensures Live(t + [e], g) <==> (e.Registered? && e.f == g) || (Live(t, g) && !(e.Deleted? && e.f == g))
  {
    var r := t + [e];
    assert r[|t|] == e;
    forall m | 0 <= m < |t|
      ensures r[m] == t[m] && (NotDeletedAfter(r, m, g) <==> NotDeletedAfter(t, m, g) && !(e.Deleted? && e.f == g))
    {
      NotDeletedSnoc(t, e, m, g);
    }
    if e.Registered? && e.f == g { assert NotDeletedAfter(r, |t|, g); }
    if Live(t, g) && !(e.Deleted? && e.f == g) {
      var m :| 0 <= m < |t| && t[m].Registered? && t[m].f == g && NotDeletedAfter(t, m, g);
      assert r[m].Registered? && NotDeletedAfter(r, m, g);
    }
  }

  lemma {:induction false} StoppedSnoc(t: seq<Event>, e: Event, g: Factory)
    ensures StoppedSince(t + [e], g) <==> (e.Stopped? && e.f == g) || (StoppedSince(t, g) && !(e.Deleted? && e.f == g))
  {
    var r := t + [e];
    assert r[|t|] == e;
    forall m | 0 <= m < |t|
      ensures r[m] == t[m] && (NotDeletedAfter(r, m, g) <==> NotDeletedAfter(t, m, g) && !(e.Deleted? && e.f == g))
    {
      NotDeletedSnoc(t, e, m, g);
    }
    if e.Stopped? && e.f == g { assert NotDeletedAfter(r, |t|, g); }
    if StoppedSince(t, g) && !(e.Deleted? && e.f == g) {
      var m :| 0 <= m < |t| && t[m].Stopped? && t[m].f == g && NotDeletedAfter(t, m, g);
      assert r[m].Stopped? && NotDeletedAfter(r, m, g);
    }
  }

  lemma {:induction false} ObserveEffect(deps: Graph, w: World, e: Event, g: Factory)
    requires Observe(deps, w, e).Some?
    ensures var w' := Observe(deps, w, e).value;
      && (g in w'.registered <==> (e.Registered? && e.f == g) || (g in w.registered && !(e.Deleted? && e.f == g)))
      && (g in w'.stopped <==> (e.Stopped? && e.f == g) || (g in w.stopped && !(e.Deleted? && e.f == g)))
  {
  }

  /** The observer's sets are what the events say. */
  lemma {:induction false} ObserverIsRight(deps: Graph, t: seq<Event>, g: Factory)
    requires Replay(deps, t).Some?
    ensures g in Replay(deps, t).value.registered <==> Live(t, g)
    ensures g in Replay(deps, t).value.stopped <==> StoppedSince(t, g)
  {
    if t != [] {
      var before, e := t[..|t| - 1], t[|t| - 1];
      assert t == before + [e];
      ObserverIsRight(deps, before, g);
      ObserveEffect(deps, Replay(deps, before).value, e, g);
      LiveSnoc(before, e, g);
      StoppedSnoc(before, e, g);
    }
  }

  lemma {:induction false} PrefixAccepted(deps: Graph, t: seq<Event>, n: nat)
    requires Replay(deps, t).Some? && n <= |t|
    ensures Replay(deps, t[..n]).Some?
    ensures n < |t| ==> Observe(deps, Replay(deps, t[..n]).value, t[n]).Some?
  {
    if n < |t| {
      var before := t[..|t| - 1];
      if n == |t| - 1 {
        assert t[..n] == before;
      } else {
        PrefixAccepted(deps, before, n);
        assert before[..n] == t[..n];
      }
    } else {
      assert t[..n] == t;
    }
  }

  /**
   * In every trace the registry can produce: a module's own Start runs when all its
   * dependencies are live and it is not; a module is stopped once, after every live module
   * that depends on it; and none is deleted before every live one is stopped.
   */
  lemma {:induction false} EventsInOrder(deps: Graph, t: seq<Event>, n: nat)
    requires Replay(deps, t).Some? && n < |t|
    ensures t[n].Registered? ==> !Live(t[..n], t[n].f)
    ensures t[n].Started? ==> forall d :: d in deps(t[n].f) ==> Live(t[..n], d)
    ensures t[n].Stopped? ==> Live(t[..n], t[n].f) && !StoppedSince(t[..n], t[n].f)
    ensures t[n].Stopped? ==> forall g :: Live(t[..n], g) && t[n].f in deps(g) ==> StoppedSince(t[..n], g)
    ensures t[n].Deleted? ==> Live(t[..n], t[n].f) && forall g :: Live(t[..n], g) ==> StoppedSince(t[..n], g)
  {
    PrefixAccepted(deps, t, n);
    forall g ensures (g in Replay(deps, t[..n]).value.registered <==> Live(t[..n], g))
                     && (g in Replay(deps, t[..n]).value.stopped <==> StoppedSince(t[..n], g)) {
      ObserverIsRight(deps, t[..n], g);
    }
  }

  /** A module's constructor runs again only after its previous instance was deleted. */
  lemma {:induction false} ConstructedOncePerLife(deps: Graph, t: seq<Event>, m: nat, n: nat)
    requires Replay(deps, t).Some? && m < n < |t|
    requires t[m].Constructed? && t[n].Constructed? && t[m].f == t[n].f
    ensures exists k :: m < k < n && t[k].Deleted? && t[k].f == t[m].f
  {
    PrefixAccepted(deps, t, n);
    if NotDeletedAfter(t[..n], m, t[m].f) {
      UnderWay(deps, t[..n], m);
    }
    var k :| m < k < n && t[..n][k].Deleted? && t[..n][k].f == t[m].f;
    assert t[k] == t[..n][k];
  }

  /** From its construction until it is deleted a module is being started or registered. */
  lemma {:induction false} UnderWay(deps: Graph, t: seq<Event>, m: nat)
    requires Replay(deps, t).Some? && m < |t| && t[m].Constructed? && NotDeletedAfter(t, m, t[m].f)
    ensures var w := Replay(deps, t).value; t[m].f in w.pending || t[m].f in w.registered
  {
    if m < |t| - 1 {
      var before, e := t[..|t| - 1], t[|t| - 1];
      assert t == before + [e];
      NotDeletedSnoc(before, e, m, t[m].f);
      UnderWay(deps, before, m);
    }
  }
}
