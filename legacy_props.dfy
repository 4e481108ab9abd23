/**
 * Properties of the older JVM `Bindable` (`LegacySpec`): the setters, the
 * self and duplicate checks of bindTo, the vararg bindTo, unbinding and
 * `triggerChange`.
 */
module LegacyProps {
  import opened Base
  import opened Waves
  import opened LinkList
  import opened Observers
  import opened Arena
  import opened BindableSpec
  import opened BindableProps
  import opened LeaseProps
  import opened UnbindProps
  import opened LegacySpec

  // ---------------------------------------------------------------------------
  // Setters

  /**
   * `value = v`: a disabled cell throws and nothing changes; a non-null `v`
   * equal to the value changes nothing. Otherwise every cell of the
   * component, and no other cell, takes `v` and no flag changes; a null
   * write calls no observer, and a non-null one calls the value observers
   * of the other cells of the component, then those of `x`.
   */
  lemma LegacyValueEffect<T>(w: World<Option<T>>, x: CellId, v: Option<T>)
    requires Ready(w) && IsAlive(w, x)
    ensures var cell := w.cells[x];
            var r := LegacyAssignValue(w, x, v);
            var comp := Component(Topo(w.cells), x);
            && (r.0.Fail? <==> cell.disabled)
            && (r.0.Fail? ==> r == (Fail(DisabledMutation), w))
            && (!cell.disabled && v.Some? && v == cell.value ==> r == (Done, w))
            && (!cell.disabled && (v.None? || v != cell.value) ==>
                  && (forall n :: n in w.cells ==>
                        r.1.cells[n].value == (if n in comp then v else w.cells[n].value)
                        && r.1.cells[n].disabled == w.cells[n].disabled
                        && (n !in comp ==> r.1.cells[n] == w.cells[n]))
                  && (v.None? ==> r.1.log == w.log)
                  && (v.Some? ==> exists s :: r.1.log == w.log + Fires(w.cells, s + [x], SetValue(cell.value, v)) && Elems(s) == comp - {x}))
  {
    var cell := w.cells[x];
    if !cell.disabled && (v.None? || v != cell.value) {
      var sig := SetValue(cell.value, v);
      assert LegacyAssignValue(w, x, v).1 == LegacySpread(w, x, sig);
      SpreadUnguarded(w, x, sig);
      SpreadFields(w, x, sig);
    }
  }

  /**
   * `disabled = d`: it never throws; an equal flag changes nothing;
   * otherwise every cell of the component, and no other cell, takes `d`,
   * no value changes, and the disabled observers of the other cells of the
   * component fire, then those of `x`.
   */
  lemma LegacyFlagEffect<T>(w: World<Option<T>>, x: CellId, d: bool)
    requires Ready(w) && IsAlive(w, x)
    ensures var r := LegacyAssignDisabled(w, x, d);
            var comp := Component(Topo(w.cells), x);
            && (d == w.cells[x].disabled ==> r == w)
            && (d != w.cells[x].disabled ==>
                  && (forall n :: n in w.cells ==>
                        r.cells[n].disabled == (if n in comp then d else w.cells[n].disabled)
                        && r.cells[n].value == w.cells[n].value
                        && (n !in comp ==> r.cells[n] == w.cells[n]))
                  && exists s :: r.log == w.log + Fires(w.cells, s + [x], SetDisabled(d)) && Elems(s) == comp - {x})
  {
    if d != w.cells[x].disabled {
      var sig: Signal<Option<T>> := SetDisabled(d);
      SpreadUnguarded(w, x, sig);
      SpreadFields(w, x, sig);
    }
  }

  // ---------------------------------------------------------------------------
  // Binding

  /** A live peer is in the component. */
  lemma PeerInComponent(t: Topology, a: CellId, p: CellId)
    requires Forest(t) && a in t && p in t[a]
    ensures p in Component(t, a) && a != p
  {
    var v := [a, p];
    assert Hop(t, v, 1);
    assert IsPath(t, v) && Distinct(v);
  }

  /**
   * `a.bindTo(b)`: binding to itself throws `SelfBind`, binding to a current
   * peer throws `AlreadyBound`, and a disabled `a` throws
   * `DisabledMutation`, each changing nothing; otherwise the bind
   * completes. Then `a` holds `b`'s value and flag, `b` keeps its own, the
   * two are linked both ways, and binding the pair again throws
   * `AlreadyBound` whichever side starts it.
   */
  lemma LegacyBindToEffect<T>(w: World<Option<T>>, a: CellId, b: CellId)
    requires Ready(w) && IsAlive(w, a) && IsAlive(w, b)
    requires a != b && b !in Topo(w.cells)[a] && !w.cells[a].disabled ==> Forest(AddLink(Topo(w.cells), a, b))
    ensures var r := LegacyBindTo(w, a, b);
            && (a == b ==> r == (Fail(SelfBind), w))
            && (a != b && b in Topo(w.cells)[a] ==> r == (Fail(AlreadyBound), w))
            && (a != b && b !in Topo(w.cells)[a] && w.cells[a].disabled ==> r == (Fail(DisabledMutation), w))
            && (r.0.Done? <==> a != b && b !in Topo(w.cells)[a] && !w.cells[a].disabled)
            && (r.0.Done? ==>
                  && r.1.cells[a].value == w.cells[b].value && r.1.cells[a].disabled == w.cells[b].disabled
                  && r.1.cells[b].value == w.cells[b].value && r.1.cells[b].disabled == w.cells[b].disabled
                  && b in Topo(r.1.cells)[a] && a in Topo(r.1.cells)[b]
                  && LegacyBindTo(r.1, a, b) == (Fail(AlreadyBound), r.1)
                  && LegacyBindTo(r.1, b, a) == (Fail(AlreadyBound), r.1))
  {
    var t := Topo(w.cells);
    if a != b && b !in t[a] && !w.cells[a].disabled {
      LegacyBindJoins(w, a, b, {});
    }
  }

  /**
   * The receiver `a` and the cells `ps` are linked to each other and hold
   * the same value and flag.
   */
  ghost predicate Joined<T>(c: Cells<T>, a: CellId, ps: set<CellId>)
  {
    && a in Topo(c)
    && forall p :: p in ps ==>
         && p in Topo(c) && p in Topo(c)[a] && a in Topo(c)[p]
         && c[p].value == c[a].value && c[p].disabled == c[a].disabled
  }

  /**
   * A completed `a.bindTo(b)` joins `b` to the cells already joined to `a`:
   * they are in `a`'s component, so the value and flag `a` takes from `b`
   * reach them too, or they already held them.
   */
  lemma LegacyBindJoins<T>(w: World<Option<T>>, a: CellId, b: CellId, ps: set<CellId>)
    requires Ready(w) && IsAlive(w, a) && IsAlive(w, b)
    requires a != b && b !in Topo(w.cells)[a] && Forest(AddLink(Topo(w.cells), a, b))
    requires Joined(w.cells, a, ps)
    ensures var r := LegacyBindTo(w, a, b);
            && (r.0.Done? <==> !w.cells[a].disabled)
            && (r.0.Fail? ==> r == (Fail(DisabledMutation), w))
            && (r.0.Done? ==>
                  && Joined(r.1.cells, a, ps + {b})
                  && r.1.cells[a].value == w.cells[b].value && r.1.cells[a].disabled == w.cells[b].disabled
                  && r.1.cells[b].value == w.cells[b].value && r.1.cells[b].disabled == w.cells[b].disabled)
  {
    LegacyBindShape(w, a, b);
    if !w.cells[a].disabled {
      var w1 := LegacyAssignValue(w, a, w.cells[b].value).1;
      var w2 := LegacyAssignDisabled(w1, a, w1.cells[b].disabled);
      SetterJoins(w, w1, w2, a, b, ps);
      LinkStepJoins(w, w2, a, b, ps);
    }
  }

  /** The two setter steps of a bind that gets past its checks: `a` and the cells joined to it hold `b`'s value and flag. */
  lemma SetterJoins<T>(w: World<Option<T>>, w1: World<Option<T>>, w2: World<Option<T>>, a: CellId, b: CellId, ps: set<CellId>)
    requires Ready(w) && IsAlive(w, a) && IsAlive(w, b) && !w.cells[a].disabled
    requires b !in Topo(w.cells)[a] && Forest(AddLink(Topo(w.cells), a, b))
    requires Joined(w.cells, a, ps)
    requires w1 == LegacyAssignValue(w, a, w.cells[b].value).1
    requires IsAlive(w1, a) && b in w1.cells && w2 == LegacyAssignDisabled(w1, a, w1.cells[b].disabled)
    ensures Ready(w2) && Topo(w2.cells) == Topo(w.cells) && Frames(w2.cells) == Frames(w.cells) && w2.next == w.next
    ensures w2.cells.Keys == w.cells.Keys && b !in ps
    ensures w2.cells[a].value == w.cells[b].value && w2.cells[a].disabled == w.cells[b].disabled
    ensures w2.cells[b].value == w.cells[b].value && w2.cells[b].disabled == w.cells[b].disabled
    ensures forall p :: p in ps ==> w2.cells[p].value == w.cells[b].value && w2.cells[p].disabled == w.cells[b].disabled
  {
    JoinedInComponent(w, a, b, ps);
    ValueJoins(w, a, b, ps);
    FlagJoins(w, w1, a, b, ps);
  }

  /** The link step of a bind that gets past its checks. */
  lemma LinkStepJoins<T>(w: World<Option<T>>, w2: World<Option<T>>, a: CellId, b: CellId, ps: set<CellId>)
    requires Ready(w) && IsAlive(w, a) && IsAlive(w, b) && a != b && b !in ps
    requires Forest(AddLink(Topo(w.cells), a, b)) && Joined(w.cells, a, ps)
    requires Ready(w2) && Topo(w2.cells) == Topo(w.cells) && Frames(w2.cells) == Frames(w.cells) && w2.next == w.next
    requires w2.cells.Keys == w.cells.Keys
    requires w2.cells[a].value == w.cells[b].value && w2.cells[a].disabled == w.cells[b].disabled
    requires w2.cells[b].value == w.cells[b].value && w2.cells[b].disabled == w.cells[b].disabled
    requires forall p :: p in ps ==> w2.cells[p].value == w.cells[b].value && w2.cells[p].disabled == w.cells[b].disabled
    ensures var r := Link(w2, a, b);
            && Joined(r.cells, a, ps + {b})
            && r.cells[a].value == w.cells[b].value && r.cells[a].disabled == w.cells[b].disabled
            && r.cells[b].value == w.cells[b].value && r.cells[b].disabled == w.cells[b].disabled
  {
    LinkReady(w, w2, a, b);
    LinkFields(w2, a, b);
    LinkJoins(w, Link(w2, a, b), a, b, ps);
  }

  /** A bind that gets past its checks: the value setter, then the flag setter, then the link. */
  lemma LegacyBindShape<T>(w: World<Option<T>>, a: CellId, b: CellId)
    requires Ready(w) && IsAlive(w, a) && IsAlive(w, b)
    requires a != b && b !in Topo(w.cells)[a] && Forest(AddLink(Topo(w.cells), a, b))
    ensures var w1 := LegacyAssignValue(w, a, w.cells[b].value).1;
            && IsAlive(w1, a) && IsAlive(w1, b)
            && var w2 := LegacyAssignDisabled(w1, a, w1.cells[b].disabled);
               && a in w2.cells && b in w2.cells
               && LegacyBindTo(w, a, b) == if w.cells[a].disabled then (Fail(DisabledMutation), w) else (Done, Link(w2, a, b))
  {
  }

  /** The cells joined to `a` are in its component, and `b`, about to be linked, is not. */
  lemma JoinedInComponent<T>(w: World<Option<T>>, a: CellId, b: CellId, ps: set<CellId>)
    requires Ready(w) && IsAlive(w, a) && IsAlive(w, b)
    requires b !in Topo(w.cells)[a] && Forest(AddLink(Topo(w.cells), a, b))
    requires Joined(w.cells, a, ps)
    ensures b !in Component(Topo(w.cells), a) && a in Component(Topo(w.cells), a)
    ensures ps <= Component(Topo(w.cells), a)
  {
    var t := Topo(w.cells);
    LinkedApart(t, a, b);
    WaveCoversComponent(t, a);
    forall p | p in ps
      ensures p in Component(t, a)
    {
      PeerInComponent(t, a, p);
    }
  }

  /** The value step of the bind: `a` and the cells joined to it hold `b`'s value; `b` and every flag stay. */
  lemma ValueJoins<T>(w: World<Option<T>>, a: CellId, b: CellId, ps: set<CellId>)
    requires Ready(w) && IsAlive(w, a) && IsAlive(w, b) && !w.cells[a].disabled
    requires b !in Component(Topo(w.cells), a) && a in Component(Topo(w.cells), a) && ps <= Component(Topo(w.cells), a)
    requires forall p :: p in ps ==> p in w.cells && w.cells[p].value == w.cells[a].value
    ensures var w1 := LegacyAssignValue(w, a, w.cells[b].value).1;
            && w1.cells[b] == w.cells[b]
            && w1.cells[a].value == w.cells[b].value && w1.cells[a].disabled == w.cells[a].disabled
            && forall p :: p in ps ==> w1.cells[p].value == w.cells[b].value && w1.cells[p].disabled == w.cells[p].disabled
  {
    LegacyValueEffect(w, a, w.cells[b].value);
  }

  /** The flag step of the bind: `a` and the cells joined to it hold `b`'s flag; `b` and every value stay. */
  lemma FlagJoins<T>(w: World<Option<T>>, w1: World<Option<T>>, a: CellId, b: CellId, ps: set<CellId>)
    requires Ready(w1) && IsAlive(w1, a) && b in w1.cells && Topo(w1.cells) == Topo(w.cells)
    requires b !in Component(Topo(w.cells), a) && a in Component(Topo(w.cells), a) && ps <= Component(Topo(w.cells), a)
    requires forall p :: p in ps ==> p in w1.cells && w1.cells[p].disabled == w1.cells[a].disabled
    ensures var w2 := LegacyAssignDisabled(w1, a, w1.cells[b].disabled);
            && w2.cells[b] == w1.cells[b]
            && w2.cells[a].disabled == w1.cells[b].disabled && w2.cells[a].value == w1.cells[a].value
            && forall p :: p in ps ==> w2.cells[p].disabled == w1.cells[b].disabled && w2.cells[p].value == w1.cells[p].value
  {
    LegacyFlagEffect(w1, a, w1.cells[b].disabled);
  }

  /** The link step of the bind: `b` joins the cells linked to `a`. */
  lemma LinkJoins<T>(w: World<Option<T>>, r: World<Option<T>>, a: CellId, b: CellId, ps: set<CellId>)
    requires a in Topo(w.cells) && b in Topo(w.cells) && a != b && b !in ps
    requires Joined(w.cells, a, ps) && Topo(r.cells) == AddLink(Topo(w.cells), a, b)
    requires r.cells.Keys == w.cells.Keys
    requires forall p :: p in ps + {b} ==> r.cells[p].value == r.cells[a].value && r.cells[p].disabled == r.cells[a].disabled
    ensures Joined(r.cells, a, ps + {b})
  {
    var t := Topo(w.cells);
    forall p | p in ps + {b}
      ensures p in Topo(r.cells) && p in Topo(r.cells)[a] && a in Topo(r.cells)[p]
    {
      assert p in AddLink(t, a, b)[a];
    }
  }

  /**
   * The vararg `a.bindTo(xs...)`: each bind that completes joins its
   * argument to the cells joined before.
   */
  lemma {:induction false} LegacyBindAllJoins<T>(w: World<Option<T>>, a: CellId, xs: seq<CellId>, ps: set<CellId>)
    requires LegacyCanBindAll(w, a, xs) && Joined(w.cells, a, ps)
    ensures var r := LegacyBindToAll(w, a, xs);
            r.0.Done? ==> Joined(r.1.cells, a, ps + Elems(xs))
    decreases |xs|
  {
    if xs == [] {
      assert ps + Elems(xs) == ps;
    } else {
      var r1 := BindAllJoinStep(w, a, xs, ps);
      if r1.0.Done? {
        LegacyBindAllJoins(r1.1, a, xs[1..], ps + {xs[0]});
        ElemsCons(xs);
        assert ps + {xs[0]} + Elems(xs[1..]) == ps + Elems(xs);
      }
    }
  }

  /** The first bind of the vararg bindTo, when it completes, joins its argument and leaves the rest bindable. */
  lemma BindAllJoinStep<T>(w: World<Option<T>>, a: CellId, xs: seq<CellId>, ps: set<CellId>) returns (r1: (Outcome, World<Option<T>>))
    requires LegacyCanBindAll(w, a, xs) && Joined(w.cells, a, ps) && xs != []
    ensures r1.0.Done? ==> LegacyCanBindAll(r1.1, a, xs[1..]) && Joined(r1.1.cells, a, ps + {xs[0]})
    ensures LegacyBindToAll(w, a, xs) == if r1.0.Fail? then r1 else LegacyBindToAll(r1.1, a, xs[1..])
  {
    LegacyBindAllStep(w, a, xs);
    r1 := LegacyBindTo(w, a, xs[0]);
    if r1.0.Done? {
      LegacyBindJoins(w, a, xs[0], ps);
    }
  }

  /** One bind of the vararg bindTo: a throw ends it; otherwise the rest runs on the linked graph. */
  lemma LegacyBindAllStep<T>(w: World<Option<T>>, a: CellId, xs: seq<CellId>)
    requires LegacyCanBindAll(w, a, xs) && xs != []
    ensures IsAlive(w, a) && IsAlive(w, xs[0])
    ensures xs[0] != a && xs[0] !in Topo(w.cells)[a] && !w.cells[a].disabled ==> Forest(AddLink(Topo(w.cells), a, xs[0]))
    ensures var r1 := LegacyBindTo(w, a, xs[0]);
            && (r1.0.Done? ==> xs[0] != a && xs[0] !in Topo(w.cells)[a] && !w.cells[a].disabled)
            && (r1.0.Done? ==> LegacyCanBindAll(r1.1, a, xs[1..]))
            && LegacyBindToAll(w, a, xs) == if r1.0.Fail? then r1 else LegacyBindToAll(r1.1, a, xs[1..])
  {
    assert xs[0] in Topo(w.cells);
  }

  /**
   * The vararg `a.bindTo(xs...)`, when every bind completes: `a` is linked
   * both ways to every argument, and `a` and every argument hold the value
   * and flag the last argument held before the call: its value has reached
   * every earlier argument.
   */
  lemma LegacyBindToAllEffect<T>(w: World<Option<T>>, a: CellId, xs: seq<CellId>)
    requires LegacyCanBindAll(w, a, xs)
    ensures var r := LegacyBindToAll(w, a, xs);
            r.0.Done? ==> Joined(r.1.cells, a, Elems(xs))
    ensures var r := LegacyBindToAll(w, a, xs);
            r.0.Done? && xs != [] ==>
              r.1.cells[a].value == w.cells[Last(xs)].value && r.1.cells[a].disabled == w.cells[Last(xs)].disabled
  {
    LegacyBindAllJoins(w, a, xs, {});
    assert {} + Elems(xs) == Elems(xs);
    LegacyBindAllLast(w, a, xs);
  }

  /**
   * A vararg `a.bindTo(xs...)` whose first bind throws (on `a` itself, on a
   * current peer, or because `a` is disabled) needs nothing of the later
   * arguments, whatever links they would add, and rethrows that exception
   * with nothing changed.
   */
  lemma LegacyBindToAllFirstThrows<T>(w: World<Option<T>>, a: CellId, xs: seq<CellId>)
    requires Ready(w) && IsAlive(w, a) && (forall i :: 0 <= i < |xs| ==> IsAlive(w, xs[i])) && xs != []
    requires xs[0] == a || xs[0] in Topo(w.cells)[a] || w.cells[a].disabled
    ensures LegacyCanBindAll(w, a, xs)
    ensures var f := if xs[0] == a then SelfBind else if xs[0] in Topo(w.cells)[a] then AlreadyBound else DisabledMutation;
            LegacyBindToAll(w, a, xs) == (Fail(f), w)
  {
  }

  /**
   * The receiver of a completed vararg bind ends with the last argument's
   * value and flag, which no earlier bind touched: that argument lay
   * outside `a`'s component.
   */
  lemma {:induction false} LegacyBindAllLast<T>(w: World<Option<T>>, a: CellId, xs: seq<CellId>)
    requires LegacyCanBindAll(w, a, xs)
    ensures var r := LegacyBindToAll(w, a, xs);
            r.0.Done? && xs != [] ==>
              && Last(xs) !in Component(Topo(w.cells), a)
              && r.1.cells[a].value == w.cells[Last(xs)].value && r.1.cells[a].disabled == w.cells[Last(xs)].disabled
    decreases |xs|
  {
    if xs != [] {
      var r1 := BindAllLastStep(w, a, xs, Last(xs));
      if r1.0.Done? && |xs| > 1 {
        LegacyBindAllLast(r1.1, a, xs[1..]);
        assert Last(xs[1..]) == Last(xs);
      }
    }
  }

  /** The first bind of the vararg bindTo, when it completes: `a` holds `xs[0]`'s value and flag, and `n` outside `a`'s component keeps its own and stays outside. */
  lemma BindAllLastStep<T>(w: World<Option<T>>, a: CellId, xs: seq<CellId>, n: CellId) returns (r1: (Outcome, World<Option<T>>))
    requires LegacyCanBindAll(w, a, xs) && xs != [] && n in w.cells
    ensures r1.1.cells.Keys == w.cells.Keys
    ensures r1.0.Done? ==> LegacyCanBindAll(r1.1, a, xs[1..])
    ensures LegacyBindToAll(w, a, xs) == if r1.0.Fail? then r1 else LegacyBindToAll(r1.1, a, xs[1..])
    ensures r1.0.Done? ==>
              && xs[0] in w.cells
              && xs[0] !in Component(Topo(w.cells), a)
              && r1.1.cells[a].value == w.cells[xs[0]].value && r1.1.cells[a].disabled == w.cells[xs[0]].disabled
              && (n in Component(Topo(w.cells), a) ==> n in Component(Topo(r1.1.cells), a))
              && (n !in Component(Topo(w.cells), a) ==>
                    r1.1.cells[n].value == w.cells[n].value && r1.1.cells[n].disabled == w.cells[n].disabled)
  {
    LegacyBindAllStep(w, a, xs);
    r1 := LegacyBindTo(w, a, xs[0]);
    if r1.0.Done? {
      BindFromOutside(w, a, xs[0], n);
    }
  }

  /** A completed fresh bind: `b` lay outside `a`'s component, `a` takes its value and flag, and `n` keeps its side. */
  lemma BindFromOutside<T>(w: World<Option<T>>, a: CellId, b: CellId, n: CellId)
    requires Ready(w) && IsAlive(w, a) && IsAlive(w, b) && n in w.cells
    requires a != b && b !in Topo(w.cells)[a] && Forest(AddLink(Topo(w.cells), a, b))
    ensures var r := LegacyBindTo(w, a, b);
            r.0.Done? ==>
              && b !in Component(Topo(w.cells), a)
              && r.1.cells[a].value == w.cells[b].value && r.1.cells[a].disabled == w.cells[b].disabled
              && (n in Component(Topo(w.cells), a) ==> n in Component(Topo(r.1.cells), a))
              && (n !in Component(Topo(w.cells), a) ==>
                    r.1.cells[n].value == w.cells[n].value && r.1.cells[n].disabled == w.cells[n].disabled)
  {
    var t := Topo(w.cells);
    LegacyBindToEffect(w, a, b);
    LinkedApart(t, a, b);
    if n in Component(t, a) {
      ComponentAddLink(t, a, b, n);
    } else {
      BindKeepsOutside(w, a, b, n);
    }
  }

  /** Linking `a` to `b` keeps every cell of `a`'s component in it. */
  lemma ComponentAddLink(t: Topology, a: CellId, b: CellId, n: CellId)
    requires a in t && b in t && n in Component(t, a)
    ensures n in Component(AddLink(t, a, b), a)
  {
    ReachesGrows(t, AddLink(t, a, b), a, n);
  }

  /** A completed legacy bind writes only `a`'s component: every other cell keeps its value and flag. */
  lemma BindKeepsOutside<T>(w: World<Option<T>>, a: CellId, b: CellId, n: CellId)
    requires Ready(w) && IsAlive(w, a) && IsAlive(w, b)
    requires a != b && b !in Topo(w.cells)[a] && Forest(AddLink(Topo(w.cells), a, b))
    requires n in w.cells && n !in Component(Topo(w.cells), a)
    ensures var r := LegacyBindTo(w, a, b);
            r.0.Done? ==> r.1.cells[n].value == w.cells[n].value && r.1.cells[n].disabled == w.cells[n].disabled
  {
    LegacyBindShape(w, a, b);
    if !w.cells[a].disabled {
      LegacyValueEffect(w, a, w.cells[b].value);
      var w1 := LegacyAssignValue(w, a, w.cells[b].value).1;
      LegacyFlagEffect(w1, a, w1.cells[b].disabled);
      var w2 := LegacyAssignDisabled(w1, a, w1.cells[b].disabled);
      LinkFields(w2, a, b);
    }
  }

  // ---------------------------------------------------------------------------
  // Unbinding

  /** A completed legacy bind in an arena without dead handles appends to the two lists and to no other. */
  lemma LegacyBindLinks<T>(w: World<Option<T>>, a: CellId, b: CellId)
    requires Ready(w) && IsAlive(w, a) && IsAlive(w, b) && Clean(w.cells)
    requires a != b && b !in Topo(w.cells)[a] && Forest(AddLink(Topo(w.cells), a, b))
    ensures var r := LegacyBindTo(w, a, b);
            r.0.Done? ==> forall n :: n in w.cells ==>
              r.1.cells[n].links == if n == a then w.cells[a].links + [b] else if n == b then w.cells[b].links + [a] else w.cells[n].links
  {
    LegacyBindShape(w, a, b);
    if !w.cells[a].disabled {
      var w1 := LegacyAssignValue(w, a, w.cells[b].value).1;
      var w2 := LegacyAssignDisabled(w1, a, w1.cells[b].disabled);
      ValueClean(w, a, w.cells[b].value);
      FlagClean(w1, a, w1.cells[b].disabled);
      LinkLists(w, w1, w2, a, b);
    }
  }

  /** In an arena without dead handles, the legacy value setter keeps every list of handles. */
  lemma ValueClean<T>(w: World<Option<T>>, a: CellId, v: Option<T>)
    requires Ready(w) && IsAlive(w, a) && Clean(w.cells)
    ensures var c2 := LegacyAssignValue(w, a, v).1.cells;
            Clean(c2) && SameLinks(w.cells, c2)
  {
    var cell := w.cells[a];
    if !cell.disabled && !(v.Some? && v == cell.value) {
      SpreadClean(w, a, SetValue(cell.value, v));
    }
  }

  /** So does the legacy disabled setter. */
  lemma FlagClean<T>(w: World<Option<T>>, a: CellId, d: bool)
    requires Ready(w) && IsAlive(w, a) && Clean(w.cells)
    ensures var c2 := LegacyAssignDisabled(w, a, d).cells;
            Clean(c2) && SameLinks(w.cells, c2)
  {
    if d != w.cells[a].disabled {
      SpreadClean(w, a, SetDisabled(d));
    }
  }

  /** An unguarded wave in an arena without dead handles keeps every list of handles. */
  lemma SpreadClean<T>(w: World<Option<T>>, x: CellId, sig: Signal<Option<T>>)
    requires Ready(w) && IsAlive(w, x) && Clean(w.cells)
    ensures var c2 := LegacySpread(w, x, sig).cells;
            Clean(c2) && SameLinks(w.cells, c2)
  {
    SpreadOver(w, x, sig, false);
    var s :| s <= Alive(w.cells) && Spread(w, x, sig, false).1.cells == WriteAll(w.cells, s, sig);
    CleanWriteAll(w.cells, s, sig);
  }

  /**
   * `a.unbindFrom(b)` undoes `a.bindTo(b)`: in an arena without dead
   * handles, where neither list held the other, binding and then unbinding
   * gives every list of handles and the live link graph back, so a change
   * of either cell no longer reaches the other. The copied value and flag
   * stay.
   */
  lemma LegacyUnbindUndoesBind<T>(w: World<Option<T>>, a: CellId, b: CellId)
    requires Ready(w) && IsAlive(w, a) && IsAlive(w, b) && Clean(w.cells)
    requires b !in w.cells[a].links && a !in w.cells[b].links && Forest(AddLink(Topo(w.cells), a, b))
    ensures a != b && b !in Topo(w.cells)[a]
    ensures var r := LegacyBindTo(w, a, b);
            r.0.Done? ==>
              var u := Unlink(r.1, a, b);
              && (forall n :: n in w.cells ==> u.cells[n].links == w.cells[n].links)
              && Topo(u.cells) == Topo(w.cells)
              && b !in Component(Topo(u.cells), a) && a !in Component(Topo(u.cells), b)
              && (forall n :: n in w.cells ==> u.cells[n].value == r.1.cells[n].value && u.cells[n].disabled == r.1.cells[n].disabled)
  {
    Apart(w, a, b);
    var r := LegacyBindTo(w, a, b);
    if r.0.Done? {
      LegacyBindLinks(w, a, b);
      UndoLinks(w, r.1, a, b);
    }
  }

  /** Two unlinked cells whose link keeps the graph a forest are in different components. */
  lemma Apart<T>(w: World<Option<T>>, a: CellId, b: CellId)
    requires Ready(w) && IsAlive(w, a) && IsAlive(w, b)
    requires b !in w.cells[a].links && a !in w.cells[b].links && Forest(AddLink(Topo(w.cells), a, b))
    ensures a != b && b !in Topo(w.cells)[a]
    ensures b !in Component(Topo(w.cells), a) && a !in Component(Topo(w.cells), b)
  {
    var t := Topo(w.cells);
    LiveKeepsLiveEntries(w.cells[a].links, Alive(w.cells));
    LiveKeepsLiveEntries(w.cells[b].links, Alive(w.cells));
    LinkedApart(t, a, b);
    assert AddLink(t, b, a) == AddLink(t, a, b);
    LinkedApart(t, b, a);
  }

  /** Removing the two handles a bind appended gives back every list, the live link graph, and so the two components. */
  lemma UndoLinks<T>(w: World<Option<T>>, r: World<Option<T>>, a: CellId, b: CellId)
    requires Ready(w) && IsAlive(w, a) && IsAlive(w, b) && a != b
    requires b !in w.cells[a].links && a !in w.cells[b].links
    requires b !in Component(Topo(w.cells), a) && a !in Component(Topo(w.cells), b)
    requires Frames(r.cells) == Frames(w.cells) && r.next == w.next && r.cells.Keys == w.cells.Keys
    requires forall n :: n in w.cells ==>
               r.cells[n].links == if n == a then w.cells[a].links + [b] else if n == b then w.cells[b].links + [a] else w.cells[n].links
    ensures var u := Unlink(r, a, b);
            && (forall n :: n in w.cells ==> u.cells[n].links == w.cells[n].links)
            && Topo(u.cells) == Topo(w.cells)
            && b !in Component(Topo(u.cells), a) && a !in Component(Topo(u.cells), b)
            && (forall n :: n in w.cells ==> u.cells[n].value == r.cells[n].value && u.cells[n].disabled == r.cells[n].disabled)
  {
    UnlinkRestores(w, r, a, b);
    var u := Unlink(r, a, b);
    UnlinkShrinks(r, a, b);
    FramesAgree(u.cells, w.cells);
    SameLinksSameTopo(w.cells, u.cells);
  }

  /** The loop of `unbindBindings` removes, from each cell, one handle to `x` per occurrence in the snapshot. */
  lemma {:induction false} UnbindPeersEffect<T>(w: World<Option<T>>, x: CellId, ps: seq<CellId>)
    requires Ready(w) && x in w.cells && Elems(ps) <= w.cells.Keys && x !in ps
    ensures PeersUnbound(w.cells, UnbindPeers(w, x, ps).cells, x, ps)
    decreases |ps|
  {
    if ps == [] {
      assert forall p :: Count(ps, p) == 0;
    } else {
      var e := ps[0];
      ElemsCons(ps);
      UnlinkReady(w, e, x);
      UnlinkPeer(w, e, x);
      UnbindPeersEffect(Unlink(w, e, x), x, ps[1..]);
      PeersUnboundCons(w.cells, Unlink(w, e, x).cells, UnbindPeers(w, x, ps).cells, x, ps);
    }
  }

  /** `x.unbindBindings()` on a live cell unbinds it as `BindingsUnbound` says. */
  lemma LegacyUnbindBindingsEffect<T>(w: World<Option<T>>, x: CellId)
    requires Ready(w) && IsAlive(w, x)
    ensures BindingsUnbound(w.cells, LegacyUnbindBindings(w, x).cells, x)
  {
    var cell := w.cells[x];
    if cell.links == [] {
      assert forall p :: Count(cell.links, p) == 0;
    } else {
      var live := Live(cell.links, Alive(w.cells));
      var w1 := Put(w, x, cell.(links := live));
      PurgeReady(w, x);
      LiveKeepsLiveEntries(cell.links, Alive(w.cells));
      assert x !in live by {
        assert live == Topo(w.cells)[x];
      }
      UnbindPeersEffect(w1, x, live);
      var w2 := UnbindPeers(w1, x, live);
      BindingsCompose(w.cells, w1.cells, w2.cells, LegacyUnbindBindings(w, x).cells, x);
    }
  }

  /** Dropping the dead handles of `x`, unbinding the live ones and clearing the list unbinds `x`. */
  lemma BindingsCompose<T>(c: Cells<T>, c1: Cells<T>, c2: Cells<T>, c3: Cells<T>, x: CellId)
    requires x in c && c1 == c[x := c[x].(links := Live(c[x].links, Alive(c)))]
    requires PeersUnbound(c1, c2, x, Live(c[x].links, Alive(c)))
    requires c3 == c2[x := c2[x].(links := [])]
    ensures BindingsUnbound(c, c3, x)
  {
    forall p | p in c
      ensures c3[p].value == c[p].value && c3[p].disabled == c[p].disabled
      ensures c3[p].valueObservers == c[p].valueObservers && c3[p].disabledObservers == c[p].disabledObservers
      ensures p != x && p in Alive(c) ==> Count(c3[p].links, x) == Drop(Count(c[p].links, x), Count(c[x].links, p))
      ensures p != x ==> OthersKept(c3[p].links, c[p].links, x)
      ensures p != x && (p !in Alive(c) || p !in c[x].links) ==> c3[p].links == c[p].links
    {
      ComposeAt(c, c1, c2, c3, x, p);
    }
  }

  /** `BindingsCompose` at one cell `p`. */
  lemma ComposeAt<T>(c: Cells<T>, c1: Cells<T>, c2: Cells<T>, c3: Cells<T>, x: CellId, p: CellId)
    requires x in c && c1 == c[x := c[x].(links := Live(c[x].links, Alive(c)))]
    requires PeersUnbound(c1, c2, x, Live(c[x].links, Alive(c)))
    requires c3 == c2[x := c2[x].(links := [])]
    requires p in c
    ensures c3[p].value == c[p].value && c3[p].disabled == c[p].disabled
    ensures c3[p].valueObservers == c[p].valueObservers && c3[p].disabledObservers == c[p].disabledObservers
    ensures p != x && p in Alive(c) ==> Count(c3[p].links, x) == Drop(Count(c[p].links, x), Count(c[x].links, p))
    ensures p != x ==> OthersKept(c3[p].links, c[p].links, x)
    ensures p != x && (p !in Alive(c) || p !in c[x].links) ==> c3[p].links == c[p].links
  {
    var live := Live(c[x].links, Alive(c));
    assert c1[p].value == c[p].value && c1[p].disabled == c[p].disabled;
    if p != x {
      assert c1[p] == c[p] && c3[p] == c2[p];
      if p in Alive(c) {
        LiveKeepsLiveEntries(c[x].links, Alive(c));
        assert Count(live, p) == Count(c[x].links, p);
      }
      if p !in Alive(c) || p !in c[x].links {
        LiveKeepsLiveEntries(c[x].links, Alive(c));
        assert p !in live;
      }
    }
  }


  // ---------------------------------------------------------------------------
  // triggerChange

  /**
   * `x.triggerChange()`: no cell changes; every call it makes is made by
   * `x` itself, so nothing propagates: first each value observer of `x`,
   * once and in order, with the value as both the old and the new value
   * (none when the value is null), then each disabled observer, once and in
   * order, with the flag.
   */
  lemma TriggerChangeEffect<T>(w: World<Option<T>>, x: CellId)
    requires x in w.cells
    ensures var r := TriggerChange(w, x);
            var cell := w.cells[x];
            var k := if cell.value.Some? then |cell.valueObservers| else 0;
            && r.cells == w.cells && r.next == w.next
            && |r.log| == |w.log| + k + |cell.disabledObservers|
            && r.log[..|w.log|] == w.log
            && (forall i :: |w.log| <= i < |r.log| ==> r.log[i].cell == x)
            && (forall i :: 0 <= i < k ==>
                  r.log[|w.log| + i].call == Call(cell.valueObservers[i], ValueChange(ValueChangedEvent(cell.value, cell.value))))
            && (forall i :: 0 <= i < |cell.disabledObservers| ==>
                  r.log[|w.log| + k + i].call == Call(cell.disabledObservers[i], DisabledChange(cell.disabled)))
  {
    var cell := w.cells[x];
    InvocationOrder(cell.valueObservers, ValueChange(ValueChangedEvent(cell.value, cell.value)));
    var flagChange: Change<Option<T>> := DisabledChange(cell.disabled);
    InvocationOrder(cell.disabledObservers, flagChange);
  }
}
