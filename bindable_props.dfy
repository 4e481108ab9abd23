/**
 * Properties of the operations of `BindableSpec`: what each public setter,
 * each binding operation and the lease life cycle guarantee, stated over the
 * live link graph of the arena.
 */
module BindableProps {
  import opened Base
  import opened Waves
  import opened LinkList
  import opened Observers
  import opened Arena
  import opened BindableSpec

  /** The live cells joined to `x` by links, `x` itself included. */
  ghost function Component(t: Topology, x: CellId): set<CellId>
  {
    set m | m in t && Reaches(t, x, m)
  }

  /**
   * An unguarded wave from `x` enters exactly the other cells of `x`'s
   * component, and completes each of them as often as it enters it.
   */
  lemma WaveCoversComponent(t: Topology, x: CellId)
    requires Forest(t) && x in t
    ensures IsWave(t, [x])
    ensures FullWave(t, {}, [x]).ok
    ensures x in Component(t, x)
    ensures Elems(FullWave(t, {}, [x]).entered) == Component(t, x) - {x}
    ensures multiset(FullWave(t, {}, [x]).completed) == multiset(FullWave(t, {}, [x]).entered)
  {
    assert IsWave(t, [x]);
    var tr := FullWave(t, {}, [x]);
    UnblockedWaveOk(t, [x], |t[x]|);
    CompletedIsEntered(t, {}, [x], |t[x]|);
    assert Balanced(tr);
    WaveReachesComponent(t, x, x);
    forall m
      ensures m in Elems(tr.entered) <==> m in Component(t, x) - {x}
    {
      WaveReachesComponent(t, x, m);
      if m in tr.entered {
        EnteredIsBelow(t, {}, [x], |t[x]|, m);
        BelowIffReaches(t, x, m);
        var v :| IsPath(t, v) && Distinct(v) && v[0] == x && Last(v) == m;
      }
    }
  }

  /**
   * The internal setters with the lease check bypassed: the wave from `x`
   * writes exactly `x`'s component and fires the observers of the other
   * cells of the component, then `x`'s own.
   */
  lemma SpreadUnguarded<T>(w: World<T>, x: CellId, sig: Signal<T>)
    requires Ready(w) && IsAlive(w, x)
    ensures var t := Topo(w.cells);
            var (ok, w2) := Spread(w, x, sig, false);
            && ok
            && w2.cells == WriteAll(w.cells, Component(t, x), sig)
            && exists s :: w2.log == w.log + Fires(w.cells, s + [x], sig) && Elems(s) == Component(t, x) - {x}
  {
    var t := Topo(w.cells);
    WaveCoversComponent(t, x);
    var tr := FullWave(t, {}, [x]);
    assert Blocked(w.cells, false) == {};
    assert {x} + Elems(tr.entered) == Component(t, x);
    var s := tr.completed;
    assert Elems(s) == Elems(tr.entered) by {
      forall m ensures m in s <==> m in tr.entered {
        assert m in s <==> m in multiset(s);
      }
    }
  }

  /**
   * The guarded disabled setter of an unleased cell: the wave runs to the
   * end exactly when no cell of the component is leased, and then it is the
   * unguarded wave; when it stops, it has written part of the component
   * and nothing outside it.
   */
  lemma SpreadGuarded<T>(w: World<T>, x: CellId, sig: Signal<T>)
    requires Ready(w) && IsAlive(w, x) && w.cells[x].lease.None?
    ensures var t := Topo(w.cells);
            var (ok, w2) := Spread(w, x, sig, true);
            && (ok <==> forall m :: m in Component(t, x) ==> w.cells[m].lease.None?)
            && (ok ==> Spread(w, x, sig, true) == Spread(w, x, sig, false))
            && (!ok ==> exists s :: s <= Component(t, x) && w2.cells == WriteAll(w.cells, s, sig))
  {
    GuardedRuns(w, x, sig);
    GuardedStops(w, x, sig);
  }

  lemma GuardedRuns<T>(w: World<T>, x: CellId, sig: Signal<T>)
    requires Ready(w) && IsAlive(w, x) && w.cells[x].lease.None?
    ensures Spread(w, x, sig, true).0 <==> forall m :: m in Component(Topo(w.cells), x) ==> w.cells[m].lease.None?
    ensures Spread(w, x, sig, true).0 ==> Spread(w, x, sig, true) == Spread(w, x, sig, false)
  {
    var t := Topo(w.cells);
    GuardedWaveOk(t, Leased(w.cells), x);
    GuardOkIff(w, x);
    assert Blocked(w.cells, false) == {};
  }

  lemma GuardedStops<T>(w: World<T>, x: CellId, sig: Signal<T>)
    requires Ready(w) && IsAlive(w, x) && w.cells[x].lease.None?
    ensures !Spread(w, x, sig, true).0 ==>
              exists s :: s <= Component(Topo(w.cells), x) && Spread(w, x, sig, true).1.cells == WriteAll(w.cells, s, sig)
  {
    var t := Topo(w.cells);
    StoppedWaveInside(t, Leased(w.cells), x);
    var tr := FullWave(t, Leased(w.cells), [x]);
    var s := {x} + Elems(tr.entered);
    assert s <= Component(t, x);
    assert x !in Blocked(w.cells, true);
    assert Spread(w, x, sig, true).1.cells == WriteAll(w.cells, s, sig);
  }

  /** The guarded wave runs to the end exactly when the component has no lease. */
  lemma GuardOkIff<T>(w: World<T>, x: CellId)
    requires Ready(w) && IsAlive(w, x) && w.cells[x].lease.None?
    ensures IsWave(Topo(w.cells), [x])
    ensures FullWave(Topo(w.cells), Leased(w.cells), [x]).ok <==> forall m :: m in Component(Topo(w.cells), x) ==> w.cells[m].lease.None?
  {
    var t := Topo(w.cells);
    var blocked := Leased(w.cells);
    GuardedWaveOk(t, blocked, x);
    forall m | m in Component(t, x)
      ensures m in blocked <==> w.cells[m].lease.Some?
    {
    }
  }

  /** A stopped wave entered only cells of the component. */
  lemma StoppedWaveInside(t: Topology, blocked: set<CellId>, x: CellId)
    requires Forest(t) && x in t
    ensures IsWave(t, [x])
    ensures {x} + Elems(FullWave(t, blocked, [x]).entered) <= Component(t, x)
  {
    assert IsWave(t, [x]);
    var tr := FullWave(t, blocked, [x]);
    WaveReachesComponent(t, x, x);
    forall m | m in tr.entered
      ensures m in Component(t, x)
    {
      EnteredIsBelow(t, blocked, [x], |t[x]|, m);
      BelowIffReaches(t, x, m);
      var v :| IsPath(t, v) && Distinct(v) && v[0] == x && Last(v) == m;
    }
  }

  // ---------------------------------------------------------------------------
  // Public setters

  /** The unguarded wave from `x` changes the signal's field on the component of `x` and nowhere else. */
  lemma SpreadFields<T>(w: World<T>, x: CellId, sig: Signal<T>)
    requires Ready(w) && IsAlive(w, x)
    ensures var c2 := Spread(w, x, sig, false).1.cells;
            var comp := Component(Topo(w.cells), x);
            forall n :: n in w.cells ==>
              && n in c2
              && c2[n].value == (if n in comp && sig.SetValue? then sig.value else w.cells[n].value)
              && c2[n].disabled == (if n in comp && sig.SetDisabled? then sig.disabled else w.cells[n].disabled)
              && (n !in comp ==> c2[n] == w.cells[n])
  {
    SpreadUnguarded(w, x, sig);
    var comp := Component(Topo(w.cells), x);
    forall n | n in w.cells
    {
      WriteAllWrites(w.cells, comp, sig, n);
    }
  }

  /**
   * `value = v`: a disabled plain cell and a returned holder refuse, and
   * nothing changes; an equal value changes nothing; otherwise every cell
   * of the component, and no other cell, takes the value, no flag changes,
   * and the value observers of the other cells of the component fire
   * before those of `x`, each with the old value of `x` and `v`.
   */
  lemma AssignValueEffect<T>(w: World<T>, x: CellId, v: T)
    requires Ready(w) && IsAlive(w, x)
    ensures var cell := w.cells[x];
            var r := AssignValue(w, x, v);
            var comp := Component(Topo(w.cells), x);
            && (cell.kind.Plain? && cell.disabled ==> r.0 == Fail(DisabledMutation))
            && (cell.kind.Holder? && cell.kind.returned ==> r.0 == Fail(ReturnedLease))
            && (r.0.Fail? <==> (cell.kind.Plain? && cell.disabled) || (cell.kind.Holder? && cell.kind.returned))
            && (r.0.Fail? || v == cell.value ==> r.1 == w)
            && (r.0.Done? && v != cell.value ==> forall n :: n in w.cells ==>
                  r.1.cells[n].value == (if n in comp then v else w.cells[n].value)
                  && r.1.cells[n].disabled == w.cells[n].disabled)
            && (r.0.Done? && v != cell.value ==> forall n :: n in w.cells && n !in comp ==> r.1.cells[n] == w.cells[n])
            && (r.0.Done? && v != cell.value ==>
                  exists s :: r.1.log == w.log + Fires(w.cells, s + [x], SetValue(cell.value, v)) && Elems(s) == comp - {x})
  {
    var cell := w.cells[x];
    if AssignValue(w, x, v).0.Done? && v != cell.value {
      var sig := SetValue(cell.value, v);
      AssignValueRuns(w, x, v);
      SpreadUnguarded(w, x, sig);
      SpreadFields(w, x, sig);
    }
  }

  /** A value setter that does not refuse and gets a new value runs the unguarded value wave. */
  lemma AssignValueRuns<T>(w: World<T>, x: CellId, v: T)
    requires Ready(w) && IsAlive(w, x)
    requires AssignValue(w, x, v).0.Done? && v != w.cells[x].value
    ensures AssignValue(w, x, v).1 == Spread(w, x, SetValue(w.cells[x].value, v), false).1
  {
    var cell := w.cells[x];
    assert !(cell.kind.Plain? && cell.disabled) && !(cell.kind.Holder? && cell.kind.returned);
  }

  /**
   * `disabled = d` on a plain cell: a leased cell refuses, and an equal
   * flag changes nothing. Otherwise the guarded wave runs. It completes
   * exactly when no cell of the component is leased, and then every cell
   * of the component takes the flag and their disabled observers fire,
   * those of `x` last. When a leased cell stops it, the setter fails with
   * `LeaseActive`, having written part of the component. Either way no
   * value changes and no cell outside the component changes.
   */
  lemma AssignDisabledPlainEffect<T>(w: World<T>, x: CellId, d: bool)
    requires Ready(w) && IsAlive(w, x) && w.cells[x].kind.Plain?
    ensures var cell := w.cells[x];
            var r := AssignDisabled(w, x, d);
            var comp := Component(Topo(w.cells), x);
            && (cell.lease.Some? ==> r.0 == Fail(LeaseActive) && r.1 == w)
            && (cell.lease.None? && d == cell.disabled ==> r.0 == Done && r.1 == w)
            && (cell.lease.None? && d != cell.disabled ==>
                  && (r.0.Done? <==> forall m :: m in comp ==> w.cells[m].lease.None?)
                  && (r.0.Fail? ==> r.0 == Fail(LeaseActive))
                  && (forall n :: n in w.cells ==> n in r.1.cells && r.1.cells[n].value == w.cells[n].value)
                  && (forall n :: n in w.cells ==> r.1.cells[n].disabled == w.cells[n].disabled || r.1.cells[n].disabled == d)
                  && (forall n :: n in w.cells && n !in comp ==> r.1.cells[n] == w.cells[n])
                  && (r.0.Done? ==> forall n :: n in comp ==> r.1.cells[n].disabled == d)
                  && (r.0.Done? ==>
                        exists s :: r.1.log == w.log + Fires(w.cells, s + [x], SetDisabled(d)) && Elems(s) == comp - {x}))
  {
    var cell := w.cells[x];
    if cell.lease.None? && d != cell.disabled {
      var sig: Signal<T> := SetDisabled(d);
      PlainDisabledRuns(w, x, d);
      SpreadGuarded(w, x, sig);
      if Spread(w, x, sig, true).0 {
        SpreadUnguarded(w, x, sig);
        SpreadFields(w, x, sig);
      } else {
        var s :| s <= Component(Topo(w.cells), x) && Spread(w, x, sig, true).1.cells == WriteAll(w.cells, s, sig);
        forall n | n in w.cells
          ensures n in WriteAll(w.cells, s, sig) && WriteAll(w.cells, s, sig)[n].value == w.cells[n].value
          ensures n !in Component(Topo(w.cells), x) ==> WriteAll(w.cells, s, sig)[n] == w.cells[n]
          ensures WriteAll(w.cells, s, sig)[n].disabled == w.cells[n].disabled || WriteAll(w.cells, s, sig)[n].disabled == d
        {
          WriteAllWrites(w.cells, s, sig, n);
        }
      }
    }
  }

  /** The disabled setter of an unleased plain cell given a new flag runs the guarded wave. */
  lemma PlainDisabledRuns<T>(w: World<T>, x: CellId, d: bool)
    requires Ready(w) && IsAlive(w, x) && w.cells[x].kind.Plain?
    requires w.cells[x].lease.None? && d != w.cells[x].disabled
    ensures var sp := Spread(w, x, SetDisabled(d), true);
            AssignDisabled(w, x, d) == (if sp.0 then Done else Fail(LeaseActive), sp.1)
  {
  }

  /**
   * `disabled = d` on a lease holder: a returned holder refuses; otherwise
   * the wave runs past every lease, even when the flag is already `d`, and
   * every cell of the component takes the flag.
   */
  lemma AssignDisabledHolderEffect<T>(w: World<T>, x: CellId, d: bool)
    requires Ready(w) && IsAlive(w, x) && w.cells[x].kind.Holder?
    ensures var cell := w.cells[x];
            var r := AssignDisabled(w, x, d);
            var comp := Component(Topo(w.cells), x);
            && (cell.kind.returned ==> r.0 == Fail(ReturnedLease) && r.1 == w)
            && (!cell.kind.returned ==>
                  && r.0 == Done
                  && (forall n :: n in w.cells ==>
                        r.1.cells[n].disabled == (if n in comp then d else w.cells[n].disabled)
                        && r.1.cells[n].value == w.cells[n].value)
                  && (forall n :: n in w.cells && n !in comp ==> r.1.cells[n] == w.cells[n])
                  && exists s :: r.1.log == w.log + Fires(w.cells, s + [x], SetDisabled(d)) && Elems(s) == comp - {x})
  {
    if !w.cells[x].kind.returned {
      var sig: Signal<T> := SetDisabled(d);
      HolderDisabledRuns(w, x, d);
      SpreadUnguarded(w, x, sig);
      SpreadFields(w, x, sig);
    }
  }

  /** The disabled setter of a holder not yet returned runs the unguarded wave. */
  lemma HolderDisabledRuns<T>(w: World<T>, x: CellId, d: bool)
    requires Ready(w) && IsAlive(w, x) && w.cells[x].kind.Holder? && !w.cells[x].kind.returned
    ensures AssignDisabled(w, x, d) == (Done, Spread(w, x, SetDisabled(d), false).1)
  {
  }

  // ---------------------------------------------------------------------------
  // Binding

  /**
   * `a.bindTo(b)`: binding to a current peer refuses and changes nothing.
   * A bind that completes leaves `a` with `b`'s value and flag, leaves `b`
   * as it was apart from the new handle, and links the two both ways.
   */
  lemma BindToEffect<T>(w: World<T>, a: CellId, b: CellId)
    requires Ready(w) && IsAlive(w, a) && IsAlive(w, b)
    requires BindSetters(w, a, b).0.Done? ==> Forest(AddLink(Topo(w.cells), a, b))
    ensures var r := BindTo(w, a, b);
            && (b in Topo(w.cells)[a] ==> r == (Fail(AlreadyBound), w))
            && r.1.cells[b].value == w.cells[b].value && r.1.cells[b].disabled == w.cells[b].disabled
            && (forall n :: n in w.cells ==>
                  && (r.1.cells[n].value == w.cells[n].value || r.1.cells[n].value == w.cells[b].value)
                  && (r.1.cells[n].disabled == w.cells[n].disabled || r.1.cells[n].disabled == w.cells[b].disabled))
            && (r.0.Done? ==>
                  && r.1.cells[a].value == w.cells[b].value && r.1.cells[a].disabled == w.cells[b].disabled
                  && r.1.cells[b].value == w.cells[b].value && r.1.cells[b].disabled == w.cells[b].disabled
                  && b in Topo(r.1.cells)[a] && a in Topo(r.1.cells)[b])
  {
    var t := Topo(w.cells);
    if b !in t[a] {
      BindToShape(w, a, b);
      var r1 := AssignValue(w, a, w.cells[b].value);
      BindValueStep(w, a, b);
      if r1.0.Done? {
        var r2 := AssignDisabled(r1.1, a, r1.1.cells[b].disabled);
        BindDisabledStep(r1.1, a, b);
        if r2.0.Done? {
          LinkFields(r2.1, a, b);
          assert a in AddLink(t, a, b)[b];
        }
      }
    }
  }

  /** bindTo of two unlinked cells: the value setter, then the disabled setter, then the link; the first failure ends it. */
  lemma BindToShape<T>(w: World<T>, a: CellId, b: CellId)
    requires Ready(w) && IsAlive(w, a) && IsAlive(w, b)
    requires b !in Topo(w.cells)[a] && (BindSetters(w, a, b).0.Done? ==> Forest(AddLink(Topo(w.cells), a, b)))
    ensures var r1 := AssignValue(w, a, w.cells[b].value);
            IsAlive(r1.1, a) && b in r1.1.cells &&
            var r2 := AssignDisabled(r1.1, a, r1.1.cells[b].disabled);
            && a in r2.1.cells && b in r2.1.cells
            && BindSetters(w, a, b) == (if r1.0.Fail? then r1 else r2)
            && BindTo(w, a, b) == if r1.0.Fail? then r1 else if r2.0.Fail? then r2 else (Done, Link(r2.1, a, b))
  {
  }

  /** Linking changes handles only. */
  lemma LinkFields<T>(w: World<T>, a: CellId, b: CellId)
    requires a in w.cells && b in w.cells
    ensures forall n :: n in w.cells ==>
              Link(w, a, b).cells[n].value == w.cells[n].value && Link(w, a, b).cells[n].disabled == w.cells[n].disabled
  {
  }

  /**
   * The value step of a bind: `a` holds `b`'s value when it goes on; `b`
   * keeps its value, every cell keeps its value or takes `b`'s, and no flag
   * changes.
   */
  lemma BindValueStep<T>(w: World<T>, a: CellId, b: CellId)
    requires Ready(w) && IsAlive(w, a) && IsAlive(w, b)
    ensures var r := AssignValue(w, a, w.cells[b].value);
            && r.1.cells[b].value == w.cells[b].value && r.1.cells[b].disabled == w.cells[b].disabled
            && (forall n :: n in w.cells ==>
                  (r.1.cells[n].value == w.cells[n].value || r.1.cells[n].value == w.cells[b].value)
                  && r.1.cells[n].disabled == w.cells[n].disabled)
            && (r.0.Done? ==> r.1.cells[a].value == w.cells[b].value)
  {
    AssignValueEffect(w, a, w.cells[b].value);
  }

  /**
   * The flag step of a bind: `a` holds `b`'s flag when it goes on; `b`
   * keeps its flag, every cell keeps its flag or takes `b`'s, and no value
   * changes.
   */
  lemma BindDisabledStep<T>(w1: World<T>, a: CellId, b: CellId)
    requires Ready(w1) && IsAlive(w1, a) && IsAlive(w1, b)
    ensures var r := AssignDisabled(w1, a, w1.cells[b].disabled);
            && r.1.cells[b].value == w1.cells[b].value && r.1.cells[b].disabled == w1.cells[b].disabled
            && (forall n :: n in w1.cells ==>
                  r.1.cells[n].value == w1.cells[n].value
                  && (r.1.cells[n].disabled == w1.cells[n].disabled || r.1.cells[n].disabled == w1.cells[b].disabled))
            && (r.0.Done? ==> r.1.cells[a].disabled == w1.cells[b].disabled)
  {
    if w1.cells[a].kind.Plain? {
      PlainFlagStep(w1, a, w1.cells[b].disabled);
    } else {
      HolderFlagStep(w1, a, w1.cells[b].disabled);
    }
  }

  /** The flag step on a holder: every cell keeps its value, and its flag or takes `d`; a completed step gives `a` the flag `d`. */
  lemma HolderFlagStep<T>(w1: World<T>, a: CellId, d: bool)
    requires Ready(w1) && IsAlive(w1, a) && w1.cells[a].kind.Holder?
    ensures var r := AssignDisabled(w1, a, d);
            && (forall n :: n in w1.cells ==>
                  n in r.1.cells && r.1.cells[n].value == w1.cells[n].value
                  && (r.1.cells[n].disabled == w1.cells[n].disabled || r.1.cells[n].disabled == d))
            && (r.0.Done? ==> r.1.cells[a].disabled == d)
  {
    AssignDisabledHolderEffect(w1, a, d);
    WaveCoversComponent(Topo(w1.cells), a);
  }

  /** The flag step on a plain cell: every cell keeps its value, and its flag or takes `d`; a completed step gives `a` the flag `d`. */
  lemma PlainFlagStep<T>(w1: World<T>, a: CellId, d: bool)
    requires Ready(w1) && IsAlive(w1, a) && w1.cells[a].kind.Plain?
    ensures var r := AssignDisabled(w1, a, d);
            && (forall n :: n in w1.cells ==>
                  n in r.1.cells && r.1.cells[n].value == w1.cells[n].value
                  && (r.1.cells[n].disabled == w1.cells[n].disabled || r.1.cells[n].disabled == d))
            && (r.0.Done? ==> r.1.cells[a].disabled == d)
  {
    AssignDisabledPlainEffect(w1, a, d);
    WaveCoversComponent(Topo(w1.cells), a);
  }

  /** Binding a pair that a completed bind just linked refuses and changes nothing. */
  lemma BindTwiceRefused<T>(w: World<T>, a: CellId, b: CellId)
    requires Ready(w) && IsAlive(w, a) && IsAlive(w, b)
    requires BindSetters(w, a, b).0.Done? ==> Forest(AddLink(Topo(w.cells), a, b))
    ensures var r := BindTo(w, a, b);
            r.0.Done? ==>
              && Ready(r.1) && IsAlive(r.1, a) && IsAlive(r.1, b)
              && BindTo(r.1, a, b) == (Fail(AlreadyBound), r.1)
  {
    BindToEffect(w, a, b);
  }

  /** Every cell of `c` holds in `c2` what it held, or the value `v`, and its flag, or the flag `d`. */
  ghost predicate OldOr<T>(c2: Cells<T>, c: Cells<T>, v: T, d: bool)
  {
    forall n :: n in c ==>
      && n in c2
      && (c2[n].value == c[n].value || c2[n].value == v)
      && (c2[n].disabled == c[n].disabled || c2[n].disabled == d)
  }

  /** Every cell of `xs` holds the value `v` and the flag `d`. */
  ghost predicate AllHold<T>(c: Cells<T>, xs: seq<CellId>, v: T, d: bool)
  {
    forall i :: 0 <= i < |xs| ==> xs[i] in c && c[xs[i]].value == v && c[xs[i]].disabled == d
  }

  lemma OldOrTrans<T>(c3: Cells<T>, c2: Cells<T>, c: Cells<T>, v: T, d: bool)
    requires OldOr(c2, c, v, d) && OldOr(c3, c2, v, d)
    ensures OldOr(c3, c, v, d)
  {
  }

  /** A cell holding `v` and `d` still holds them after a step that writes only `v` and `d`. */
  lemma AllHoldStep<T>(c1: Cells<T>, c2: Cells<T>, xs: seq<CellId>, v: T, d: bool)
    requires |xs| > 0 && xs[0] in c1 && c1[xs[0]].value == v && c1[xs[0]].disabled == d
    requires OldOr(c2, c1, v, d) && AllHold(c2, xs[1..], v, d)
    ensures AllHold(c2, xs, v, d)
  {
    forall i | 0 <= i < |xs|
      ensures xs[i] in c2 && c2[xs[i]].value == v && c2[xs[i]].disabled == d
    {
      if i > 0 {
        assert xs[i] == xs[1..][i - 1];
      }
    }
  }

  /**
   * The vararg `r.bindTo(xs...)`: `r` keeps its value and flag; every cell
   * holds what it held or `r`'s value and flag; when every bind completes,
   * each `x` of `xs` holds `r`'s value and flag and the live link graph has
   * exactly the new links.
   */
  lemma {:induction false} BindToAllEffect<T>(w: World<T>, r: CellId, xs: seq<CellId>)
    requires CanBindAll(w, r, xs)
    ensures var res := BindToAll(w, r, xs);
            var v, d := w.cells[r].value, w.cells[r].disabled;
            && res.1.cells[r].value == v && res.1.cells[r].disabled == d
            && OldOr(res.1.cells, w.cells, v, d)
            && (res.0.Done? ==> Topo(res.1.cells) == AddLinks(Topo(w.cells), xs, r))
            && (res.0.Done? ==> AllHold(res.1.cells, xs, v, d))
    decreases |xs|
  {
    if xs != [] {
      var t := Topo(w.cells);
      var v, d := w.cells[r].value, w.cells[r].disabled;
      BindToAllShape(w, r, xs);
      var r1 := BindTo(w, xs[0], r);
      BindToEffect(w, xs[0], r);
      assert OldOr(r1.1.cells, w.cells, v, d);
      if r1.0.Done? {
        var w1 := r1.1;
        BindToAllEffect(w1, r, xs[1..]);
        var res := BindToAll(w1, r, xs[1..]);
        OldOrTrans(res.1.cells, w1.cells, w.cells, v, d);
        if res.0.Done? {
          AllHoldStep(w1.cells, res.1.cells, xs, v, d);
        }
      }
    }
  }

  /** The vararg bind: the first bind, then the rest unless the first failed. */
  lemma BindToAllShape<T>(w: World<T>, r: CellId, xs: seq<CellId>)
    requires CanBindAll(w, r, xs) && xs != []
    ensures IsAlive(w, xs[0]) && (BindSetters(w, xs[0], r).0.Done? ==> Forest(AddLink(Topo(w.cells), xs[0], r)))
    ensures var r1 := BindTo(w, xs[0], r);
            r1.0.Done? ==>
              && Topo(r1.1.cells) == AddLink(Topo(w.cells), xs[0], r)
              && CanBindAll(r1.1, r, xs[1..])
              && AddLinks(Topo(w.cells), xs, r) == AddLinks(Topo(r1.1.cells), xs[1..], r)
              && BindToAll(w, r, xs) == BindToAll(r1.1, r, xs[1..])
    ensures BindTo(w, xs[0], r).0.Fail? ==> BindToAll(w, r, xs) == BindTo(w, xs[0], r)
  {
    AddLinksRest(Topo(w.cells), xs, r);
  }

  /**
   * The vararg `r.bindTo(xs...)` stops at the first argument that is
   * already linked to `r` when its turn comes: when the first `i`
   * iterations of the loop complete and `xs[i]` is then a live peer of
   * `r`, the call throws `AlreadyBound` and leaves the state those
   * iterations left, in which every earlier argument is linked to `r` both
   * ways and holds `r`'s value and flag.
   */
  lemma BindToAllStopsAtBound<T>(w: World<T>, r: CellId, xs: seq<CellId>, i: nat)
    requires CanBindAll(w, r, xs) && i < |xs|
    ensures var p := BindPrefix(w, r, xs, i);
            var res := BindToAll(w, r, xs);
            p.0.Done? && xs[i] in Topo(p.1.cells) && r in Topo(p.1.cells)[xs[i]] ==>
              && res == (Fail(AlreadyBound), p.1)
              && forall j :: 0 <= j < i ==> BoundTo(res.1.cells, r, xs[j], w.cells[r].value, w.cells[r].disabled)
  {
    StopsAt(w, r, xs, i);
  }

  /**
   * A vararg `r.bindTo(xs...)` whose first bind throws before its link (the
   * argument is already linked to `r`, or one of its setters throws) needs
   * nothing of the later arguments, whatever links they would add, and
   * rethrows that exception, leaving the state the throwing setter left.
   */
  lemma BindToAllFirstThrows<T>(w: World<T>, r: CellId, xs: seq<CellId>)
    requires Ready(w) && IsAlive(w, r) && (forall i :: 0 <= i < |xs| ==> IsAlive(w, xs[i]))
    requires xs != [] && BindSetters(w, xs[0], r).0.Fail?
    ensures CanBindAll(w, r, xs)
    ensures BindToAll(w, r, xs) == BindSetters(w, xs[0], r)
  {
  }

  /**
   * A disabled plain cell not linked to `r`, as the first argument, makes
   * the call throw `DisabledMutation` with nothing changed, whatever the
   * later arguments would link.
   */
  lemma BindToAllDisabledFirst<T>(w: World<T>, r: CellId, xs: seq<CellId>)
    requires Ready(w) && IsAlive(w, r) && (forall i :: 0 <= i < |xs| ==> IsAlive(w, xs[i])) && xs != []
    requires IsAlive(w, xs[0]) && r !in Topo(w.cells)[xs[0]] && w.cells[xs[0]].kind.Plain? && w.cells[xs[0]].disabled
    ensures CanBindAll(w, r, xs)
    ensures BindToAll(w, r, xs) == (Fail(DisabledMutation), w)
  {
    BindToAllFirstThrows(w, r, xs);
  }

  /** `x` is linked to `r` both ways and holds the value `v` and the flag `d`. */
  ghost predicate BoundTo<T>(c: Cells<T>, r: CellId, x: CellId, v: T, d: bool)
  {
    && x in c && x in Topo(c) && r in Topo(c)
    && r in Topo(c)[x] && x in Topo(c)[r]
    && c[x].value == v && c[x].disabled == d
  }

  /** Every live link of `c` is a live link of `c2`. */
  ghost predicate Grown<T>(c: Cells<T>, c2: Cells<T>)
  {
    forall n, q :: n in Topo(c) && q in Topo(c)[n] ==> n in Topo(c2) && q in Topo(c2)[n]
  }

  /**
   * The vararg `r.bindTo(xs...)` binds a prefix `xs[..n]` of its arguments:
   * each of them ends linked to `r` both ways and holding `r`'s value and
   * flag, and no live link is lost. A call that completes binds them all;
   * one that throws `AlreadyBound` stopped at `xs[n]`, which was already
   * linked to `r`.
   */
  lemma {:induction false} BindToAllProgress<T>(w: World<T>, r: CellId, xs: seq<CellId>) returns (n: nat)
    requires CanBindAll(w, r, xs)
    ensures n <= |xs|
    ensures var res := BindToAll(w, r, xs);
            var v, d := w.cells[r].value, w.cells[r].disabled;
            && Grown(w.cells, res.1.cells)
            && (forall j :: 0 <= j < n ==> BoundTo(res.1.cells, r, xs[j], v, d))
            && (res.0.Done? ==> n == |xs|)
            && (res.0 == Fail(AlreadyBound) ==> n < |xs| && xs[n] in Topo(res.1.cells) && r in Topo(res.1.cells)[xs[n]])
    decreases |xs|, 1
  {
    if xs == [] {
      n := 0;
    } else {
      var r1 := ProgressStep(w, r, xs);
      if r1.0.Done? {
        n := ProgressRest(w, r, xs, r1.1);
      } else {
        n := 0;
      }
    }
  }

  /** The progress of the loop after a completed first bind that left `w1`. */
  lemma {:induction false} ProgressRest<T>(w: World<T>, r: CellId, xs: seq<CellId>, w1: World<T>) returns (n: nat)
    requires Ready(w) && IsAlive(w, r) && xs != [] && xs[0] in w.cells
    requires CanBindAll(w1, r, xs[1..]) && Grown(w.cells, w1.cells)
    requires w1.cells[r].value == w.cells[r].value && w1.cells[r].disabled == w.cells[r].disabled
    requires BoundTo(w1.cells, r, xs[0], w.cells[r].value, w.cells[r].disabled)
    ensures n <= |xs|
    ensures var res := BindToAll(w1, r, xs[1..]);
            var v, d := w.cells[r].value, w.cells[r].disabled;
            && Grown(w.cells, res.1.cells)
            && (forall j :: 0 <= j < n ==> BoundTo(res.1.cells, r, xs[j], v, d))
            && (res.0.Done? ==> n == |xs|)
            && (res.0 == Fail(AlreadyBound) ==> n < |xs| && xs[n] in Topo(res.1.cells) && r in Topo(res.1.cells)[xs[n]])
    decreases |xs| - 1, 2
  {
    var rest := xs[1..];
    var m := BindToAllProgress(w1, r, rest);
    BindToAllEffect(w1, r, rest);
    ProgressCombine(w.cells, w1.cells, BindToAll(w1, r, rest).1.cells, r, xs, rest, m, w.cells[r].value, w.cells[r].disabled);
    n := m + 1;
  }

  /** The first bind of the vararg loop, as the progress induction needs it. */
  lemma ProgressStep<T>(w: World<T>, r: CellId, xs: seq<CellId>) returns (r1: (Outcome, World<T>))
    requires CanBindAll(w, r, xs) && xs != []
    ensures IsAlive(w, xs[0]) && (BindSetters(w, xs[0], r).0.Done? ==> Forest(AddLink(Topo(w.cells), xs[0], r)))
    ensures r1 == BindTo(w, xs[0], r)
    ensures r1.1.cells.Keys == w.cells.Keys && Grown(w.cells, r1.1.cells)
    ensures r1.0.Fail? ==> BindToAll(w, r, xs) == r1
    ensures r1.0 == Fail(AlreadyBound) ==> r1.1 == w && xs[0] in Topo(w.cells) && r in Topo(w.cells)[xs[0]]
    ensures r1.0.Done? ==>
              && CanBindAll(r1.1, r, xs[1..])
              && BindToAll(w, r, xs) == BindToAll(r1.1, r, xs[1..])
              && r1.1.cells[r].value == w.cells[r].value && r1.1.cells[r].disabled == w.cells[r].disabled
              && BoundTo(r1.1.cells, r, xs[0], w.cells[r].value, w.cells[r].disabled)
  {
    r1 := WholeStep(w, r, xs);
    BindToEffect(w, xs[0], r);
    BindToAlreadyBound(w, xs[0], r);
    if r1.0.Done? {
      GrownByLink(w.cells, r1.1.cells, xs[0], r);
    }
  }

  /** Only a pair already linked makes bindTo throw `AlreadyBound`: neither setter throws it. */
  lemma BindToAlreadyBound<T>(w: World<T>, a: CellId, b: CellId)
    requires Ready(w) && IsAlive(w, a) && IsAlive(w, b)
    requires BindSetters(w, a, b).0.Done? ==> Forest(AddLink(Topo(w.cells), a, b))
    ensures BindTo(w, a, b).0 == Fail(AlreadyBound) <==> b in Topo(w.cells)[a]
  {
    if b !in Topo(w.cells)[a] {
      SettersNotBound(w, a, b);
    }
  }

  /** The two setters bindTo runs first never throw `AlreadyBound`. */
  lemma SettersNotBound<T>(w: World<T>, a: CellId, b: CellId)
    requires Ready(w) && IsAlive(w, a) && IsAlive(w, b)
    ensures var (r1, w1) := AssignValue(w, a, w.cells[b].value);
            && r1 != Fail(AlreadyBound)
            && (r1.Done? ==> IsAlive(w1, a) && AssignDisabled(w1, a, w1.cells[b].disabled).0 != Fail(AlreadyBound))
  {
    var (r1, w1) := AssignValue(w, a, w.cells[b].value);
    assert Frames(w1.cells) == Frames(w.cells);
  }

  /** One completed bind followed by the rest of the loop. */
  lemma ProgressCombine<T>(c0: Cells<T>, c1: Cells<T>, c2: Cells<T>, r: CellId, xs: seq<CellId>, rest: seq<CellId>, m: nat, v: T, d: bool)
    requires xs != [] && rest == xs[1..] && m <= |rest| && BoundTo(c1, r, xs[0], v, d)
    requires Grown(c0, c1) && Grown(c1, c2) && OldOr(c2, c1, v, d)
    requires forall k :: 0 <= k < m ==> BoundTo(c2, r, rest[k], v, d)
    ensures Grown(c0, c2)
    ensures forall k :: 0 <= k < m + 1 ==> BoundTo(c2, r, xs[k], v, d)
  {
    forall k | 0 <= k < m + 1
      ensures BoundTo(c2, r, xs[k], v, d)
    {
      if k > 0 {
        assert xs[k] == rest[k - 1];
      }
    }
  }

  /** A live link graph that gained one link lost none. */
  lemma GrownByLink<T>(c: Cells<T>, c2: Cells<T>, a: CellId, b: CellId)
    requires a in Topo(c) && b in Topo(c) && Topo(c2) == AddLink(Topo(c), a, b)
    ensures Grown(c, c2)
  {
  }

  /**
   * The loop, having got through its first `i` iterations to the state
   * `p.1` in which `xs[i]` is already linked to `r`, throws `AlreadyBound`
   * there, and every earlier argument is bound to `r` with the value `v`
   * and the flag `d`.
   */
  ghost predicate StopsThere<T>(p: (Outcome, World<T>), res: (Outcome, World<T>), r: CellId, xs: seq<CellId>, i: nat, v: T, d: bool)
    requires i < |xs|
  {
    p.0.Done? && xs[i] in Topo(p.1.cells) && r in Topo(p.1.cells)[xs[i]] ==>
      res == (Fail(AlreadyBound), p.1) && BoundAll(res.1.cells, r, xs, i, v, d)
  }

  /** The first `n` cells of `xs` are bound to `r` with the value `v` and the flag `d`. */
  ghost predicate BoundAll<T>(c: Cells<T>, r: CellId, xs: seq<CellId>, n: nat, v: T, d: bool)
    requires n <= |xs|
  {
    forall k :: 0 <= k < n ==> BoundTo(c, r, xs[k], v, d)
  }

  /** The stop of the vararg loop, by induction on the iterations before it. */
  lemma {:induction false} StopsAt<T>(w: World<T>, r: CellId, xs: seq<CellId>, i: nat)
    requires CanBindAll(w, r, xs) && i < |xs|
    ensures StopsThere(BindPrefix(w, r, xs, i), BindToAll(w, r, xs), r, xs, i, w.cells[r].value, w.cells[r].disabled)
    decreases i, 2
  {
    if i == 0 {
      StopsAtFirst(w, r, xs);
    } else {
      StopsLater(w, r, xs, i);
    }
  }

  /** An argument linked to `r` before the call stops it at once. */
  lemma StopsAtFirst<T>(w: World<T>, r: CellId, xs: seq<CellId>)
    requires CanBindAll(w, r, xs) && xs != []
    ensures BindPrefix(w, r, xs, 0) == (Done, w)
    ensures r in Topo(w.cells)[xs[0]] ==> BindToAll(w, r, xs) == (Fail(AlreadyBound), w)
  {
    var r1 := WholeStep(w, r, xs);
    BindToEffect(w, xs[0], r);
  }

  /** After a first bind that completes, the stop is the one of the rest of the loop. */
  lemma {:induction false} StopsLater<T>(w: World<T>, r: CellId, xs: seq<CellId>, i: nat)
    requires CanBindAll(w, r, xs) && 0 < i < |xs|
    ensures StopsThere(BindPrefix(w, r, xs, i), BindToAll(w, r, xs), r, xs, i, w.cells[r].value, w.cells[r].disabled)
    decreases i, 1
  {
    var r1 := LoopStep(w, r, xs, i);
    var r2 := ProgressStep(w, r, xs);
    if r1.0.Done? {
      StopsAfterStep(r1.1, r, xs, i);
    }
  }

  /** The stop of the rest of the loop, run from the state the first bind left, with the first argument bound before it. */
  lemma {:induction false} StopsAfterStep<T>(w1: World<T>, r: CellId, xs: seq<CellId>, i: nat)
    requires 0 < i < |xs| && CanBindAll(w1, r, xs[1..])
    requires BoundTo(w1.cells, r, xs[0], w1.cells[r].value, w1.cells[r].disabled)
    ensures StopsThere(BindPrefix(w1, r, xs[1..], i - 1), BindToAll(w1, r, xs[1..]), r, xs, i, w1.cells[r].value, w1.cells[r].disabled)
    decreases i, 0
  {
    var rest, j := xs[1..], i - 1;
    StopsAt(w1, r, rest, j);
    StopsCombine(w1, r, xs, rest, j);
    StopsShift(BindPrefix(w1, r, rest, j), BindToAll(w1, r, rest), r, xs, i, w1.cells[r].value, w1.cells[r].disabled);
  }

  /** A stop of the rest of the loop, with the first argument bound before it, is a stop of the whole loop. */
  lemma StopsShift<T>(p: (Outcome, World<T>), res: (Outcome, World<T>), r: CellId, xs: seq<CellId>, i: nat, v: T, d: bool)
    requires 0 < i < |xs| && StopsThere(p, res, r, xs[1..], i - 1, v, d)
    requires BoundAll(res.1.cells, r, xs[1..], i - 1, v, d) ==> BoundAll(res.1.cells, r, xs, i, v, d)
    ensures StopsThere(p, res, r, xs, i, v, d)
  {
    assert xs[1..][i - 1] == xs[i];
  }

  /** The arguments the rest of the loop binds, behind the one the first bind bound. */
  lemma StopsCombine<T>(w1: World<T>, r: CellId, xs: seq<CellId>, rest: seq<CellId>, j: nat)
    requires xs != [] && rest == xs[1..] && j <= |rest|
    requires CanBindAll(w1, r, rest)
    requires BoundTo(w1.cells, r, xs[0], w1.cells[r].value, w1.cells[r].disabled)
    ensures var c2 := BindToAll(w1, r, rest).1.cells;
            var v, d := w1.cells[r].value, w1.cells[r].disabled;
            BoundAll(c2, r, rest, j, v, d) ==> BoundAll(c2, r, xs, j + 1, v, d)
  {
    var c2 := BindToAll(w1, r, rest).1.cells;
    var v, d := w1.cells[r].value, w1.cells[r].disabled;
    BindToAllEffect(w1, r, rest);
    var m := BindToAllProgress(w1, r, rest);
    if BoundAll(c2, r, rest, j, v, d) {
      ProgressCombine(w1.cells, w1.cells, c2, r, xs, rest, j, v, d);
    }
  }

  /** One iteration of the vararg loop, shared by the whole call and by its first `i` iterations. */
  lemma LoopStep<T>(w: World<T>, r: CellId, xs: seq<CellId>, i: nat) returns (r1: (Outcome, World<T>))
    requires CanBindAll(w, r, xs) && 0 < i <= |xs|
    ensures IsAlive(w, xs[0]) && (BindSetters(w, xs[0], r).0.Done? ==> Forest(AddLink(Topo(w.cells), xs[0], r)))
    ensures r1 == BindTo(w, xs[0], r)
    ensures r1.0.Done? ==>
              && CanBindAll(r1.1, r, xs[1..])
              && BindToAll(w, r, xs) == BindToAll(r1.1, r, xs[1..])
              && BindPrefix(w, r, xs, i) == BindPrefix(r1.1, r, xs[1..], i - 1)
    ensures r1.0.Fail? ==> BindPrefix(w, r, xs, i) == r1
  {
    r1 := WholeStep(w, r, xs);
  }

  /** The first bind of the vararg call, named. */
  lemma WholeStep<T>(w: World<T>, r: CellId, xs: seq<CellId>) returns (r1: (Outcome, World<T>))
    requires CanBindAll(w, r, xs) && xs != []
    ensures IsAlive(w, xs[0]) && (BindSetters(w, xs[0], r).0.Done? ==> Forest(AddLink(Topo(w.cells), xs[0], r)))
    ensures r1 == BindTo(w, xs[0], r)
    ensures r1.0.Done? ==>
              && CanBindAll(r1.1, r, xs[1..])
              && BindToAll(w, r, xs) == BindToAll(r1.1, r, xs[1..])
    ensures r1.0.Fail? ==> BindToAll(w, r, xs) == r1
  {
    BindToAllShape(w, r, xs);
    r1 := BindTo(w, xs[0], r);
  }

  /** Every cell of `xs` is linked both ways to `r` once the vararg links are added. */
  lemma {:induction false} AddLinksHas(t: Topology, xs: seq<CellId>, r: CellId)
    requires r in t && forall k :: 0 <= k < |xs| ==> xs[k] in t
    ensures AddLinks(t, xs, r).Keys == t.Keys
    ensures var t2 := AddLinks(t, xs, r);
            forall j :: 0 <= j < |xs| ==> xs[j] in t2 && r in t2[xs[j]] && xs[j] in t2[r]
    decreases |xs|
  {
    if xs != [] {
      var t1 := AddLink(t, xs[0], r);
      AddLinksRest(t, xs, r);
      AddLinksHas(t1, xs[1..], r);
      AddLinksGrows(t1, xs[1..], r);
      var t2 := AddLinks(t, xs, r);
      assert r in t1[xs[0]] && xs[0] in t1[r];
      forall j | 0 <= j < |xs|
        ensures xs[j] in t2 && r in t2[xs[j]] && xs[j] in t2[r]
      {
        if j > 0 {
          assert xs[j] == xs[1..][j - 1];
        }
      }
    }
  }

  // ---------------------------------------------------------------------------
  // Construction and bound copies

  /** A cell without live peers is alone in its component. */
  lemma AloneInComponent(t: Topology, x: CellId)
    requires Forest(t) && x in t && t[x] == []
    ensures Component(t, x) == {x}
  {
    WaveReachesComponent(t, x, x);
    forall m | m in Component(t, x)
      ensures m == x
    {
      var v :| IsPath(t, v) && Distinct(v) && v[0] == x && Last(v) == m;
      assert |v| > 1 ==> Hop(t, v, 1);
    }
  }

  /** Linking a fresh cell to `a` makes its component that of `a` and itself. */
  lemma FreshComponent(t: Topology, f: CellId, a: CellId)
    requires Forest(t) && a in t && f !in t
    ensures Component(LinkFresh(t, f, a), f) == Component(t, a) + {f}
  {
    var t2 := LinkFresh(t, f, a);
    LinkFreshForest(t, f, a);
    assert IsPath(t2, [f]) && Distinct([f]);
    forall m | m in Component(t2, f) && m != f
      ensures m in Component(t, a)
    {
      FreshReachesBack(t, f, a, m);
    }
    forall m | m in Component(t, a)
      ensures m in Component(t2, f)
    {
      ReachesViaFresh(t, f, a, m);
    }
  }

  /** What `a` reaches, the fresh cell linked to it reaches too. */
  lemma ReachesViaFresh(t: Topology, f: CellId, a: CellId, m: CellId)
    requires Closed(t) && a in t && f !in t && m in t && Reaches(t, a, m)
    ensures m in LinkFresh(t, f, a) && Reaches(LinkFresh(t, f, a), f, m)
  {
    var t2 := LinkFresh(t, f, a);
    var v :| IsPath(t, v) && Distinct(v) && v[0] == a && Last(v) == m;
    var u := [f] + v;
    forall i | 1 <= i < |u|
      ensures Hop(t2, u, i)
    {
      if i == 1 {
        FreshPeers(t, f, a, f);
      } else {
        assert Hop(t, v, i - 1);
        assert u[i] == v[i - 1] && u[i - 1] == v[i - 2];
        FreshPeers(t, f, a, v[i - 2]);
      }
    }
    forall i | 0 <= i < |v|
      ensures v[i] != f
    {
      if i > 0 {
        assert Hop(t, v, i);
      }
    }
    forall i, j | 0 <= i < j < |u|
      ensures u[i] != u[j]
    {
      if i > 0 {
        assert u[i] == v[i - 1] && u[j] == v[j - 1];
      } else {
        assert u[j] == v[j - 1];
      }
    }
    assert Last(u) == m;
  }

  /** A cell other than itself that the fresh cell reaches, `a` reaches without it. */
  lemma FreshReachesBack(t: Topology, f: CellId, a: CellId, m: CellId)
    requires Closed(t) && a in t && f !in t && m != f && Reaches(LinkFresh(t, f, a), f, m)
    ensures m in t && Reaches(t, a, m)
  {
    var t2 := LinkFresh(t, f, a);
    var v :| IsPath(t2, v) && Distinct(v) && v[0] == f && Last(v) == m;
    assert |v| >= 2;
    assert Hop(t2, v, 1);
    FreshPeers(t, f, a, f);
    assert v[1] == a;
    var u := v[1..];
    forall i | 0 <= i < |u|
      ensures u[i] != f
    {
      assert u[i] == v[i + 1];
    }
    forall i | 1 <= i < |u|
      ensures Hop(t, u, i)
    {
      assert Hop(t2, v, i + 1);
      assert u[i] == v[i + 1] && u[i - 1] == v[i];
      FreshPeers(t, f, a, u[i - 1]);
      if u[i - 1] == a {
        assert u[i] in t[a] + [f];
      }
    }
    assert IsPath(t, u) by {
      assert Last(u) == m;
      if |u| > 1 {
        assert Hop(t, u, |u| - 1);
      }
    }
    forall i, j | 0 <= i < j < |u|
      ensures u[i] != u[j]
    {
      assert u[i] == v[i + 1] && u[j] == v[j + 1];
    }
  }

  /**
   * `w2` is `w` with one more cell `id`: alive, holding `v` and the flag
   * `d`, unlinked, unleased, without observers, of the plain variant; every
   * other cell and the log are as they were.
   */
  ghost predicate WithNewCell<T>(w: World<T>, w2: World<T>, id: CellId, v: T, d: bool)
  {
    && id !in w.cells
    && IsAlive(w2, id)
    && w2.cells[id] == Cell(v, d, [], true, None, [], [], Plain)
    && w2.log == w.log
    && (forall n :: n in w.cells ==> n in w2.cells && w2.cells[n] == w.cells[n])
  }

  /**
   * `Bindable(v)` and `Bindable(v, d)`: the new object gets the fresh id and
   * holds `v` and the flag `d`, enabled when no flag is given; no observer
   * is called and no other cell changes.
   */
  lemma CreateEffect<T>(w: World<T>, unset: T, v: T, d: Option<bool>)
    requires Ready(w)
    ensures var r := Create(w, unset, v, d);
            r.0 == Ok(w.next) && WithNewCell(w, r.1, w.next, v, if d.Some? then d.value else false)
  {
    var id := w.next;
    var blank := Blank(PlainVariant, unset);
    AllocReady(w, blank);
    var w1 := Alloc(w, blank);
    assert id !in w.cells;
    LoneValue(w1, id, v);
    var w2 := AssignValue(w1, id, v).1;
    FramesAgree(w2.cells, w1.cells);
    assert Frames(w2.cells)[id] == Frames(w1.cells)[id];
    if d.Some? {
      CreateFlagged(w, w1, w2, unset, v, d.value);
    } else {
      assert Create(w, unset, v, d) == (Ok(id), w2);
      NewCellParts(w, w1, w2, id, v, false);
    }
  }

  /** The construction with a flag, after the value step. */
  lemma CreateFlagged<T>(w: World<T>, w1: World<T>, w2: World<T>, unset: T, v: T, d: bool)
    requires Ready(w) && w.next !in w.cells && w1 == Alloc(w, Blank(PlainVariant, unset))
    requires Ready(w1) && IsAlive(w1, w.next) && w2 == AssignValue(w1, w.next, v).1 && AssignValue(w1, w.next, v).0.Done?
    requires w2.cells[w.next].value == v && w2.cells[w.next].links == [] && w2.log == w.log
    requires Frames(w2.cells) == Frames(w1.cells)
    requires forall n :: n in w1.cells && n != w.next ==> w2.cells[n] == w1.cells[n]
    ensures var r := Create(w, unset, v, Some(d));
            r.0 == Ok(w.next) && WithNewCell(w, r.1, w.next, v, d)
  {
    var id := w.next;
    FramesAgree(w2.cells, w1.cells);
    assert Frames(w2.cells)[id] == Frames(w1.cells)[id];
    LoneDisabled(w2, id, d);
    var w3 := AssignDisabled(w2, id, d).1;
    FramesAgree(w3.cells, w1.cells);
    assert Frames(w3.cells)[id] == Frames(w1.cells)[id];
    assert Create(w, unset, v, Some(d)) == (Ok(id), w3);
    NewCellParts(w, w1, w3, id, v, d);
  }

  lemma NewCellParts<T>(w: World<T>, w1: World<T>, w3: World<T>, id: CellId, v: T, d: bool)
    requires id !in w.cells && id in w1.cells && w1.cells == w.cells[id := w1.cells[id]] && IsAlive(w3, id)
    requires w1.cells[id].alive && w1.cells[id].lease.None? && w1.cells[id].kind == Plain
    requires w1.cells[id].valueObservers == [] && w1.cells[id].disabledObservers == []
    requires Frames(w3.cells)[id] == Frames(w1.cells)[id]
    requires w3.cells[id].value == v && w3.cells[id].disabled == d && w3.cells[id].links == [] && w3.log == w.log
    requires w3.cells.Keys == w1.cells.Keys
    requires forall n :: n in w1.cells && n != id ==> w3.cells[n] == w1.cells[n]
    ensures WithNewCell(w, w3, id, v, d)
  {
    assert w3.cells[id].alive && w3.cells[id].lease.None? && w3.cells[id].kind == Plain;
    assert w3.cells[id].valueObservers == [] && w3.cells[id].disabledObservers == [];
    forall n | n in w.cells
      ensures n in w3.cells && w3.cells[n] == w.cells[n]
    {
      assert n != id && n in w1.cells && w1.cells[n] == w.cells[n];
    }
  }

  /** The value setter of such a cell. */
  lemma LoneValue<T>(w: World<T>, x: CellId, v: T)
    requires Ready(w) && IsAlive(w, x) && w.cells[x].links == []
    requires w.cells[x].kind.Plain? && !w.cells[x].disabled && w.cells[x].valueObservers == []
    ensures var r := AssignValue(w, x, v);
            && r.0.Done? && r.1.cells[x].value == v && r.1.cells[x].disabled == w.cells[x].disabled
            && r.1.cells[x].links == [] && r.1.log == w.log
            && (forall n :: n in w.cells && n != x ==> r.1.cells[n] == w.cells[n])
  {
    if v != w.cells[x].value {
      var sig := SetValue(w.cells[x].value, v);
      AssignValueRuns(w, x, v);
      LoneSpread(w, x, sig);
    }
  }

  /** The disabled setter of such a cell. */
  lemma LoneDisabled<T>(w: World<T>, x: CellId, d: bool)
    requires Ready(w) && IsAlive(w, x) && w.cells[x].links == []
    requires w.cells[x].kind.Plain? && w.cells[x].lease.None? && w.cells[x].disabledObservers == []
    ensures var r := AssignDisabled(w, x, d);
            && r.0.Done? && r.1.cells[x].disabled == d && r.1.cells[x].value == w.cells[x].value
            && r.1.cells[x].links == [] && r.1.log == w.log
            && (forall n :: n in w.cells && n != x ==> r.1.cells[n] == w.cells[n])
  {
    if d != w.cells[x].disabled {
      var sig: Signal<T> := SetDisabled(d);
      PlainDisabledRuns(w, x, d);
      GuardedRuns(w, x, sig);
      LoneSpread(w, x, sig);
    }
  }

  /** The value setter of a cell without handles that accepts it writes that cell alone. */
  lemma LoneValueCells<T>(w: World<T>, x: CellId, v: T)
    requires Ready(w) && IsAlive(w, x) && w.cells[x].links == []
    requires !(w.cells[x].kind.Plain? && w.cells[x].disabled) && !(w.cells[x].kind.Holder? && w.cells[x].kind.returned)
    ensures var r := AssignValue(w, x, v);
            r.0 == Done && r.1.cells == w.cells[x := w.cells[x].(value := v)]
  {
    if v != w.cells[x].value {
      AssignValueRuns(w, x, v);
      LoneSpreadCells(w, x, SetValue(w.cells[x].value, v));
    } else {
      assert w.cells[x := w.cells[x].(value := v)] == w.cells;
    }
  }

  /** The disabled setter of a cell without handles that accepts it writes that cell alone. */
  lemma LoneFlagCells<T>(w: World<T>, x: CellId, d: bool)
    requires Ready(w) && IsAlive(w, x) && w.cells[x].links == []
    requires w.cells[x].kind.Plain? ==> w.cells[x].lease.None?
    requires w.cells[x].kind.Holder? ==> !w.cells[x].kind.returned
    ensures var r := AssignDisabled(w, x, d);
            r.0 == Done && r.1.cells == w.cells[x := w.cells[x].(disabled := d)]
  {
    var sig: Signal<T> := SetDisabled(d);
    if w.cells[x].kind.Holder? {
      HolderDisabledRuns(w, x, d);
      LoneSpreadCells(w, x, sig);
    } else if d != w.cells[x].disabled {
      PlainDisabledRuns(w, x, d);
      assert Topo(w.cells)[x] == [];
      AloneInComponent(Topo(w.cells), x);
      GuardedRuns(w, x, sig);
      LoneSpreadCells(w, x, sig);
    } else {
      assert w.cells[x := w.cells[x].(disabled := d)] == w.cells;
    }
  }

  /**
   * `a.bindTo(b)` for a cell `a` without handles that accepts both setters:
   * it completes, `a` holds `b`'s value and flag and the single handle to
   * `b`, `b` gains a handle to `a`, and no other cell changes.
   */
  lemma LoneBindCells<T>(w: World<T>, a: CellId, b: CellId)
    requires Ready(w) && IsAlive(w, a) && IsAlive(w, b) && w.cells[a].links == []
    requires Forest(AddLink(Topo(w.cells), a, b))
    requires !(w.cells[a].kind.Plain? && w.cells[a].disabled) && w.cells[a].lease.None?
    requires w.cells[a].kind.Holder? ==> !w.cells[a].kind.returned
    ensures a != b
    ensures var r := BindTo(w, a, b);
            && r.0 == Done
            && r.1.cells == w.cells[a := w.cells[a].(value := w.cells[b].value, disabled := w.cells[b].disabled, links := [b])]
                                   [b := w.cells[b].(links := w.cells[b].links + [a])]
  {
    var t := Topo(w.cells);
    SelfLinkNotForest(t, a);
    assert t[a] == [];
    BindToShape(w, a, b);
    var cb := w.cells[b];
    LoneValueCells(w, a, cb.value);
    var w1 := AssignValue(w, a, cb.value).1;
    LoneBindValueDone(w, w1, a, b);
    LoneFlagCells(w1, a, cb.disabled);
    var w2 := AssignDisabled(w1, a, cb.disabled).1;
    LoneBindLinked(w, w1, w2, a, b);
  }

  /** After the value step of such a bind, `a` is still without handles and accepts the flag. */
  lemma LoneBindValueDone<T>(w: World<T>, w1: World<T>, a: CellId, b: CellId)
    requires a in w.cells && b in w.cells && a != b
    requires w1.cells == w.cells[a := w.cells[a].(value := w.cells[b].value)]
    ensures a in w1.cells && w1.cells[a].links == w.cells[a].links && w1.cells[a].kind == w.cells[a].kind
    ensures w1.cells[a].lease == w.cells[a].lease && w1.cells[a].alive == w.cells[a].alive
    ensures b in w1.cells && w1.cells[b] == w.cells[b]
  {
  }

  /** The two writes of such a bind followed by the link give the arena the bind ends with. */
  lemma LoneBindLinked<T>(w: World<T>, w1: World<T>, w2: World<T>, a: CellId, b: CellId)
    requires a in w.cells && b in w.cells && a != b && w.cells[a].links == []
    requires w1.cells == w.cells[a := w.cells[a].(value := w.cells[b].value)]
    requires w2.cells == w1.cells[a := w1.cells[a].(disabled := w.cells[b].disabled)]
    ensures Link(w2, a, b).cells == w.cells[a := w.cells[a].(value := w.cells[b].value, disabled := w.cells[b].disabled, links := [b])]
                                           [b := w.cells[b].(links := w.cells[b].links + [a])]
  {
    assert [] + [b] == [b];
  }

  /** The same wave, as an update of the arena. */
  lemma LoneSpreadCells<T>(w: World<T>, x: CellId, sig: Signal<T>)
    requires Ready(w) && IsAlive(w, x) && w.cells[x].links == []
    ensures Spread(w, x, sig, false).1.cells == w.cells[x := Write(w.cells[x], sig)]
  {
    var t := Topo(w.cells);
    assert t[x] == [];
    AloneInComponent(t, x);
    SpreadUnguarded(w, x, sig);
    WriteAllOne(w.cells, x, sig);
  }

  /** A wave from a cell without handles writes that cell alone and calls only its observers. */
  lemma LoneSpread<T>(w: World<T>, x: CellId, sig: Signal<T>)
    requires Ready(w) && IsAlive(w, x) && w.cells[x].links == []
    ensures Component(Topo(w.cells), x) == {x}
    ensures var r := Spread(w, x, sig, false).1;
            && r.log == w.log + Announce(w.cells, x, sig)
            && r.cells.Keys == w.cells.Keys
            && r.cells[x] == Write(w.cells[x], sig)
            && forall n :: n in w.cells && n != x ==> r.cells[n] == w.cells[n]
  {
    var t := Topo(w.cells);
    assert t[x] == [];
    AloneInComponent(t, x);
    assert IsWave(t, [x]);
    assert FullWave(t, {}, [x]) == Trace([], [], true);
    assert Blocked(w.cells, false) == {};
    assert {x} + Elems([]) == {x};
    assert Fires(w.cells, [] + [x], sig) == Announce(w.cells, x, sig) + Fires(w.cells, [], sig);
  }

  // ---------------------------------------------------------------------------
  // Bound copies

  /**
   * `getBoundCopyImplementation(src)`: a copy of another variant throws and
   * the arena is as it was. Otherwise the call returns the fresh copy, of the
   * variant asked for, holding the source's value and flag; the source keeps
   * its own; the two are linked both ways, and binding them again refuses.
   */
  lemma GetBoundCopyEffect<T>(w: World<T>, src: CellId, made: Variant, unset: T)
    requires Ready(w) && IsAlive(w, src)
    ensures var r := GetBoundCopy(w, src, made, unset);
            var id := w.next;
            && (made != VariantOf(w.cells[src]) ==> r == (Err(InstanceTypeMismatch), w))
            && (made == VariantOf(w.cells[src]) ==>
                  && r.0 == Ok(id) && id !in w.cells && IsAlive(r.1, id) && IsAlive(r.1, src)
                  && VariantOf(r.1.cells[id]) == made
                  && r.1.cells[id].value == w.cells[src].value && r.1.cells[id].disabled == w.cells[src].disabled
                  && r.1.cells[src].value == w.cells[src].value && r.1.cells[src].disabled == w.cells[src].disabled
                  && src in Topo(r.1.cells)[id] && id in Topo(r.1.cells)[src]
                  && BindTo(r.1, id, src) == (Fail(AlreadyBound), r.1))
  {
    if made == VariantOf(w.cells[src]) {
      var id := w.next;
      var blank := Blank(made, unset);
      AllocReady(w, blank);
      AllocTopo(w, blank);
      var w1 := Alloc(w, blank);
      LinkFreshForest(Topo(w.cells), id, src);
      assert AddLink(Topo(w1.cells), id, src) == LinkFresh(Topo(w.cells), id, src);
      CopyBindDone(w1, id, src);
      BindToEffect(w1, id, src);
      BindTwiceRefused(w1, id, src);
      var w2 := BindTo(w1, id, src).1;
      FramesAgree(w2.cells, w1.cells);
      assert w1.cells[src] == w.cells[src];
    }
  }

  /** A blank, unlinked copy accepts both setters of the bind, so binding it to its source completes. */
  lemma CopyBindDone<T>(w1: World<T>, id: CellId, src: CellId)
    requires Ready(w1) && IsAlive(w1, id) && IsAlive(w1, src) && Topo(w1.cells)[id] == []
    requires w1.cells[id].lease.None? && !w1.cells[id].disabled
    requires w1.cells[id].kind.Holder? ==> !w1.cells[id].kind.returned
    requires Forest(AddLink(Topo(w1.cells), id, src))
    ensures BindTo(w1, id, src).0 == Done
  {
    var t := Topo(w1.cells);
    BindToShape(w1, id, src);
    AssignValueEffect(w1, id, w1.cells[src].value);
    var w2 := AssignValue(w1, id, w1.cells[src].value).1;
    FramesAgree(w2.cells, w1.cells);
    AloneInComponent(t, id);
    if w2.cells[id].kind.Plain? {
      AssignDisabledPlainEffect(w2, id, w2.cells[src].disabled);
    } else {
      AssignDisabledHolderEffect(w2, id, w2.cells[src].disabled);
    }
  }

  /** Binding an unlinked cell to another changes the value and flag of no third cell. */
  lemma CopyBindKeeps<T>(w1: World<T>, id: CellId, src: CellId)
    requires Ready(w1) && IsAlive(w1, id) && IsAlive(w1, src) && Topo(w1.cells)[id] == []
    requires Forest(AddLink(Topo(w1.cells), id, src))
    ensures var r := BindTo(w1, id, src);
            forall n :: n in w1.cells && n != id ==>
              r.1.cells[n].value == w1.cells[n].value && r.1.cells[n].disabled == w1.cells[n].disabled
  {
    BindToShape(w1, id, src);
    AloneValueStep(w1, id, w1.cells[src].value);
    var w2 := AssignValue(w1, id, w1.cells[src].value).1;
    assert IsAlive(w2, id) && Topo(w2.cells)[id] == [];
    AloneFlagStep(w2, id, w2.cells[src].disabled);
    var w3 := AssignDisabled(w2, id, w2.cells[src].disabled).1;
    LinkFields(w3, id, src);
  }

  /** A setter of an unlinked cell changes no other cell. */
  lemma AloneValueStep<T>(w: World<T>, id: CellId, v: T)
    requires Ready(w) && IsAlive(w, id) && Topo(w.cells)[id] == []
    ensures forall n :: n in w.cells && n != id ==> AssignValue(w, id, v).1.cells[n] == w.cells[n]
  {
    AloneInComponent(Topo(w.cells), id);
    AssignValueEffect(w, id, v);
  }

  lemma AloneFlagStep<T>(w: World<T>, id: CellId, d: bool)
    requires Ready(w) && IsAlive(w, id) && Topo(w.cells)[id] == []
    ensures forall n :: n in w.cells && n != id ==> AssignDisabled(w, id, d).1.cells[n] == w.cells[n]
  {
    AloneInComponent(Topo(w.cells), id);
    if w.cells[id].kind.Plain? {
      AssignDisabledPlainEffect(w, id, d);
    } else {
      AssignDisabledHolderEffect(w, id, d);
    }
  }

  // ---------------------------------------------------------------------------
  // Observers

  /**
   * `x.bindValueChanged(o, runOnce)`: only `x`'s value channel changes; `o`
   * is then on it, once if the channel had no duplicates, behind every
   * earlier observer; with `runOnce`, `o` alone is called at once with the
   * current value as both the old and the new value.
   */
  lemma BindValueChangedEffect<T>(w: World<T>, x: CellId, o: ObserverId, runOnce: bool)
    requires Ready(w) && x in w.cells
    ensures var r := BindValueChanged(w, x, o, runOnce);
            var s, s2 := w.cells[x].valueObservers, r.cells[x].valueObservers;
            var v := w.cells[x].value;
            && r.cells == w.cells[x := w.cells[x].(valueObservers := s2)]
            && o in s2 && |s| <= |s2| && s2[..|s|] == s
            && (forall p :: p in s2 <==> p in s || p == o)
            && (o in s ==> s2 == s)
            && (NoDuplicates(s) ==> NoDuplicates(s2))
            && r.log == w.log + (if runOnce then [Notice(x, Call(o, ValueChange(ValueChangedEvent(v, v))))] else [])
            && r.next == w.next
  {
    SubscribeAdds(w.cells[x].valueObservers, o);
    SubscribeIdempotent(w.cells[x].valueObservers, o);
  }

  /**
   * `x.bindDisabledChanged(o, runOnce)`: the same on the disabled channel;
   * with `runOnce`, `o` alone is called at once with the current flag.
   */
  lemma BindDisabledChangedEffect<T>(w: World<T>, x: CellId, o: ObserverId, runOnce: bool)
    requires Ready(w) && x in w.cells
    ensures var r := BindDisabledChanged(w, x, o, runOnce);
            var s, s2 := w.cells[x].disabledObservers, r.cells[x].disabledObservers;
            && r.cells == w.cells[x := w.cells[x].(disabledObservers := s2)]
            && o in s2 && |s| <= |s2| && s2[..|s|] == s
            && (forall p :: p in s2 <==> p in s || p == o)
            && (o in s ==> s2 == s)
            && (NoDuplicates(s) ==> NoDuplicates(s2))
            && r.log == w.log + (if runOnce then [Notice(x, Call(o, DisabledChange(w.cells[x].disabled)))] else [])
            && r.next == w.next
  {
    SubscribeAdds(w.cells[x].disabledObservers, o);
    SubscribeIdempotent(w.cells[x].disabledObservers, o);
  }
}
