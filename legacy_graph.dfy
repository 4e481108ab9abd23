/**
 * The older JVM `Bindable` as objects that change in place: one
 * `LegacyGraph` holds every cell, the observer calls made so far and the
 * next free id. Each method runs the legacy code step by step and is proved
 * to leave the graph exactly as the matching function of `LegacySpec` says.
 */
module LegacyGraphs {
  import opened Base
  import opened Waves
  import opened LinkList
  import opened Observers
  import opened Arena
  import opened BindableSpec
  import opened BindableGraph
  import opened LegacySpec
  import LegacyProps

  class LegacyGraph<T(==)> {
    var cells: Cells<Option<T>>
    var log: seq<Notice<Option<T>>>
    var next: CellId

    ghost function State(): World<Option<T>>
      reads this
    {
      World(cells, log, next)
    }

    constructor ()
      ensures State() == World(map[], [], 0) && Ready(State())
    {
      cells := map[];
      log := [];
      next := 0;
    }

    /** `bindings.forAliveRefs` on cell `m`: the dead handles are removed in place, and the live ones are visited in list order. */
    method ForAliveRefs(m: CellId) returns (visits: seq<CellId>)
      requires m in cells
      modifies this
      ensures cells == old(cells)[m := old(cells)[m].(links := Live(old(cells)[m].links, Alive(old(cells))))]
      ensures visits == cells[m].links && log == old(log) && next == old(next)
    {
      visits := Live(cells[m].links, Alive(cells));
      cells := cells[m := cells[m].(links := visits)];
    }

    /**
     * The private `setValue` (or `setDisabled`) run by cell `m` for the
     * sender `source`, the cell itself for the initiator: the field is
     * written; when the list is not empty, each live peer but the sender
     * runs the private setter in turn; last, the cell's observers are
     * called when the field still holds what was written and, for a value,
     * that is not null. The cells change as in the current library's
     * unguarded wave, whose calls are the ghost `vl`: the real calls are
     * those unless the write is null, when there are none.
     */
    method Enter(m: CellId, source: CellId, sig: Signal<Option<T>>, ghost t: Topology, ghost path: seq<CellId>,
                 ghost vl0: seq<Notice<Option<T>>>) returns (ghost vl: seq<Notice<Option<T>>>)
      requires Forest(t) && t == Topo(cells) && IsWave(t, path) && Last(path) == m && Sender(path) == source
      requires !Quiet(sig) ==> vl0 == log
      modifies this
      ensures Entered(old(cells), vl0, cells, vl, t, {}, path, sig, true) && next == old(next)
      ensures Quiet(sig) ==> log == old(log)
      ensures !Quiet(sig) ==> log == vl
      decreases |t.Keys| - |path|, 2
    {
      ghost var c0 := cells;
      cells := cells[m := Write(cells[m], sig)];
      var before := cells[m];
      var visits: seq<CellId> := [];
      if cells[m].links != [] {
        visits := ForAliveRefs(m);
      } else {
        assert cells == cells[m := cells[m].(links := Live(cells[m].links, Alive(cells)))];
      }
      WriteThenPurge(c0, m, sig);
      WaveStarts(c0, vl0, cells, vl0, t, {}, path, sig);
      vl := VisitPeers(m, source, visits, sig, t, path, c0, vl0);
      WaveDone(c0, vl0, cells, vl, t, {}, path, sig);
      var fire := match sig
        case SetValue(_, _) => before.value.Some? && before.value == cells[m].value
        case SetDisabled(_) => before.disabled == cells[m].disabled;
      if fire {
        log := log + Announce(cells, m, sig);
      }
      vl := vl + Announce(cells, m, sig);
    }

    /** The loop of `triggerValueChange` (or `triggerDisabledChange`) over the visits of `forAliveRefs`: every peer but the sender runs the private setter, in list order. */
    method VisitPeers(m: CellId, source: CellId, visits: seq<CellId>, sig: Signal<Option<T>>,
                      ghost t: Topology, ghost path: seq<CellId>, ghost c0: Cells<Option<T>>, ghost vl0: seq<Notice<Option<T>>>)
      returns (ghost vl: seq<Notice<Option<T>>>)
      requires Forest(t) && t == Topo(c0) && IsWave(t, path) && Last(path) == m && Sender(path) == source && visits == t[m]
      requires Partial(c0, vl0, cells, vl0, t, {}, path, 0, sig)
      requires !Quiet(sig) ==> vl0 == log
      modifies this
      ensures Partial(c0, vl0, cells, vl, t, {}, path, |t[m]|, sig) && next == old(next)
      ensures Quiet(sig) ==> log == old(log)
      ensures !Quiet(sig) ==> log == vl
      decreases |t.Keys| - |path|, 1
    {
      vl := vl0;
      var i: nat := 0;
      while i < |visits|
        invariant i <= |visits|
        invariant Partial(c0, vl0, cells, vl, t, {}, path, i, sig)
        invariant next == old(next)
        invariant Quiet(sig) ==> log == old(log)
        invariant !Quiet(sig) ==> log == vl
      {
        vl := VisitPeer(m, source, visits, i, sig, t, path, c0, vl0, vl);
        i := i + 1;
      }
    }

    /** One visit of that loop: the sender is skipped, any other peer runs the private setter. */
    method VisitPeer(m: CellId, source: CellId, visits: seq<CellId>, i: nat, sig: Signal<Option<T>>,
                     ghost t: Topology, ghost path: seq<CellId>, ghost c0: Cells<Option<T>>, ghost vl0: seq<Notice<Option<T>>>,
                     ghost vl1: seq<Notice<Option<T>>>) returns (ghost vl: seq<Notice<Option<T>>>)
      requires Forest(t) && t == Topo(c0) && IsWave(t, path) && Last(path) == m && Sender(path) == source && visits == t[m]
      requires i < |visits| && Partial(c0, vl0, cells, vl1, t, {}, path, i, sig)
      requires !Quiet(sig) ==> vl1 == log
      modifies this
      ensures Partial(c0, vl0, cells, vl, t, {}, path, i + 1, sig) && next == old(next)
      ensures Quiet(sig) ==> log == old(log)
      ensures !Quiet(sig) ==> log == vl
      decreases |t.Keys| - |path|, 0
    {
      var p := visits[i];
      if p == source {
        SenderSkipped(c0, vl0, cells, vl1, t, {}, path, i, sig);
        return vl1;
      }
      ghost var c1 := cells;
      assert Blocked(c0, false) == {};
      PeerReady(c0, vl0, c1, vl1, t, false, path, i, sig);
      vl := Enter(p, m, sig, t, path + [p], vl1);
      EnterStep(c0, vl0, c1, vl1, cells, vl, t, {}, path, i, sig, true);
    }

    /** The private setter called by cell `x` itself: `source` is null, so the cell is its own sender. */
    method Spread(x: CellId, sig: Signal<Option<T>>)
      requires Ready(State()) && IsAlive(State(), x)
      modifies this
      ensures State() == LegacySpread(old(State()), x, sig)
    {
      ghost var t := Topo(cells);
      assert IsWave(t, [x]);
      UnblockedWaveOk(t, [x], |t[x]|);
      ghost var vl := Enter(x, x, sig, t, [x], log);
    }

    /** The public value setter: a disabled cell throws; a non-null value equal to the current one returns. */
    method AssignValue(x: CellId, v: Option<T>) returns (r: Outcome)
      requires Ready(State()) && IsAlive(State(), x)
      modifies this
      ensures (r, State()) == LegacyAssignValue(old(State()), x, v)
    {
      var cell := cells[x];
      if cell.disabled {
        return Fail(DisabledMutation);
      }
      if v.Some? && v == cell.value {
        return Done;
      }
      Spread(x, SetValue(cell.value, v));
      r := Done;
    }

    /** The public disabled setter: an equal flag returns. */
    method AssignDisabled(x: CellId, d: bool)
      requires Ready(State()) && IsAlive(State(), x)
      modifies this
      ensures State() == LegacyAssignDisabled(old(State()), x, d)
    {
      if d == cells[x].disabled {
        return;
      }
      Spread(x, SetDisabled(d));
    }

    /** `addBinding`: appends a handle to `e` to `x`'s list. */
    method AddHandle(x: CellId, e: CellId)
      requires x in cells
      modifies this
      ensures cells == old(cells)[x := old(cells)[x].(links := old(cells)[x].links + [e])]
      ensures log == old(log) && next == old(next)
    {
      cells := cells[x := cells[x].(links := cells[x].links + [e])];
    }

    /** `a.bindTo(b)`. */
    method BindTo(a: CellId, b: CellId) returns (r: Outcome)
      requires Ready(State()) && IsAlive(State(), a) && IsAlive(State(), b)
      requires a != b && b !in Topo(cells)[a] && !cells[a].disabled ==> Forest(AddLink(Topo(cells), a, b))
      modifies this
      ensures (r, State()) == LegacyBindTo(old(State()), a, b)
    {
      if a == b {
        return Fail(SelfBind);
      }
      if b in Live(cells[a].links, Alive(cells)) {
        return Fail(AlreadyBound);
      }
      r := AssignValue(a, cells[b].value);
      if r.Fail? {
        return;
      }
      AssignDisabled(a, cells[b].disabled);
      LinkReady(old(State()), State(), a, b);
      AddHandle(a, b);
      AddHandle(b, a);
      r := Done;
    }

    /** The vararg `a.bindTo(xs...)`: `a` binds to each of `xs` in turn, until one bind throws. */
    method BindToAll(a: CellId, xs: seq<CellId>) returns (res: Outcome)
      requires LegacyCanBindAll(State(), a, xs)
      modifies this
      ensures (res, State()) == LegacyBindToAll(old(State()), a, xs)
    {
      var rest := xs;
      while rest != []
        invariant LegacyCanBindAll(State(), a, rest)
        invariant LegacyBindToAll(old(State()), a, xs) == LegacyBindToAll(State(), a, rest)
        decreases |rest|
      {
        LegacyProps.LegacyBindAllStep(State(), a, rest);
        res := BindTo(a, rest[0]);
        if res.Fail? {
          return;
        }
        rest := rest[1..];
      }
      res := Done;
    }

    /** The constructor `Bindable(initialValue, disabledByDefault)`: a new unlinked cell, stored under the next free id. */
    method Create(v: Option<T>, d: bool) returns (id: CellId)
      modifies this
      ensures (id, State()) == LegacyCreate(old(State()), v, d)
    {
      id := next;
      cells := cells[id := Cell(v, d, [], true, None, [], [], Plain)];
      next := next + 1;
    }

    /** `triggerChange()`: both triggers run on `x` alone, without propagation. */
    method TriggerChange(x: CellId)
      requires x in cells
      modifies this
      ensures State() == LegacySpec.TriggerChange(old(State()), x)
    {
      var cell := cells[x];
      // Nothing propagates, so `beforePropagation?.equals(_value)` reduces to a null check.
      if cell.value.Some? {
        log := log + Announce(cells, x, SetValue(cell.value, cell.value));
      }
      log := log + Announce(cells, x, SetDisabled(cell.disabled));
    }

    /** `x.unbindFrom(e)`: `removeBinding` on each side removes the first handle to the other. */
    method UnbindFrom(x: CellId, e: CellId)
      requires x in cells && e in cells
      modifies this
      ensures State() == Unlink(old(State()), x, e)
    {
      cells := cells[x := cells[x].(links := RemoveFirst(cells[x].links, e))];
      cells := cells[e := cells[e].(links := RemoveFirst(cells[e].links, x))];
    }

    /** `unbindBindings()`: every live peer unbinds from `x`, then the list is cleared. */
    method UnbindBindings(x: CellId)
      requires Ready(State()) && IsAlive(State(), x)
      modifies this
      ensures State() == LegacyUnbindBindings(old(State()), x)
    {
      if cells[x].links == [] {
        return;
      }
      ghost var w := State();
      ghost var w1 := Put(w, x, w.cells[x].(links := Live(w.cells[x].links, Alive(w.cells))));
      PurgeReady(w, x);
      LiveKeepsLiveEntries(cells[x].links, Alive(cells));
      var visits := ForAliveRefs(x);
      assert State() == w1;
      VisitBindings(x, visits);
      ghost var w2 := State();
      ClearLinksReady(w2, x);
      ClearHandles(x);
      assert LegacyUnbindBindings(w, x) == Put(UnbindPeers(w1, x, visits), x, w2.cells[x].(links := []));
    }

    /** The loop of `unbindBindings`: each visited peer runs `unbindFrom(x)`, in order. */
    method VisitBindings(x: CellId, visits: seq<CellId>)
      requires Ready(State()) && x in cells && Elems(visits) <= cells.Keys
      modifies this
      ensures State() == UnbindPeers(old(State()), x, visits)
    {
      var rest := visits;
      while rest != []
        invariant Ready(State()) && x in cells && Elems(rest) <= cells.Keys
        invariant UnbindPeers(old(State()), x, visits) == UnbindPeers(State(), x, rest)
        decreases |rest|
      {
        rest := UnbindPeer(x, rest);
      }
    }

    /** One turn of the loop of `unbindBindings`: the first peer left runs `unbindFrom(x)`. */
    method UnbindPeer(x: CellId, rest: seq<CellId>) returns (left: seq<CellId>)
      requires Ready(State()) && x in cells && rest != [] && Elems(rest) <= cells.Keys
      modifies this
      ensures left == rest[1..] && |left| < |rest|
      ensures Ready(State()) && x in cells && Elems(left) <= cells.Keys
      ensures UnbindPeers(old(State()), x, rest) == UnbindPeers(State(), x, left)
    {
      left := rest[1..];
      ElemsCons(rest);
      UnlinkReady(State(), rest[0], x);
      UnbindFrom(rest[0], x);
    }

    /** `bindings.clear()`: `x`'s list is emptied. */
    method ClearHandles(x: CellId)
      requires x in cells
      modifies this
      ensures State() == Put(old(State()), x, old(cells)[x].(links := []))
    {
      cells := cells[x := cells[x].(links := [])];
    }

    /** `unbindEvents()`: both observer channels are cleared. */
    method UnbindEvents(x: CellId)
      requires x in cells
      modifies this
      ensures State() == ClearObservers(old(State()), x)
    {
      cells := cells[x := cells[x].(valueObservers := [], disabledObservers := [])];
    }

    /** `unbindAll()`: `unbindEvents()`, then `unbindBindings()`. */
    method UnbindAll(x: CellId)
      requires Ready(State()) && IsAlive(State(), x)
      modifies this
      ensures State() == LegacyUnbindAll(old(State()), x)
    {
      var cell := cells[x].(valueObservers := [], disabledObservers := []);
      PutReady(State(), x, cell);
      PutTopo(State(), x, cell);
      UnbindEvents(x);
      UnbindBindings(x);
    }

    /** `x.bindValueChanged(runOnce, o)`. */
    method BindValueChanged(x: CellId, o: ObserverId, runOnce: bool)
      requires Ready(State()) && x in cells
      modifies this
      ensures State() == BindableSpec.BindValueChanged(old(State()), x, o, runOnce)
    {
      var cell := cells[x];
      cells := cells[x := cell.(valueObservers := Subscribe(cell.valueObservers, o))];
      if runOnce {
        log := log + [Notice(x, Call(o, ValueChange(ValueChangedEvent(cell.value, cell.value))))];
      }
    }

    /** `x.bindDisabledChanged(runOnce, o)`. */
    method BindDisabledChanged(x: CellId, o: ObserverId, runOnce: bool)
      requires Ready(State()) && x in cells
      modifies this
      ensures State() == BindableSpec.BindDisabledChanged(old(State()), x, o, runOnce)
    {
      var cell := cells[x];
      cells := cells[x := cell.(disabledObservers := Subscribe(cell.disabledObservers, o))];
      if runOnce {
        log := log + [Notice(x, Call(o, DisabledChange(cell.disabled)))];
      }
    }
  }
}
