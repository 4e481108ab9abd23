/**
 * The binding graph of the multiplatform library as objects that change in
 * place: one `Graph` holds every cell (`BindableImpl` and
 * `LeasedBindableImpl` objects), the observer calls made so far and the next
 * free id. Each method runs the library's code step by step and is proved to
 * leave the graph exactly as the matching function of `BindableSpec` says.
 */
module BindableGraph {
  import opened Base
  import opened Waves
  import opened LinkList
  import opened Observers
  import opened Arena
  import opened BindableSpec
  import UnbindProps

  class Graph<T(==)> {
    var cells: Cells<T>
    var log: seq<Notice<T>>
    var next: CellId
    /** The value a cell made by `createInstance` holds before its first write (`Unset`, read as null). */
    const unset: T

    ghost function State(): World<T>
      reads this
    {
      World(cells, log, next)
    }

    constructor (unset: T)
      ensures State() == World(map[], [], 0) && Ready(State()) && this.unset == unset
    {
      cells := map[];
      log := [];
      next := 0;
      this.unset := unset;
    }

    /** `bindings.forAliveRefs` on cell `m`: the dead handles are removed in place, and the live ones are visited in list order. */
    method ForAliveRefs(m: CellId) returns (visits: seq<CellId>)
      requires m in cells
      modifies this
      ensures cells == old(cells)[m := old(cells)[m].(links := Live(old(cells)[m].links, Alive(old(cells))))]
      ensures visits == cells[m].links && log == old(log) && next == old(next)
    {
      visits := Live(cells[m].links, Alive(cells));
      cells := cells[m := cells[m].(links := visits)];
    }

    /**
     * The internal setter (`setValue` or `setDisabled`) run by cell `m` for
     * the sender `source`, the cell itself for the initiator. A guarded
     * disabled write on a leased cell throws first. Then the field is
     * written; each live peer but the sender, in list order, runs the
     * internal setter in turn, and an exception there ends the loop; last,
     * when the field still holds what was written, the cell's observers are
     * called. The path from the initiator is ghost and bounds the recursion.
     */
    method Enter(m: CellId, source: CellId, sig: Signal<T>, guarded: bool, ghost t: Topology, ghost path: seq<CellId>) returns (ok: bool)
      requires Forest(t) && t == Topo(cells) && IsWave(t, path) && Last(path) == m && Sender(path) == source
      modifies this
      ensures Entered(old(cells), old(log), cells, log, t, Blocked(old(cells), guarded), path, sig, ok) && next == old(next)
      decreases |t.Keys| - |path|, 2
    {
      ghost var c0, l0 := cells, log;
      ghost var b := Blocked(c0, guarded);
      if guarded && cells[m].lease.Some? {
        return false;
      }
      cells := cells[m := Write(cells[m], sig)];
      var visits := ForAliveRefs(m);
      WriteThenPurge(c0, m, sig);
      WaveStarts(c0, l0, cells, log, t, b, path, sig);
      ok := VisitPeers(m, source, visits, sig, guarded, t, path, c0, l0);
      if ok {
        WaveDone(c0, l0, cells, log, t, b, path, sig);
        if Holds(cells[m], sig) {
          log := log + Announce(cells, m, sig);
        }
      }
    }

    /**
     * The loop of `triggerValueChange` (or `triggerDisabledChange`) over the
     * visits of `forAliveRefs`: every peer but the sender runs the internal
     * setter, in list order, until one throws.
     */
    method VisitPeers(m: CellId, source: CellId, visits: seq<CellId>, sig: Signal<T>, guarded: bool,
                      ghost t: Topology, ghost path: seq<CellId>, ghost c0: Cells<T>, ghost l0: seq<Notice<T>>) returns (ok: bool)
      requires Forest(t) && t == Topo(c0) && IsWave(t, path) && Last(path) == m && Sender(path) == source && visits == t[m]
      requires Partial(c0, l0, cells, log, t, Blocked(c0, guarded), path, 0, sig)
      modifies this
      ensures Visited(c0, l0, cells, log, t, Blocked(c0, guarded), path, sig, ok) && next == old(next)
      decreases |t.Keys| - |path|, 1
    {
      ghost var b := Blocked(c0, guarded);
      ok := true;
      var i: nat := 0;
      while i < |visits|
        invariant i <= |visits|
        invariant Partial(c0, l0, cells, log, t, b, path, i, sig)
        invariant next == old(next)
      {
        ok := VisitPeer(m, source, visits, i, sig, guarded, t, path, c0, l0);
        if !ok {
          return;
        }
        i := i + 1;
      }
    }

    /** One visit of that loop: the sender is skipped, any other peer runs the internal setter. */
    method VisitPeer(m: CellId, source: CellId, visits: seq<CellId>, i: nat, sig: Signal<T>, guarded: bool,
                     ghost t: Topology, ghost path: seq<CellId>, ghost c0: Cells<T>, ghost l0: seq<Notice<T>>) returns (ok: bool)
      requires Forest(t) && t == Topo(c0) && IsWave(t, path) && Last(path) == m && Sender(path) == source && visits == t[m]
      requires i < |visits| && Partial(c0, l0, cells, log, t, Blocked(c0, guarded), path, i, sig)
      modifies this
      ensures ok ==> Partial(c0, l0, cells, log, t, Blocked(c0, guarded), path, i + 1, sig)
      ensures !ok ==> Visited(c0, l0, cells, log, t, Blocked(c0, guarded), path, sig, false)
      ensures next == old(next)
      decreases |t.Keys| - |path|, 0
    {
      var p := visits[i];
      if p == source {
        SenderSkipped(c0, l0, cells, log, t, Blocked(c0, guarded), path, i, sig);
        return true;
      }
      ghost var c1, l1 := cells, log;
      PeerReady(c0, l0, c1, l1, t, guarded, path, i, sig);
      ok := Enter(p, m, sig, guarded, t, path + [p]);
      EnterStep(c0, l0, c1, l1, cells, log, t, Blocked(c0, guarded), path, i, sig, ok);
      if !ok {
        WaveStopped(c0, l0, cells, log, t, Blocked(c0, guarded), path, i + 1, sig);
      }
    }

    /** The internal setter called by cell `x` itself: `source` is null, so the cell is its own sender. */
    method Spread(x: CellId, sig: Signal<T>, guarded: bool) returns (ok: bool)
      requires Forest(Topo(cells)) && x in Topo(cells)
      modifies this
      ensures (ok, State()) == BindableSpec.Spread(old(State()), x, sig, guarded)
    {
      ghost var t := Topo(cells);
      assert IsWave(t, [x]);
      ok := Enter(x, x, sig, guarded, t, [x]);
    }

    /** The public value setter, dispatched on the cell's class. */
    method AssignValue(x: CellId, v: T) returns (r: Outcome)
      requires Ready(State()) && IsAlive(State(), x)
      modifies this
      ensures (r, State()) == BindableSpec.AssignValue(old(State()), x, v)
    {
      var cell := cells[x];
      if cell.kind.Plain? && cell.disabled {
        return Fail(DisabledMutation);
      }
      if cell.kind.Holder? && cell.kind.returned {
        return Fail(ReturnedLease);
      }
      if v == cell.value {
        return Done;
      }
      var _ := Spread(x, SetValue(cell.value, v), false);
      r := Done;
    }

    /** The public disabled setter, dispatched on the cell's class. */
    method AssignDisabled(x: CellId, d: bool) returns (r: Outcome)
      requires Ready(State()) && IsAlive(State(), x)
      modifies this
      ensures (r, State()) == BindableSpec.AssignDisabled(old(State()), x, d)
    {
      var cell := cells[x];
      if cell.kind.Plain? {
        if cell.lease.Some? {
          return Fail(LeaseActive);
        }
        if d == cell.disabled {
          return Done;
        }
        var ok := Spread(x, SetDisabled(d), true);
        r := if ok then Done else Fail(LeaseActive);
      } else {
        if cell.kind.returned {
          return Fail(ReturnedLease);
        }
        var _ := Spread(x, SetDisabled(d), false);
        r := Done;
      }
    }

    /** `addWeakReference`: appends a handle to `e` to `x`'s list. */
    method AddHandle(x: CellId, e: CellId)
      requires x in cells
      modifies this
      ensures cells == old(cells)[x := old(cells)[x].(links := old(cells)[x].links + [e])]
      ensures log == old(log) && next == old(next)
    {
      cells := cells[x := cells[x].(links := cells[x].links + [e])];
    }

    /** `a.bindTo(b)`. */
    method BindTo(a: CellId, b: CellId) returns (r: Outcome)
      requires Ready(State()) && IsAlive(State(), a) && IsAlive(State(), b)
      requires BindSetters(State(), a, b).0.Done? ==> Forest(AddLink(Topo(cells), a, b))
      modifies this
      ensures (r, State()) == BindableSpec.BindTo(old(State()), a, b)
    {
      if b in Live(cells[a].links, Alive(cells)) {
        return Fail(AlreadyBound);
      }
      r := AssignValue(a, cells[b].value);
      if r.Fail? {
        return;
      }
      r := AssignDisabled(a, cells[b].disabled);
      if r.Fail? {
        return;
      }
      ghost var w2 := State();
      assert BindSetters(old(State()), a, b) == (Done, w2);
      LinkReady(old(State()), w2, a, b);
      AddHandle(a, b);
      AddHandle(b, a);
      r := Done;
    }

    /** The vararg extension `r.bindTo(xs...)`: each of `xs` in turn binds to `r`, until one throws. */
    method BindToAll(r: CellId, xs: seq<CellId>) returns (res: Outcome)
      requires CanBindAll(State(), r, xs)
      modifies this
      ensures (res, State()) == BindableSpec.BindToAll(old(State()), r, xs)
    {
      var rest := xs;
      while rest != []
        invariant CanBindAll(State(), r, rest)
        invariant BindableSpec.BindToAll(old(State()), r, xs) == BindableSpec.BindToAll(State(), r, rest)
        decreases |rest|
      {
        res := BindTo(rest[0], r);
        if res.Fail? {
          return;
        }
        rest := rest[1..];
      }
      res := Done;
    }

    /** A new object, stored under the next free id. */
    method Allocate(cell: Cell<T>) returns (id: CellId)
      modifies this
      ensures id == old(next) && State() == Alloc(old(State()), cell)
    {
      id := next;
      cells := cells[id := cell];
      next := next + 1;
    }

    /** The constructors `Bindable(v)` and `Bindable(v, d)`. */
    method Create(v: T, d: Option<bool>) returns (res: Result<CellId>)
      requires Ready(State())
      modifies this
      ensures (res, State()) == BindableSpec.Create(old(State()), unset, v, d)
    {
      AllocReady(State(), Blank(PlainVariant, unset));
      var id := Allocate(Blank(PlainVariant, unset));
      var r1 := AssignValue(id, v);
      if r1.Fail? {
        return Err(r1.failure);
      }
      if d.None? {
        return Ok(id);
      }
      var r2 := AssignDisabled(id, d.value);
      res := if r2.Done? then Ok(id) else Err(r2.failure);
    }

    /** `getBoundCopyImplementation(src)`, where `createInstance` returned an object of variant `made`. */
    method GetBoundCopy(src: CellId, made: Variant) returns (res: Result<CellId>)
      requires Ready(State()) && IsAlive(State(), src)
      modifies this
      ensures (res, State()) == BindableSpec.GetBoundCopy(old(State()), src, made, unset)
    {
      if made != VariantOf(cells[src]) {
        return Err(InstanceTypeMismatch);
      }
      AllocReady(State(), Blank(made, unset));
      LinkFreshForest(Topo(cells), next, src);
      var id := Allocate(Blank(made, unset));
      var r1 := BindTo(id, src);
      res := if r1.Done? then Ok(id) else Err(r1.failure);
    }

    /**
     * `checkForLease(source)` run by the cell `m` at the end of `path`,
     * where `source` is the cell that asked. The raw handle list is walked
     * without a purge: a dead handle reads as null, which differs from the
     * source, and dereferencing it throws. Every other handle but the
     * source is asked in turn and the answers are or-ed without
     * short-circuiting.
     */
    method CheckForLease(m: CellId, source: CellId, ghost path: seq<CellId>) returns (res: Result<bool>)
      requires Forest(Topo(cells)) && IsWave(Topo(cells), path) && Last(path) == m && Sender(path) == source
      ensures res == LeaseScan(cells, path)
      decreases |Topo(cells).Keys| - |path|, 1
    {
      if cells[m].lease.Some? {
        return Ok(true);
      }
      var links := cells[m].links;
      if links == [] {
        return Ok(false);
      }
      var found := false;
      var i := 0;
      while i < |links|
        invariant 0 <= i <= |links| && ScanLinks(cells, path, i) == Ok(found)
      {
        var step := AskHandle(m, source, path, i, found);
        if step.Err? {
          ScanLinksErrStays(cells, path, i + 1, |links|);
          return step;
        }
        found := step.value;
        i := i + 1;
      }
      res := Ok(found);
    }

    /** Handle `i` of the loop of `checkForLease`, with `found` the answer so far. */
    method AskHandle(m: CellId, source: CellId, ghost path: seq<CellId>, i: nat, found: bool) returns (res: Result<bool>)
      requires Forest(Topo(cells)) && IsWave(Topo(cells), path) && Last(path) == m && Sender(path) == source
      requires i < |cells[m].links| && ScanLinks(cells, path, i) == Ok(found)
      ensures res == ScanLinks(cells, path, i + 1)
      decreases |Topo(cells).Keys| - |path|, 0
    {
      var e := cells[m].links[i];
      if e !in Alive(cells) {
        return Err(DeadReference);
      }
      if e == source {
        return Ok(found);
      }
      LiveKeepsLiveEntries(cells[m].links, Alive(cells));
      ExtendWave(Topo(cells), path, e);
      WaveLength(Topo(cells), path + [e]);
      var sub := CheckForLease(e, m, path + [e]);
      if sub.Err? {
        return sub;
      }
      res := Ok(found || sub.value);
    }

    /**
     * The constructor `LeasedBindableImpl(x, revert)`: a blank holder
     * binds to `x`, records its source, the revert flag and (when
     * reverting) its value, records its flag, and sets its flag to true.
     */
    method NewHolder(x: CellId, revert: bool) returns (res: Result<CellId>)
      requires Ready(State()) && IsAlive(State(), x)
      modifies this
      ensures (res, State()) == BindableSpec.NewHolder(old(State()), x, revert, unset)
    {
      FreshHolderReady(State(), x, unset);
      var h := Allocate(Blank(LeasedVariant, unset));
      ghost var w1 := State();
      var r1 := BindTo(h, x);
      if r1.Fail? {
        return Err(r1.failure);
      }
      HolderBound(w1, State(), h, x);
      res := StartHolder(h, x, revert);
    }

    /** The constructor after its `bindTo`: the holder's own fields, then its flag set to true. */
    method StartHolder(h: CellId, x: CellId, revert: bool) returns (res: Result<CellId>)
      requires Ready(State()) && IsAlive(State(), h) && IsAlive(State(), x) && cells[h].kind.Holder?
      modifies this
      ensures (res, State()) == BindableSpec.StartHolder(old(State()), h, x, revert, unset)
    {
      var hc := cells[h];
      var kind := Holder(Some(x), revert, if revert then hc.value else unset, hc.disabled, false);
      HolderKindReady(State(), h, x, kind);
      cells := cells[h := hc.(kind := kind)];
      var r2 := AssignDisabled(h, true);
      res := if r2.Done? then Ok(h) else Err(r2.failure);
    }

    /** `x.beginLease(revert)`. */
    method BeginLease(x: CellId, revert: bool) returns (res: Result<CellId>)
      requires Ready(State()) && IsAlive(State(), x)
      modifies this
      ensures (res, State()) == BindableSpec.BeginLease(old(State()), x, revert, unset)
    {
      assert IsWave(Topo(cells), [x]);
      var scan := CheckForLease(x, x, [x]);
      if scan.Err? {
        return Err(scan.failure);
      }
      if scan.value {
        return Err(AlreadyLeased);
      }
      res := NewHolder(x, revert);
      if res.Err? {
        return;
      }
      LeaseSlotReady(State(), x, res.value);
      RecordLease(x, res.value);
    }

    /** `leasedBindable = h`. */
    method RecordLease(x: CellId, h: CellId)
      requires x in cells
      modifies this
      ensures State() == SetLease(old(State()), x, Some(h))
    {
      cells := cells[x := cells[x].(lease := Some(h))];
    }

    /** `x.endLease(h)`. */
    method EndLease(x: CellId, h: CellId) returns (r: Outcome)
      requires Ready(State()) && x in cells
      modifies this
      ensures (r, State()) == BindableSpec.EndLease(old(State()), x, h)
    {
      var xc := cells[x];
      if xc.lease.None? {
        return Fail(NoActiveLease);
      }
      if xc.lease.value != h {
        return Fail(LeaseMismatch);
      }
      cells := cells[x := xc.(lease := None)];
      r := Done;
    }

    /** The two `removeWeakReference` calls: the first handle to `e` leaves `x`'s list, then the first handle to `x` leaves `e`'s. */
    method RemoveHandles(x: CellId, e: CellId)
      requires x in cells && e in cells
      modifies this
      ensures State() == Unlink(old(State()), x, e)
    {
      cells := cells[x := cells[x].(links := RemoveFirst(cells[x].links, e))];
      cells := cells[e := cells[e].(links := RemoveFirst(cells[e].links, x))];
    }

    /** `x.unbindFrom(them)`, where `None` is a null argument. */
    method UnbindFrom(x: CellId, them: Option<CellId>) returns (r: Outcome)
      requires Ready(State()) && IsAlive(State(), x) && (them.Some? ==> IsAlive(State(), them.value))
      modifies this
      ensures (r, State()) == BindableSpec.UnbindFrom(old(State()), x, them)
    {
      if them.None? {
        return Fail(NullUnbind);
      }
      RemoveHandles(x, them.value);
      r := Done;
    }

    /** `unbindBindings`: unbinds from the referent of each handle of a snapshot of the raw list. */
    method UnbindBindings(x: CellId) returns (r: Outcome)
      requires Ready(State()) && IsAlive(State(), x)
      modifies this
      ensures (r, State()) == BindableSpec.UnbindBindings(old(State()), x)
    {
      if cells[x].links == [] {
        return Done;
      }
      var snapshot := cells[x].links;
      var rest := snapshot;
      while rest != []
        invariant Ready(State()) && IsAlive(State(), x)
        invariant BindableSpec.UnbindEach(old(State()), x, snapshot) == BindableSpec.UnbindEach(State(), x, rest)
        decreases |rest|
      {
        r := UnbindNext(x, rest);
        if r.Fail? {
          return;
        }
        rest := rest[1..];
      }
      r := Done;
    }

    /** One turn of the loop of `unbindBindings`: `unbindFrom` on the referent of the first handle left, null when it is dead. */
    method UnbindNext(x: CellId, rest: seq<CellId>) returns (r: Outcome)
      requires Ready(State()) && IsAlive(State(), x) && rest != []
      modifies this
      ensures Ready(State()) && IsAlive(State(), x)
      ensures r.Fail? ==> (r, State()) == BindableSpec.UnbindEach(old(State()), x, rest)
      ensures r.Done? ==> BindableSpec.UnbindEach(old(State()), x, rest) == BindableSpec.UnbindEach(State(), x, rest[1..])
    {
      var e := rest[0];
      var them := if e in Alive(cells) then Some(e) else None;
      ghost var w := State();
      r := UnbindFrom(x, them);
      if r.Done? {
        UnbindProps.UnbindEachStep(w, x, rest);
      }
    }

    /** `unbindEvents`: both observer channels are cleared. */
    method UnbindEvents(x: CellId)
      requires x in cells
      modifies this
      ensures State() == ClearObservers(old(State()), x)
    {
      cells := cells[x := cells[x].(valueObservers := [], disabledObservers := [])];
    }

    /** `h.returnLease()`. */
    method ReturnLease(h: CellId) returns (res: Result<bool>)
      requires Ready(State()) && IsAlive(State(), h) && cells[h].kind.Holder?
      modifies this
      ensures (res, State()) == BindableSpec.ReturnLease(old(State()), h)
      decreases |ActiveHolders(cells)|, 2
    {
      var k := cells[h].kind;
      if k.returned {
        return Ok(false);
      }
      if k.source.None? {
        return Err(ReturnWithoutSource);
      }
      var r1 := HolderUnbindAll(h);
      res := if r1.Done? then Ok(true) else Err(r1.failure);
    }

    /**
     * The holder's `unbindAll`: while it has a source and is not returned,
     * it puts back the value (when reverting) and the flag through its own
     * setters, ends the lease on its source and is marked returned; then
     * the base `unbindAll` runs.
     */
    method HolderUnbindAll(h: CellId) returns (r: Outcome)
      requires Ready(State()) && IsAlive(State(), h) && cells[h].kind.Holder?
      modifies this
      ensures (r, State()) == BindableSpec.HolderUnbindAll(old(State()), h)
      decreases |ActiveHolders(cells)|, if h in ActiveHolders(cells) then 1 else 4
    {
      var k := cells[h].kind;
      if k.source.Some? && !k.returned {
        ghost var w := State();
        r := Restore(h);
        ReturnStepKept(w, State(), h);
        if r.Fail? {
          return;
        }
        ghost var w2 := State();
        r := EndLease(k.source.value, h);
        ActiveHoldersAgree(cells, w2.cells);
        if r.Fail? {
          return;
        }
        r := Retire(h);
      } else {
        r := BaseUnbindAll(h);
      }
    }

    /** The first part of the holder's return: the value (when reverting), then the flag, put back through its own setters. */
    method Restore(h: CellId) returns (r: Outcome)
      requires Ready(State()) && IsAlive(State(), h) && cells[h].kind.Holder?
      modifies this
      ensures (r, State()) == BindableSpec.Restore(old(State()), h)
    {
      var k := cells[h].kind;
      if k.revert {
        r := AssignValue(h, k.valueBefore);
        if r.Fail? {
          return;
        }
      }
      r := AssignDisabled(h, k.disabledBefore);
    }

    /** The end of the holder's return: it is marked returned, then the base `unbindAll` runs. */
    method Retire(h: CellId) returns (r: Outcome)
      requires Ready(State()) && IsAlive(State(), h) && h in ActiveHolders(cells)
      modifies this
      ensures (r, State()) == BindableSpec.Retire(old(State()), h)
      decreases |ActiveHolders(cells)|, 0
    {
      MarkReturned(State(), State(), h);
      cells := cells[h := cells[h].(kind := cells[h].kind.(returned := true))];
      r := BaseUnbindAll(h);
    }

    /** The base `unbindAll`: a leased cell first has its lease returned, then both channels are cleared and every handle unbound. */
    method BaseUnbindAll(x: CellId) returns (r: Outcome)
      requires Ready(State()) && IsAlive(State(), x)
      modifies this
      ensures (r, State()) == BindableSpec.BaseUnbindAll(old(State()), x)
      decreases |ActiveHolders(cells)|, 3
    {
      var l := cells[x].lease;
      if l.Some? {
        assert LeaseOk(cells, x);
        var r0 := ReturnLease(l.value);
        if r0.Err? {
          return Fail(r0.failure);
        }
      }
      r := ClearAndUnbind(x);
    }

    /** The rest of the base `unbindAll`: `unbindEvents`, then `unbindBindings`. */
    method ClearAndUnbind(x: CellId) returns (r: Outcome)
      requires Ready(State()) && IsAlive(State(), x)
      modifies this
      ensures (r, State()) == BindableSpec.ClearAndUnbind(old(State()), x)
    {
      ghost var w := State();
      UnbindEvents(x);
      PutReady(w, x, cells[x]);
      PutTopo(w, x, cells[x]);
      r := UnbindBindings(x);
    }

    /** `x.unbindAll()`, dispatched on the cell's class. */
    method UnbindAll(x: CellId) returns (r: Outcome)
      requires Ready(State()) && IsAlive(State(), x)
      modifies this
      ensures (r, State()) == BindableSpec.UnbindAll(old(State()), x)
    {
      if cells[x].kind.Holder? {
        r := HolderUnbindAll(x);
      } else {
        r := BaseUnbindAll(x);
      }
    }

    /** `x.bindValueChanged(runOnce, o)`. */
    method BindValueChanged(x: CellId, o: ObserverId, runOnce: bool)
      requires Ready(State()) && x in cells
      modifies this
      ensures State() == BindableSpec.BindValueChanged(old(State()), x, o, runOnce)
    {
      var cell := cells[x];
      cells := cells[x := cell.(valueObservers := Subscribe(cell.valueObservers, o))];
      if runOnce {
        log := log + [Notice(x, Call(o, ValueChange(ValueChangedEvent(cell.value, cell.value))))];
      }
    }

    /** `x.bindDisabledChanged(runOnce, o)`. */
    method BindDisabledChanged(x: CellId, o: ObserverId, runOnce: bool)
      requires Ready(State()) && x in cells
      modifies this
      ensures State() == BindableSpec.BindDisabledChanged(old(State()), x, o, runOnce)
    {
      var cell := cells[x];
      cells := cells[x := cell.(disabledObservers := Subscribe(cell.disabledObservers, o))];
      if runOnce {
        log := log + [Notice(x, Call(o, DisabledChange(cell.disabled)))];
      }
    }
  }

  /** What the loop over the peers leaves: the wave below the cell, written and fired, and whether it was stopped. */
  ghost predicate Visited<T>(c0: Cells<T>, l0: seq<Notice<T>>, c: Cells<T>, l: seq<Notice<T>>,
                             t: Topology, b: set<CellId>, path: seq<CellId>, sig: Signal<T>, ok: bool)
    requires Forest(t) && IsWave(t, path)
  {
    var tr := FullWave(t, b, path);
    && ok == tr.ok
    && (ok ==> Partial(c0, l0, c, l, t, b, path, |t[Last(path)]|, sig))
    && (!ok ==> c == WriteAll(c0, {Last(path)} + Elems(tr.entered), sig) && l == l0 + Fires(c0, tr.completed + [], sig))
  }

  /**
   * What the internal setter run at the end of `path` does, starting from
   * cells `c0` and calls `l0`: a cell of `b` (a leased cell, for a guarded
   * disabled write) throws before any write; otherwise the cell and every
   * cell its wave enters are written, the cells the wave completes fire in
   * that order, and the cell itself fires last unless the wave was stopped.
   */
  ghost predicate Entered<T>(c0: Cells<T>, l0: seq<Notice<T>>, c: Cells<T>, l: seq<Notice<T>>,
                             t: Topology, b: set<CellId>, path: seq<CellId>, sig: Signal<T>, ok: bool)
    requires Forest(t) && IsWave(t, path)
  {
    var m := Last(path);
    var tr := FullWave(t, b, path);
    && ok == (m !in b && tr.ok)
    && c == (if m in b then c0 else WriteAll(c0, {m} + Elems(tr.entered), sig))
    && l == (if m in b then l0 else l0 + Fires(c0, tr.completed + (if tr.ok then [m] else []), sig))
  }

  /**
   * The state of `Enter` at cell `Last(path)` after its first `i` peers:
   * the wave so far was not stopped, every cell it entered and the cell
   * itself are written, and the cells it completed have fired.
   */
  ghost predicate Partial<T>(c0: Cells<T>, l0: seq<Notice<T>>, c: Cells<T>, l: seq<Notice<T>>,
                             t: Topology, b: set<CellId>, path: seq<CellId>, i: nat, sig: Signal<T>)
  {
    && Forest(t) && IsWave(t, path) && i <= |t[Last(path)]|
    && var a := Wave(t, b, path, i);
       && a.ok
       && c == WriteAll(c0, {Last(path)} + Elems(a.entered), sig)
       && l == l0 + Fires(c0, a.completed, sig)
  }

  /** The same after a peer's wave stopped: the cells written and the calls made before the stop stay. */
  ghost predicate Stopped<T>(c0: Cells<T>, l0: seq<Notice<T>>, c: Cells<T>, l: seq<Notice<T>>,
                             t: Topology, b: set<CellId>, path: seq<CellId>, i: nat, sig: Signal<T>)
  {
    && Forest(t) && IsWave(t, path) && i <= |t[Last(path)]|
    && var a := Wave(t, b, path, i);
       && !a.ok
       && c == WriteAll(c0, {Last(path)} + Elems(a.entered), sig)
       && l == l0 + Fires(c0, a.completed, sig)
  }

  /** Before the loop: the cell itself is written and purged; no peer has been visited. */
  lemma WaveStarts<T>(c0: Cells<T>, l0: seq<Notice<T>>, c: Cells<T>, l: seq<Notice<T>>,
                      t: Topology, b: set<CellId>, path: seq<CellId>, sig: Signal<T>)
    requires Forest(t) && IsWave(t, path) && t == Topo(c0) && l == l0
    requires c == WriteAll(c0, {Last(path)}, sig)
    ensures Partial(c0, l0, c, l, t, b, path, 0, sig)
    ensures c[Last(path)].links == t[Last(path)]
  {
    assert {Last(path)} + Elems([]) == {Last(path)};
  }

  /** The sender is skipped: the wave is the same after one more peer. */
  lemma SenderSkipped<T>(c0: Cells<T>, l0: seq<Notice<T>>, c: Cells<T>, l: seq<Notice<T>>,
                         t: Topology, b: set<CellId>, path: seq<CellId>, i: nat, sig: Signal<T>)
    requires Partial(c0, l0, c, l, t, b, path, i, sig) && i < |t[Last(path)]| && t[Last(path)][i] == Sender(path)
    ensures Partial(c0, l0, c, l, t, b, path, i + 1, sig)
  {
    assert Wave(t, b, path, i + 1) == Wave(t, b, path, i);
  }

  /** What the recursive call of `Enter` on the next peer needs. */
  lemma PeerReady<T>(c0: Cells<T>, l0: seq<Notice<T>>, c: Cells<T>, l: seq<Notice<T>>,
                     t: Topology, guarded: bool, path: seq<CellId>, i: nat, sig: Signal<T>)
    requires t == Topo(c0) && Partial(c0, l0, c, l, t, Blocked(c0, guarded), path, i, sig)
    requires i < |t[Last(path)]| && t[Last(path)][i] != Sender(path)
    ensures var p := t[Last(path)][i];
            && t == Topo(c) && Blocked(c, guarded) == Blocked(c0, guarded)
            && IsWave(t, path + [p]) && |path| + 1 <= |t.Keys|
            && Last(path + [p]) == p && Sender(path + [p]) == Last(path)
  {
    var a := Wave(t, Blocked(c0, guarded), path, i);
    WriteAllFrames(c0, {Last(path)} + Elems(a.entered), sig);
    FramesAgree(c, c0);
    var p := t[Last(path)][i];
    assert p in t by {
      assert p in t[Last(path)];
    }
    ExtendWave(t, path, p);
    WaveLength(t, path + [p]);
  }

  /** A stopped wave stays stopped over the remaining peers. */
  lemma WaveStopped<T>(c0: Cells<T>, l0: seq<Notice<T>>, c: Cells<T>, l: seq<Notice<T>>,
                       t: Topology, b: set<CellId>, path: seq<CellId>, i: nat, sig: Signal<T>)
    requires Stopped(c0, l0, c, l, t, b, path, i, sig)
    ensures Visited(c0, l0, c, l, t, b, path, sig, false)
  {
    WaveStops(t, b, path, i, |t[Last(path)]|);
    var tr := FullWave(t, b, path);
    assert tr.completed + [] == tr.completed;
  }

  /** After the last peer: the cell's field still holds what was written, and its observers come next. */
  lemma WaveDone<T>(c0: Cells<T>, l0: seq<Notice<T>>, c: Cells<T>, l: seq<Notice<T>>,
                    t: Topology, b: set<CellId>, path: seq<CellId>, sig: Signal<T>)
    requires Forest(t) && IsWave(t, path) && Partial(c0, l0, c, l, t, b, path, |t[Last(path)]|, sig) && Last(path) in c0
    ensures var tr := FullWave(t, b, path);
            && tr.ok && Last(path) in c && Holds(c[Last(path)], sig)
            && c == WriteAll(c0, {Last(path)} + Elems(tr.entered), sig)
            && l + Announce(c, Last(path), sig) == l0 + Fires(c0, tr.completed + [Last(path)], sig)
  {
    var m := Last(path);
    var tr := FullWave(t, b, path);
    WrittenHolds(c0, {m} + Elems(tr.entered), sig, m);
    AnnounceLast(c0, l0, l, {m} + Elems(tr.entered), tr.completed, sig, m);
  }

  /** A cell the wave entered holds the signal's field. */
  lemma WrittenHolds<T>(c0: Cells<T>, s: set<CellId>, sig: Signal<T>, m: CellId)
    requires m in c0 && m in s
    ensures m in WriteAll(c0, s, sig) && Holds(WriteAll(c0, s, sig)[m], sig)
  {
    WriteAllWrites(c0, s, sig, m);
  }

  /** The calls the cell makes after its wave are the last of the calls its wave makes. */
  lemma AnnounceLast<T>(c0: Cells<T>, l0: seq<Notice<T>>, l: seq<Notice<T>>, s: set<CellId>, done: seq<CellId>, sig: Signal<T>, m: CellId)
    requires l == l0 + Fires(c0, done, sig)
    ensures l + Announce(WriteAll(c0, s, sig), m, sig) == l0 + Fires(c0, done + [m], sig)
  {
    AnnounceAfterWrite(c0, s, sig, m);
    FiresOne(c0, m, sig);
    FiresAppend(c0, done, [m], sig);
    AppendAssoc(l0, Fires(c0, done, sig), Announce(c0, m, sig));
  }

  /** One finishing cell makes the calls of its own channel. */
  lemma FiresOne<T>(c: Cells<T>, m: CellId, sig: Signal<T>)
    ensures Fires(c, [m], sig) == Announce(c, m, sig)
  {
    assert [m][1..] == [];
  }

  /** A wave leaves every cell's observers, and so the calls it makes, as they were. */
  lemma AnnounceAfterWrite<T>(c0: Cells<T>, s: set<CellId>, sig: Signal<T>, m: CellId)
    ensures Announce(WriteAll(c0, s, sig), m, sig) == Announce(c0, m, sig)
  {
    if m in c0 {
      assert ObserversFor(WriteAll(c0, s, sig)[m], sig) == ObserversFor(c0[m], sig);
    }
  }

  /** Writing the field and then purging the cell's handles is what a wave entering that cell alone does. */
  lemma WriteThenPurge<T>(c0: Cells<T>, m: CellId, sig: Signal<T>)
    requires m in c0
    ensures var c1 := c0[m := Write(c0[m], sig)];
            c1[m := c1[m].(links := Live(c1[m].links, Alive(c1)))] == WriteAll(c0, {m}, sig)
  {
    var c1 := c0[m := Write(c0[m], sig)];
    assert Alive(c1) == Alive(c0);
    WriteAllAt(c0, m, sig);
  }

  lemma ElemsJoin(m: CellId, x: seq<CellId>, p: CellId, y: seq<CellId>)
    ensures ({m} + Elems(x)) + ({p} + Elems(y)) == {m} + Elems(x + [p] + y)
  {
    assert Elems(x + [p] + y) == Elems(x) + {p} + Elems(y);
  }

  /** The cell's field still holds what the signal wrote: `beforePropagation == _value` (or `_disabled`). */
  function Holds<T(==)>(cell: Cell<T>, sig: Signal<T>): bool
  {
    match sig
    case SetValue(_, v) => cell.value == v
    case SetDisabled(d) => cell.disabled == d
  }

  /**
   * One peer of the loop of `Enter`: the peer's own wave, run on the cells
   * written so far, extends the wave of the first `i` peers by one peer.
   */
  lemma EnterStep<T>(c0: Cells<T>, l0: seq<Notice<T>>, c1: Cells<T>, l1: seq<Notice<T>>, c2: Cells<T>, l2: seq<Notice<T>>,
                     t: Topology, b: set<CellId>, path: seq<CellId>, i: nat, sig: Signal<T>, ok: bool)
    requires Forest(t) && IsWave(t, path) && i < |t[Last(path)]|
    requires t[Last(path)][i] != Sender(path) && IsWave(t, path + [t[Last(path)][i]])
    requires Partial(c0, l0, c1, l1, t, b, path, i, sig)
    requires Entered(c1, l1, c2, l2, t, b, path + [t[Last(path)][i]], sig, ok)
    ensures ok ==> Partial(c0, l0, c2, l2, t, b, path, i + 1, sig)
    ensures !ok ==> Stopped(c0, l0, c2, l2, t, b, path, i + 1, sig)
  {
    var m := Last(path);
    var p := t[m][i];
    var a := Wave(t, b, path, i);
    if p !in b {
      WaveUnfold(t, b, path, i + 1);
      var sub := FullWave(t, b, path + [p]);
      var s := {m} + Elems(a.entered);
      WriteAllCompose(c0, s, {p} + Elems(sub.entered), sig);
      ElemsJoin(m, a.entered, p, sub.entered);
      WriteAllFrames(c0, s, sig);
      var tail := sub.completed + (if sub.ok then [p] else []);
      FiresAgree(c1, c0, tail, sig);
      FiresAppend(c0, a.completed, tail, sig);
      AppendAssoc(a.completed, sub.completed, if sub.ok then [p] else []);
      AppendAssoc(l0, Fires(c0, a.completed, sig), Fires(c0, tail, sig));
    }
  }

  /** Once the loop of `checkForLease` has thrown, the exception is its outcome. */
  lemma {:induction false} ScanLinksErrStays<T>(c: Cells<T>, path: seq<CellId>, i: nat, n: nat)
    requires Forest(Topo(c)) && IsWave(Topo(c), path) && i <= n <= |c[Last(path)].links|
    requires ScanLinks(c, path, i).Err?
    ensures ScanLinks(c, path, n) == ScanLinks(c, path, i)
    decreases n
  {
    if n > i {
      ScanLinksErrStays(c, path, i, n - 1);
    }
  }
}
