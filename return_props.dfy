/**
 * Properties of returning a lease in `BindableSpec`: what `returnLease`
 * puts back, which lease it ends, and what it leaves of the holder.
 */
module ReturnProps {
  import opened Base
  import opened Waves
  import opened LinkList
  import opened Arena
  import opened BindableSpec
  import opened BindableProps
  import opened LeaseProps
  import opened UnbindProps

  /**
   * The end of the first return of a holder that holds no lease itself and
   * whose handles are all live: it is marked returned, its observers are
   * cleared, it is unbound from its peers as `HandlesUnbound` says (so each
   * peer, its source among them, loses its handles to it), and no value,
   * flag or lease changes.
   */
  lemma RetireEffect<T>(w: World<T>, h: CellId)
    requires Ready(w) && IsAlive(w, h) && h in ActiveHolders(w.cells)
    requires w.cells[h].lease.None? && Elems(w.cells[h].links) <= Alive(w.cells)
    ensures var r := Retire(w, h);
            && r.0 == Done
            && r.1.cells[h].kind == w.cells[h].kind.(returned := true)
            && r.1.cells[h].links == [] && r.1.cells[h].valueObservers == [] && r.1.cells[h].disabledObservers == []
            && HandlesUnbound(w.cells, r.1.cells, h)
            && forall n :: n in w.cells ==>
                 && r.1.cells[n].value == w.cells[n].value && r.1.cells[n].disabled == w.cells[n].disabled
                 && r.1.cells[n].lease == w.cells[n].lease
  {
    var k := w.cells[h].kind;
    RetireShape(w, h);
    var w5 := ClearObservers(SetKind(w, h, k.(returned := true)), h);
    assert w5.cells[h].links == w.cells[h].links && w5.cells[h].valueObservers == [] && w5.cells[h].disabledObservers == [];
    UnbindBindingsEffect(w5, h);
    var r := UnbindBindings(w5, h);
    FramesAgree(r.1.cells, w5.cells);
    Retired(w, w5, r.1, h);
    RetireUnbinds(w, h);
  }

  /** The retirement unbinds the holder from its peers. */
  lemma RetireUnbinds<T>(w: World<T>, h: CellId)
    requires Ready(w) && IsAlive(w, h) && h in ActiveHolders(w.cells)
    requires w.cells[h].lease.None? && Elems(w.cells[h].links) <= Alive(w.cells)
    ensures HandlesUnbound(w.cells, Retire(w, h).1.cells, h)
  {
    RetireShape(w, h);
    var w5 := ClearObservers(SetKind(w, h, w.cells[h].kind.(returned := true)), h);
    UnbindAfterMark(w.cells, w5, h);
  }

  /** Unbinding a cell whose kind and observers alone changed unbinds it measured from before that change. */
  lemma UnbindAfterMark<T>(c: Cells<T>, w5: World<T>, h: CellId)
    requires Ready(w5) && IsAlive(w5, h) && h in c
    requires w5.cells == c[h := c[h].(kind := w5.cells[h].kind, valueObservers := [], disabledObservers := [])]
    requires Alive(w5.cells) == Alive(c) && Elems(c[h].links) <= Alive(c)
    ensures HandlesUnbound(c, UnbindBindings(w5, h).1.cells, h)
  {
    UnbindBindingsEffect(w5, h);
    HandlesTransfer(c, w5.cells, UnbindBindings(w5, h).1.cells, h);
  }

  /** Without a lease of its own, the retiring holder goes straight to clearing its observers and unbinding. */
  lemma RetireShape<T>(w: World<T>, h: CellId)
    requires Ready(w) && IsAlive(w, h) && h in ActiveHolders(w.cells) && w.cells[h].lease.None?
    ensures var w5 := ClearObservers(SetKind(w, h, w.cells[h].kind.(returned := true)), h);
            && Ready(w5) && IsAlive(w5, h) && Alive(w5.cells) == Alive(w.cells)
            && w5.cells == w.cells[h := w.cells[h].(kind := w.cells[h].kind.(returned := true), valueObservers := [], disabledObservers := [])]
            && Retire(w, h) == UnbindBindings(w5, h)
  {
    var k := w.cells[h].kind;
    MarkReturned(w, w, h);
    var w4 := SetKind(w, h, k.(returned := true));
    PutTopo(w, h, w.cells[h].(kind := k.(returned := true)));
    assert BaseUnbindAll(w4, h) == ClearAndUnbind(w4, h);
    ClearedReady(w4, h);
    ClearedKind(w, h, k.(returned := true));
  }

  /** Clearing a cell's observers keeps the world ready and the cell alive. */
  lemma ClearedReady<T>(w: World<T>, h: CellId)
    requires Ready(w) && IsAlive(w, h)
    ensures Ready(ClearObservers(w, h)) && IsAlive(ClearObservers(w, h), h) && Alive(ClearObservers(w, h).cells) == Alive(w.cells)
  {
    var cell := w.cells[h].(valueObservers := [], disabledObservers := []);
    assert LeaseOk(w.cells, h) && SourceOk(w.cells, h);
    PutReady(w, h, cell);
    PutTopo(w, h, cell);
  }

  lemma ClearedKind<T>(w: World<T>, h: CellId, kind: Kind<T>)
    requires h in w.cells
    ensures ClearObservers(SetKind(w, h, kind), h).cells == w.cells[h := w.cells[h].(kind := kind, valueObservers := [], disabledObservers := [])]
  {
    var c4 := w.cells[h := w.cells[h].(kind := kind)];
    var c5 := c4[h := c4[h].(valueObservers := [], disabledObservers := [])];
    assert c5 == w.cells[h := w.cells[h].(kind := kind, valueObservers := [], disabledObservers := [])];
  }

  /** The facts of the three steps, put together. */
  lemma Retired<T>(w: World<T>, w5: World<T>, w6: World<T>, h: CellId)
    requires h in w.cells && w.cells[h].kind.Holder?
    requires w5.cells == w.cells[h := w.cells[h].(kind := w.cells[h].kind.(returned := true), valueObservers := [], disabledObservers := [])]
    requires w6.cells.Keys == w5.cells.Keys && w6.cells[h].links == []
    requires forall n :: n in w5.cells ==> w6.cells[n].value == w5.cells[n].value && w6.cells[n].disabled == w5.cells[n].disabled
    requires forall n :: n in w5.cells ==> w6.cells[n].kind == w5.cells[n].kind && w6.cells[n].lease == w5.cells[n].lease
    requires w6.cells[h].valueObservers == [] && w6.cells[h].disabledObservers == []
    ensures && w6.cells[h].kind == w.cells[h].kind.(returned := true)
            && w6.cells[h].links == [] && w6.cells[h].valueObservers == [] && w6.cells[h].disabledObservers == []
            && forall n :: n in w.cells ==>
                 && w6.cells[n].value == w.cells[n].value && w6.cells[n].disabled == w.cells[n].disabled
                 && w6.cells[n].lease == w.cells[n].lease
  {
  }

  /** The wave of a holder's disabled setter purges the dead handles from the holder's own list. */
  lemma HolderFlagPurges<T>(w: World<T>, h: CellId, d: bool)
    requires Ready(w) && IsAlive(w, h) && w.cells[h].kind.Holder? && !w.cells[h].kind.returned
    ensures Elems(AssignDisabled(w, h, d).1.cells[h].links) <= Alive(w.cells)
  {
    HolderDisabledRuns(w, h, d);
    SpreadUnguarded(w, h, SetDisabled(d));
    WaveCoversComponent(Topo(w.cells), h);
    LiveKeepsLiveEntries(w.cells[h].links, Alive(w.cells));
  }

  /**
   * The values and flags after a holder put back its snapshots over the
   * component `comp` it had in `c0`: the value snapshot when reverting and
   * the value differed (`v0` is the holder's value in `c0`), the flag
   * snapshot always; cells outside the component keep theirs.
   */
  ghost predicate RestoredAs<T>(c0: Cells<T>, c: Cells<T>, k: Kind<T>, v0: T, comp: set<CellId>)
    requires k.Holder?
  {
    forall n :: n in c0 ==>
      && n in c
      && c[n].value == (if k.revert && v0 != k.valueBefore && n in comp then k.valueBefore else c0[n].value)
      && c[n].disabled == (if n in comp then k.disabledBefore else c0[n].disabled)
  }

  /** Steps that keep every value and flag keep the restored state. */
  lemma RestoredCarries<T>(c0: Cells<T>, c: Cells<T>, c2: Cells<T>, k: Kind<T>, v0: T, comp: set<CellId>)
    requires k.Holder? && RestoredAs(c0, c, k, v0, comp)
    requires forall n :: n in c ==> n in c2 && c2[n].value == c[n].value && c2[n].disabled == c[n].disabled
    ensures RestoredAs(c0, c2, k, v0, comp)
  {
  }

  /**
   * The first half of a return: the holder's value setter puts back the
   * value snapshot when reverting (a value already equal changes nothing),
   * and its disabled setter puts back the flag snapshot over its whole
   * component. Both complete, since the holder is not yet returned. No
   * lease changes, and afterwards the holder has no dead handle.
   */
  lemma RestoreEffect<T>(w: World<T>, h: CellId)
    requires Ready(w) && IsAlive(w, h) && w.cells[h].kind.Holder? && !w.cells[h].kind.returned
    ensures var r := Restore(w, h);
            var k := w.cells[h].kind;
            var comp := Component(Topo(w.cells), h);
            && r.0 == Done
            && RestoredAs(w.cells, r.1.cells, k, w.cells[h].value, comp)
            && Elems(r.1.cells[h].links) <= Alive(w.cells)
  {
    var k := w.cells[h].kind;
    var (r1, w1) := if k.revert then AssignValue(w, h, k.valueBefore) else (Done, w);
    AssignValueEffect(w, h, k.valueBefore);
    FramesAgree(w1.cells, w.cells);
    assert w1.cells[h].kind == k;
    AssignDisabledHolderEffect(w1, h, k.disabledBefore);
    HolderFlagPurges(w1, h, k.disabledBefore);
    assert Restore(w, h) == (Done, AssignDisabled(w1, h, k.disabledBefore).1);
  }

  /**
   * `h.returnLease()` on a holder returned already answers `false`, and on
   * a holder that never got a source throws `ReturnWithoutSource`; neither
   * changes anything.
   */
  lemma ReturnLeaseRefused<T>(w: World<T>, h: CellId)
    requires Ready(w) && IsAlive(w, h) && w.cells[h].kind.Holder?
    ensures w.cells[h].kind.returned ==> ReturnLease(w, h) == (Ok(false), w)
    ensures !w.cells[h].kind.returned && w.cells[h].kind.source.None? ==>
              ReturnLease(w, h) == (Err(ReturnWithoutSource), w)
  {
  }

  /**
   * `h.returnLease()`, the first time, for a holder that holds no lease
   * itself: the value and the flag are put back as `RestoreEffect` says;
   * then the lease is ended on the source. When the source's lease is not
   * `h` the call throws there (`NoActiveLease` or `LeaseMismatch`), after
   * the restore. Otherwise the source's lease is cleared, the holder is
   * marked returned, its observers are cleared, it is unbound from its
   * peers as `HandlesUnbound` says, measured from the restored state (from
   * the state before the call when no list holds a dead handle, since the
   * restore's waves then change no list), and the call answers `true`. No
   * other lease changes.
   */
  lemma ReturnLeaseEffect<T>(w: World<T>, h: CellId)
    requires Ready(w) && IsAlive(w, h) && w.cells[h].kind.Holder? && !w.cells[h].kind.returned
    requires w.cells[h].kind.source.Some? && w.cells[h].lease.None?
    ensures var r := ReturnLease(w, h);
            var k := w.cells[h].kind;
            var src := k.source.value;
            && src in w.cells
            && (w.cells[src].lease.None? ==> r.0 == Err(NoActiveLease))
            && (w.cells[src].lease.Some? && w.cells[src].lease != Some(h) ==> r.0 == Err(LeaseMismatch))
            && (w.cells[src].lease == Some(h) ==>
                  && r.0 == Ok(true) && r.1.cells[src].lease.None?
                  && r.1.cells[h].kind == k.(returned := true) && r.1.cells[h].links == []
                  && r.1.cells[h].valueObservers == [] && r.1.cells[h].disabledObservers == []
                  && HandlesUnbound(Restore(w, h).1.cells, r.1.cells, h)
                  && (Clean(w.cells) ==> HandlesUnbound(w.cells, r.1.cells, h)))
            && (forall n :: n in w.cells && n != src ==> r.1.cells[n].lease == w.cells[n].lease)
            && RestoredAs(w.cells, r.1.cells, k, w.cells[h].value, Component(Topo(w.cells), h))
  {
    var k := w.cells[h].kind;
    var src := k.source.value;
    var comp := Component(Topo(w.cells), h);
    ReturnSteps(w, h);
    RestoreEffect(w, h);
    var w2 := Restore(w, h).1;
    var e := EndLease(w2, src, h);
    if e.0.Done? {
      LeaseEndedElsewhere(w2.cells, e.1.cells, src, h);
      RetireEffect(e.1, h);
      ReturnCombined(w.cells, w2.cells, e.1.cells, Retire(e.1, h).1.cells, h, src, k, comp);
      ReturnUnbinds(w, h);
      if Clean(w.cells) {
        ReturnUnbindsClean(w, h);
      }
    }
  }

  /** A first return that ends the lease unbinds the holder from its peers, measured from the restored state. */
  lemma ReturnUnbinds<T>(w: World<T>, h: CellId)
    requires Ready(w) && IsAlive(w, h) && w.cells[h].kind.Holder? && !w.cells[h].kind.returned
    requires w.cells[h].kind.source.Some? && w.cells[h].lease.None?
    requires w.cells[h].kind.source.value in w.cells && w.cells[w.cells[h].kind.source.value].lease == Some(h)
    ensures HandlesUnbound(Restore(w, h).1.cells, ReturnLease(w, h).1.cells, h)
  {
    var src := w.cells[h].kind.source.value;
    ReturnSteps(w, h);
    RestoreEffect(w, h);
    var w2 := Restore(w, h).1;
    var e := EndLease(w2, src, h);
    LeaseEndedElsewhere(w2.cells, e.1.cells, src, h);
    RetireEffect(e.1, h);
    RetireUnbinds(e.1, h);
    EndedKeepsLinks(w2.cells, e.1.cells, src);
    HandlesTransfer(w2.cells, e.1.cells, Retire(e.1, h).1.cells, h);
  }

  /** Ending a lease changes no list and no liveness. */
  lemma EndedKeepsLinks<T>(c2: Cells<T>, c3: Cells<T>, src: CellId)
    requires src in c2 && c3 == c2[src := c2[src].(lease := None)]
    ensures c3.Keys == c2.Keys && Alive(c3) == Alive(c2)
    ensures forall n :: n in c2 ==> c3[n].links == c2[n].links
  {
  }

  /** In an arena without dead handles, the same holds measured from the state before the call. */
  lemma ReturnUnbindsClean<T>(w: World<T>, h: CellId)
    requires Ready(w) && IsAlive(w, h) && w.cells[h].kind.Holder? && !w.cells[h].kind.returned
    requires w.cells[h].kind.source.Some? && w.cells[h].lease.None?
    requires w.cells[h].kind.source.value in w.cells && w.cells[w.cells[h].kind.source.value].lease == Some(h)
    requires Clean(w.cells)
    ensures HandlesUnbound(w.cells, ReturnLease(w, h).1.cells, h)
  {
    ReturnUnbinds(w, h);
    RestoreKeepsLinks(w, h);
    SameAlive(Restore(w, h).1.cells, w.cells);
    HandlesTransfer(w.cells, Restore(w, h).1.cells, ReturnLease(w, h).1.cells, h);
  }

  /** Without dead handles, the restore's waves purge nothing: every list of handles stays as it was. */
  lemma RestoreKeepsLinks<T>(w: World<T>, h: CellId)
    requires Ready(w) && IsAlive(w, h) && w.cells[h].kind.Holder? && Clean(w.cells)
    ensures SameLinks(w.cells, Restore(w, h).1.cells)
  {
    var k := w.cells[h].kind;
    if k.revert {
      var (r1, w1) := AssignValue(w, h, k.valueBefore);
      ValueKeepsLinks(w, h, k.valueBefore);
      if r1.Done? {
        assert Restore(w, h) == AssignDisabled(w1, h, k.disabledBefore);
        FlagKeepsLinks(w1, h, k.disabledBefore);
        SameLinksTrans(w.cells, w1.cells, Restore(w, h).1.cells);
      } else {
        assert Restore(w, h) == (r1, w1);
      }
    } else {
      FlagKeepsLinks(w, h, k.disabledBefore);
    }
  }

  lemma SameLinksTrans<T>(c: Cells<T>, c1: Cells<T>, c2: Cells<T>)
    requires SameLinks(c, c1) && SameLinks(c1, c2)
    ensures SameLinks(c, c2)
  {
  }

  /**
   * `endLease(h)` on `x`: it throws when `x` holds no lease or a lease other
   * than `h`, and changes nothing then; otherwise it clears `x`'s lease and
   * nothing else.
   */
  lemma EndLeaseEffect<T>(w: World<T>, x: CellId, h: CellId)
    requires Ready(w) && x in w.cells
    ensures var e := EndLease(w, x, h);
            && e.0 == (if w.cells[x].lease.None? then Fail(NoActiveLease) else if w.cells[x].lease != Some(h) then Fail(LeaseMismatch) else Done)
            && e.1.cells == (if e.0.Done? then w.cells[x := w.cells[x].(lease := None)] else w.cells)
            && e.1.log == w.log && e.1.next == w.next
  {
  }

  /** The three steps of a first return, as the holder's unbindAll runs them. */
  lemma ReturnSteps<T>(w: World<T>, h: CellId)
    requires Ready(w) && IsAlive(w, h) && w.cells[h].kind.Holder? && !w.cells[h].kind.returned
    requires w.cells[h].kind.source.Some? && w.cells[h].lease.None?
    ensures var src := w.cells[h].kind.source.value;
            var w2 := Restore(w, h).1;
            var e := EndLease(w2, src, h);
            && src in w.cells && w2.cells.Keys == w.cells.Keys
            && (forall n :: n in w.cells ==> w2.cells[n].lease == w.cells[n].lease && w2.cells[n].kind == w.cells[n].kind)
            && e.0 == (if w.cells[src].lease.None? then Fail(NoActiveLease) else if w.cells[src].lease != Some(h) then Fail(LeaseMismatch) else Done)
            && (e.0.Fail? ==> ReturnLease(w, h) == (Err(e.0.failure), w2))
            && (e.0.Done? ==>
                  && Ready(e.1) && IsAlive(e.1, h) && h in ActiveHolders(e.1.cells)
                  && Alive(e.1.cells) == Alive(w.cells)
                  && e.1.cells == w2.cells[src := w2.cells[src].(lease := None)]
                  && var rt := Retire(e.1, h);
                     ReturnLease(w, h) == (if rt.0.Done? then Ok(true) else Err(rt.0.failure), rt.1))
  {
    var src := w.cells[h].kind.source.value;
    RestoreEffect(w, h);
    var w2 := Restore(w, h).1;
    ReturnStepKept(w, w2, h);
    FramesAgree(w2.cells, w.cells);
    var e := EndLease(w2, src, h);
    EndLeaseEffect(w2, src, h);
    ActiveHoldersAgree(e.1.cells, w2.cells);
    assert HolderUnbindAll(w, h) == (if e.0.Fail? then e else Retire(e.1, h));
  }

  /** Ending a lease on `src` leaves another cell's handles and an absent lease as they were. */
  lemma LeaseEndedElsewhere<T>(c2: Cells<T>, c3: Cells<T>, src: CellId, h: CellId)
    requires src in c2 && h in c2 && c3 == c2[src := c2[src].(lease := None)] && c2[h].lease.None?
    ensures c3[h].lease.None? && c3[h].links == c2[h].links
  {
  }

  /** The facts of the restore, the end of the lease and the retirement, put together. */
  lemma ReturnCombined<T>(c: Cells<T>, c2: Cells<T>, c3: Cells<T>, c6: Cells<T>, h: CellId, src: CellId, k: Kind<T>, comp: set<CellId>)
    requires h in c && src in c && k == c[h].kind && k.Holder?
    requires c2.Keys == c.Keys && RestoredAs(c, c2, k, c[h].value, comp)
    requires forall n :: n in c ==> c2[n].lease == c[n].lease && c2[n].kind == c[n].kind
    requires c3 == c2[src := c2[src].(lease := None)] && c6.Keys == c.Keys
    requires && c6[h].kind == c3[h].kind.(returned := true)
             && c6[h].links == [] && c6[h].valueObservers == [] && c6[h].disabledObservers == []
             && forall n :: n in c3 ==>
                  && c6[n].value == c3[n].value && c6[n].disabled == c3[n].disabled
                  && c6[n].lease == c3[n].lease
    ensures && c6[src].lease.None?
            && c6[h].kind == k.(returned := true) && c6[h].links == []
            && c6[h].valueObservers == [] && c6[h].disabledObservers == []
            && (forall n :: n in c && n != src ==> c6[n].lease == c[n].lease)
            && RestoredAs(c, c6, k, c[h].value, comp)
  {
    RestoredCarries(c, c2, c3, k, c[h].value, comp);
    RestoredCarries(c, c3, c6, k, c[h].value, comp);
  }

  /**
   * A lease taken and returned at once: the holder's first return succeeds,
   * the source is unleased again, no value changes, and every cell of the
   * source's component takes the source's flag from before the lease;
   * other cells keep theirs. With several cells in one component holding
   * different flags, the return therefore does not give each its own flag
   * back.
   */
  lemma LeaseRoundTrip<T>(w: World<T>, x: CellId, revert: bool, unset: T)
    requires Ready(w) && IsAlive(w, x)
    ensures var b := BeginLease(w, x, revert, unset);
            b.0.Ok? ==>
              var h := b.0.value;
              && IsAlive(b.1, h) && b.1.cells[h].kind.Holder?
              && var r := ReturnLease(b.1, h);
                 && r.0 == Ok(true) && r.1.cells[h].kind.Holder? && r.1.cells[h].kind.returned
                 && (forall n :: n in w.cells ==> r.1.cells[n].lease == w.cells[n].lease && r.1.cells[n].value == w.cells[n].value)
                 && (forall n :: n in w.cells ==>
                       r.1.cells[n].disabled == if n in Component(Topo(w.cells), x) then w.cells[x].disabled else w.cells[n].disabled)
  {
    var b := BeginLease(w, x, revert, unset);
    BeginLeaseRefused(w, x, revert, unset);
    BeginLeaseGranted(w, x, revert, unset);
    if b.0.Ok? {
      var h := b.0.value;
      var comp := Component(Topo(w.cells), x);
      WaveCoversComponent(Topo(w.cells), x);
      assert w.cells[x].lease.None?;
      FreshComponent(Topo(w.cells), h, x);
      assert IsAlive(b.1, h);
      ReturnLeaseEffect(b.1, h);
      var k := b.1.cells[h].kind;
      RoundTripCombined(w.cells, b.1.cells, ReturnLease(b.1, h).1.cells, x, h, k, comp);
    }
  }

  /** The facts of taking the lease and of returning it, put together. */
  lemma RoundTripCombined<T>(c: Cells<T>, c1: Cells<T>, c2: Cells<T>, x: CellId, h: CellId, k: Kind<T>, comp: set<CellId>)
    requires x in c && h !in c && c1.Keys == c.Keys + {h} && c2.Keys == c1.Keys
    requires k.Holder? && k.revert ==> k.valueBefore == c[x].value
    requires k.Holder? && k.disabledBefore == c[x].disabled && c1[h].value == c[x].value
    requires RestoredAs(c1, c2, k, c1[h].value, comp + {h})
    requires c[x].lease.None? && c2[x].lease.None?
    requires forall n :: n in c1 && n != x ==> c2[n].lease == c1[n].lease
    requires forall n :: n in c ==> c1[n].value == c[n].value
    requires forall n :: n in c && n != x ==> c1[n].lease == c[n].lease
    requires forall n :: n in c ==> c1[n].disabled == if n in comp then true else c[n].disabled
    ensures forall n :: n in c ==> c2[n].lease == c[n].lease && c2[n].value == c[n].value
    ensures forall n :: n in c ==> c2[n].disabled == if n in comp then c[x].disabled else c[n].disabled
  {
  }

  /** The holder's restore only writes values and flags; it removes handles at most. */
  lemma RestoreFewer<T>(w: World<T>, h: CellId)
    requires Ready(w) && IsAlive(w, h) && w.cells[h].kind.Holder?
    ensures FewerLinks(Restore(w, h).1.cells, w.cells)
  {
    var k := w.cells[h].kind;
    var w1 := if k.revert then AssignValue(w, h, k.valueBefore).1 else w;
    FewerTrans(Restore(w, h).1.cells, w1.cells, w.cells);
  }

  /** A first return that succeeds removes handles at most, from any cell. */
  lemma ReturnLeaseFewer<T>(w: World<T>, h: CellId)
    requires Ready(w) && IsAlive(w, h) && w.cells[h].kind.Holder? && !w.cells[h].kind.returned
    requires w.cells[h].kind.source.Some? && w.cells[h].lease.None?
    requires w.cells[w.cells[h].kind.source.value].lease == Some(h)
    ensures FewerLinks(ReturnLease(w, h).1.cells, w.cells)
  {
    var w2, e1 := ReturnChain(w, h);
    RetireFewer(e1, h);
    FewerTrans(e1.cells, w2.cells, w.cells);
    FewerTrans(Retire(e1, h).1.cells, e1.cells, w.cells);
  }

  /**
   * The restore and the end of the lease of a first return whose lease is
   * the source's: each removes handles at most, and the return is then the
   * retirement of a live holder that holds no lease.
   */
  lemma ReturnChain<T>(w: World<T>, h: CellId) returns (w2: World<T>, e1: World<T>)
    requires Ready(w) && IsAlive(w, h) && w.cells[h].kind.Holder? && !w.cells[h].kind.returned
    requires w.cells[h].kind.source.Some? && w.cells[h].lease.None?
    requires w.cells[w.cells[h].kind.source.value].lease == Some(h)
    ensures FewerLinks(w2.cells, w.cells) && FewerLinks(e1.cells, w2.cells)
    ensures Ready(e1) && IsAlive(e1, h) && h in ActiveHolders(e1.cells) && e1.cells[h].lease.None?
    ensures ReturnLease(w, h).1 == Retire(e1, h).1
  {
    var src := w.cells[h].kind.source.value;
    ReturnSteps(w, h);
    RestoreFewer(w, h);
    w2 := Restore(w, h).1;
    var e := EndLease(w2, src, h);
    e1 := e.1;
    LeaseEndedElsewhere(w2.cells, e1.cells, src, h);
    LeaseEndedFewer(w2.cells, e1.cells, src);
  }

  /** Clearing a lease slot removes no handle. */
  lemma LeaseEndedFewer<T>(c2: Cells<T>, c3: Cells<T>, src: CellId)
    requires src in c2 && c3 == c2[src := c2[src].(lease := None)]
    ensures FewerLinks(c3, c2)
  {
  }

  /** Retiring a holder that holds no lease removes handles at most. */
  lemma RetireFewer<T>(w: World<T>, h: CellId)
    requires Ready(w) && IsAlive(w, h) && h in ActiveHolders(w.cells) && w.cells[h].lease.None?
    ensures FewerLinks(Retire(w, h).1.cells, w.cells)
  {
    RetireShape(w, h);
    var w5 := ClearObservers(SetKind(w, h, w.cells[h].kind.(returned := true)), h);
    UnbindBindingsFewer(w5, h);
    MarkedFewer(w.cells, w5.cells, h);
    FewerTrans(Retire(w, h).1.cells, w5.cells, w.cells);
  }

  /** `unbindBindings` removes handles at most. */
  lemma UnbindBindingsFewer<T>(w: World<T>, x: CellId)
    requires Ready(w) && x in w.cells
    ensures FewerLinks(UnbindBindings(w, x).1.cells, w.cells)
  {
    if w.cells[x].links != [] {
      UnbindEachFewer(w, x, w.cells[x].links);
    }
  }

  /** Marking a holder returned and clearing its observers removes no handle. */
  lemma MarkedFewer<T>(c: Cells<T>, c5: Cells<T>, h: CellId)
    requires h in c && c[h].kind.Holder?
    requires c5 == c[h := c[h].(kind := c[h].kind.(returned := true), valueObservers := [], disabledObservers := [])]
    ensures FewerLinks(c5, c)
  {
  }

  /**
   * `x.unbindAll()` on a live cell whose handles are all live, through the
   * base unbindAll. Without a lease it completes and `x` is unbound as
   * `AllUnbound` says. When `x` is leased to a holder of its own that
   * holds no lease itself, the lease is returned first: the holder's
   * component gets its snapshots back as `RestoredAs` says, `x` is no
   * longer leased, and then the call completes and `x` is unbound from the
   * state the return left.
   */
  lemma BaseUnbindAllEffect<T>(w: World<T>, x: CellId)
    requires Ready(w) && IsAlive(w, x) && Elems(w.cells[x].links) <= Alive(w.cells)
    ensures var r := BaseUnbindAll(w, x);
            w.cells[x].lease.None? ==> r.0 == Done && AllUnbound(w.cells, r.1.cells, x)
    ensures var r := BaseUnbindAll(w, x);
            var l := w.cells[x].lease;
            l.Some? && IsAlive(w, l.value) && w.cells[l.value].kind.Holder?
            && !w.cells[l.value].kind.returned && w.cells[l.value].kind.source == Some(x)
            && w.cells[l.value].lease.None? ==>
              var h := l.value;
              var k := w.cells[h].kind;
              var ret := ReturnLease(w, h);
              && ret.0 == Ok(true) && ret.1.cells[x].lease.None?
              && RestoredAs(w.cells, ret.1.cells, k, w.cells[h].value, Component(Topo(w.cells), h))
              && r.0 == Done && AllUnbound(ret.1.cells, r.1.cells, x)
  {
    var l := w.cells[x].lease;
    if l.None? {
      ClearAndUnbindEffect(w, x);
      assert BaseUnbindAll(w, x) == ClearAndUnbind(w, x);
    } else if IsAlive(w, l.value) && w.cells[l.value].kind.Holder?
              && !w.cells[l.value].kind.returned && w.cells[l.value].kind.source == Some(x)
              && w.cells[l.value].lease.None? {
      LeasedUnbindAll(w, x, l.value);
    }
  }

  /** The leased case of the base unbindAll: the return, then the unbinding from the state it left. */
  lemma LeasedUnbindAll<T>(w: World<T>, x: CellId, h: CellId)
    requires Ready(w) && IsAlive(w, x) && Elems(w.cells[x].links) <= Alive(w.cells)
    requires w.cells[x].lease == Some(h) && IsAlive(w, h) && w.cells[h].kind.Holder?
    requires !w.cells[h].kind.returned && w.cells[h].kind.source == Some(x) && w.cells[h].lease.None?
    ensures var ret := ReturnLease(w, h);
            && ret.0 == Ok(true) && ret.1.cells[x].lease.None?
            && RestoredAs(w.cells, ret.1.cells, w.cells[h].kind, w.cells[h].value, Component(Topo(w.cells), h))
            && var r := BaseUnbindAll(w, x);
               r.0 == Done && AllUnbound(ret.1.cells, r.1.cells, x)
  {
    ReturnLeaseEffect(w, h);
    ReturnLeaseFewer(w, h);
    var w1 := ReturnLease(w, h).1;
    LeaseReturnedAlive(w, w1, x);
    ClearAndUnbindEffect(w1, x);
    assert BaseUnbindAll(w, x) == ClearAndUnbind(w1, x);
  }

  /** A step that keeps the world and removes handles at most keeps a live cell with live handles so. */
  lemma LeaseReturnedAlive<T>(w: World<T>, w1: World<T>, x: CellId)
    requires IsAlive(w, x) && Elems(w.cells[x].links) <= Alive(w.cells)
    requires Kept(w, w1) && FewerLinks(w1.cells, w.cells)
    ensures IsAlive(w1, x) && Elems(w1.cells[x].links) <= Alive(w1.cells)
  {
    assert x in Alive(w.cells);
  }
}
