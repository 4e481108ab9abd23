/**
 * Properties of unbinding in `BindableSpec`: `unbindFrom` undoes `bindTo`,
 * and `unbindBindings` empties a cell's list of handles or throws on a
 * dead one.
 */
module UnbindProps {
  import opened Base
  import opened Waves
  import opened LinkList
  import opened Arena
  import opened BindableSpec
  import opened BindableProps
  import opened LeaseProps

  /** `c2` has the cells of `c`, each with the same list of handles. */
  ghost predicate SameLinks<T>(c: Cells<T>, c2: Cells<T>)
  {
    c2.Keys == c.Keys && forall n :: n in c ==> c2[n].links == c[n].links
  }

  /** Every wave writes a set of live cells, and nothing else. */
  lemma SpreadOver<T>(w: World<T>, x: CellId, sig: Signal<T>, guarded: bool)
    requires Ready(w) && IsAlive(w, x)
    ensures exists s :: s <= Alive(w.cells) && Spread(w, x, sig, guarded).1.cells == WriteAll(w.cells, s, sig)
  {
    var t := Topo(w.cells);
    if guarded && w.cells[x].lease.Some? {
      assert x in Blocked(w.cells, true);
      assert WriteAll(w.cells, {}, sig) == w.cells;
    } else {
      SpreadUnguarded(w, x, sig);
      assert Component(t, x) <= Alive(w.cells);
      if guarded {
        GuardedRuns(w, x, sig);
        GuardedStops(w, x, sig);
      }
    }
  }

  /** In an arena without dead handles, a wave over live cells purges nothing: every list of handles stays as it was. */
  lemma CleanWriteAll<T>(c: Cells<T>, s: set<CellId>, sig: Signal<T>)
    requires Clean(c) && s <= Alive(c)
    ensures forall n :: n in c ==> WriteAll(c, s, sig)[n].links == c[n].links
    ensures Clean(WriteAll(c, s, sig))
  {
    var c2 := WriteAll(c, s, sig);
    forall n | n in s
      ensures c2[n].links == c[n].links
    {
      LiveAllAlive(c[n].links, Alive(c));
    }
    WriteAllFrames(c, s, sig);
  }

  /** So the public value setter keeps every list of handles, and keeps the arena free of dead handles. */
  lemma ValueKeepsLinks<T>(w: World<T>, x: CellId, v: T)
    requires Ready(w) && IsAlive(w, x) && Clean(w.cells)
    ensures var c2 := AssignValue(w, x, v).1.cells;
            Clean(c2) && SameLinks(w.cells, c2)
  {
    var cell := w.cells[x];
    if !(cell.kind.Plain? && cell.disabled) && !(cell.kind.Holder? && cell.kind.returned) && v != cell.value {
      var sig := SetValue(cell.value, v);
      AssignValueRuns(w, x, v);
      SpreadOver(w, x, sig, false);
      var s :| s <= Alive(w.cells) && Spread(w, x, sig, false).1.cells == WriteAll(w.cells, s, sig);
      CleanWriteAll(w.cells, s, sig);
    }
  }

  /** And so does the public disabled setter. */
  lemma FlagKeepsLinks<T>(w: World<T>, x: CellId, d: bool)
    requires Ready(w) && IsAlive(w, x) && Clean(w.cells)
    ensures var c2 := AssignDisabled(w, x, d).1.cells;
            Clean(c2) && SameLinks(w.cells, c2)
  {
    var cell := w.cells[x];
    var sig: Signal<T> := SetDisabled(d);
    if cell.kind.Holder? && !cell.kind.returned {
      HolderDisabledRuns(w, x, d);
      SpreadOver(w, x, sig, false);
      var s :| s <= Alive(w.cells) && Spread(w, x, sig, false).1.cells == WriteAll(w.cells, s, sig);
      CleanWriteAll(w.cells, s, sig);
    } else if cell.kind.Plain? && cell.lease.None? && d != cell.disabled {
      PlainDisabledRuns(w, x, d);
      SpreadOver(w, x, sig, true);
      var s :| s <= Alive(w.cells) && Spread(w, x, sig, true).1.cells == WriteAll(w.cells, s, sig);
      CleanWriteAll(w.cells, s, sig);
    }
  }

  /**
   * `a.bindTo(b)` in an arena without dead handles, when it completes:
   * `a`'s list gains `b` at its end, `b`'s list gains `a` at its end, and
   * every other list stays as it was.
   */
  lemma BindLinks<T>(w: World<T>, a: CellId, b: CellId)
    requires Ready(w) && IsAlive(w, a) && IsAlive(w, b) && Clean(w.cells)
    requires b !in Topo(w.cells)[a] && Forest(AddLink(Topo(w.cells), a, b))
    ensures a != b
    ensures var r := BindTo(w, a, b);
            r.0.Done? ==> forall n :: n in w.cells ==>
              r.1.cells[n].links == if n == a then w.cells[a].links + [b] else if n == b then w.cells[b].links + [a] else w.cells[n].links
  {
    LinkedApart(Topo(w.cells), a, b);
    BindToShape(w, a, b);
    var r1 := AssignValue(w, a, w.cells[b].value);
    ValueKeepsLinks(w, a, w.cells[b].value);
    var r2 := AssignDisabled(r1.1, a, r1.1.cells[b].disabled);
    FlagKeepsLinks(r1.1, a, r1.1.cells[b].disabled);
    if r1.0.Done? && r2.0.Done? {
      LinkLists(w, r1.1, r2.1, a, b);
    }
  }

  /** The link step appends to the two lists and to no other. */
  lemma LinkLists<T>(w: World<T>, w1: World<T>, w2: World<T>, a: CellId, b: CellId)
    requires a != b && a in w.cells && b in w.cells && SameLinks(w.cells, w1.cells) && SameLinks(w1.cells, w2.cells)
    ensures forall n :: n in w.cells ==>
              Link(w2, a, b).cells[n].links == if n == a then w.cells[a].links + [b] else if n == b then w.cells[b].links + [a] else w.cells[n].links
  {
  }

  /**
   * `a.unbindFrom(b)` undoes `a.bindTo(b)`: in an arena without dead
   * handles, where neither list held the other, binding and then unbinding
   * the two gives every list of handles, and so the live link graph, back.
   * The values and flags the bind copied stay.
   */
  lemma UnbindUndoesBind<T>(w: World<T>, a: CellId, b: CellId)
    requires Ready(w) && IsAlive(w, a) && IsAlive(w, b) && Clean(w.cells)
    requires b !in w.cells[a].links && a !in w.cells[b].links && Forest(AddLink(Topo(w.cells), a, b))
    ensures b !in Topo(w.cells)[a]
    ensures var r := BindTo(w, a, b);
            r.0.Done? ==>
              var u := UnbindFrom(r.1, a, Some(b));
              && u.0 == Done
              && (forall n :: n in w.cells ==> u.1.cells[n].links == w.cells[n].links)
              && Topo(u.1.cells) == Topo(w.cells)
              && (forall n :: n in w.cells ==> u.1.cells[n].value == r.1.cells[n].value && u.1.cells[n].disabled == r.1.cells[n].disabled)
  {
    LiveKeepsLiveEntries(w.cells[a].links, Alive(w.cells));
    var r := BindTo(w, a, b);
    if r.0.Done? {
      BindLinks(w, a, b);
      UnlinkRestores(w, r.1, a, b);
      UnbindFromSome(r.1, a, b);
      var u := Unlink(r.1, a, b);
      UnlinkShrinks(r.1, a, b);
      FramesAgree(u.cells, w.cells);
      SameLinksSameTopo(w.cells, u.cells);
    }
  }

  /** `unbindFrom` with a live argument is the removal of the two handles. */
  lemma UnbindFromSome<T>(w: World<T>, x: CellId, e: CellId)
    requires Ready(w) && IsAlive(w, x) && IsAlive(w, e)
    ensures UnbindFrom(w, x, Some(e)) == (Done, Unlink(w, x, e))
  {
  }

  /** `unbindFrom` a live cell that holds no handle to `x`, nor `x` to it, changes nothing. */
  lemma UnbindFromAbsent<T>(w: World<T>, x: CellId, e: CellId)
    requires Ready(w) && IsAlive(w, x) && IsAlive(w, e)
    requires e !in w.cells[x].links && x !in w.cells[e].links
    ensures UnbindFrom(w, x, Some(e)) == (Done, w)
  {
    RemoveAbsent(w.cells[x].links, e);
    RemoveAbsent(w.cells[e].links, x);
    var c1 := w.cells[x := w.cells[x].(links := RemoveFirst(w.cells[x].links, e))];
    assert c1 == w.cells;
    assert Unlink(w, x, e).cells == w.cells;
  }

  /** Removing the two appended handles gives every list back. */
  lemma UnlinkRestores<T>(w: World<T>, w2: World<T>, a: CellId, b: CellId)
    requires a != b && a in w.cells && b in w.cells && w2.cells.Keys == w.cells.Keys
    requires b !in w.cells[a].links && a !in w.cells[b].links
    requires forall n :: n in w.cells ==>
               w2.cells[n].links == if n == a then w.cells[a].links + [b] else if n == b then w.cells[b].links + [a] else w.cells[n].links
    ensures SameLinks(w.cells, Unlink(w2, a, b).cells)
    ensures forall n :: n in w.cells ==> Unlink(w2, a, b).cells[n].value == w2.cells[n].value && Unlink(w2, a, b).cells[n].disabled == w2.cells[n].disabled
  {
    RemoveAppended(w.cells[a].links, b);
    RemoveAppended(w.cells[b].links, a);
  }

  /** The loop of `unbindBindings` completes exactly when every handle of the snapshot is live. */
  lemma {:induction false} UnbindEachOutcome<T>(w: World<T>, x: CellId, es: seq<CellId>)
    requires Ready(w) && x in w.cells
    ensures UnbindEach(w, x, es).0 == if Elems(es) <= Alive(w.cells) then Done else Fail(NullUnbind)
    decreases |es|
  {
    if es == [] {
    } else if es[0] !in Alive(w.cells) {
      assert es[0] in Elems(es);
    } else {
      UnbindEachStep(w, x, es);
      var w1 := Unlink(w, x, es[0]);
      UnbindEachOutcome(w1, x, es[1..]);
      ElemsCons(es);
    }
  }

  /** The loop changes no value and no flag. */
  lemma {:induction false} UnbindEachFields<T>(w: World<T>, x: CellId, es: seq<CellId>)
    requires Ready(w) && x in w.cells
    ensures var r := UnbindEach(w, x, es);
            forall n :: n in w.cells ==> r.1.cells[n].value == w.cells[n].value && r.1.cells[n].disabled == w.cells[n].disabled
    decreases |es|
  {
    if es != [] && es[0] in Alive(w.cells) {
      UnbindEachStep(w, x, es);
      var w1 := Unlink(w, x, es[0]);
      UnbindEachFields(w1, x, es[1..]);
      UnlinkFields(w, x, es[0]);
    }
  }

  /** One turn of the loop: the handle is live, so the two handles go and the loop goes on. */
  lemma UnbindEachStep<T>(w: World<T>, x: CellId, es: seq<CellId>)
    requires Ready(w) && x in w.cells && es != [] && es[0] in Alive(w.cells)
    ensures es[0] in w.cells && Kept(w, Unlink(w, x, es[0]))
    ensures UnbindEach(w, x, es) == UnbindEach(Unlink(w, x, es[0]), x, es[1..])
  {
    UnlinkReady(w, x, es[0]);
  }

  /** Removing handles changes no value and no flag. */
  lemma UnlinkFields<T>(w: World<T>, x: CellId, e: CellId)
    requires x in w.cells && e in w.cells
    ensures forall n :: n in w.cells ==>
              Unlink(w, x, e).cells[n].value == w.cells[n].value && Unlink(w, x, e).cells[n].disabled == w.cells[n].disabled
  {
  }

  /**
   * Run over a live cell's own list whose handles are all live, the loop
   * empties that list.
   */
  lemma {:induction false} UnbindEachDrains<T>(w: World<T>, x: CellId, es: seq<CellId>)
    requires Ready(w) && IsAlive(w, x) && w.cells[x].links == es
    requires Elems(es) <= Alive(w.cells)
    ensures UnbindEach(w, x, es).1.cells[x].links == []
    decreases |es|
  {
    if es != [] {
      var e := es[0];
      LiveKeepsLiveEntries(es, Alive(w.cells));
      assert e in Topo(w.cells)[x];
      UnlinkReady(w, x, e);
      var w1 := Unlink(w, x, e);
      assert w1.cells[x].links == es[1..];
      UnbindEachDrains(w1, x, es[1..]);
    }
  }

  /**
   * `x.unbindBindings()` on a live cell: it completes exactly when every
   * handle in its list is live, and then the list is empty; a dead handle
   * makes it throw `NullUnbind`. No value and no flag changes.
   */
  lemma UnbindBindingsEffect<T>(w: World<T>, x: CellId)
    requires Ready(w) && IsAlive(w, x)
    ensures var r := UnbindBindings(w, x);
            && (r.0 == Done <==> Elems(w.cells[x].links) <= Alive(w.cells))
            && (r.0.Fail? ==> r.0 == Fail(NullUnbind))
            && (r.0 == Done ==> r.1.cells[x].links == [])
            && (forall n :: n in w.cells ==> r.1.cells[n].value == w.cells[n].value && r.1.cells[n].disabled == w.cells[n].disabled)
            && (r.0 == Done ==> BindingsUnbound(w.cells, r.1.cells, x))
  {
    var es := w.cells[x].links;
    if es == [] {
      assert forall p :: Count(es, p) == 0;
    } else {
      UnbindEachOutcome(w, x, es);
      UnbindEachFields(w, x, es);
      if UnbindEach(w, x, es).0 == Done {
        UnbindEachDrains(w, x, es);
        LiveKeepsLiveEntries(es, Alive(w.cells));
        assert x !in es by {
          assert forall e :: e in es ==> e in Topo(w.cells)[x];
        }
        UnbindEachPeers(w, x, es);
      }
    }
  }

  /** `x.unbindFrom(e)` for a peer `e`: `e` loses one handle to `x` if it has one; no other cell but `x` changes its list. */
  lemma UnlinkOwn<T>(w: World<T>, x: CellId, e: CellId)
    requires e in w.cells && x in w.cells && e != x
    ensures PeersUnbound(w.cells, Unlink(w, x, e).cells, x, [e])
  {
    DropOne(w.cells, Unlink(w, x, e).cells, x, e);
  }

  /** The loop of `unbindBindings` over live handles removes, from each cell, one handle to `x` per occurrence in the snapshot. */
  lemma {:induction false} UnbindEachPeers<T>(w: World<T>, x: CellId, es: seq<CellId>)
    requires Ready(w) && x in w.cells && Elems(es) <= Alive(w.cells) && x !in es
    ensures PeersUnbound(w.cells, UnbindEach(w, x, es).1.cells, x, es)
    decreases |es|
  {
    if es == [] {
      assert forall p :: Count(es, p) == 0;
    } else {
      var e := es[0];
      ElemsCons(es);
      UnbindEachStep(w, x, es);
      UnlinkOwn(w, x, e);
      UnbindEachPeers(Unlink(w, x, e), x, es[1..]);
      PeersUnboundCons(w.cells, Unlink(w, x, e).cells, UnbindEach(w, x, es).1.cells, x, es);
    }
  }

  /**
   * `unbindEvents` then `unbindBindings` on a live cell whose handles are
   * all live: it completes, and `x` is unbound as `AllUnbound` says.
   */
  lemma ClearAndUnbindEffect<T>(w: World<T>, x: CellId)
    requires Ready(w) && IsAlive(w, x) && Elems(w.cells[x].links) <= Alive(w.cells)
    ensures var r := ClearAndUnbind(w, x);
            r.0 == Done && AllUnbound(w.cells, r.1.cells, x)
  {
    var cell := w.cells[x].(valueObservers := [], disabledObservers := []);
    PutReady(w, x, cell);
    PutTopo(w, x, cell);
    var w0 := ClearObservers(w, x);
    assert Alive(w0.cells) == Alive(w.cells);
    UnbindBindingsEffect(w0, x);
    AllCompose(w.cells, w0.cells, ClearAndUnbind(w, x).1.cells, x);
  }

  /** The loop of `unbindBindings` only removes handles. */
  lemma {:induction false} UnbindEachFewer<T>(w: World<T>, x: CellId, es: seq<CellId>)
    requires Ready(w) && x in w.cells
    ensures FewerLinks(UnbindEach(w, x, es).1.cells, w.cells)
    decreases |es|
  {
    if es != [] && es[0] in Alive(w.cells) {
      UnbindEachStep(w, x, es);
      UnlinkShrinks(w, x, es[0]);
      UnbindEachFewer(Unlink(w, x, es[0]), x, es[1..]);
      FewerTrans(UnbindEach(w, x, es).1.cells, Unlink(w, x, es[0]).cells, w.cells);
    }
  }

  lemma FewerTrans<T>(c3: Cells<T>, c2: Cells<T>, c: Cells<T>)
    requires FewerLinks(c3, c2) && FewerLinks(c2, c)
    ensures FewerLinks(c3, c)
  {
  }

  // ---------------------------------------------------------------------------
  // What unbinding does to the peers

  /** How often `x` occurs in a list. */
  function Count(l: seq<CellId>, x: CellId): nat
  {
    multiset(l)[x]
  }

  /** Removing the first handle to `x` removes one handle to `x`, if there is one, and nothing else. */
  lemma RemoveCounts(l: seq<CellId>, x: CellId)
    ensures Count(RemoveFirst(l, x), x) == Drop(Count(l, x), 1)
    ensures OthersKept(RemoveFirst(l, x), l, x)
  {
    if x in l {
      RemoveFirstCount(l, x);
    } else {
      RemoveAbsent(l, x);
    }
  }

  /** `a - b`, or zero when `b` is larger. */
  function Drop(a: nat, b: nat): nat
  {
    if a >= b then a - b else 0
  }

  /** The two lists hold the same handles, counted with repeats, apart from those to `x`. */
  ghost predicate OthersKept(l2: seq<CellId>, l: seq<CellId>, x: CellId)
  {
    multiset(l2)[x := 0] == multiset(l)[x := 0]
  }

  /**
   * From `c` to `c2`, each cell `p` lost one handle to `x` for each time it
   * occurs in `ps`, as long as it had one, and no handle to any other cell;
   * cells not in `ps` kept their lists; no value, flag or observer changed.
   */
  ghost predicate PeersUnbound<T>(c: Cells<T>, c2: Cells<T>, x: CellId, ps: seq<CellId>)
  {
    && c2.Keys == c.Keys
    && forall p :: p in c ==>
         && c2[p].value == c[p].value && c2[p].disabled == c[p].disabled
         && c2[p].valueObservers == c[p].valueObservers && c2[p].disabledObservers == c[p].disabledObservers
         && (p != x ==> Count(c2[p].links, x) == Drop(Count(c[p].links, x), Count(ps, p)))
         && (p != x ==> OthersKept(c2[p].links, c[p].links, x))
         && (p != x && p !in ps ==> c2[p].links == c[p].links)
  }

  /** `p.unbindFrom(x)` for a peer `p`: `p` loses one handle to `x` if it has one; no other cell but `x` changes its list. */
  lemma UnlinkPeer<T>(w: World<T>, e: CellId, x: CellId)
    requires e in w.cells && x in w.cells && e != x
    ensures PeersUnbound(w.cells, Unlink(w, e, x).cells, x, [e])
  {
    DropOne(w.cells, Unlink(w, e, x).cells, x, e);
  }

  /** Only the lists of `e` and `x` change, and `e` drops its first handle to `x`. */
  lemma DropOne<T>(c: Cells<T>, c2: Cells<T>, x: CellId, e: CellId)
    requires x in c && e in c && e != x && c2.Keys == c.Keys
    requires c2[e] == c[e].(links := RemoveFirst(c[e].links, x))
    requires c2[x] == c[x].(links := c2[x].links)
    requires forall n :: n in c && n != x && n != e ==> c2[n] == c[n]
    ensures PeersUnbound(c, c2, x, [e])
  {
    assert multiset([e]) == multiset{e};
    forall p | p in c
      ensures c2[p].value == c[p].value && c2[p].disabled == c[p].disabled
      ensures c2[p].valueObservers == c[p].valueObservers && c2[p].disabledObservers == c[p].disabledObservers
      ensures p != x ==> Count(c2[p].links, x) == Drop(Count(c[p].links, x), Count([e], p))
      ensures p != x ==> OthersKept(c2[p].links, c[p].links, x)
      ensures p != x && p !in [e] ==> c2[p].links == c[p].links
    {
      if p == e {
        RemoveCounts(c[e].links, x);
      } else if p != x {
        assert c2[p] == c[p];
      }
    }
  }

  /** Unbinding the head of a snapshot and then its tail unbinds the whole snapshot. */
  lemma PeersUnboundCons<T>(c: Cells<T>, c1: Cells<T>, c2: Cells<T>, x: CellId, ps: seq<CellId>)
    requires ps != [] && PeersUnbound(c, c1, x, [ps[0]]) && PeersUnbound(c1, c2, x, ps[1..])
    ensures PeersUnbound(c, c2, x, ps)
  {
    CountCons(ps);
    assert forall p :: Count([ps[0]], p) == if p == ps[0] then 1 else 0;
  }

  /** The occurrences in a non-empty list are those of its head and those in its tail. */
  lemma CountCons(ps: seq<CellId>)
    requires ps != []
    ensures forall p :: Count(ps, p) == (if p == ps[0] then 1 else 0) + Count(ps[1..], p)
  {
    assert ps == [ps[0]] + ps[1..];
  }

  /**
   * From `c` to `c2`, the handle lists changed as unbinding `x` from its
   * peers changes them: the list of `x` was emptied; every live cell lost
   * one handle to `x` for each handle `x` held to it, while it had one, and
   * no handle to any other cell; a dead cell, and a cell `x` held no handle
   * to, kept its list.
   */
  ghost predicate HandlesUnbound<T>(c: Cells<T>, c2: Cells<T>, x: CellId)
  {
    && c2.Keys == c.Keys && x in c2 && c2[x].links == []
    && forall p :: p in c && p != x ==>
         && (p in Alive(c) && x in c ==>
               Count(c2[p].links, x) == Drop(Count(c[p].links, x), Count(c[x].links, p)))
         && OthersKept(c2[p].links, c[p].links, x)
         && (p !in Alive(c) || (x in c && p !in c[x].links) ==> c2[p].links == c[p].links)
  }

  /** `HandlesUnbound`, and no value, flag or observer changed. */
  ghost predicate BindingsUnbound<T>(c: Cells<T>, c2: Cells<T>, x: CellId)
  {
    && HandlesUnbound(c, c2, x)
    && forall p :: p in c ==>
         && c2[p].value == c[p].value && c2[p].disabled == c[p].disabled
         && c2[p].valueObservers == c[p].valueObservers && c2[p].disabledObservers == c[p].disabledObservers
  }

  /** Unbinding measured from a state with the same keys, lists and live cells. */
  lemma HandlesTransfer<T>(c: Cells<T>, c1: Cells<T>, c2: Cells<T>, x: CellId)
    requires c1.Keys == c.Keys && Alive(c1) == Alive(c)
    requires forall n :: n in c ==> c1[n].links == c[n].links
    requires HandlesUnbound(c1, c2, x)
    ensures HandlesUnbound(c, c2, x)
  {
  }

  /**
   * From `c` to `c2`, as `x.unbindAll()` does: the handle lists changed as
   * `HandlesUnbound` says, and both observer channels of `x` are empty, so
   * it has no live peer; a cell that held `x` no more often than `x` held it
   * no longer has `x` as a peer; no value or flag changes, and no other
   * cell's observers change.
   */
  ghost predicate AllUnbound<T>(c: Cells<T>, c2: Cells<T>, x: CellId)
  {
    && HandlesUnbound(c, c2, x)
    && c2[x].valueObservers == [] && c2[x].disabledObservers == []
    && (x in Alive(c2) ==> x in Topo(c2) && Topo(c2)[x] == [])
    && forall p :: p in c ==>
         && c2[p].value == c[p].value && c2[p].disabled == c[p].disabled
         && (p != x ==> c2[p].valueObservers == c[p].valueObservers && c2[p].disabledObservers == c[p].disabledObservers)
         && (p != x && p in Alive(c) && x in c && Count(c[p].links, x) <= Count(c[x].links, p) ==>
               p in Topo(c2) && x !in Topo(c2)[p])
  }

  /** Clearing the observers of `x` and then unbinding its bindings unbinds it entirely. */
  lemma AllCompose<T>(c: Cells<T>, c0: Cells<T>, c2: Cells<T>, x: CellId)
    requires x in c && c0 == c[x := c[x].(valueObservers := [], disabledObservers := [])]
    requires BindingsUnbound(c0, c2, x) && Frames(c2) == Frames(c0)
    ensures AllUnbound(c, c2, x)
  {
    SameAlive(c2, c0);
    assert Alive(c0) == Alive(c);
    HandlesTransfer(c, c0, c2, x);
    NoLongerPeer(c, c2, x);
    ClearedFields(c, c0, c2, x);
  }

  /** Unbinding after clearing the observers of `x` leaves every value, flag and other observer list as it was. */
  lemma ClearedFields<T>(c: Cells<T>, c0: Cells<T>, c2: Cells<T>, x: CellId)
    requires x in c && c0 == c[x := c[x].(valueObservers := [], disabledObservers := [])]
    requires BindingsUnbound(c0, c2, x)
    ensures c2[x].valueObservers == [] && c2[x].disabledObservers == []
    ensures forall p :: p in c ==>
              && c2[p].value == c[p].value && c2[p].disabled == c[p].disabled
              && (p != x ==> c2[p].valueObservers == c[p].valueObservers && c2[p].disabledObservers == c[p].disabledObservers)
  {
  }

  lemma SameAlive<T>(c2: Cells<T>, c: Cells<T>)
    requires Frames(c2) == Frames(c)
    ensures Alive(c2) == Alive(c)
  {
    FramesAgree(c2, c);
  }

  /** After unbinding, a live cell that held `x` no more often than `x` held it has no live handle to `x`. */
  lemma NoLongerPeer<T>(c: Cells<T>, c2: Cells<T>, x: CellId)
    requires HandlesUnbound(c, c2, x) && Alive(c2) == Alive(c)
    ensures x in Alive(c2) ==> x in Topo(c2) && Topo(c2)[x] == []
    ensures forall p :: p in c && p != x && p in Alive(c) && x in c && Count(c[p].links, x) <= Count(c[x].links, p) ==>
              p in Topo(c2) && x !in Topo(c2)[p]
  {
    forall p | p in c && p != x && p in Alive(c) && x in c && Count(c[p].links, x) <= Count(c[x].links, p)
      ensures p in Topo(c2) && x !in Topo(c2)[p]
    {
      assert x !in multiset(c2[p].links);
      LiveKeepsLiveEntries(c2[p].links, Alive(c2));
    }
  }

}
