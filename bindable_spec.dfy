/**
 * What each operation of the current library's `BindableImpl` and
 * `LeasedBindableImpl` does to the whole arena, as spec functions over a
 * `World` (cells, the log of observer calls, the next fresh id).
 *
 * Each function follows the source's control flow: the same guards in the
 * same order, the same early returns, and an exception becomes a `Fail` or
 * `Err` outcome returned together with whatever state was reached when it
 * was thrown. The methods of `BindableGraph.Graph` are proved to compute
 * exactly these functions; the properties are proved about the functions in
 * `BindableProps`.
 */
module BindableSpec {
  import opened Base
  import opened Waves
  import opened LinkList
  import opened Observers
  import opened Arena

  datatype World<T> = World(cells: Cells<T>, log: seq<Notice<T>>, next: CellId)

  /** A lease slot points at a live holder. */
  ghost predicate LeaseOk<T>(c: Cells<T>, n: CellId)
    requires n in c
  {
    c[n].lease.Some? ==> c[n].lease.value in c && c[c[n].lease.value].alive && c[c[n].lease.value].kind.Holder?
  }

  /** A holder's source, once set, is a live cell. */
  ghost predicate SourceOk<T>(c: Cells<T>, n: CellId)
    requires n in c
  {
    c[n].kind.Holder? && c[n].kind.source.Some? ==> c[n].kind.source.value in c && c[c[n].kind.source.value].alive
  }

  /**
   * What the object graph guarantees by construction: every id in use is
   * below `next`, every handle names a cell that was allocated, and the
   * strong references (lease slot to holder, holder to source) keep their
   * targets alive.
   */
  ghost predicate Sound<T>(w: World<T>)
  {
    && (forall n :: n in w.cells ==> n < w.next)
    && (forall n, e :: n in w.cells && e in w.cells[n].links ==> e in w.cells)
    && (forall n :: n in w.cells ==> LeaseOk(w.cells, n))
    && (forall n :: n in w.cells ==> SourceOk(w.cells, n))
  }

  /** A sound world whose live link graph is a forest: the precondition of every propagation. */
  ghost predicate Ready<T>(w: World<T>)
  {
    Sound(w) && Forest(Topo(w.cells))
  }

  /** `x` is a live cell: a node of the live link graph. */
  ghost predicate IsAlive<T>(w: World<T>, x: CellId)
  {
    x in Topo(w.cells)
  }

  function Blocked<T>(c: Cells<T>, guarded: bool): set<CellId>
  {
    if guarded then Leased(c) else {}
  }

  /** Purging dead handles and writing fields keeps a world sound. */
  lemma WriteAllSound<T>(w: World<T>, s: set<CellId>, sig: Signal<T>)
    ensures Sound(w) ==> Sound(World(WriteAll(w.cells, s, sig), w.log, w.next))
  {
    if Sound(w) {
      var c2 := WriteAll(w.cells, s, sig);
      WriteAllFrames(w.cells, s, sig);
      FramesAgree(c2, w.cells);
      forall n, e | n in c2 && e in c2[n].links
        ensures e in c2
      {
        if n in s {
          LiveKeepsLiveEntries(w.cells[n].links, Alive(w.cells));
        }
      }
      forall n | n in c2
        ensures LeaseOk(c2, n) && SourceOk(c2, n)
      {
        assert LeaseOk(w.cells, n) && SourceOk(w.cells, n);
      }
    }
  }

  /**
   * The internal setter (`setValue` or `setDisabled`) started at `m`: the
   * wave over the live link graph writes every cell it enters and fires the
   * observers of every cell it completes, the initiator last. A guarded
   * disabled wave (`bypassCheck` false) stops at the first leased cell,
   * which throws; the cells written before it stay written.
   */
  ghost function Spread<T>(w: World<T>, m: CellId, sig: Signal<T>, guarded: bool): (r: (bool, World<T>))
    requires Forest(Topo(w.cells)) && m in Topo(w.cells)
    ensures Frames(r.1.cells) == Frames(w.cells) && Topo(r.1.cells) == Topo(w.cells) && r.1.next == w.next
    ensures Sound(w) ==> Sound(r.1)
    ensures r.1.cells.Keys == w.cells.Keys && FewerLinks(r.1.cells, w.cells)
  {
    var t := Topo(w.cells);
    var blocked := Blocked(w.cells, guarded);
    if m in blocked then (false, w)
    else
      assert IsWave(t, [m]);
      var tr := FullWave(t, blocked, [m]);
      var c2 := WriteAll(w.cells, {m} + Elems(tr.entered), sig);
      WriteAllFrames(w.cells, {m} + Elems(tr.entered), sig);
      WriteAllSound(w, {m} + Elems(tr.entered), sig);
      WriteAllFewer(w.cells, {m} + Elems(tr.entered), sig);
      (tr.ok, World(c2, w.log + Fires(w.cells, tr.completed + (if tr.ok then [m] else []), sig), w.next))
  }

  /** A wave only removes dead handles. */
  lemma WriteAllFewer<T>(c: Cells<T>, s: set<CellId>, sig: Signal<T>)
    ensures FewerLinks(WriteAll(c, s, sig), c)
  {
    forall n, p | n in WriteAll(c, s, sig) && p in WriteAll(c, s, sig)[n].links
      ensures p in c[n].links
    {
      LiveKeepsLiveEntries(c[n].links, Alive(c));
    }
  }

  /** Worlds that agree on frames, topology and `next` are equally ready. */
  lemma ReadyKept<T>(w: World<T>, w2: World<T>)
    requires Ready(w) && Frames(w2.cells) == Frames(w.cells) && Topo(w2.cells) == Topo(w.cells) && w2.next == w.next
    requires forall n, e :: n in w2.cells && e in w2.cells[n].links ==> e in w2.cells
    ensures Ready(w2)
  {
    FramesAgree(w2.cells, w.cells);
    forall n | n in w2.cells
      ensures LeaseOk(w2.cells, n) && SourceOk(w2.cells, n)
    {
      assert LeaseOk(w.cells, n) && SourceOk(w.cells, n);
    }
  }

  // ---------------------------------------------------------------------------
  // Public setters

  /**
   * `value = v`. A plain cell throws when disabled and returns when `v`
   * equals its value; a holder throws once returned and returns when `v`
   * equals its value. Otherwise the value wave runs; it has nothing that
   * can stop it.
   */
  ghost function AssignValue<T>(w: World<T>, x: CellId, v: T): (r: (Outcome, World<T>))
    requires Ready(w) && IsAlive(w, x)
    ensures Frames(r.1.cells) == Frames(w.cells) && Topo(r.1.cells) == Topo(w.cells) && r.1.next == w.next
    ensures Ready(r.1) && r.1.cells.Keys == w.cells.Keys && FewerLinks(r.1.cells, w.cells)
  {
    var cell := w.cells[x];
    if cell.kind.Plain? && cell.disabled then (Fail(DisabledMutation), w)
    else if cell.kind.Holder? && cell.kind.returned then (Fail(ReturnedLease), w)
    else if v == cell.value then (Done, w)
    else
      var (_, w2) := Spread(w, x, SetValue(cell.value, v), false);
      (Done, w2)
  }

  /**
   * `disabled = d`. A plain cell throws when leased and returns when `d`
   * equals its flag, then runs the guarded disabled wave, which throws at a
   * leased peer. A holder throws once returned and otherwise always runs the
   * disabled wave with the lease check bypassed.
   */
  ghost function AssignDisabled<T>(w: World<T>, x: CellId, d: bool): (r: (Outcome, World<T>))
    requires Ready(w) && IsAlive(w, x)
    ensures Frames(r.1.cells) == Frames(w.cells) && Topo(r.1.cells) == Topo(w.cells) && r.1.next == w.next
    ensures Ready(r.1) && r.1.cells.Keys == w.cells.Keys && FewerLinks(r.1.cells, w.cells)
  {
    var cell := w.cells[x];
    if cell.kind.Plain? then
      if cell.lease.Some? then (Fail(LeaseActive), w)
      else if d == cell.disabled then (Done, w)
      else
        var (ok, w2) := Spread(w, x, SetDisabled(d), true);
        (if ok then Done else Fail(LeaseActive), w2)
    else if cell.kind.returned then (Fail(ReturnedLease), w)
    else
      var (_, w2) := Spread(w, x, SetDisabled(d), false);
      (Done, w2)
  }

  // ---------------------------------------------------------------------------
  // Linking

  /** The two `addWeakReference` calls of bindTo: `b` appended to `a`'s list, then `a` to `b`'s. */
  function Link<T>(w: World<T>, a: CellId, b: CellId): World<T>
    requires a in w.cells && b in w.cells
  {
    var c1 := w.cells[a := w.cells[a].(links := w.cells[a].links + [b])];
    var c2 := c1[b := c1[b].(links := c1[b].links + [a])];
    World(c2, w.log, w.next)
  }

  /** A link from a cell to itself is not a forest. */
  lemma SelfLinkNotForest(t: Topology, a: CellId)
    requires a in t
    ensures !Forest(AddLink(t, a, a))
  {
    var t2 := AddLink(t, a, a);
    assert a in t2[a];
  }

  /** Linking keeps every frame and the soundness of the world. */
  lemma LinkSound<T>(w: World<T>, a: CellId, b: CellId)
    requires Sound(w) && a in w.cells && b in w.cells
    ensures Frames(Link(w, a, b).cells) == Frames(w.cells)
    ensures Alive(Link(w, a, b).cells) == Alive(w.cells)
    ensures Sound(Link(w, a, b))
  {
    var c := w.cells;
    var c1 := c[a := c[a].(links := c[a].links + [b])];
    var c2 := Link(w, a, b).cells;
    FramesRelink(c, a, c[a].links + [b]);
    FramesRelink(c1, b, c1[b].links + [a]);
    FramesAgree(c2, c);
    forall n | n in c2
      ensures LeaseOk(c2, n) && SourceOk(c2, n)
    {
      assert LeaseOk(c, n) && SourceOk(c, n);
    }
  }

  /** Appending a live handle appends it to the live view. */
  lemma LiveAppendLive(l: seq<CellId>, x: CellId, al: set<CellId>)
    requires x in al
    ensures Live(l + [x], al) == Live(l, al) + [x]
  {
    LiveAppend(l, [x], al);
    assert [x][1..] == [];
  }

  lemma LinkTopoAt<T>(w: World<T>, a: CellId, b: CellId, n: CellId)
    requires Sound(w) && IsAlive(w, a) && IsAlive(w, b) && a != b && n in Topo(w.cells)
    ensures n in Topo(Link(w, a, b).cells)
    ensures Topo(Link(w, a, b).cells)[n] == AddLink(Topo(w.cells), a, b)[n]
  {
    LinkSound(w, a, b);
    var c := w.cells;
    var c2 := Link(w, a, b).cells;
    var al := Alive(c);
    if n == a {
      LiveAppendLive(c[a].links, b, al);
    } else if n == b {
      LiveAppendLive(c[b].links, a, al);
    } else {
      assert c2[n] == c[n];
    }
  }

  /** Linking two live cells adds exactly that link to the live link graph. */
  lemma LinkTopo<T>(w: World<T>, a: CellId, b: CellId)
    requires Sound(w) && IsAlive(w, a) && IsAlive(w, b) && a != b
    ensures Frames(Link(w, a, b).cells) == Frames(w.cells)
    ensures Topo(Link(w, a, b).cells) == AddLink(Topo(w.cells), a, b)
    ensures Sound(Link(w, a, b))
  {
    LinkSound(w, a, b);
    var t2 := AddLink(Topo(w.cells), a, b);
    var T := Topo(Link(w, a, b).cells);
    FramesAgree(Link(w, a, b).cells, w.cells);
    assert T.Keys == t2.Keys;
    forall n | n in t2
      ensures T[n] == t2[n]
    {
      LinkTopoAt(w, a, b, n);
    }
  }

  /**
   * The steps of `a.bindTo(b)` before the link: throws when `b` is already
   * among `a`'s live peers; otherwise `a` takes `b`'s value, then `b`'s
   * disabled flag (read after the value step), through `a`'s own public
   * setters. No handle is added.
   */
  ghost function BindSetters<T>(w: World<T>, a: CellId, b: CellId): (r: (Outcome, World<T>))
    requires Ready(w) && IsAlive(w, a) && IsAlive(w, b)
    ensures Frames(r.1.cells) == Frames(w.cells) && Topo(r.1.cells) == Topo(w.cells) && r.1.next == w.next
    ensures Ready(r.1) && r.1.cells.Keys == w.cells.Keys
    ensures r.0.Done? ==> b !in Topo(w.cells)[a]
  {
    if b in Topo(w.cells)[a] then (Fail(AlreadyBound), w)
    else
      var (r1, w1) := AssignValue(w, a, w.cells[b].value);
      if r1.Fail? then (r1, w1)
      else AssignDisabled(w1, a, w1.cells[b].disabled)
  }

  /**
   * `a.bindTo(b)`: the steps before the link, then the two are linked; the
   * first exception ends it. The caller keeps the link graph a forest when
   * the bind reaches the link.
   */
  ghost function BindTo<T>(w: World<T>, a: CellId, b: CellId): (r: (Outcome, World<T>))
    requires Ready(w) && IsAlive(w, a) && IsAlive(w, b)
    requires BindSetters(w, a, b).0.Done? ==> Forest(AddLink(Topo(w.cells), a, b))
    ensures Frames(r.1.cells) == Frames(w.cells) && r.1.next == w.next && r.1.cells.Keys == w.cells.Keys
    ensures Ready(r.1)
    ensures Topo(r.1.cells) == if r.0.Done? then AddLink(Topo(w.cells), a, b) else Topo(w.cells)
  {
    var (r1, w1) := BindSetters(w, a, b);
    if r1.Fail? then (r1, w1)
    else
      LinkReady(w, w1, a, b);
      (Done, Link(w1, a, b))
  }

  /** The link step of bindTo, after both setters, keeps the world ready and adds exactly the new link. */
  lemma LinkReady<T>(w: World<T>, w2: World<T>, a: CellId, b: CellId)
    requires Ready(w2) && IsAlive(w, a) && IsAlive(w, b)
    requires Frames(w2.cells) == Frames(w.cells) && Topo(w2.cells) == Topo(w.cells) && w2.next == w.next
    requires Forest(AddLink(Topo(w.cells), a, b))
    ensures Frames(Link(w2, a, b).cells) == Frames(w.cells) && Link(w2, a, b).next == w.next
    ensures Link(w2, a, b).cells.Keys == w.cells.Keys
    ensures Ready(Link(w2, a, b)) && Topo(Link(w2, a, b).cells) == AddLink(Topo(w.cells), a, b)
  {
    SelfLinkNotForest(Topo(w.cells), a);
    LinkTopo(w2, a, b);
    FramesAgree(w2.cells, w.cells);
  }

  /** The live link graph after `x.bindTo(r)` for each `x` of `xs` in turn. */
  function AddLinks(t: Topology, xs: seq<CellId>, r: CellId): Topology
    requires r in t && forall i :: 0 <= i < |xs| ==> xs[i] in t
    decreases |xs|
  {
    if xs == [] then t
    else
      var t1 := AddLink(t, xs[0], r);
      assert t1.Keys == t.Keys;
      AddLinks(t1, xs[1..], r)
  }

  /** Adding links to a topology only adds links. */
  lemma {:induction false} AddLinksGrows(t: Topology, xs: seq<CellId>, r: CellId)
    requires r in t && forall i :: 0 <= i < |xs| ==> xs[i] in t
    ensures AddLinks(t, xs, r).Keys == t.Keys
    ensures forall n, p :: n in t && p in t[n] ==> p in AddLinks(t, xs, r)[n]
    decreases |xs|
  {
    if xs != [] {
      var t1 := AddLink(t, xs[0], r);
      AddLinksGrows(t1, xs[1..], r);
    }
  }

  /** After the first link, the rest of the vararg call adds the remaining links. */
  lemma AddLinksRest(t: Topology, xs: seq<CellId>, r: CellId)
    requires r in t && |xs| > 0 && forall i :: 0 <= i < |xs| ==> xs[i] in t
    ensures var t1 := AddLink(t, xs[0], r);
            && t1.Keys == t.Keys
            && (forall i :: 0 <= i < |xs[1..]| ==> xs[1..][i] in t1)
            && AddLinks(t, xs, r) == AddLinks(t1, xs[1..], r)
  {
    var t1 := AddLink(t, xs[0], r);
    assert t1.Keys == t.Keys;
    forall i | 0 <= i < |xs[1..]|
      ensures xs[1..][i] in t1
    {
      assert xs[1..][i] == xs[i + 1];
    }
  }

  /**
   * The vararg `r.bindTo(xs...)` keeps the live link graph a forest: each
   * bind the loop reaches and that gets past both setters adds a link that
   * keeps a forest. Nothing is asked of the arguments after the first one
   * that throws.
   */
  ghost predicate CanBindAll<T>(w: World<T>, r: CellId, xs: seq<CellId>)
    decreases |xs|
  {
    && Ready(w) && IsAlive(w, r) && (forall i :: 0 <= i < |xs| ==> IsAlive(w, xs[i]))
    && (xs != [] && BindSetters(w, xs[0], r).0.Done? ==>
          && Forest(AddLink(Topo(w.cells), xs[0], r))
          && CanBindAll(BindTo(w, xs[0], r).1, r, xs[1..]))
  }

  /**
   * The vararg extension `r.bindTo(xs...)`: each `x` of `xs`, in order,
   * binds to `r` (`x.bindTo(r)`); the first exception stops the loop and
   * the bindings made before it stay.
   */
  ghost function BindToAll<T>(w: World<T>, r: CellId, xs: seq<CellId>): (res: (Outcome, World<T>))
    requires CanBindAll(w, r, xs)
    ensures Frames(res.1.cells) == Frames(w.cells) && res.1.next == w.next && res.1.cells.Keys == w.cells.Keys
    ensures Ready(res.1)
    decreases |xs|
  {
    if xs == [] then (Done, w)
    else
      var (r1, w1) := BindTo(w, xs[0], r);
      if r1.Fail? then (r1, w1)
      else BindToAll(w1, r, xs[1..])
  }

  /**
   * The loop of the vararg `r.bindTo(xs...)` after its first `i`
   * iterations: the binds of `xs[0]` to `xs[i - 1]` in turn, stopped by the
   * first exception.
   */
  ghost function BindPrefix<T>(w: World<T>, r: CellId, xs: seq<CellId>, i: nat): (res: (Outcome, World<T>))
    requires CanBindAll(w, r, xs) && i <= |xs|
    decreases i
  {
    if i == 0 then (Done, w)
    else
      var (r1, w1) := BindTo(w, xs[0], r);
      if r1.Fail? then (r1, w1)
      else BindPrefix(w1, r, xs[1..], i - 1)
  }

  // ---------------------------------------------------------------------------
  // Allocation and construction

  /** Cells that keep their links and liveness keep the live link graph. */
  lemma SameLinksSameTopo<T>(c: Cells<T>, c2: Cells<T>)
    requires c2.Keys == c.Keys
    requires forall n :: n in c ==> c2[n].links == c[n].links && c2[n].alive == c[n].alive
    ensures Alive(c2) == Alive(c) && Topo(c2) == Topo(c)
  {
  }

  /** A new object: `cell` stored under the fresh id `next`. */
  function Alloc<T>(w: World<T>, cell: Cell<T>): World<T>
  {
    World(w.cells[w.next := cell], w.log, w.next + 1)
  }

  /** A fresh blank cell is alive and unlinked; every other cell keeps its live peers. */
  lemma AllocTopo<T>(w: World<T>, cell: Cell<T>)
    requires Sound(w) && cell.alive && cell.links == []
    ensures w.next !in w.cells && w.next !in Topo(w.cells)
    ensures Topo(Alloc(w, cell).cells) == Topo(w.cells)[w.next := []]
  {
    var c := w.cells;
    var c2 := Alloc(w, cell).cells;
    assert Alive(c2) == Alive(c) + {w.next};
    forall n | n in c && c[n].alive
      ensures Live(c2[n].links, Alive(c2)) == Live(c[n].links, Alive(c))
    {
      LiveOnlyListed(c[n].links, Alive(c2), Alive(c));
    }
  }

  /** Allocating a blank cell keeps the world ready. */
  lemma AllocReady<T>(w: World<T>, cell: Cell<T>)
    requires Ready(w) && cell.alive && cell.links == [] && cell.lease.None?
    requires cell.kind.Holder? ==> cell.kind.source.None?
    ensures Ready(Alloc(w, cell)) && IsAlive(Alloc(w, cell), w.next)
    ensures Topo(Alloc(w, cell).cells) == Topo(w.cells)[w.next := []]
  {
    AllocTopo(w, cell);
    IsolatedForest(Topo(w.cells), w.next);
    var c := w.cells;
    var c2 := Alloc(w, cell).cells;
    forall n | n in c2
      ensures LeaseOk(c2, n) && SourceOk(c2, n)
    {
      if n != w.next {
        assert LeaseOk(c, n) && SourceOk(c, n);
      }
    }
  }

  /**
   * `Bindable(v)` and `Bindable(v, d)`: a blank plain cell whose value is
   * then set through the public value setter and, when `d` is given,
   * whose flag is set through the public disabled setter.
   */
  ghost function Create<T>(w: World<T>, unset: T, v: T, d: Option<bool>): (r: (Result<CellId>, World<T>))
    requires Ready(w)
    ensures Ready(r.1) && r.1.next == w.next + 1
  {
    var id := w.next;
    AllocReady(w, Blank(PlainVariant, unset));
    var w1 := Alloc(w, Blank(PlainVariant, unset));
    var (r1, w2) := AssignValue(w1, id, v);
    if r1.Fail? then (Err(r1.failure), w2)
    else if d.None? then (Ok(id), w2)
    else
      var (r2, w3) := AssignDisabled(w2, id, d.value);
      (if r2.Done? then Ok(id) else Err(r2.failure), w3)
  }

  /**
   * `getBoundCopyImplementation(src)`: `made` is the variant that
   * `createInstance` returned. A copy of another variant throws; the copy
   * object is dropped unreferenced, so the arena is left as it was.
   * Otherwise the blank copy binds to `src`.
   */
  ghost function GetBoundCopy<T>(w: World<T>, src: CellId, made: Variant, unset: T): (r: (Result<CellId>, World<T>))
    requires Ready(w) && IsAlive(w, src)
    ensures Ready(r.1)
  {
    if made != VariantOf(w.cells[src]) then (Err(InstanceTypeMismatch), w)
    else
      var id := w.next;
      AllocReady(w, Blank(made, unset));
      var w1 := Alloc(w, Blank(made, unset));
      LinkFreshForest(Topo(w.cells), id, src);
      var (r1, w2) := BindTo(w1, id, src);
      (if r1.Done? then Ok(id) else Err(r1.failure), w2)
  }

  // ---------------------------------------------------------------------------
  // Lease check

  /**
   * `checkForLease(sender)` run by the cell at the end of `path`: true at
   * once when that cell is leased, false when it has no handles; otherwise
   * it asks every handle other than the sender, in list order, and ors the
   * answers without short-circuiting. The raw list is walked with no purge,
   * so a dead handle is dereferenced as null and throws.
   */
  ghost function LeaseScan<T>(c: Cells<T>, path: seq<CellId>): Result<bool>
    requires Forest(Topo(c)) && IsWave(Topo(c), path)
    decreases |Topo(c).Keys| - |path|, 1, 0
  {
    var n := Last(path);
    if c[n].lease.Some? then Ok(true)
    else if c[n].links == [] then Ok(false)
    else ScanLinks(c, path, |c[n].links|)
  }

  /** The loop of `checkForLease` after its first `i` handles. */
  ghost function ScanLinks<T>(c: Cells<T>, path: seq<CellId>, i: nat): Result<bool>
    requires Forest(Topo(c)) && IsWave(Topo(c), path) && i <= |c[Last(path)].links|
    decreases |Topo(c).Keys| - |path|, 0, i
  {
    if i == 0 then Ok(false)
    else
      var acc := ScanLinks(c, path, i - 1);
      var e := c[Last(path)].links[i - 1];
      if acc.Err? then acc
      else if e in Alive(c) && e == Sender(path) then acc
      else if e !in Alive(c) then Err(DeadReference)
      else
        LiveKeepsLiveEntries(c[Last(path)].links, Alive(c));
        ExtendWave(Topo(c), path, e);
        WaveLength(Topo(c), path + [e]);
        var sub := LeaseScan(c, path + [e]);
        if sub.Err? then sub else Ok(acc.value || sub.value)
  }

  // ---------------------------------------------------------------------------
  // Single-cell updates

  /** The world with cell `x` replaced. */
  function Put<T>(w: World<T>, x: CellId, cell: Cell<T>): World<T>
  {
    World(w.cells[x := cell], w.log, w.next)
  }

  /** Replacing a cell without touching its links or liveness keeps the live link graph. */
  lemma PutTopo<T>(w: World<T>, x: CellId, cell: Cell<T>)
    requires x in w.cells && cell.links == w.cells[x].links && cell.alive == w.cells[x].alive
    ensures Alive(Put(w, x, cell).cells) == Alive(w.cells)
    ensures Topo(Put(w, x, cell).cells) == Topo(w.cells)
  {
    SameLinksSameTopo(w.cells, Put(w, x, cell).cells);
  }

  /** Replacing a cell keeps a world ready when the replacement keeps links, liveness and the strong references sound. */
  lemma PutReady<T>(w: World<T>, x: CellId, cell: Cell<T>)
    requires Ready(w) && x in w.cells && cell.links == w.cells[x].links && cell.alive == w.cells[x].alive
    requires cell.kind.Holder? == w.cells[x].kind.Holder?
    requires LeaseOk(w.cells[x := cell], x) && SourceOk(w.cells[x := cell], x)
    ensures Ready(Put(w, x, cell))
  {
    PutTopo(w, x, cell);
    var c2 := w.cells[x := cell];
    forall n | n in c2
      ensures LeaseOk(c2, n) && SourceOk(c2, n)
    {
      if n != x {
        assert LeaseOk(w.cells, n) && SourceOk(w.cells, n);
      }
    }
  }

  // ---------------------------------------------------------------------------
  // Leasing

  /**
   * The constructor `LeasedBindableImpl(x, revert)`: a blank holder binds
   * to `x`, records `x` as its source, the revert flag and (when
   * reverting) its value, records its flag, and sets its flag to true,
   * which disables the whole component past every lease.
   */
  ghost function NewHolder<T>(w: World<T>, x: CellId, revert: bool, unset: T): (r: (Result<CellId>, World<T>))
    requires Ready(w) && IsAlive(w, x)
    ensures Ready(r.1) && IsAlive(r.1, x)
    ensures r.0.Ok? ==> r.0.value in r.1.cells && r.1.cells[r.0.value].kind.Holder? && r.1.cells[r.0.value].alive
  {
    var h := w.next;
    var w1 := Alloc(w, Blank(LeasedVariant, unset));
    FreshHolderReady(w, x, unset);
    var (r1, w2) := BindTo(w1, h, x);
    if r1.Fail? then (Err(r1.failure), w2)
    else
      HolderBound(w1, w2, h, x);
      StartHolder(w2, h, x, revert, unset)
  }

  /** The constructor after its bindTo: the holder's own fields, then its flag set to true. */
  ghost function StartHolder<T>(w2: World<T>, h: CellId, x: CellId, revert: bool, unset: T): (r: (Result<CellId>, World<T>))
    requires Ready(w2) && IsAlive(w2, h) && IsAlive(w2, x) && w2.cells[h].kind.Holder?
    ensures Ready(r.1) && IsAlive(r.1, x)
    ensures r.0.Ok? ==> r.0.value in r.1.cells && r.1.cells[r.0.value].kind.Holder? && r.1.cells[r.0.value].alive
  {
    var hc := w2.cells[h];
    var kind := Holder(Some(x), revert, if revert then hc.value else unset, hc.disabled, false);
    HolderKindReady(w2, h, x, kind);
    var w3 := SetKind(w2, h, kind);
    var (r2, w4) := AssignDisabled(w3, h, true);
    HolderKept(w3, w4, h);
    (if r2.Done? then Ok(h) else Err(r2.failure), w4)
  }

  /** Binding keeps the holder a live holder and its source alive. */
  lemma HolderBound<T>(w1: World<T>, w2: World<T>, h: CellId, x: CellId)
    requires Frames(w2.cells) == Frames(w1.cells)
    requires h in w1.cells && w1.cells[h].kind.Holder? && IsAlive(w1, h) && IsAlive(w1, x)
    ensures IsAlive(w2, h) && IsAlive(w2, x) && w2.cells[h].kind.Holder?
  {
    FramesAgree(w2.cells, w1.cells);
  }

  function SetKind<T>(w: World<T>, x: CellId, kind: Kind<T>): World<T>
    requires x in w.cells
  {
    Put(w, x, w.cells[x].(kind := kind))
  }

  /** The blank holder allocated by the constructor is alive, and binding it to `x` keeps the graph a forest. */
  lemma FreshHolderReady<T>(w: World<T>, x: CellId, unset: T)
    requires Ready(w) && IsAlive(w, x)
    ensures var w1 := Alloc(w, Blank(LeasedVariant, unset));
            Ready(w1) && IsAlive(w1, w.next) && IsAlive(w1, x) && w1.cells[w.next].kind.Holder?
            && Forest(AddLink(Topo(w1.cells), w.next, x))
  {
    AllocReady(w, Blank(LeasedVariant, unset));
    LinkFreshForest(Topo(w.cells), w.next, x);
  }

  /** Giving the bound holder its source keeps the world ready. */
  lemma HolderKindReady<T>(w2: World<T>, h: CellId, x: CellId, kind: Kind<T>)
    requires Ready(w2) && IsAlive(w2, h) && IsAlive(w2, x) && w2.cells[h].kind.Holder?
    requires kind.Holder? && kind.source == Some(x)
    ensures Ready(SetKind(w2, h, kind)) && IsAlive(SetKind(w2, h, kind), h) && IsAlive(SetKind(w2, h, kind), x)
  {
    var hc := w2.cells[h];
    PutReady(w2, h, hc.(kind := kind));
    PutTopo(w2, h, hc.(kind := kind));
  }

  /** A wave keeps a live holder a live holder. */
  lemma HolderKept<T>(w3: World<T>, w4: World<T>, h: CellId)
    requires Frames(w4.cells) == Frames(w3.cells) && h in w3.cells && w3.cells[h].kind.Holder? && w3.cells[h].alive
    ensures h in w4.cells && w4.cells[h].kind.Holder? && w4.cells[h].alive
  {
    FramesAgree(w4.cells, w3.cells);
  }

  /**
   * `x.beginLease(revert)`: a lease check that throws, or finds a leased
   * cell reachable from `x`, ends the call. Otherwise the holder is
   * constructed and `x` records it as its lease.
   */
  ghost function BeginLease<T>(w: World<T>, x: CellId, revert: bool, unset: T): (r: (Result<CellId>, World<T>))
    requires Ready(w) && IsAlive(w, x)
    ensures Ready(r.1) && IsAlive(r.1, x)
  {
    assert IsWave(Topo(w.cells), [x]);
    var scan := LeaseScan(w.cells, [x]);
    if scan.Err? then (Err(scan.failure), w)
    else if scan.value then (Err(AlreadyLeased), w)
    else
      var (r1, w1) := NewHolder(w, x, revert, unset);
      if r1.Err? then (r1, w1)
      else
        LeaseSlotReady(w1, x, r1.value);
        (r1, SetLease(w1, x, Some(r1.value)))
  }

  function SetLease<T>(w: World<T>, x: CellId, lease: Option<CellId>): World<T>
    requires x in w.cells
  {
    Put(w, x, w.cells[x].(lease := lease))
  }

  /** Recording a live holder as a cell's lease keeps the world ready. */
  lemma LeaseSlotReady<T>(w: World<T>, x: CellId, h: CellId)
    requires Ready(w) && IsAlive(w, x) && h in w.cells && w.cells[h].kind.Holder? && w.cells[h].alive
    ensures Ready(SetLease(w, x, Some(h))) && IsAlive(SetLease(w, x, Some(h)), x)
  {
    var xc := w.cells[x];
    PutReady(w, x, xc.(lease := Some(h)));
    PutTopo(w, x, xc.(lease := Some(h)));
  }

  /** `x.endLease(h)`: throws without a lease or for a different holder; otherwise clears the lease. */
  ghost function EndLease<T>(w: World<T>, x: CellId, h: CellId): (r: (Outcome, World<T>))
    requires Ready(w) && x in w.cells
    ensures Ready(r.1) && r.1.next == w.next && r.1.cells.Keys == w.cells.Keys
    ensures Alive(r.1.cells) == Alive(w.cells) && Topo(r.1.cells) == Topo(w.cells)
    ensures forall n :: n in w.cells ==> r.1.cells[n].kind == w.cells[n].kind
  {
    var xc := w.cells[x];
    if xc.lease.None? then (Fail(NoActiveLease), w)
    else if xc.lease.value != h then (Fail(LeaseMismatch), w)
    else
      PutReady(w, x, xc.(lease := None));
      PutTopo(w, x, xc.(lease := None));
      (Done, Put(w, x, xc.(lease := None)))
  }

  /** Holders that have a source and have not been returned: each can still end a lease. */
  ghost function ActiveHolders<T>(c: Cells<T>): set<CellId>
  {
    set n | n in c && c[n].kind.Holder? && c[n].kind.source.Some? && !c[n].kind.returned
  }

  lemma ActiveHoldersAgree<T>(c1: Cells<T>, c2: Cells<T>)
    requires c1.Keys == c2.Keys && forall n :: n in c1 ==> c1[n].kind == c2[n].kind
    ensures ActiveHolders(c1) == ActiveHolders(c2)
  {
  }

  // ---------------------------------------------------------------------------
  // Unbinding

  /** A step that keeps the arena's cells, their liveness, the id counter and readiness. */
  ghost predicate Kept<T>(w: World<T>, w2: World<T>)
  {
    Ready(w2) && w2.next == w.next && w2.cells.Keys == w.cells.Keys && Alive(w2.cells) == Alive(w.cells)
  }

  /** The two `removeWeakReference` calls of unbindFrom: the first handle to `e` goes from `x`'s list, then the first to `x` from `e`'s. */
  function Unlink<T>(w: World<T>, x: CellId, e: CellId): World<T>
    requires x in w.cells && e in w.cells
  {
    var c1 := w.cells[x := w.cells[x].(links := RemoveFirst(w.cells[x].links, e))];
    var c2 := c1[e := c1[e].(links := RemoveFirst(c1[e].links, x))];
    World(c2, w.log, w.next)
  }

  /** Each cell's handles after removing handles are among its handles before. */
  ghost predicate FewerLinks<T>(c2: Cells<T>, c: Cells<T>)
  {
    c2.Keys == c.Keys && forall n, p :: n in c2 && p in c2[n].links ==> p in c[n].links
  }

  lemma UnlinkShrinks<T>(w: World<T>, x: CellId, e: CellId)
    requires x in w.cells && e in w.cells
    ensures Frames(Unlink(w, x, e).cells) == Frames(w.cells) && FewerLinks(Unlink(w, x, e).cells, w.cells)
    ensures Unlink(w, x, e).next == w.next
  {
    var c := w.cells;
    var c1 := c[x := c[x].(links := RemoveFirst(c[x].links, e))];
    FramesRelink(c, x, RemoveFirst(c[x].links, e));
    FramesRelink(c1, e, RemoveFirst(c1[e].links, x));
    RemoveFirstSubset(c[x].links, e);
    RemoveFirstSubset(c1[e].links, x);
  }

  /** Removing handles, and nothing else, keeps a world ready. */
  lemma ShrinkSound<T>(w: World<T>, w2: World<T>)
    requires Ready(w) && Frames(w2.cells) == Frames(w.cells) && w2.next == w.next && FewerLinks(w2.cells, w.cells)
    ensures Sound(w2) && Alive(w2.cells) == Alive(w.cells)
  {
    var c := w.cells;
    var c2 := w2.cells;
    FramesAgree(c2, c);
    forall n | n in c2
      ensures LeaseOk(c2, n) && SourceOk(c2, n)
    {
      assert LeaseOk(c, n) && SourceOk(c, n);
    }
  }

  /** Removing handles only removes links from the live link graph, which stays a forest. */
  lemma ShrinkTopo<T>(w: World<T>, w2: World<T>)
    requires Ready(w) && Alive(w2.cells) == Alive(w.cells) && FewerLinks(w2.cells, w.cells)
    ensures SubTopology(Topo(w2.cells), Topo(w.cells)) && Forest(Topo(w2.cells))
  {
    var c := w.cells;
    var c2 := w2.cells;
    var al := Alive(c);
    var t, t2 := Topo(c), Topo(c2);
    assert t2.Keys == t.Keys;
    forall n | n in t2
      ensures forall p :: p in t2[n] ==> p in t[n] && p in t2
    {
      assert t2[n] == Live(c2[n].links, al) && t[n] == Live(c[n].links, al);
      LiveKeepsLiveEntries(c2[n].links, al);
      LiveKeepsLiveEntries(c[n].links, al);
    }
    assert SubTopology(t2, t) && Closed(t2);
    SubForest(t2, t);
  }

  /** Removing handles keeps every frame, keeps the world ready and only removes links. */
  lemma UnlinkReady<T>(w: World<T>, x: CellId, e: CellId)
    requires Ready(w) && x in w.cells && e in w.cells
    ensures Frames(Unlink(w, x, e).cells) == Frames(w.cells) && Kept(w, Unlink(w, x, e))
    ensures SubTopology(Topo(Unlink(w, x, e).cells), Topo(w.cells))
  {
    UnlinkShrinks(w, x, e);
    ShrinkSound(w, Unlink(w, x, e));
    ShrinkTopo(w, Unlink(w, x, e));
  }

  /**
   * `x.unbindFrom(them)`: a null argument throws; otherwise the handles
   * between the two cells are removed, whether or not they were linked.
   */
  ghost function UnbindFrom<T>(w: World<T>, x: CellId, them: Option<CellId>): (r: (Outcome, World<T>))
    requires Ready(w) && IsAlive(w, x) && (them.Some? ==> IsAlive(w, them.value))
    ensures Frames(r.1.cells) == Frames(w.cells) && Kept(w, r.1)
  {
    if them.None? then (Fail(NullUnbind), w)
    else
      UnlinkReady(w, x, them.value);
      (Done, Unlink(w, x, them.value))
  }

  /** The loop of unbindBindings over a snapshot of the raw handles: each referent is unbound, and a dead one is passed as null. */
  ghost function UnbindEach<T>(w: World<T>, x: CellId, es: seq<CellId>): (r: (Outcome, World<T>))
    requires Ready(w) && x in w.cells
    ensures Frames(r.1.cells) == Frames(w.cells) && Kept(w, r.1)
    decreases |es|
  {
    if es == [] then (Done, w)
    else if es[0] !in Alive(w.cells) then (Fail(NullUnbind), w)
    else
      UnlinkReady(w, x, es[0]);
      UnbindEach(Unlink(w, x, es[0]), x, es[1..])
  }

  /** `unbindBindings`: nothing to do without handles; otherwise unbind from each handle of the snapshot. */
  ghost function UnbindBindings<T>(w: World<T>, x: CellId): (r: (Outcome, World<T>))
    requires Ready(w) && x in w.cells
    ensures Frames(r.1.cells) == Frames(w.cells) && Kept(w, r.1)
  {
    if w.cells[x].links == [] then (Done, w) else UnbindEach(w, x, w.cells[x].links)
  }

  /** `unbindEvents`: both observer channels cleared. */
  function ClearObservers<T>(w: World<T>, x: CellId): World<T>
    requires x in w.cells
  {
    Put(w, x, w.cells[x].(valueObservers := [], disabledObservers := []))
  }

  /** `unbindEvents` then `unbindBindings`. */
  ghost function ClearAndUnbind<T>(w: World<T>, x: CellId): (r: (Outcome, World<T>))
    requires Ready(w) && x in w.cells
    ensures Kept(w, r.1) && OnlyReturned(w.cells, r.1.cells)
  {
    var cell := w.cells[x].(valueObservers := [], disabledObservers := []);
    PutReady(w, x, cell);
    PutTopo(w, x, cell);
    var r := UnbindBindings(ClearObservers(w, x), x);
    FramesAgree(r.1.cells, ClearObservers(w, x).cells);
    r
  }

  /** Waves and lease updates between the steps of a return keep the holder and its source. */
  lemma ReturnStepKept<T>(w: World<T>, w2: World<T>, h: CellId)
    requires Ready(w) && IsAlive(w, h) && w.cells[h].kind.Holder? && w.cells[h].kind.source.Some?
    requires Ready(w2) && Frames(w2.cells) == Frames(w.cells) && w2.next == w.next
    ensures Kept(w, w2) && IsAlive(w2, h) && w2.cells[h].kind == w.cells[h].kind
    ensures w.cells[h].kind.source.value in w2.cells
    ensures ActiveHolders(w2.cells) == ActiveHolders(w.cells)
  {
    FramesAgree(w2.cells, w.cells);
    assert SourceOk(w.cells, h);
    ActiveHoldersAgree(w2.cells, w.cells);
  }

  /** Between `c` and `c2` no cell was added or dropped, and a cell's kind changed at most by being marked returned. */
  ghost predicate OnlyReturned<T>(c: Cells<T>, c2: Cells<T>)
  {
    && c2.Keys == c.Keys
    && forall n :: n in c ==> c2[n].kind == c[n].kind || (c[n].kind.Holder? && c2[n].kind == c[n].kind.(returned := true))
  }

  lemma OnlyReturnedTrans<T>(c: Cells<T>, c2: Cells<T>, c3: Cells<T>)
    requires OnlyReturned(c, c2) && OnlyReturned(c2, c3)
    ensures OnlyReturned(c, c3)
  {
  }

  /** A step that keeps every frame keeps every kind. */
  lemma FramesOnlyReturned<T>(c: Cells<T>, c2: Cells<T>)
    requires Frames(c2) == Frames(c)
    ensures OnlyReturned(c, c2)
  {
    FramesAgree(c2, c);
  }

  /** Marking an active holder returned keeps the world ready and leaves one active holder fewer. */
  lemma MarkReturned<T>(w: World<T>, w3: World<T>, h: CellId)
    requires Kept(w, w3) && IsAlive(w3, h) && h in ActiveHolders(w3.cells)
    requires ActiveHolders(w3.cells) == ActiveHolders(w.cells)
    ensures var w4 := SetKind(w3, h, w3.cells[h].kind.(returned := true));
            Kept(w, w4) && IsAlive(w4, h) && w4.cells[h].kind.Holder?
            && |ActiveHolders(w4.cells)| < |ActiveHolders(w.cells)|
  {
    var cell := w3.cells[h].(kind := w3.cells[h].kind.(returned := true));
    PutReady(w3, h, cell);
    PutTopo(w3, h, cell);
    ActiveHoldersMinus(w3.cells, h, cell);
  }

  /** Marking a holder returned removes exactly it from the active holders. */
  lemma ActiveHoldersMinus<T>(c: Cells<T>, h: CellId, cell: Cell<T>)
    requires h in ActiveHolders(c) && cell.kind.Holder? && cell.kind.returned
    ensures ActiveHolders(c[h := cell]) == ActiveHolders(c) - {h}
    ensures |ActiveHolders(c[h := cell])| < |ActiveHolders(c)|
  {
    assert ActiveHolders(c[h := cell]) == ActiveHolders(c) - {h};
  }

  /**
   * `h.returnLease()`: false when already returned; throws when the
   * holder never got a source; otherwise the holder's unbindAll runs and
   * the result is true.
   */
  ghost function ReturnLease<T>(w: World<T>, h: CellId): (r: (Result<bool>, World<T>))
    requires Ready(w) && IsAlive(w, h) && w.cells[h].kind.Holder?
    ensures Kept(w, r.1) && OnlyReturned(w.cells, r.1.cells)
    ensures r.0.Ok? ==> r.1.cells[h].kind.Holder? && r.1.cells[h].kind.returned
    decreases |ActiveHolders(w.cells)|, 2
  {
    var k := w.cells[h].kind;
    if k.returned then (Ok(false), w)
    else if k.source.None? then (Err(ReturnWithoutSource), w)
    else
      var (r1, w1) := HolderUnbindAll(w, h);
      (if r1.Done? then Ok(true) else Err(r1.failure), w1)
  }

  /**
   * The holder's unbindAll: while it has a source and is not returned,
   * it puts back the value (when reverting) and the flag through its own
   * setters, ends the lease on the source, and marks itself returned;
   * then it runs the base unbindAll.
   */
  ghost function HolderUnbindAll<T>(w: World<T>, h: CellId): (r: (Outcome, World<T>))
    requires Ready(w) && IsAlive(w, h) && w.cells[h].kind.Holder?
    ensures Kept(w, r.1) && OnlyReturned(w.cells, r.1.cells)
    ensures r.0.Done? && w.cells[h].kind.source.Some? ==> r.1.cells[h].kind.Holder? && r.1.cells[h].kind.returned
    decreases |ActiveHolders(w.cells)|, if h in ActiveHolders(w.cells) then 1 else 4
  {
    var k := w.cells[h].kind;
    if k.source.Some? && !k.returned then
      var (r2, w2) := Restore(w, h);
      ReturnStepKept(w, w2, h);
      FramesOnlyReturned(w.cells, w2.cells);
      if r2.Fail? then (r2, w2)
      else
        var (r3, w3) := EndLease(w2, k.source.value, h);
        ActiveHoldersAgree(w3.cells, w2.cells);
        if r3.Fail? then (r3, w3)
        else
          var r := Retire(w3, h);
          OnlyReturnedTrans(w.cells, w3.cells, r.1.cells);
          r
    else BaseUnbindAll(w, h)
  }

  /** The holder puts back the value (when reverting) and then the flag it snapshot, through its own setters. */
  ghost function Restore<T>(w: World<T>, h: CellId): (r: (Outcome, World<T>))
    requires Ready(w) && IsAlive(w, h) && w.cells[h].kind.Holder?
    ensures Ready(r.1) && Frames(r.1.cells) == Frames(w.cells) && Topo(r.1.cells) == Topo(w.cells) && r.1.next == w.next
  {
    var k := w.cells[h].kind;
    var (r1, w1) := if k.revert then AssignValue(w, h, k.valueBefore) else (Done, w);
    if r1.Fail? then (r1, w1)
    else AssignDisabled(w1, h, k.disabledBefore)
  }

  /** The end of a return: the holder is marked returned, then the base unbindAll runs. */
  ghost function Retire<T>(w: World<T>, h: CellId): (r: (Outcome, World<T>))
    requires Ready(w) && IsAlive(w, h) && h in ActiveHolders(w.cells)
    ensures Kept(w, r.1) && OnlyReturned(w.cells, r.1.cells)
    ensures r.1.cells[h].kind.Holder? && r.1.cells[h].kind.returned
    decreases |ActiveHolders(w.cells)|, 0
  {
    var k := w.cells[h].kind;
    MarkReturned(w, w, h);
    var w4 := SetKind(w, h, k.(returned := true));
    ReturnedMarked(w, w4, h);
    var r := BaseUnbindAll(w4, h);
    OnlyReturnedTrans(w.cells, w4.cells, r.1.cells);
    KeptTrans(w, w4, r.1);
    ReturnedStays(w4.cells, r.1.cells, h);
    r
  }

  lemma KeptTrans<T>(w: World<T>, w2: World<T>, w3: World<T>)
    requires Kept(w, w2) && Kept(w2, w3)
    ensures Kept(w, w3)
  {
  }

  /** A holder marked returned stays so. */
  lemma ReturnedStays<T>(c: Cells<T>, c2: Cells<T>, h: CellId)
    requires OnlyReturned(c, c2) && h in c && c[h].kind.Holder? && c[h].kind.returned
    ensures c2[h].kind == c[h].kind
  {
  }

  /** Marking a holder returned changes no other kind. */
  lemma ReturnedMarked<T>(w: World<T>, w4: World<T>, h: CellId)
    requires h in w.cells && w.cells[h].kind.Holder?
    requires w4 == SetKind(w, h, w.cells[h].kind.(returned := true))
    ensures OnlyReturned(w.cells, w4.cells) && w4.cells[h].kind.Holder? && w4.cells[h].kind.returned
  {
  }

  /**
   * The base unbindAll: a leased cell first has its lease returned (the
   * result is ignored), then both observer channels are cleared and every
   * handle is unbound.
   */
  ghost function BaseUnbindAll<T>(w: World<T>, x: CellId): (r: (Outcome, World<T>))
    requires Ready(w) && IsAlive(w, x)
    ensures Kept(w, r.1) && OnlyReturned(w.cells, r.1.cells)
    decreases |ActiveHolders(w.cells)|, 3
  {
    var l := w.cells[x].lease;
    if l.Some? then
      assert LeaseOk(w.cells, x);
      var (r0, w1) := ReturnLease(w, l.value);
      if r0.Err? then (Fail(r0.failure), w1)
      else
        var r2 := ClearAndUnbind(w1, x);
        OnlyReturnedTrans(w.cells, w1.cells, r2.1.cells);
        r2
    else ClearAndUnbind(w, x)
  }

  /** `x.unbindAll()`, dispatched on the cell's class. */
  ghost function UnbindAll<T>(w: World<T>, x: CellId): (r: (Outcome, World<T>))
    requires Ready(w) && IsAlive(w, x)
    ensures Kept(w, r.1)
  {
    if w.cells[x].kind.Holder? then HolderUnbindAll(w, x) else BaseUnbindAll(w, x)
  }

  // ---------------------------------------------------------------------------
  // Observers

  /**
   * `x.bindValueChanged(o, runOnce)`: `o` joins the value channel; with
   * `runOnce` it is also called at once with the current value as both
   * the old and the new value.
   */
  ghost function BindValueChanged<T>(w: World<T>, x: CellId, o: ObserverId, runOnce: bool): (r: World<T>)
    requires Ready(w) && x in w.cells
    ensures Ready(r) && Topo(r.cells) == Topo(w.cells)
  {
    var cell := w.cells[x];
    var cell2 := cell.(valueObservers := Subscribe(cell.valueObservers, o));
    PutReady(w, x, cell2);
    PutTopo(w, x, cell2);
    var now := if runOnce then [Notice(x, Call(o, ValueChange(ValueChangedEvent(cell.value, cell.value))))] else [];
    World(w.cells[x := cell2], w.log + now, w.next)
  }

  /** `x.bindDisabledChanged(o, runOnce)`: the same on the disabled channel, called with the current flag. */
  ghost function BindDisabledChanged<T>(w: World<T>, x: CellId, o: ObserverId, runOnce: bool): (r: World<T>)
    requires Ready(w) && x in w.cells
    ensures Ready(r) && Topo(r.cells) == Topo(w.cells)
  {
    var cell := w.cells[x];
    var cell2 := cell.(disabledObservers := Subscribe(cell.disabledObservers, o));
    PutReady(w, x, cell2);
    PutTopo(w, x, cell2);
    var now := if runOnce then [Notice(x, Call(o, DisabledChange(cell.disabled)))] else [];
    World(w.cells[x := cell2], w.log + now, w.next)
  }

  // ---------------------------------------------------------------------------
  // Garbage collection

  /** No strong reference leads to `x`: no cell holds it as its lease and no holder as its source. */
  ghost predicate Unreferenced<T>(c: Cells<T>, x: CellId)
  {
    forall n :: n in c ==> c[n].lease != Some(x) && (c[n].kind.Holder? ==> c[n].kind.source != Some(x))
  }

  /**
   * The collector takes `x`: its handles in other lists now read as null.
   * Only a cell that nothing references strongly can be taken.
   */
  function Release<T>(w: World<T>, x: CellId): World<T>
    requires x in w.cells
  {
    Put(w, x, w.cells[x].(alive := false))
  }

  /** Collecting an unreferenced cell keeps the world ready; the live link graph loses that cell and its links. */
  lemma ReleaseReady<T>(w: World<T>, x: CellId)
    requires Ready(w) && IsAlive(w, x) && Unreferenced(w.cells, x)
    ensures Ready(Release(w, x)) && Alive(Release(w, x).cells) == Alive(w.cells) - {x}
    ensures SubTopology(Topo(Release(w, x).cells), Topo(w.cells))
    ensures Topo(Release(w, x).cells).Keys == Topo(w.cells).Keys - {x}
  {
    var c := w.cells;
    var c2 := Release(w, x).cells;
    var al, al2 := Alive(c), Alive(c2);
    assert al2 == al - {x};
    forall n | n in c2
      ensures LeaseOk(c2, n) && SourceOk(c2, n)
    {
      assert LeaseOk(c, n) && SourceOk(c, n);
    }
    var t, t2 := Topo(c), Topo(c2);
    forall n | n in t2
      ensures forall p :: p in t2[n] ==> p in t[n] && p in t2
    {
      assert t2[n] == Live(c[n].links, al2) && t[n] == Live(c[n].links, al);
      LiveKeepsLiveEntries(c[n].links, al2);
      LiveKeepsLiveEntries(c[n].links, al);
    }
    assert SubTopology(t2, t) && Closed(t2);
    SubForest(t2, t);
  }
}
