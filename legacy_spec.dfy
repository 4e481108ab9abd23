/**
 * The older JVM `Bindable`, as spec functions over the same arena.
 *
 * A legacy cell is a plain cell whose value may be null: it holds an
 * `Option<T>`, `None` for null. There is no lease, so every wave is the
 * unguarded one of `BindableSpec.Spread`. Two things differ from the
 * current library: the value setter short-circuits only on a non-null
 * equal value, and a cell fires its value observers only when its value
 * is non-null, so a null write reaches every cell of the component and
 * calls no observer.
 */
module LegacySpec {
  import opened Base
  import opened Waves
  import opened LinkList
  import opened Observers
  import opened Arena
  import opened BindableSpec

  /** A write of null: no cell of its wave passes the `beforePropagation?.equals(_value) == true` test. */
  predicate Quiet<T>(sig: Signal<Option<T>>)
  {
    sig.SetValue? && sig.value.None?
  }

  /**
   * The private `setValue`/`setDisabled` run by cell `x` itself: the wave
   * writes `x`'s component as in the current library; the calls it makes
   * are those of the current library unless the write is null, when none
   * are made.
   */
  ghost function LegacySpread<T>(w: World<Option<T>>, x: CellId, sig: Signal<Option<T>>): (r: World<Option<T>>)
    requires Ready(w) && IsAlive(w, x)
    ensures Frames(r.cells) == Frames(w.cells) && Topo(r.cells) == Topo(w.cells) && r.next == w.next
    ensures Ready(r) && r.cells.Keys == w.cells.Keys && FewerLinks(r.cells, w.cells)
    ensures r.cells == Spread(w, x, sig, false).1.cells
    ensures Quiet(sig) ==> r.log == w.log
  {
    var (_, w2) := Spread(w, x, sig, false);
    if Quiet(sig) then World(w2.cells, w.log, w2.next) else w2
  }

  /**
   * `value = v`: a disabled cell throws; a non-null `v` equal to the value
   * returns; anything else, null included, runs the value wave.
   */
  ghost function LegacyAssignValue<T>(w: World<Option<T>>, x: CellId, v: Option<T>): (r: (Outcome, World<Option<T>>))
    requires Ready(w) && IsAlive(w, x)
    ensures Frames(r.1.cells) == Frames(w.cells) && Topo(r.1.cells) == Topo(w.cells) && r.1.next == w.next
    ensures Ready(r.1) && r.1.cells.Keys == w.cells.Keys && FewerLinks(r.1.cells, w.cells)
  {
    var cell := w.cells[x];
    if cell.disabled then (Fail(DisabledMutation), w)
    else if v.Some? && v == cell.value then (Done, w)
    else (Done, LegacySpread(w, x, SetValue(cell.value, v)))
  }

  /** `disabled = d`: an equal flag returns; otherwise the disabled wave runs. It never throws. */
  ghost function LegacyAssignDisabled<T>(w: World<Option<T>>, x: CellId, d: bool): (r: World<Option<T>>)
    requires Ready(w) && IsAlive(w, x)
    ensures Frames(r.cells) == Frames(w.cells) && Topo(r.cells) == Topo(w.cells) && r.next == w.next
    ensures Ready(r) && r.cells.Keys == w.cells.Keys && FewerLinks(r.cells, w.cells)
  {
    if d == w.cells[x].disabled then w else LegacySpread(w, x, SetDisabled(d))
  }

  /**
   * `a.bindTo(b)`: binding to itself throws, and so does binding to a
   * current live peer; otherwise `a` takes `b`'s value through its public
   * setter (which throws when `a` is disabled), then `b`'s flag, and the
   * two are linked. The caller keeps the link graph a forest when the bind
   * gets to the link.
   */
  ghost function LegacyBindTo<T>(w: World<Option<T>>, a: CellId, b: CellId): (r: (Outcome, World<Option<T>>))
    requires Ready(w) && IsAlive(w, a) && IsAlive(w, b)
    requires a != b && b !in Topo(w.cells)[a] && !w.cells[a].disabled ==> Forest(AddLink(Topo(w.cells), a, b))
    ensures Frames(r.1.cells) == Frames(w.cells) && r.1.next == w.next && r.1.cells.Keys == w.cells.Keys
    ensures Ready(r.1)
    ensures Topo(r.1.cells) == if r.0.Done? then AddLink(Topo(w.cells), a, b) else Topo(w.cells)
  {
    if a == b then (Fail(SelfBind), w)
    else if b in Topo(w.cells)[a] then (Fail(AlreadyBound), w)
    else
      var (r1, w1) := LegacyAssignValue(w, a, w.cells[b].value);
      if r1.Fail? then (r1, w1)
      else
        var w2 := LegacyAssignDisabled(w1, a, w1.cells[b].disabled);
        LinkReady(w, w2, a, b);
        (Done, Link(w2, a, b))
  }

  /**
   * The vararg `a.bindTo(xs...)` keeps the live link graph a forest: each
   * bind the loop reaches and that gets to the link (not on `a` itself, not
   * on a current peer, `a` not disabled) adds a link that keeps a forest.
   * Nothing is asked of the arguments after the first bind that throws.
   */
  ghost predicate LegacyCanBindAll<T>(w: World<Option<T>>, a: CellId, xs: seq<CellId>)
    decreases |xs|
  {
    && Ready(w) && IsAlive(w, a) && (forall i :: 0 <= i < |xs| ==> IsAlive(w, xs[i]))
    && (xs != [] && xs[0] != a && xs[0] !in Topo(w.cells)[a] && !w.cells[a].disabled ==>
          && Forest(AddLink(Topo(w.cells), a, xs[0]))
          && LegacyCanBindAll(LegacyBindTo(w, a, xs[0]).1, a, xs[1..]))
  }

  /** `a.bindTo(xs...)`: `a` binds to each of `xs` in turn, until one bind throws. */
  ghost function LegacyBindToAll<T>(w: World<Option<T>>, a: CellId, xs: seq<CellId>): (r: (Outcome, World<Option<T>>))
    requires LegacyCanBindAll(w, a, xs)
    ensures Frames(r.1.cells) == Frames(w.cells) && r.1.next == w.next && r.1.cells.Keys == w.cells.Keys
    ensures Ready(r.1)
    decreases |xs|
  {
    if xs == [] then (Done, w)
    else
      var (r1, w1) := LegacyBindTo(w, a, xs[0]);
      if r1.Fail? then (r1, w1)
      else
        var (r2, w2) := LegacyBindToAll(w1, a, xs[1..]);
        FramesAgree(w2.cells, w1.cells);
        (r2, w2)
  }

  /**
   * `triggerChange()`: `x` alone fires its value observers with its value
   * as both the old and the new value, unless the value is null, and then
   * its disabled observers with its flag. No cell changes.
   */
  function TriggerChange<T>(w: World<Option<T>>, x: CellId): (r: World<Option<T>>)
    requires x in w.cells
  {
    var cell := w.cells[x];
    var valueCalls := if cell.value.Some? then Announce(w.cells, x, SetValue(cell.value, cell.value)) else [];
    World(w.cells, w.log + valueCalls + Announce(w.cells, x, SetDisabled(cell.disabled)), w.next)
  }

  /** The loop of `unbindBindings`: each live peer `p` of the snapshot runs `p.unbindFrom(x)`. */
  ghost function UnbindPeers<T>(w: World<Option<T>>, x: CellId, ps: seq<CellId>): (r: World<Option<T>>)
    requires Ready(w) && x in w.cells && Elems(ps) <= w.cells.Keys
    ensures Frames(r.cells) == Frames(w.cells) && Kept(w, r)
    decreases |ps|
  {
    if ps == [] then w
    else
      ElemsCons(ps);
      UnlinkReady(w, ps[0], x);
      UnbindPeers(Unlink(w, ps[0], x), x, ps[1..])
  }

  /**
   * `unbindBindings()`: nothing to do without handles; otherwise
   * `forAliveRefs` drops the dead handles from `x`'s list, every live peer
   * unbinds from `x`, and the list is cleared.
   */
  ghost function LegacyUnbindBindings<T>(w: World<Option<T>>, x: CellId): (r: World<Option<T>>)
    requires Ready(w) && IsAlive(w, x)
    ensures Frames(r.cells) == Frames(w.cells) && Kept(w, r)
  {
    var cell := w.cells[x];
    if cell.links == [] then w
    else
      var live := Live(cell.links, Alive(w.cells));
      var w1 := Put(w, x, cell.(links := live));
      PurgeReady(w, x);
      LiveKeepsLiveEntries(cell.links, Alive(w.cells));
      var w2 := UnbindPeers(w1, x, live);
      ClearLinksReady(w2, x);
      Put(w2, x, w2.cells[x].(links := []))
  }

  /** `unbindAll()`: `unbindEvents()`, then `unbindBindings()`. */
  ghost function LegacyUnbindAll<T>(w: World<Option<T>>, x: CellId): (r: World<Option<T>>)
    requires Ready(w) && IsAlive(w, x)
    ensures Kept(w, r)
  {
    var cell := w.cells[x].(valueObservers := [], disabledObservers := []);
    PutReady(w, x, cell);
    PutTopo(w, x, cell);
    LegacyUnbindBindings(ClearObservers(w, x), x)
  }

  /** `Bindable(v, d)`: a new plain cell holding `v` and `d` directly, unlinked and without observers. */
  function LegacyCreate<T>(w: World<Option<T>>, v: Option<T>, d: bool): (r: (CellId, World<Option<T>>))
  {
    (w.next, Alloc(w, Cell(v, d, [], true, None, [], [], Plain)))
  }

  /** Dropping dead handles from one list keeps the world ready and its live link graph. */
  lemma PurgeReady<T>(w: World<Option<T>>, x: CellId)
    requires Ready(w) && x in w.cells
    ensures var w1 := Put(w, x, w.cells[x].(links := Live(w.cells[x].links, Alive(w.cells))));
            Frames(w1.cells) == Frames(w.cells) && Kept(w, w1)
  {
    var w1 := Put(w, x, w.cells[x].(links := Live(w.cells[x].links, Alive(w.cells))));
    FramesRelink(w.cells, x, Live(w.cells[x].links, Alive(w.cells)));
    LiveKeepsLiveEntries(w.cells[x].links, Alive(w.cells));
    ShrinkSound(w, w1);
    ShrinkTopo(w, w1);
  }

  /** Emptying one list keeps the world ready. */
  lemma ClearLinksReady<T>(w: World<Option<T>>, x: CellId)
    requires Ready(w) && x in w.cells
    ensures var w1 := Put(w, x, w.cells[x].(links := []));
            Frames(w1.cells) == Frames(w.cells) && Kept(w, w1)
  {
    var w1 := Put(w, x, w.cells[x].(links := []));
    FramesRelink(w.cells, x, []);
    ShrinkSound(w, w1);
    ShrinkTopo(w, w1);
  }
}
