/**
 * The cells of a binding graph, held in an arena indexed by `CellId`.
 *
 * A cell is what one Bindable object holds: its value, its disabled flag,
 * its list of weak handles to peers, its two observer channels, the lease it
 * has handed out, and, for a lease holder, the holder's own fields. The
 * `alive` flag says whether the garbage collector has taken the object; a
 * handle to a dead cell reads as null.
 *
 * This module also describes, as spec functions, what one propagation wave
 * does to the arena: `WriteAll` (the cells it writes) and `Fires` (the
 * observer calls it makes).
 */
module Arena {
  import opened Base
  import opened Waves
  import opened LinkList
  import opened Observers

  datatype ValueChangedEvent<T> = ValueChangedEvent(oldValue: T, newValue: T)

  /** What an observer receives: a value event on the value channel, the new flag on the disabled channel. */
  datatype Change<T> = ValueChange(event: ValueChangedEvent<T>) | DisabledChange(disabled: bool)

  /** One observer call made by the cell `cell`. */
  datatype Notice<T> = Notice(cell: CellId, call: Call<Change<T>>)

  /**
   * The write a wave carries: the internal value setter passes the
   * initiator's previous value and the new value; the internal disabled
   * setter passes the new flag.
   */
  datatype Signal<T> = SetValue(previous: T, value: T) | SetDisabled(disabled: bool)

  /**
   * A plain cell, or a lease holder with the fields the holder adds: its
   * source (unset until the holder's constructor binds it), whether to revert
   * the value on return, the snapshots taken at lease start, and whether the
   * lease has been returned.
   */
  datatype Kind<T> =
    | Plain
    | Holder(source: Option<CellId>, revert: bool, valueBefore: T, disabledBefore: bool, returned: bool)

  /** The concrete class of a cell, as `createInstance` reports it. */
  datatype Variant = PlainVariant | LeasedVariant

  datatype Cell<T> = Cell(
    value: T,
    disabled: bool,
    links: seq<CellId>,
    alive: bool,
    lease: Option<CellId>,
    valueObservers: seq<ObserverId>,
    disabledObservers: seq<ObserverId>,
    kind: Kind<T>)

  type Cells<T> = map<CellId, Cell<T>>

  function VariantOf<T>(cell: Cell<T>): Variant
  {
    if cell.kind.Plain? then PlainVariant else LeasedVariant
  }

  /** A cell as `createInstance` makes it: unset value (null), enabled, unlinked, no observers, no lease. */
  function Blank<T>(variant: Variant, unset: T): Cell<T>
  {
    var kind := if variant == PlainVariant then Plain else Holder(None, false, unset, false, false);
    Cell(unset, false, [], true, None, [], [], kind)
  }

  function Alive<T>(c: Cells<T>): set<CellId>
  {
    set n | n in c && c[n].alive
  }

  function Leased<T>(c: Cells<T>): set<CellId>
  {
    set n | n in c && c[n].lease.Some?
  }

  /** The live link graph: each live cell with its live peers, in list order. */
  function Topo<T>(c: Cells<T>): Topology
  {
    map n | n in c && c[n].alive :: Live(c[n].links, Alive(c))
  }

  /** The parts of a cell that no wave and no link change touches. */
  datatype Frame<T> = Frame(
    alive: bool,
    lease: Option<CellId>,
    valueObservers: seq<ObserverId>,
    disabledObservers: seq<ObserverId>,
    kind: Kind<T>)

  function Frames<T>(c: Cells<T>): map<CellId, Frame<T>>
  {
    map n | n in c :: Frame(c[n].alive, c[n].lease, c[n].valueObservers, c[n].disabledObservers, c[n].kind)
  }

  /** The field a signal writes. */
  function Write<T>(cell: Cell<T>, sig: Signal<T>): Cell<T>
  {
    match sig
    case SetValue(_, v) => cell.(value := v)
    case SetDisabled(d) => cell.(disabled := d)
  }

  /** Cell `n` after a wave entered it: the field written, and the dead handles purged by the traversal. */
  function Touch<T>(c: Cells<T>, n: CellId, sig: Signal<T>): Cell<T>
    requires n in c
  {
    Write(c[n], sig).(links := Live(c[n].links, Alive(c)))
  }

  /** The arena after a wave entered every cell of `s`. */
  function WriteAll<T>(c: Cells<T>, s: set<CellId>, sig: Signal<T>): Cells<T>
  {
    map n | n in c :: if n in s then Touch(c, n, sig) else c[n]
  }

  function ChangeOf<T>(sig: Signal<T>): Change<T>
  {
    match sig
    case SetValue(p, v) => ValueChange(ValueChangedEvent(p, v))
    case SetDisabled(d) => DisabledChange(d)
  }

  function ObserversFor<T>(cell: Cell<T>, sig: Signal<T>): seq<ObserverId>
  {
    if sig.SetValue? then cell.valueObservers else cell.disabledObservers
  }

  function Stamp<T>(n: CellId, calls: seq<Call<Change<T>>>): seq<Notice<T>>
  {
    seq(|calls|, i requires 0 <= i < |calls| => Notice(n, calls[i]))
  }

  /** The calls made when cell `n` invokes the channel the signal belongs to. */
  function Announce<T>(c: Cells<T>, n: CellId, sig: Signal<T>): seq<Notice<T>>
  {
    if n in c then Stamp(n, Invocation(ObserversFor(c[n], sig), ChangeOf(sig))) else []
  }

  /** The calls made when the cells `ms` finish, in that order. */
  function Fires<T>(c: Cells<T>, ms: seq<CellId>, sig: Signal<T>): seq<Notice<T>>
  {
    if ms == [] then [] else Announce(c, ms[0], sig) + Fires(c, ms[1..], sig)
  }

  function Elems(s: seq<CellId>): set<CellId>
  {
    set x | x in s
  }

  // ---------------------------------------------------------------------------
  // Lemmas

  /** The elements of a non-empty list are its head and the elements of its tail. */
  lemma ElemsCons(s: seq<CellId>)
    requires s != []
    ensures Elems(s) == {s[0]} + Elems(s[1..])
  {
    assert s == [s[0]] + s[1..];
  }

  /** Cells that agree on their frames agree on liveness, leases and the calls they make. */
  lemma FramesAgree<T>(c1: Cells<T>, c2: Cells<T>)
    requires Frames(c1) == Frames(c2)
    ensures c1.Keys == c2.Keys
    ensures Alive(c1) == Alive(c2) && Leased(c1) == Leased(c2)
    ensures forall n :: n in c1 ==> c1[n].kind == c2[n].kind && c1[n].lease == c2[n].lease && c1[n].alive == c2[n].alive
    ensures forall n :: n in c1 ==> c1[n].valueObservers == c2[n].valueObservers && c1[n].disabledObservers == c2[n].disabledObservers
    ensures forall n, sig :: Announce(c1, n, sig) == Announce(c2, n, sig)
  {
    assert c1.Keys == Frames(c1).Keys;
    forall n | n in c1
      ensures c1[n].kind == c2[n].kind && c1[n].lease == c2[n].lease && c1[n].alive == c2[n].alive
      ensures c1[n].valueObservers == c2[n].valueObservers && c1[n].disabledObservers == c2[n].disabledObservers
    {
      assert Frames(c1)[n] == Frames(c2)[n];
    }
  }

  /** Replacing a cell's handles leaves every frame as it was. */
  lemma FramesRelink<T>(c: Cells<T>, n: CellId, l: seq<CellId>)
    requires n in c
    ensures Frames(c[n := c[n].(links := l)]) == Frames(c)
  {
    var c2 := c[n := c[n].(links := l)];
    assert Frames(c2).Keys == Frames(c).Keys;
    forall m | m in c
      ensures Frames(c2)[m] == Frames(c)[m]
    {
    }
  }

  /** So do the calls of whole sequences of finishing cells. */
  lemma {:induction false} FiresAgree<T>(c1: Cells<T>, c2: Cells<T>, ms: seq<CellId>, sig: Signal<T>)
    requires Frames(c1) == Frames(c2)
    ensures Fires(c1, ms, sig) == Fires(c2, ms, sig)
  {
    if ms != [] {
      FramesAgree(c1, c2);
      FiresAgree(c1, c2, ms[1..], sig);
    }
  }

  /** The calls of consecutive finishing sequences follow one another. */
  lemma {:induction false} FiresAppend<T>(c: Cells<T>, a: seq<CellId>, b: seq<CellId>, sig: Signal<T>)
    ensures Fires(c, a + b, sig) == Fires(c, a, sig) + Fires(c, b, sig)
  {
    if a == [] {
      assert a + b == b;
    } else {
      assert (a + b)[0] == a[0] && (a + b)[1..] == a[1..] + b;
      FiresAppend(c, a[1..], b, sig);
    }
  }

  /**
   * A wave changes only the written field and the purged dead handles: every
   * frame, and therefore the live link graph, stays as it was.
   */
  lemma WriteAllFrames<T>(c: Cells<T>, s: set<CellId>, sig: Signal<T>)
    ensures Frames(WriteAll(c, s, sig)) == Frames(c)
    ensures Alive(WriteAll(c, s, sig)) == Alive(c)
    ensures Topo(WriteAll(c, s, sig)) == Topo(c)
  {
    var c2 := WriteAll(c, s, sig);
    assert Frames(c2) == Frames(c);
    FramesAgree(c2, c);
    forall n | n in c && c[n].alive
      ensures Live(c2[n].links, Alive(c2)) == Live(c[n].links, Alive(c))
    {
      if n in s {
        LiveIdempotent(c[n].links, Alive(c));
      }
    }
  }

  /** Two waves carrying the same signal write what one wave over both sets writes. */
  lemma WriteAllCompose<T>(c: Cells<T>, s1: set<CellId>, s2: set<CellId>, sig: Signal<T>)
    ensures WriteAll(WriteAll(c, s1, sig), s2, sig) == WriteAll(c, s1 + s2, sig)
  {
    var c1 := WriteAll(c, s1, sig);
    WriteAllFrames(c, s1, sig);
    forall n | n in c && n in s1 && n in s2
      ensures Touch(c1, n, sig) == Touch(c, n, sig)
    {
      LiveIdempotent(c[n].links, Alive(c));
    }
  }

  /** A wave that enters one cell without handles writes that cell's field and nothing else. */
  lemma WriteAllOne<T>(c: Cells<T>, x: CellId, sig: Signal<T>)
    requires x in c && c[x].links == []
    ensures WriteAll(c, {x}, sig) == c[x := Write(c[x], sig)]
  {
    var c2 := WriteAll(c, {x}, sig);
    assert Touch(c, x, sig) == Write(c[x], sig);
    assert c2.Keys == c[x := Write(c[x], sig)].Keys;
  }

  /** A wave that enters one cell writes and purges that cell alone. */
  lemma WriteAllAt<T>(c: Cells<T>, x: CellId, sig: Signal<T>)
    requires x in c
    ensures WriteAll(c, {x}, sig) == c[x := Touch(c, x, sig)]
  {
    var c2 := WriteAll(c, {x}, sig);
    assert c2.Keys == c[x := Touch(c, x, sig)].Keys;
  }

  /** A wave writes the signal's field into every cell it enters and leaves the other cells alone. */
  lemma WriteAllWrites<T>(c: Cells<T>, s: set<CellId>, sig: Signal<T>, n: CellId)
    requires n in c
    ensures var c2 := WriteAll(c, s, sig);
            n in c2
            && (n in s && sig.SetValue? ==> c2[n].value == sig.value && c2[n].disabled == c[n].disabled)
            && (n in s && sig.SetDisabled? ==> c2[n].disabled == sig.disabled && c2[n].value == c[n].value)
            && (n !in s ==> c2[n] == c[n])
  {
  }
}
