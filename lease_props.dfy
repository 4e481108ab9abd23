/**
 * Properties of the lease life cycle of `BindableSpec`: what the lease check
 * finds, what beginning, ending and returning a lease do.
 */
module LeaseProps {
  import opened Base
  import opened Waves
  import opened LinkList
  import opened Arena
  import opened BindableSpec
  import opened BindableProps

  /** Cell `m` exists and holds a lease. */
  ghost predicate LeaseAt<T>(c: Cells<T>, m: CellId)
  {
    m in c && c[m].lease.Some?
  }

  /** The end of `path`, or some cell a wave leaving it can reach, holds a lease. */
  ghost predicate LeaseFrom<T>(c: Cells<T>, path: seq<CellId>)
  {
    |path| > 0 && (LeaseAt(c, Last(path)) || exists m :: Below(Topo(c), path, m) && LeaseAt(c, m))
  }

  /** The scan asks peer `p` of the end of `path`, and `p` finds a lease. */
  ghost predicate ChildLease<T>(c: Cells<T>, path: seq<CellId>, p: CellId)
  {
    |path| > 0 && p != Sender(path) && LeaseFrom(c, path + [p])
  }

  /** No live cell keeps a handle to a dead one: no traversal of a raw list dereferences null. */
  ghost predicate Clean<T>(c: Cells<T>)
  {
    forall n, e :: n in c && c[n].alive && e in c[n].links ==> e in Alive(c)
  }

  /** A list whose entries are all live is its own purge. */
  lemma {:induction false} LiveAllAlive(l: seq<CellId>, al: set<CellId>)
    requires forall x :: x in l ==> x in al
    ensures Live(l, al) == l
  {
    if l != [] {
      assert l[0] in l;
      LiveAllAlive(l[1..], al);
      assert l == [l[0]] + l[1..];
    }
  }

  /** What lies below the end of a path lies at, or below, one of its peers other than the sender. */
  lemma BelowSplit(t: Topology, path: seq<CellId>, m: CellId)
    requires IsWave(t, path) && Below(t, path, m)
    ensures exists p :: p in t[Last(path)] && p != Sender(path) && IsWave(t, path + [p])
                        && (m == p || Below(t, path + [p], m))
  {
    var w :| |w| > 0 && IsWave(t, path + w) && Last(w) == m;
    var full := path + w;
    var p := w[0];
    assert Step(t, full, |path|);
    assert full[|path| - 1] == Last(path) && full[|path|] == p;
    assert |path| >= 2 ==> full[|path| - 2] == path[|path| - 2];
    WavePrefix(t, full, |path| + 1);
    assert full[..|path| + 1] == path + [p];
    if |w| > 1 {
      AppendAssoc(path, [p], w[1..]);
      assert [p] + w[1..] == w;
      assert Last(w[1..]) == m;
    }
  }

  /** Among the first `i` handles of the end of `path`, one leads the scan to a lease. */
  ghost predicate Found<T>(c: Cells<T>, path: seq<CellId>, i: nat)
  {
    |path| > 0 && Last(path) in c &&
    exists j :: 0 <= j < i && j < |c[Last(path)].links| && ChildLease(c, path, c[Last(path)].links[j])
  }

  /** The first `i` handles of the end of `path` are live. */
  ghost predicate AllLive<T>(c: Cells<T>, path: seq<CellId>, i: nat)
  {
    |path| > 0 && Last(path) in c &&
    forall j :: 0 <= j < i && j < |c[Last(path)].links| ==> c[Last(path)].links[j] in Alive(c)
  }

  /** `checkForLease` throws only on a dead handle, and never on a clean arena. */
  lemma {:induction false} ScanFails<T>(c: Cells<T>, path: seq<CellId>)
    requires Forest(Topo(c)) && IsWave(Topo(c), path)
    ensures var r := LeaseScan(c, path);
            (r.Err? ==> r.failure == DeadReference) && (Clean(c) ==> r.Ok?)
    decreases |Topo(c).Keys| - |path|, 1
  {
    var n := Last(path);
    if c[n].lease.None? && c[n].links != [] {
      ScanLinksFails(c, path, |c[n].links|);
    }
  }

  /** The same for the loop over the handles. */
  lemma {:induction false} ScanLinksFails<T>(c: Cells<T>, path: seq<CellId>, i: nat)
    requires Forest(Topo(c)) && IsWave(Topo(c), path) && i <= |c[Last(path)].links|
    ensures var r := ScanLinks(c, path, i);
            (r.Err? ==> r.failure == DeadReference) && (Clean(c) ==> r.Ok?)
    decreases |Topo(c).Keys| - |path|, 0, i
  {
    if i > 0 {
      var t := Topo(c);
      var l := c[Last(path)].links;
      ScanLinksFails(c, path, i - 1);
      var e := l[i - 1];
      assert Clean(c) ==> e in Alive(c) by {
        assert e in l;
      }
      if ScanLinks(c, path, i - 1).Ok? && e in Alive(c) && e != Sender(path) {
        LiveKeepsLiveEntries(l, Alive(c));
        ExtendWave(t, path, e);
        WaveLength(t, path + [e]);
        ScanFails(c, path + [e]);
      }
    }
  }

  /** When `checkForLease` at the end of `path` answers, it answers whether that cell or one below it is leased. */
  lemma {:induction false} ScanMeans<T>(c: Cells<T>, path: seq<CellId>)
    requires Forest(Topo(c)) && IsWave(Topo(c), path)
    ensures var r := LeaseScan(c, path);
            r.Ok? ==> (r.value <==> LeaseFrom(c, path))
    decreases |Topo(c).Keys| - |path|, 1
  {
    var t := Topo(c);
    var n := Last(path);
    if c[n].lease.None? {
      if c[n].links == [] {
        assert t[n] == [];
        if m :| Below(t, path, m) && LeaseAt(c, m) {
          BelowSplit(t, path, m);
        }
      } else {
        var l := c[n].links;
        ScanLinksMeans(c, path, |l|);
        if ScanLinks(c, path, |l|).Ok? {
          LiveAllAlive(l, Alive(c));
          ScanAnswer(c, path);
        }
      }
    }
  }

  /** A cell whose handles are all live finds a lease below it exactly when one of its peers does. */
  lemma ScanAnswer<T>(c: Cells<T>, path: seq<CellId>)
    requires Forest(Topo(c)) && IsWave(Topo(c), path) && !LeaseAt(c, Last(path))
    requires Topo(c)[Last(path)] == c[Last(path)].links
    ensures Found(c, path, |c[Last(path)].links|) <==> LeaseFrom(c, path)
  {
    var t := Topo(c);
    var n := Last(path);
    var l := c[n].links;
    if Found(c, path, |l|) {
      var j :| 0 <= j < |l| && ChildLease(c, path, l[j]);
      ChildBelow(c, path, l[j]);
    }
    if m :| Below(t, path, m) && LeaseAt(c, m) {
      LeaseBelowFound(c, path, m);
    }
  }

  /** A leased cell below the end of the path is found through the peer it lies under. */
  lemma LeaseBelowFound<T>(c: Cells<T>, path: seq<CellId>, m: CellId)
    requires IsWave(Topo(c), path) && Topo(c)[Last(path)] == c[Last(path)].links
    requires Below(Topo(c), path, m) && LeaseAt(c, m)
    ensures Found(c, path, |c[Last(path)].links|)
  {
    var t := Topo(c);
    var n := Last(path);
    var l := c[n].links;
    BelowSplit(t, path, m);
    var p :| p in t[n] && p != Sender(path) && IsWave(t, path + [p]) && (m == p || Below(t, path + [p], m));
    assert LeaseFrom(c, path + [p]) by {
      if m == p {
        assert LeaseAt(c, Last(path + [p]));
      }
    }
    var j := IndexOf(l, p);
    assert ChildLease(c, path, l[j]);
  }

  /** A lease a peer finds lies below the end of the path. */
  lemma ChildBelow<T>(c: Cells<T>, path: seq<CellId>, p: CellId)
    requires Forest(Topo(c)) && IsWave(Topo(c), path) && p in Topo(c)[Last(path)] && ChildLease(c, path, p)
    ensures exists m :: Below(Topo(c), path, m) && LeaseAt(c, m)
  {
    var t := Topo(c);
    ExtendWave(t, path, p);
    if LeaseAt(c, p) {
      BelowChild(t, path, p, p);
    } else {
      var m :| Below(t, path + [p], m) && LeaseAt(c, m);
      BelowChild(t, path, p, m);
    }
  }

  /** The loop of `checkForLease` after `i` handles, when it answers: every handle was live, and it ors what the peers other than the sender find. */
  lemma {:induction false} ScanLinksMeans<T>(c: Cells<T>, path: seq<CellId>, i: nat)
    requires Forest(Topo(c)) && IsWave(Topo(c), path) && i <= |c[Last(path)].links|
    ensures var r := ScanLinks(c, path, i);
            r.Ok? ==> AllLive(c, path, i) && (r.value <==> Found(c, path, i))
    decreases |Topo(c).Keys| - |path|, 0, i
  {
    if i > 0 {
      var t := Topo(c);
      var l := c[Last(path)].links;
      ScanLinksMeans(c, path, i - 1);
      var acc := ScanLinks(c, path, i - 1);
      var e := l[i - 1];
      FoundStep(c, path, i);
      var r := ScanLinks(c, path, i);
      if acc.Err? {
        assert r == acc;
      } else if e in Alive(c) && e == Sender(path) {
        assert r == acc && !ChildLease(c, path, e);
      } else if e !in Alive(c) {
        assert r.Err?;
      } else {
        LiveKeepsLiveEntries(l, Alive(c));
        ExtendWave(t, path, e);
        WaveLength(t, path + [e]);
        ScanMeans(c, path + [e]);
        var sub := LeaseScan(c, path + [e]);
        assert r == if sub.Err? then sub else Ok(acc.value || sub.value);
        assert ChildLease(c, path, e) <==> LeaseFrom(c, path + [e]);
      }
    }
  }

  /** One more handle: found among the first `i` is found among the first `i - 1` or at handle `i - 1`; likewise for liveness. */
  lemma FoundStep<T>(c: Cells<T>, path: seq<CellId>, i: nat)
    requires |path| > 0 && Last(path) in c && 0 < i <= |c[Last(path)].links|
    ensures var e := c[Last(path)].links[i - 1];
            && (Found(c, path, i) <==> Found(c, path, i - 1) || ChildLease(c, path, e))
            && (AllLive(c, path, i) <==> AllLive(c, path, i - 1) && e in Alive(c))
  {
    var l := c[Last(path)].links;
    if Found(c, path, i) && !ChildLease(c, path, l[i - 1]) {
      var j :| 0 <= j < i && j < |l| && ChildLease(c, path, l[j]);
      assert j < i - 1;
    }
  }

  /**
   * `x.checkForLease(x)`, as `beginLease` runs it: it throws only on a dead
   * handle, which a clean arena has none of, and otherwise answers whether
   * some cell of `x`'s component holds a lease.
   */
  lemma ScanFindsLease<T>(w: World<T>, x: CellId)
    requires Ready(w) && IsAlive(w, x)
    ensures IsWave(Topo(w.cells), [x])
    ensures var r := LeaseScan(w.cells, [x]);
            && (r.Err? ==> r.failure == DeadReference && !Clean(w.cells))
            && (r.Ok? ==> (r.value <==> exists m :: m in Component(Topo(w.cells), x) && w.cells[m].lease.Some?))
  {
    var c := w.cells;
    var t := Topo(c);
    assert IsWave(t, [x]);
    ScanFails(c, [x]);
    ScanMeans(c, [x]);
    var r := LeaseScan(c, [x]);
    WaveCoversComponent(t, x);
    if r.Ok? && r.value && !LeaseAt(c, x) {
      var m :| Below(t, [x], m) && LeaseAt(c, m);
      BelowIffReaches(t, x, m);
      var v :| IsPath(t, v) && Distinct(v) && v[0] == x && Last(v) == m;
      assert m in Component(t, x);
    }
    if r.Ok? && !r.value {
      forall m | m in Component(t, x)
        ensures c[m].lease.None?
      {
        if m != x {
          BelowIffReaches(t, x, m);
        }
      }
    }
  }

  // ---------------------------------------------------------------------------
  // Beginning a lease

  /**
   * The holder's constructor after its bind: the holder records its source,
   * the revert flag, the value snapshot (only when reverting) and the flag
   * snapshot, then disables every cell of its component; no value, lease or
   * other cell's kind changes.
   */
  lemma StartHolderEffect<T>(w2: World<T>, h: CellId, x: CellId, revert: bool, unset: T)
    requires Ready(w2) && IsAlive(w2, h) && IsAlive(w2, x) && w2.cells[h].kind.Holder?
    ensures var r := StartHolder(w2, h, x, revert, unset);
            var hc := w2.cells[h];
            var comp := Component(Topo(w2.cells), h);
            && r.0 == Ok(h)
            && r.1.cells.Keys == w2.cells.Keys && Topo(r.1.cells) == Topo(w2.cells) && r.1.next == w2.next
            && r.1.cells[h].kind == Holder(Some(x), revert, if revert then hc.value else unset, hc.disabled, false)
            && (forall n :: n in w2.cells ==> r.1.cells[n].value == w2.cells[n].value && r.1.cells[n].lease == w2.cells[n].lease)
            && (forall n :: n in w2.cells ==> r.1.cells[n].disabled == if n in comp then true else w2.cells[n].disabled)
            && (forall n :: n in w2.cells && n != h ==> r.1.cells[n].kind == w2.cells[n].kind)
  {
    var hc := w2.cells[h];
    var kind := Holder(Some(x), revert, if revert then hc.value else unset, hc.disabled, false);
    StartHolderShape(w2, h, x, revert, unset);
    var w3 := SetKind(w2, h, kind);
    HolderDisabledRuns(w3, h, true);
    KindReplaced(AssignDisabled(w3, h, true).1.cells, w3.cells, w2.cells, h, kind);
    StartedFields(w2, w3, h, kind);
  }

  /** Cells that keep the frames of `c2` with one kind replaced keep every lease and every other kind. */
  lemma KindReplaced<T>(c4: Cells<T>, c3: Cells<T>, c2: Cells<T>, h: CellId, kind: Kind<T>)
    requires h in c2 && c3 == c2[h := c2[h].(kind := kind)] && Frames(c4) == Frames(c3)
    ensures c4.Keys == c2.Keys && c4[h].kind == kind
    ensures forall n :: n in c2 ==> c4[n].lease == c2[n].lease
    ensures forall n :: n in c2 && n != h ==> c4[n].kind == c2[n].kind
  {
    FramesAgree(c4, c3);
  }

  /** The same wave disables the holder's component and changes no value. */
  lemma StartedFields<T>(w2: World<T>, w3: World<T>, h: CellId, kind: Kind<T>)
    requires h in w2.cells
    requires Ready(w3) && IsAlive(w3, h) && w3.cells == w2.cells[h := w2.cells[h].(kind := kind)]
    requires Topo(w3.cells) == Topo(w2.cells)
    ensures var w4 := Spread(w3, h, SetDisabled(true), false).1;
            var comp := Component(Topo(w2.cells), h);
            && (forall n :: n in w2.cells ==> n in w4.cells && w4.cells[n].value == w2.cells[n].value)
            && (forall n :: n in w2.cells ==> w4.cells[n].disabled == if n in comp then true else w2.cells[n].disabled)
  {
    SpreadFields(w3, h, SetDisabled(true));
  }

  /** The constructor's last step is the holder's own disabled setter, which a fresh holder never refuses. */
  lemma StartHolderShape<T>(w2: World<T>, h: CellId, x: CellId, revert: bool, unset: T)
    requires Ready(w2) && IsAlive(w2, h) && IsAlive(w2, x) && w2.cells[h].kind.Holder?
    ensures var hc := w2.cells[h];
            var kind := Holder(Some(x), revert, if revert then hc.value else unset, hc.disabled, false);
            var w3 := SetKind(w2, h, kind);
            && Ready(w3) && IsAlive(w3, h) && w3.cells[h].kind == kind && Topo(w3.cells) == Topo(w2.cells)
            && w3.cells == w2.cells[h := hc.(kind := kind)]
            && StartHolder(w2, h, x, revert, unset) == (Ok(h), AssignDisabled(w3, h, true).1)
  {
    var hc := w2.cells[h];
    var kind := Holder(Some(x), revert, if revert then hc.value else unset, hc.disabled, false);
    HolderKindReady(w2, h, x, kind);
    PutTopo(w2, h, hc.(kind := kind));
  }

  /**
   * `LeasedBindableImpl(x, revert)`: the fresh holder binds to `x`, so it
   * takes `x`'s value and flag; it snapshots `x`'s flag, and `x`'s value only
   * when reverting; it is linked to `x` alone; then every cell of `x`'s
   * component, and the holder, is disabled. No value changes and no other
   * cell's lease or kind changes.
   */
  lemma NewHolderEffect<T>(w: World<T>, x: CellId, revert: bool, unset: T)
    requires Ready(w) && IsAlive(w, x)
    ensures var r := NewHolder(w, x, revert, unset);
            r.0 == Ok(w.next) && HolderMade(w, r.1, w.next, x, revert, unset)
  {
    var h := w.next;
    var w1 := Alloc(w, Blank(LeasedVariant, unset));
    NewHolderShape(w, x, revert, unset);
    var w2 := BindTo(w1, h, x).1;
    HolderBindPhase(w, w1, w2, x, unset);
    StartHolderEffect(w2, h, x, revert, unset);
    FreshComponent(Topo(w.cells), h, x);
    var w4 := StartHolder(w2, h, x, revert, unset).1;
    HolderStarted(w, w2, w4, h, x, revert, unset);
  }

  /**
   * `x.beginLease(revert)` when it throws: the arena is untouched. It throws
   * `DeadReference` only in an arena with a dead handle; otherwise it throws
   * `AlreadyLeased` exactly when some cell of `x`'s component holds a lease,
   * and else it returns the fresh holder.
   */
  lemma BeginLeaseRefused<T>(w: World<T>, x: CellId, revert: bool, unset: T)
    requires Ready(w) && IsAlive(w, x)
    ensures var r := BeginLease(w, x, revert, unset);
            var leased := exists m :: m in Component(Topo(w.cells), x) && w.cells[m].lease.Some?;
            && (r.0 == Err(DeadReference) || r.0 == Err(AlreadyLeased) || r.0 == Ok(w.next))
            && (r.0.Err? ==> r.1 == w)
            && (r.0 == Err(DeadReference) ==> !Clean(w.cells))
            && (r.0 != Err(DeadReference) ==> (r.0 == Err(AlreadyLeased) <==> leased))
  {
    ScanFindsLease(w, x);
    NewHolderEffect(w, x, revert, unset);
  }

  /**
   * `x.beginLease(revert)` when it returns the holder `h`: `x` records `h`
   * as its lease, `h` is the holder `LeasedBindableImpl(x, revert)` builds,
   * linked to `x` alone, and every cell of `x`'s component is disabled. No
   * value, no other lease and no cell's kind changes.
   */
  lemma BeginLeaseGranted<T>(w: World<T>, x: CellId, revert: bool, unset: T)
    requires Ready(w) && IsAlive(w, x)
    ensures var r := BeginLease(w, x, revert, unset);
            var h := w.next;
            var xc := w.cells[x];
            r.0.Ok? ==>
              && r.0.value == h && h !in w.cells && r.1.cells.Keys == w.cells.Keys + {h} && r.1.next == h + 1
              && r.1.cells[x].lease == Some(h)
              && r.1.cells[h].kind == Holder(Some(x), revert, if revert then xc.value else unset, xc.disabled, false)
              && r.1.cells[h].lease.None? && r.1.cells[h].value == xc.value && r.1.cells[h].disabled
              && Topo(r.1.cells) == LinkFresh(Topo(w.cells), h, x)
              && (forall n :: n in w.cells ==> r.1.cells[n].value == w.cells[n].value && r.1.cells[n].kind == w.cells[n].kind)
              && (forall n :: n in w.cells && n != x ==> r.1.cells[n].lease == w.cells[n].lease)
              && (forall n :: n in w.cells ==>
                    r.1.cells[n].disabled == if n in Component(Topo(w.cells), x) then true else w.cells[n].disabled)
  {
    var r := BeginLease(w, x, revert, unset);
    if r.0.Ok? {
      assert IsWave(Topo(w.cells), [x]);
      NewHolderEffect(w, x, revert, unset);
      var w1 := NewHolder(w, x, revert, unset).1;
      assert r.1 == SetLease(w1, x, Some(w.next));
      LeaseRecorded(w, w1, r.1, w.next, x, revert, unset);
    }
  }

  /** The holder made, recorded as `x`'s lease. */
  lemma LeaseRecorded<T>(w: World<T>, w1: World<T>, w5: World<T>, h: CellId, x: CellId, revert: bool, unset: T)
    requires x in Topo(w.cells) && h !in Topo(w.cells) && HolderMade(w, w1, h, x, revert, unset)
    requires w5 == SetLease(w1, x, Some(h))
    ensures var xc := w.cells[x];
            && h !in w.cells && w5.cells.Keys == w.cells.Keys + {h} && w5.next == h + 1
            && w5.cells[x].lease == Some(h)
            && w5.cells[h].kind == Holder(Some(x), revert, if revert then xc.value else unset, xc.disabled, false)
            && w5.cells[h].lease.None? && w5.cells[h].value == xc.value && w5.cells[h].disabled
            && Topo(w5.cells) == LinkFresh(Topo(w.cells), h, x)
            && (forall n :: n in w.cells ==> w5.cells[n].value == w.cells[n].value && w5.cells[n].kind == w.cells[n].kind)
            && (forall n :: n in w.cells && n != x ==> w5.cells[n].lease == w.cells[n].lease)
            && (forall n :: n in w.cells ==>
                  w5.cells[n].disabled == if n in Component(Topo(w.cells), x) then true else w.cells[n].disabled)
  {
    PutTopo(w1, x, w1.cells[x].(lease := Some(h)));
  }

  /** The two phases of the holder's constructor, put together. */
  lemma HolderStarted<T>(w: World<T>, w2: World<T>, w4: World<T>, h: CellId, x: CellId, revert: bool, unset: T)
    requires BoundHolderCells(w, w2, h, x, unset) && w2.next == h + 1
    requires x in Topo(w.cells) && h !in Topo(w.cells)
    requires Topo(w2.cells) == LinkFresh(Topo(w.cells), h, x)
    requires Component(LinkFresh(Topo(w.cells), h, x), h) == Component(Topo(w.cells), x) + {h}
    requires w4.cells.Keys == w2.cells.Keys && Topo(w4.cells) == Topo(w2.cells) && w4.next == w2.next
    requires w4.cells[h].kind == Holder(Some(x), revert, if revert then w2.cells[h].value else unset, w2.cells[h].disabled, false)
    requires forall n :: n in w2.cells ==> w4.cells[n].value == w2.cells[n].value && w4.cells[n].lease == w2.cells[n].lease
    requires forall n :: n in w2.cells ==> w4.cells[n].disabled == if n in Component(Topo(w2.cells), h) then true else w2.cells[n].disabled
    requires forall n :: n in w2.cells && n != h ==> w4.cells[n].kind == w2.cells[n].kind
    ensures HolderMade(w, w4, h, x, revert, unset)
  {
  }

  /**
   * `w2` is `w` after `LeasedBindableImpl(x, revert)` made holder `h`: the
   * holder records `x`, the revert flag, the value snapshot (only when
   * reverting) and `x`'s flag; it holds `x`'s value, is disabled and holds no
   * lease; it is linked to `x` alone; every cell of `x`'s component is
   * disabled; no value, lease or kind of an existing cell changes.
   */
  ghost predicate HolderMade<T>(w: World<T>, w2: World<T>, h: CellId, x: CellId, revert: bool, unset: T)
    requires x in Topo(w.cells) && h !in Topo(w.cells)
  {
    var xc := w.cells[x];
    && h !in w.cells && w2.cells.Keys == w.cells.Keys + {h} && w2.next == h + 1
    && w2.cells[h].kind == Holder(Some(x), revert, if revert then xc.value else unset, xc.disabled, false)
    && w2.cells[h].lease.None? && w2.cells[h].value == xc.value && w2.cells[h].disabled
    && Topo(w2.cells) == LinkFresh(Topo(w.cells), h, x)
    && (forall n :: n in w.cells ==>
          && w2.cells[n].value == w.cells[n].value
          && w2.cells[n].lease == w.cells[n].lease && w2.cells[n].kind == w.cells[n].kind)
    && (forall n :: n in w.cells ==>
          w2.cells[n].disabled == if n in Component(Topo(w.cells), x) then true else w.cells[n].disabled)
  }

  /** `w2` is `w` with the bound holder `h` added: it holds `x`'s value and flag; no other cell's fields differ. */
  ghost predicate BoundHolderCells<T>(w: World<T>, w2: World<T>, h: CellId, x: CellId, unset: T)
  {
    && h !in w.cells && h in w2.cells && x in w.cells && w2.cells.Keys == w.cells.Keys + {h}
    && w2.cells[h].value == w.cells[x].value && w2.cells[h].disabled == w.cells[x].disabled
    && w2.cells[h].lease.None? && w2.cells[h].kind == Holder(None, false, unset, false, false)
    && forall n :: n in w.cells ==>
         && w2.cells[n].value == w.cells[n].value && w2.cells[n].disabled == w.cells[n].disabled
         && w2.cells[n].lease == w.cells[n].lease && w2.cells[n].kind == w.cells[n].kind
  }

  /** The constructor's bind: the fresh holder takes `x`'s value and flag and is linked to `x`; no other cell's fields change. */
  lemma HolderBindPhase<T>(w: World<T>, w1: World<T>, w2: World<T>, x: CellId, unset: T)
    requires Ready(w) && IsAlive(w, x) && w1 == Alloc(w, Blank(LeasedVariant, unset))
    requires Ready(w1) && IsAlive(w1, w.next) && IsAlive(w1, x) && Forest(AddLink(Topo(w1.cells), w.next, x))
    requires w2 == BindTo(w1, w.next, x).1
    ensures BoundHolderCells(w, w2, w.next, x, unset) && w2.next == w.next + 1
    ensures Topo(w2.cells) == LinkFresh(Topo(w.cells), w.next, x)
  {
    var h := w.next;
    HolderLoneBind(w, w1, x, unset);
    assert AddLink(Topo(w1.cells), h, x) == LinkFresh(Topo(w.cells), h, x);
    BoundHolderFromCells(w, w1.cells, w2, h, x, unset);
  }

  /** The fresh holder has no handles and accepts both setters, so its bind to `x` completes as a lone bind. */
  lemma HolderLoneBind<T>(w: World<T>, w1: World<T>, x: CellId, unset: T)
    requires Ready(w) && IsAlive(w, x) && w1 == Alloc(w, Blank(LeasedVariant, unset))
    requires Ready(w1) && IsAlive(w1, w.next) && IsAlive(w1, x) && Forest(AddLink(Topo(w1.cells), w.next, x))
    ensures w.next !in w.cells && Topo(w1.cells) == Topo(w.cells)[w.next := []]
    ensures var r := BindTo(w1, w.next, x);
            && r.0 == Done
            && r.1.cells == w1.cells[w.next := w1.cells[w.next].(value := w1.cells[x].value, disabled := w1.cells[x].disabled, links := [x])]
                                    [x := w1.cells[x].(links := w1.cells[x].links + [w.next])]
  {
    AllocTopo(w, Blank(LeasedVariant, unset));
    LoneBindCells(w1, w.next, x);
  }

  /** The arena update of that bind, read field by field. */
  lemma BoundHolderFromCells<T>(w: World<T>, c1: Cells<T>, w2: World<T>, h: CellId, x: CellId, unset: T)
    requires h !in w.cells && x in w.cells
    requires c1 == w.cells[h := Blank(LeasedVariant, unset)]
    requires w2.cells == c1[h := c1[h].(value := c1[x].value, disabled := c1[x].disabled, links := [x])]
                           [x := c1[x].(links := c1[x].links + [h])]
    ensures BoundHolderCells(w, w2, h, x, unset)
  {
  }

  /** The constructor's bind never refuses, so construction goes on to the holder's own fields. */
  lemma NewHolderShape<T>(w: World<T>, x: CellId, revert: bool, unset: T)
    requires Ready(w) && IsAlive(w, x)
    ensures var h := w.next;
            var w1 := Alloc(w, Blank(LeasedVariant, unset));
            && Ready(w1) && IsAlive(w1, h) && IsAlive(w1, x) && Forest(AddLink(Topo(w1.cells), h, x))
            && var w2 := BindTo(w1, h, x).1;
            && Ready(w2) && IsAlive(w2, h) && IsAlive(w2, x) && w2.cells[h].kind.Holder?
            && NewHolder(w, x, revert, unset) == StartHolder(w2, h, x, revert, unset)
  {
    var h := w.next;
    var w1 := Alloc(w, Blank(LeasedVariant, unset));
    FreshHolderReady(w, x, unset);
    AllocTopo(w, Blank(LeasedVariant, unset));
    assert AddLink(Topo(w1.cells), h, x) == LinkFresh(Topo(w.cells), h, x);
    CopyBindDone(w1, h, x);
    var w2 := BindTo(w1, h, x).1;
    HolderBound(w1, w2, h, x);
  }

  // ---------------------------------------------------------------------------
  // Returning a lease

  /**
   * `h.returnLease()` twice: once the first call has answered, whether it
   * returned the lease or found it returned already, the second call
   * answers `false` and changes nothing.
   */
  lemma ReturnLeaseTwice<T>(w: World<T>, h: CellId)
    requires Ready(w) && IsAlive(w, h) && w.cells[h].kind.Holder?
    ensures var r := ReturnLease(w, h);
            r.0.Ok? ==> IsAlive(r.1, h) && r.1.cells[h].kind.Holder? && ReturnLease(r.1, h) == (Ok(false), r.1)
  {
  }
}
