/**
 * The shape of a propagation wave over the live link graph.
 *
 * A change entering cell n is pushed to every live peer of n except the peer
 * it came from (the "sender"); each peer does the same. The wave therefore
 * follows walks that never step straight back to the previous cell. This
 * module describes those walks, the condition under which they stay finite
 * (`Forest`), and, as the trace function `Wave`, the order in which a wave
 * enters cells, the order in which cells finish (and fire their observers),
 * and where a guarded wave stops.
 */
module Waves {
  import opened Base

  /** For each cell, its live peers in link-list order. */
  type Topology = map<CellId, seq<CellId>>

  function Last(path: seq<CellId>): CellId
    requires |path| > 0
  {
    path[|path| - 1]
  }

  /** The cell a wave came from when it reached the end of `path`; the initiator is its own sender. */
  function Sender(path: seq<CellId>): CellId
    requires |path| > 0
  {
    if |path| == 1 then path[0] else path[|path| - 2]
  }

  /** Step i of `w` follows a live link and does not go straight back to the sender. */
  ghost predicate Step(t: Topology, w: seq<CellId>, i: int)
    requires 1 <= i < |w|
  {
    && w[i - 1] in t
    && w[i] in t
    && w[i] in t[w[i - 1]]
    && w[i] != (if i == 1 then w[0] else w[i - 2])
  }

  /** A path the propagation can take, starting at its initiator `w[0]`. */
  ghost predicate IsWave(t: Topology, w: seq<CellId>)
  {
    && |w| > 0
    && w[0] in t
    && Last(w) in t
    && forall i :: 1 <= i < |w| ==> Step(t, w, i)
  }

  /** Step i of `w` follows a live link. */
  ghost predicate Hop(t: Topology, w: seq<CellId>, i: int)
    requires 1 <= i < |w|
  {
    w[i] in t && w[i - 1] in t && w[i] in t[w[i - 1]]
  }

  /** A path along live links, with no restriction on going back. */
  ghost predicate IsPath(t: Topology, w: seq<CellId>)
  {
    && |w| > 0
    && w[0] in t
    && Last(w) in t
    && forall i :: 1 <= i < |w| ==> Hop(t, w, i)
  }

  ghost predicate Distinct(w: seq<CellId>)
  {
    forall i, j :: 0 <= i < j < |w| ==> w[i] != w[j]
  }

  /** Every live link leads to a cell of the arena. */
  ghost predicate Closed(t: Topology)
  {
    forall n, p :: n in t && p in t[n] ==> p in t
  }

  ghost predicate NoSelfLinks(t: Topology)
  {
    forall n :: n in t ==> n !in t[n]
  }

  /**
   * The live link graph has no cycle: no self link, and no wave enters the
   * same cell twice. This is enough for propagation to terminate (lemma
   * WaveLength), though not necessary: a self link breaks it and its waves
   * still end, since a wave skips every handle equal to its sender. On a
   * cycle of three or more cells the recursion does not end (lemma
   * CycleIsNotForest).
   */
  ghost predicate Forest(t: Topology)
  {
    && Closed(t)
    && NoSelfLinks(t)
    && forall w :: IsWave(t, w) ==> Distinct(w)
  }

  /** `t1` has some of the cells of `t2` and only links that `t2` also has. */
  ghost predicate SubTopology(t1: Topology, t2: Topology)
  {
    && t1.Keys <= t2.Keys
    && forall n, p :: n in t1 && p in t1[n] ==> p in t2[n]
  }

  /** The topology after linking `a` to `b` as bindTo does: `b` appended to `a`'s list, then `a` to `b`'s. */
  function AddLink(t: Topology, a: CellId, b: CellId): Topology
    requires a in t && b in t
  {
    var t1 := t[a := t[a] + [b]];
    t1[b := t1[b] + [a]]
  }

  // ---------------------------------------------------------------------------
  // Basic facts about waves

  lemma ExtendWave(t: Topology, w: seq<CellId>, p: CellId)
    requires IsWave(t, w) && p in t && Last(w) in t && p in t[Last(w)] && p != Sender(w)
    ensures IsWave(t, w + [p])
  {
    var w' := w + [p];
    forall i | 1 <= i < |w'|
      ensures Step(t, w', i)
    {
      if i < |w| {
        assert Step(t, w, i);
      }
    }
  }

  lemma WavePrefix(t: Topology, w: seq<CellId>, k: int)
    requires IsWave(t, w) && 1 <= k <= |w|
    ensures IsWave(t, w[..k])
  {
    var v := w[..k];
    forall i | 1 <= i < |v|
      ensures Step(t, v, i)
    {
      assert Step(t, w, i);
    }
    if k > 1 {
      assert Step(t, w, k - 1);
    }
  }

  lemma WaveInKeys(t: Topology, w: seq<CellId>)
    requires IsWave(t, w)
    ensures forall i :: 0 <= i < |w| ==> w[i] in t
  {
    forall i | 1 <= i < |w|
      ensures w[i] in t
    {
      assert Step(t, w, i);
    }
  }

  /** A sequence of distinct members of `s` is no longer than `s` is large. */
  lemma {:induction false} DistinctBound(w: seq<CellId>, s: set<CellId>)
    requires Distinct(w)
    requires forall i :: 0 <= i < |w| ==> w[i] in s
    ensures |w| <= |s|
  {
    if |w| > 0 {
      var rest := w[1..];
      forall i | 0 <= i < |rest|
        ensures rest[i] in s - {w[0]}
      {
        assert rest[i] == w[i + 1];
      }
      DistinctBound(rest, s - {w[0]});
    }
  }

  /** On a forest a wave is never longer than the arena has cells: propagation depth is bounded. */
  lemma WaveLength(t: Topology, w: seq<CellId>)
    requires Forest(t) && IsWave(t, w)
    ensures |w| <= |t.Keys|
  {
    WaveInKeys(t, w);
    DistinctBound(w, t.Keys);
  }

  /** A path that visits each cell once is a wave. */
  lemma SimplePathIsWave(t: Topology, w: seq<CellId>)
    requires IsPath(t, w) && Distinct(w)
    ensures IsWave(t, w)
  {
    forall i | 1 <= i < |w|
      ensures Step(t, w, i)
    {
      assert Hop(t, w, i);
    }
  }

  /** On a forest every wave is a path that visits each cell once. */
  lemma WaveIsSimplePath(t: Topology, w: seq<CellId>)
    requires Forest(t) && IsWave(t, w)
    ensures IsPath(t, w) && Distinct(w)
  {
    forall i | 1 <= i < |w|
      ensures Hop(t, w, i)
    {
      assert Step(t, w, i);
    }
  }

  /**
   * A cycle of three or more distinct cells is not a forest: the wave can go
   * round it and come back to where it started, so the propagation of the
   * source recurses without end on it.
   */
  lemma CycleIsNotForest(t: Topology, c: seq<CellId>)
    requires |c| >= 3 && IsPath(t, c) && Distinct(c)
    requires c[0] in t[Last(c)]
    ensures !Forest(t)
  {
    SimplePathIsWave(t, c);
    ExtendWave(t, c, c[0]);
    var w := c + [c[0]];
    assert w[0] == w[|c|];
  }

  /** Removing links or cells keeps a forest a forest. */
  lemma SubForest(t1: Topology, t2: Topology)
    requires Forest(t2) && SubTopology(t1, t2) && Closed(t1)
    ensures Forest(t1)
  {
    forall w | IsWave(t1, w)
      ensures Distinct(w)
    {
      forall i | 1 <= i < |w|
        ensures Step(t2, w, i)
      {
        assert Step(t1, w, i);
      }
      assert IsWave(t2, w);
    }
  }

  /**
   * Removing the links between `a` and `b` disconnects them when the link
   * from `b` back to `a` was the only way round: on a forest, no path leads
   * from `a` to `b` any more once `b` is no longer among `a`'s peers.
   */
  lemma CutSeparates(t: Topology, t1: Topology, a: CellId, b: CellId)
    requires Forest(t) && SubTopology(t1, t) && b in t && a in t[b]
    requires a in t1 ==> b !in t1[a]
    ensures !Reaches(t1, a, b)
  {
    if Reaches(t1, a, b) {
      var w :| IsPath(t1, w) && Distinct(w) && w[0] == a && Last(w) == b;
      assert a != b && |w| >= 2;
      assert Hop(t1, w, 1);
      assert |w| >= 3;
      forall i | 1 <= i < |w|
        ensures Hop(t, w, i)
      {
        assert Hop(t1, w, i);
      }
      CycleIsNotForest(t, w);
      assert false;
    }
  }

  /** A fresh cell with no links added to a forest leaves a forest. */
  lemma IsolatedForest(t: Topology, f: CellId)
    requires Forest(t) && f !in t
    ensures Forest(t[f := []])
  {
    var t2 := t[f := []];
    forall v | IsWave(t2, v) && |v| > 1
      ensures Distinct(v)
    {
      forall i | 0 <= i < |v| ensures v[i] in t {
        assert Step(t2, v, if i == 0 then 1 else i);
      }
      forall i | 1 <= i < |v| ensures Step(t, v, i) {
        assert Step(t2, v, i);
      }
    }
  }

  /** A fresh cell `f` linked to `a` of a forest, as the first bindTo of a new cell does. */
  function LinkFresh(t: Topology, f: CellId, a: CellId): Topology
    requires a in t && f !in t
  {
    AddLink(t[f := []], f, a)
  }

  /** In `LinkFresh(t, f, a)` only `a` has the fresh cell as a peer, and `a` is its only peer. */
  lemma FreshPeers(t: Topology, f: CellId, a: CellId, x: CellId)
    requires a in t && f !in t && Closed(t)
    requires x in LinkFresh(t, f, a)
    ensures LinkFresh(t, f, a)[f] == [a]
    ensures f in LinkFresh(t, f, a)[x] <==> x == a
    ensures x != f && x != a ==> LinkFresh(t, f, a)[x] == t[x]
    ensures x == a ==> LinkFresh(t, f, a)[x] == t[a] + [f]
  {
    var t2 := LinkFresh(t, f, a);
    if x != f && x != a {
      assert t2[x] == t[x];
    }
  }

  /** In `LinkFresh(t, f, a)` the fresh cell appears on a wave only at its ends. */
  lemma FreshAtEnds(t: Topology, f: CellId, a: CellId, w: seq<CellId>, i: int)
    requires a in t && f !in t && Closed(t) && IsWave(LinkFresh(t, f, a), w)
    requires 0 < i < |w| - 1
    ensures w[i] != f
  {
    var t2 := LinkFresh(t, f, a);
    assert Step(t2, w, i) && Step(t2, w, i + 1);
    FreshPeers(t, f, a, w[i - 1]);
    if w[i - 1] == a {
      FreshPeers(t, f, a, w[i]);
      assert w[i + 1] != a;
    }
  }

  /** Between the ends, a wave of `LinkFresh(t, f, a)` is a wave of `t`. */
  lemma FreshInner(t: Topology, f: CellId, a: CellId, w: seq<CellId>, lo: int, hi: int)
    requires a in t && f !in t && Closed(t) && NoSelfLinks(t) && IsWave(LinkFresh(t, f, a), w)
    requires 0 <= lo < hi <= |w| && forall i :: lo <= i < hi ==> w[i] != f
    ensures IsWave(t, w[lo..hi])
  {
    var t2 := LinkFresh(t, f, a);
    var v := w[lo..hi];
    WaveInKeys(t2, w);
    assert v[0] == w[lo] && v[0] in t;
    forall i | 1 <= i < |v|
      ensures Step(t, v, i)
    {
      assert v[i] == w[lo + i] && v[i - 1] == w[lo + i - 1];
      assert Step(t2, w, lo + i);
      FreshPeers(t, f, a, v[i - 1]);
      assert v[i] in t[v[i - 1]];
      if i >= 2 {
        assert v[i - 2] == w[lo + i - 2];
      }
    }
    if |v| > 1 {
      assert Step(t, v, |v| - 1);
    }
  }

  /** A wave of `LinkFresh(t, f, a)` that starts at the fresh cell does not end there. */
  lemma FreshNotBothEnds(t: Topology, f: CellId, a: CellId, w: seq<CellId>)
    requires Forest(t) && a in t && f !in t && IsWave(LinkFresh(t, f, a), w)
    requires |w| > 1 && w[0] == f
    ensures Last(w) != f
  {
    var t2 := LinkFresh(t, f, a);
    var n := |w|;
    assert Step(t2, w, 1);
    FreshPeers(t, f, a, f);
    assert w[1] == a;
    if n == 3 {
      assert Step(t2, w, 2);
    } else if n > 3 {
      forall i | 1 <= i < n - 1 ensures w[i] != f {
        FreshAtEnds(t, f, a, w, i);
      }
      FreshInner(t, f, a, w, 1, n - 1);
      var v := w[1..n - 1];
      assert v[0] == a && v[n - 3] == w[n - 2];
      assert w[n - 2] != a;
      assert Step(t2, w, n - 1);
      FreshPeers(t, f, a, w[n - 2]);
    }
  }

  /** Linking a fresh cell to one cell of a forest keeps it a forest. */
  lemma LinkFreshForest(t: Topology, f: CellId, a: CellId)
    requires Forest(t) && a in t && f !in t
    ensures Forest(LinkFresh(t, f, a))
  {
    var t2 := LinkFresh(t, f, a);
    forall n, p | n in t2 && p in t2[n]
      ensures p in t2
    {
      FreshPeers(t, f, a, n);
    }
    forall n | n in t2
      ensures n !in t2[n]
    {
      FreshPeers(t, f, a, n);
    }
    forall w | IsWave(t2, w)
      ensures Distinct(w)
    {
      var n := |w|;
      forall i | 0 < i < n - 1 ensures w[i] != f {
        FreshAtEnds(t, f, a, w, i);
      }
      if n > 1 && w[0] == f {
        FreshNotBothEnds(t, f, a, w);
      }
      var lo := if w[0] == f then 1 else 0;
      var hi := if n > 1 && w[n - 1] == f then n - 1 else n;
      assert forall k :: lo <= k < hi ==> w[k] != f;
      if lo < hi {
        FreshInner(t, f, a, w, lo, hi);
        assert Distinct(w[lo..hi]);
      }
      forall i, j | 0 <= i < j < n
        ensures w[i] != w[j]
      {
        if lo <= i && j < hi {
          assert w[i] == w[lo..hi][i - lo] && w[j] == w[lo..hi][j - lo];
        }
      }
    }
  }

  // ---------------------------------------------------------------------------
  // The wave trace

  /**
   * What a wave does below the end of `path`, after visiting the first `i`
   * live peers of that cell:
   * - `entered`: the cells it entered (wrote to), in the order it entered them;
   * - `completed`: the cells that finished (fired their observers), in order;
   * - `ok`: false when it reached a cell of `blocked` and stopped there.
   * A value wave and a bypassing disabled wave have no blocked cells; a
   * guarded disabled wave is blocked by every leased cell.
   */
  datatype Trace = Trace(entered: seq<CellId>, completed: seq<CellId>, ok: bool)

  ghost function Wave(t: Topology, blocked: set<CellId>, path: seq<CellId>, i: nat): Trace
    requires Forest(t) && IsWave(t, path) && i <= |t[Last(path)]|
    decreases |t.Keys| - |path|, i
  {
    if i == 0 then Trace([], [], true)
    else
      var a := Wave(t, blocked, path, i - 1);
      var p := t[Last(path)][i - 1];
      if !a.ok || p == Sender(path) then a
      else if p in blocked then Trace(a.entered, a.completed, false)
      else
        ExtendWave(t, path, p);
        WaveLength(t, path + [p]);
        var b := Wave(t, blocked, path + [p], |t[p]|);
        Trace(a.entered + [p] + b.entered, a.completed + b.completed + (if b.ok then [p] else []), b.ok)
  }

  /** The complete wave below the end of `path`. */
  ghost function FullWave(t: Topology, blocked: set<CellId>, path: seq<CellId>): Trace
    requires Forest(t) && IsWave(t, path)
  {
    Wave(t, blocked, path, |t[Last(path)]|)
  }

  /** Cells that a wave leaving the end of `path` can reach. */
  ghost predicate Below(t: Topology, path: seq<CellId>, m: CellId)
  {
    exists w :: |w| > 0 && IsWave(t, path + w) && Last(w) == m
  }

  /** Cells joined to `a` by a path that visits each cell once. */
  ghost predicate Reaches(t: Topology, a: CellId, b: CellId)
  {
    exists w :: IsPath(t, w) && Distinct(w) && w[0] == a && Last(w) == b
  }

  /** Nothing blocks a wave without blocked cells. */
  lemma {:induction false} UnblockedWaveOk(t: Topology, path: seq<CellId>, i: nat)
    requires Forest(t) && IsWave(t, path) && i <= |t[Last(path)]|
    ensures Wave(t, {}, path, i).ok
    decreases |t.Keys| - |path|, i
  {
    if i > 0 {
      UnblockedWaveOk(t, path, i - 1);
      var p := t[Last(path)][i - 1];
      if p != Sender(path) {
        ExtendWave(t, path, p);
        WaveLength(t, path + [p]);
        UnblockedWaveOk(t, path + [p], |t[p]|);
      }
    }
  }

  /** Once a wave has stopped, the later peers add nothing. */
  lemma {:induction false} WaveStops(t: Topology, blocked: set<CellId>, path: seq<CellId>, i: nat, k: nat)
    requires Forest(t) && IsWave(t, path) && i <= k <= |t[Last(path)]|
    requires !Wave(t, blocked, path, i).ok
    ensures Wave(t, blocked, path, k) == Wave(t, blocked, path, i)
    decreases k
  {
    if i < k {
      WaveStops(t, blocked, path, i, k - 1);
    }
  }

  /** One more peer of the end of `path`: the wave into that peer, added to the trace so far. */
  lemma WaveUnfold(t: Topology, blocked: set<CellId>, path: seq<CellId>, i: nat)
    requires Forest(t) && IsWave(t, path) && 0 < i <= |t[Last(path)]|
    ensures var a := Wave(t, blocked, path, i - 1);
            var p := t[Last(path)][i - 1];
            a.ok && p != Sender(path) && p !in blocked ==>
              IsWave(t, path + [p]) &&
              var b := Wave(t, blocked, path + [p], |t[p]|);
              Wave(t, blocked, path, i) == Trace(a.entered + [p] + b.entered, a.completed + b.completed + (if b.ok then [p] else []), b.ok)
  {
    var p := t[Last(path)][i - 1];
    if p != Sender(path) {
      ExtendWave(t, path, p);
    }
  }

  /** A trace that was not stopped completed each entered cell once per entry. */
  ghost predicate Balanced(r: Trace)
  {
    r.ok ==> multiset(r.entered) == multiset(r.completed)
  }

  /**
   * A wave that is not stopped completes every cell it entered, each exactly
   * once per entry: the observers fire once per write.
   */
  lemma {:induction false} CompletedIsEntered(t: Topology, blocked: set<CellId>, path: seq<CellId>, i: nat)
    requires Forest(t) && IsWave(t, path) && i <= |t[Last(path)]|
    ensures Balanced(Wave(t, blocked, path, i))
    decreases |t.Keys| - |path|, i
  {
    if i > 0 {
      var a := Wave(t, blocked, path, i - 1);
      CompletedIsEntered(t, blocked, path, i - 1);
      assert Balanced(a);
      var p := t[Last(path)][i - 1];
      if a.ok && p != Sender(path) && p !in blocked {
        WaveUnfold(t, blocked, path, i);
        WaveLength(t, path + [p]);
        var b := Wave(t, blocked, path + [p], |t[p]|);
        CompletedIsEntered(t, blocked, path + [p], |t[p]|);
        assert Balanced(b);
        TraceJoinBalanced(a, p, b);
      }
    }
  }

  /** Joining a balanced trace, a peer and the peer's balanced wave gives a balanced trace. */
  lemma TraceJoinBalanced(a: Trace, p: CellId, b: Trace)
    requires a.ok && Balanced(a) && Balanced(b)
    ensures Balanced(Trace(a.entered + [p] + b.entered, a.completed + b.completed + (if b.ok then [p] else []), b.ok))
  {
    if b.ok {
      calc {
        multiset(a.entered + [p] + b.entered);
        multiset(a.entered) + multiset{p} + multiset(b.entered);
        multiset(a.completed) + multiset(b.completed) + multiset{p};
        multiset(a.completed + b.completed + [p]);
      }
    }
  }

  /** The cells entered after i peers stay entered after more peers. */
  lemma {:induction false} EnteredGrows(t: Topology, blocked: set<CellId>, path: seq<CellId>, i: nat, k: nat)
    requires Forest(t) && IsWave(t, path) && i <= k <= |t[Last(path)]|
    ensures var a := Wave(t, blocked, path, i).entered;
            var b := Wave(t, blocked, path, k).entered;
            |a| <= |b| && a == b[..|a|]
    decreases k
  {
    if i < k {
      EnteredGrows(t, blocked, path, i, k - 1);
    }
  }

  /** A cell below a child is below the parent. */
  lemma BelowChild(t: Topology, path: seq<CellId>, p: CellId, m: CellId)
    requires IsWave(t, path + [p])
    requires m == p || Below(t, path + [p], m)
    ensures Below(t, path, m)
  {
    if m == p {
      ChildIsBelow(t, path, p);
    } else {
      var w :| |w| > 0 && IsWave(t, path + [p] + w) && Last(w) == m;
      DescendantIsBelow(t, path, p, w);
    }
  }

  /** A child is below its parent. */
  lemma ChildIsBelow(t: Topology, path: seq<CellId>, p: CellId)
    requires IsWave(t, path + [p])
    ensures Below(t, path, p)
  {
    var w := [p];
    assert Last(w) == p;
  }

  /** The end of a walk that continues through a child is below the parent. */
  lemma DescendantIsBelow(t: Topology, path: seq<CellId>, p: CellId, w: seq<CellId>)
    requires |w| > 0 && IsWave(t, path + [p] + w)
    ensures Below(t, path, Last(w))
  {
    var w2 := [p] + w;
    AppendAssoc(path, [p], w);
    assert Last(w2) == Last(w);
  }

  /** Everything a wave enters lies below the end of its path. */
  lemma {:induction false} EnteredIsBelow(t: Topology, blocked: set<CellId>, path: seq<CellId>, i: nat, m: CellId)
    requires Forest(t) && IsWave(t, path) && i <= |t[Last(path)]|
    requires m in Wave(t, blocked, path, i).entered
    ensures Below(t, path, m)
    decreases |t.Keys| - |path|, i
  {
    var a := Wave(t, blocked, path, i - 1);
    var p := t[Last(path)][i - 1];
    if m in a.entered {
      EnteredIsBelow(t, blocked, path, i - 1, m);
    } else {
      assert a.ok && p != Sender(path) && p !in blocked;
      ExtendWave(t, path, p);
      WaveLength(t, path + [p]);
      var b := Wave(t, blocked, path + [p], |t[p]|);
      assert Wave(t, blocked, path, i).entered == a.entered + [p] + b.entered;
      if m != p {
        EnteredIsBelow(t, blocked, path + [p], |t[p]|, m);
      }
      BelowChild(t, path, p, m);
    }
  }

  /** A wave without blocked cells enters everything below the end of its path. */
  lemma {:induction false} BelowIsEntered(t: Topology, path: seq<CellId>, w: seq<CellId>)
    requires Forest(t) && IsWave(t, path) && |w| > 0 && IsWave(t, path + w)
    ensures Last(w) in FullWave(t, {}, path).entered
    decreases |w|
  {
    var n := Last(path);
    var full := path + w;
    var p := w[0];
    assert Step(t, full, |path|);
    assert full[|path| - 1] == n && full[|path|] == p;
    assert p != Sender(path);
    var j :| 0 <= j < |t[n]| && t[n][j] == p;
    ExtendWave(t, path, p);
    WaveLength(t, path + [p]);
    UnblockedWaveOk(t, path, j);
    var whole := Wave(t, {}, path, j + 1);
    var child := Wave(t, {}, path + [p], |t[p]|);
    assert whole.entered == Wave(t, {}, path, j).entered + [p] + child.entered;
    EnteredGrows(t, {}, path, j + 1, |t[n]|);
    var fullEntered := FullWave(t, {}, path).entered;
    assert whole.entered == fullEntered[..|whole.entered|];
    if |w| == 1 {
      assert p in whole.entered;
    } else {
      AppendAssoc(path, [p], w[1..]);
      assert [p] + w[1..] == w;
      BelowIsEntered(t, path + [p], w[1..]);
      assert Last(w[1..]) == Last(w);
      assert Last(w) in whole.entered;
    }
  }

  /**
   * On a forest, the cells a change reaches (the initiator and every cell
   * the wave enters) are exactly the cells joined to the initiator by links.
   */
  lemma WaveReachesComponent(t: Topology, n: CellId, m: CellId)
    requires Forest(t) && n in t
    ensures IsWave(t, [n])
    ensures m == n || m in FullWave(t, {}, [n]).entered <==> Reaches(t, n, m)
  {
    assert IsWave(t, [n]);
    if m == n {
      assert IsPath(t, [n]) && Distinct([n]);
    } else if m in FullWave(t, {}, [n]).entered {
      EnteredIsBelow(t, {}, [n], |t[n]|, m);
      var w :| |w| > 0 && IsWave(t, [n] + w) && Last(w) == m;
      WaveIsSimplePath(t, [n] + w);
    } else if Reaches(t, n, m) {
      var v :| IsPath(t, v) && Distinct(v) && v[0] == n && Last(v) == m;
      SimplePathIsWave(t, v);
      assert v == [n] + v[1..];
      BelowIsEntered(t, [n], v[1..]);
      assert false;
    }
  }

  /** Below a single initiator lie exactly the other cells joined to it. */
  lemma BelowIffReaches(t: Topology, n: CellId, m: CellId)
    requires Forest(t) && n in t
    ensures Below(t, [n], m) <==> m != n && Reaches(t, n, m)
  {
    if Below(t, [n], m) {
      var w :| |w| > 0 && IsWave(t, [n] + w) && Last(w) == m;
      WaveIsSimplePath(t, [n] + w);
      assert ([n] + w)[0] == n && ([n] + w)[|w|] == m;
    }
    if m != n && Reaches(t, n, m) {
      var v :| IsPath(t, v) && Distinct(v) && v[0] == n && Last(v) == m;
      SimplePathIsWave(t, v);
      assert v == [n] + v[1..];
    }
  }

  /** A guarded wave never enters a blocked cell. */
  lemma {:induction false} EnteredNotBlocked(t: Topology, blocked: set<CellId>, path: seq<CellId>, i: nat)
    requires Forest(t) && IsWave(t, path) && i <= |t[Last(path)]|
    ensures forall m :: m in Wave(t, blocked, path, i).entered ==> m !in blocked
    decreases |t.Keys| - |path|, i
  {
    if i > 0 {
      EnteredNotBlocked(t, blocked, path, i - 1);
      var a := Wave(t, blocked, path, i - 1);
      var p := t[Last(path)][i - 1];
      if a.ok && p != Sender(path) && p !in blocked {
        WaveUnfold(t, blocked, path, i);
        WaveLength(t, path + [p]);
        EnteredNotBlocked(t, blocked, path + [p], |t[p]|);
      }
    }
  }

  /** A guarded wave that was not stopped did exactly what the unguarded wave does. */
  lemma {:induction false} OkWaveIsUnguarded(t: Topology, blocked: set<CellId>, path: seq<CellId>, i: nat)
    requires Forest(t) && IsWave(t, path) && i <= |t[Last(path)]|
    ensures Wave(t, blocked, path, i).ok ==> Wave(t, blocked, path, i) == Wave(t, {}, path, i)
    decreases |t.Keys| - |path|, i
  {
    if i > 0 {
      var a := Wave(t, blocked, path, i - 1);
      OkWaveIsUnguarded(t, blocked, path, i - 1);
      var p := t[Last(path)][i - 1];
      if a.ok && p != Sender(path) && p !in blocked {
        WaveUnfold(t, blocked, path, i);
        WaveUnfold(t, {}, path, i);
        WaveLength(t, path + [p]);
        OkWaveIsUnguarded(t, blocked, path + [p], |t[p]|);
      }
    }
  }

  /** A guarded wave that was stopped met a blocked cell below the end of its path. */
  lemma {:induction false} StoppedAtBlocked(t: Topology, blocked: set<CellId>, path: seq<CellId>, i: nat)
    requires Forest(t) && IsWave(t, path) && i <= |t[Last(path)]|
    requires !Wave(t, blocked, path, i).ok
    ensures exists m :: m in blocked && Below(t, path, m)
    decreases |t.Keys| - |path|, i
  {
    var a := Wave(t, blocked, path, i - 1);
    var p := t[Last(path)][i - 1];
    if !a.ok {
      StoppedAtBlocked(t, blocked, path, i - 1);
    } else {
      assert p != Sender(path);
      ExtendWave(t, path, p);
      if p in blocked {
        BelowChild(t, path, p, p);
      } else {
        WaveLength(t, path + [p]);
        StoppedAtBlocked(t, blocked, path + [p], |t[p]|);
        var m :| m in blocked && Below(t, path + [p], m);
        BelowChild(t, path, p, m);
      }
    }
  }

  /**
   * On a forest, a guarded wave started at `n` runs to the end exactly when
   * no blocked cell other than `n` is joined to `n`; then it enters what the
   * unguarded wave enters.
   */
  lemma GuardedWaveOk(t: Topology, blocked: set<CellId>, n: CellId)
    requires Forest(t) && n in t
    ensures IsWave(t, [n])
    ensures FullWave(t, blocked, [n]).ok <==> forall m :: m in blocked && m != n ==> !Reaches(t, n, m)
    ensures FullWave(t, blocked, [n]).ok ==> FullWave(t, blocked, [n]) == FullWave(t, {}, [n])
  {
    assert IsWave(t, [n]);
    var k := |t[n]|;
    OkWaveIsUnguarded(t, blocked, [n], k);
    if FullWave(t, blocked, [n]).ok {
      EnteredNotBlocked(t, blocked, [n], k);
      forall m | m in blocked && m != n
        ensures !Reaches(t, n, m)
      {
        WaveReachesComponent(t, n, m);
      }
    } else {
      StoppedAtBlocked(t, blocked, [n], k);
      var m :| m in blocked && Below(t, [n], m);
      BelowIffReaches(t, n, m);
    }
  }

  /** Adding links keeps every cell reachable that was. */
  lemma ReachesGrows(t1: Topology, t2: Topology, a: CellId, b: CellId)
    requires SubTopology(t1, t2) && Reaches(t1, a, b)
    ensures Reaches(t2, a, b)
  {
    var v :| IsPath(t1, v) && Distinct(v) && v[0] == a && Last(v) == b;
    forall i | 1 <= i < |v|
      ensures Hop(t2, v, i)
    {
      assert Hop(t1, v, i);
    }
    assert IsPath(t2, v);
  }

  /**
   * Two cells not yet linked whose link keeps the graph a forest were not
   * joined before: the new link would otherwise close a cycle.
   */
  lemma LinkedApart(t: Topology, a: CellId, b: CellId)
    requires a in t && b in t && b !in t[a] && Forest(AddLink(t, a, b))
    ensures a != b && !Reaches(t, a, b)
  {
    var t2 := AddLink(t, a, b);
    assert b in t2[a] && a !in t2[a];
    if Reaches(t, a, b) {
      var v :| IsPath(t, v) && Distinct(v) && v[0] == a && Last(v) == b;
      assert Hop(t, v, 1);
      forall i | 1 <= i < |v|
        ensures Hop(t2, v, i)
      {
        assert Hop(t, v, i);
      }
      assert a in t2[b];
      CycleIsNotForest(t2, v);
    }
  }
}
