/**
 * The list of weak handles a cell keeps to its peers (`WeakReferenceList` in
 * both library generations).
 *
 * A handle is the peer's `CellId`; whether its referent is still alive is
 * given by the set `alive` of live cells, which stands in for the garbage
 * collector. The list keeps dead handles until a traversal purges them.
 */
module LinkList {
  import opened Base

  /** The entries whose referent is alive, in list order. */
  function Live(l: seq<CellId>, alive: set<CellId>): (r: seq<CellId>)
  {
    if l == [] then []
    else if l[0] in alive then [l[0]] + Live(l[1..], alive)
    else Live(l[1..], alive)
  }

  /** The list without its first entry equal to `e`; unchanged when there is none. */
  function RemoveFirst(l: seq<CellId>, e: CellId): (r: seq<CellId>)
  {
    if l == [] then []
    else if l[0] == e then l[1..]
    else [l[0]] + RemoveFirst(l[1..], e)
  }

  /** The position of the first entry equal to `e`. */
  function IndexOf(l: seq<CellId>, e: CellId): (k: nat)
    requires e in l
    ensures k < |l| && l[k] == e && e !in l[..k]
  {
    if l[0] == e then 0 else 1 + IndexOf(l[1..], e)
  }

  /** The purge keeps exactly the live entries, each as often as it occurs, in order. */
  lemma {:induction false} LiveKeepsLiveEntries(l: seq<CellId>, alive: set<CellId>)
    ensures var r := Live(l, alive);
            |r| <= |l| && (forall x :: x in r <==> x in l && x in alive)
    ensures forall x :: multiset(Live(l, alive))[x] == if x in alive then multiset(l)[x] else 0
  {
    if l != [] {
      LiveKeepsLiveEntries(l[1..], alive);
      assert l == [l[0]] + l[1..];
    }
  }

  /** Purging twice is purging once. */
  lemma {:induction false} LiveIdempotent(l: seq<CellId>, alive: set<CellId>)
    ensures Live(Live(l, alive), alive) == Live(l, alive)
  {
    if l != [] {
      LiveIdempotent(l[1..], alive);
      if l[0] in alive {
        var r := [l[0]] + Live(l[1..], alive);
        assert r[0] == l[0] && r[1..] == Live(l[1..], alive);
      }
    }
  }

  /** The purge works entry by entry, so it distributes over concatenation. */
  lemma {:induction false} LiveAppend(l: seq<CellId>, u: seq<CellId>, alive: set<CellId>)
    ensures Live(l + u, alive) == Live(l, alive) + Live(u, alive)
  {
    if l == [] {
      assert l + u == u;
    } else {
      assert (l + u)[0] == l[0] && (l + u)[1..] == l[1..] + u;
      LiveAppend(l[1..], u, alive);
    }
  }

  /** Only the liveness of the listed cells matters to the purge. */
  lemma {:induction false} LiveOnlyListed(l: seq<CellId>, a1: set<CellId>, a2: set<CellId>)
    requires forall x :: x in l ==> (x in a1 <==> x in a2)
    ensures Live(l, a1) == Live(l, a2)
  {
    if l != [] {
      assert l[0] in l;
      forall x | x in l[1..] ensures x in l { }
      LiveOnlyListed(l[1..], a1, a2);
    }
  }

  /** Removing a handle that is not in the list changes nothing. */
  lemma {:induction false} RemoveAbsent(l: seq<CellId>, e: CellId)
    requires e !in l
    ensures RemoveFirst(l, e) == l
  {
    if l != [] {
      assert l[0] != e && e !in l[1..];
      RemoveAbsent(l[1..], e);
      assert l == [l[0]] + l[1..];
    }
  }

  /** Removing a handle just appended to a list that did not hold it gives the list back. */
  lemma {:induction false} RemoveAppended(l: seq<CellId>, e: CellId)
    requires e !in l
    ensures RemoveFirst(l + [e], e) == l
  {
    if l == [] {
      assert [] + [e] == [e];
    } else {
      assert (l + [e])[0] == l[0] && (l + [e])[1..] == l[1..] + [e];
      RemoveAppended(l[1..], e);
      assert l == [l[0]] + l[1..];
    }
  }

  /**
   * Removing a handle deletes its first occurrence and keeps every other
   * entry in order.
   */
  lemma {:induction false} RemoveFirstSplits(l: seq<CellId>, e: CellId)
    requires e in l
    ensures var k := IndexOf(l, e); RemoveFirst(l, e) == l[..k] + l[k + 1..]
  {
    if l[0] != e {
      RemoveFirstSplits(l[1..], e);
      var k := IndexOf(l[1..], e);
      assert IndexOf(l, e) == k + 1;
      assert l[..k + 1] == [l[0]] + l[1..][..k];
      assert l[k + 2..] == l[1..][k + 1..];
    }
  }

  /** Removing a handle keeps only entries that were there. */
  lemma RemoveFirstSubset(l: seq<CellId>, e: CellId)
    ensures forall x :: x in RemoveFirst(l, e) ==> x in l
  {
    if e in l {
      RemoveFirstCount(l, e);
      forall x | x in RemoveFirst(l, e) ensures x in l {
        assert x in multiset(RemoveFirst(l, e));
      }
    } else {
      RemoveAbsent(l, e);
    }
  }

  /** Removing a handle that is in the list takes exactly one copy of it away. */
  lemma RemoveFirstCount(l: seq<CellId>, e: CellId)
    requires e in l
    ensures multiset(RemoveFirst(l, e)) == multiset(l) - multiset{e}
  {
    RemoveFirstSplits(l, e);
    var k := IndexOf(l, e);
    var before, after := l[..k], l[k + 1..];
    assert l == before + [e] + after;
    calc {
      multiset(l);
      multiset(before) + multiset{e} + multiset(after);
      multiset(before + after) + multiset{e};
    }
  }

  /** Removing a live handle and then purging is purging and then removing it. */
  lemma {:induction false} LiveRemoveFirst(l: seq<CellId>, e: CellId, alive: set<CellId>)
    requires e in alive
    ensures Live(RemoveFirst(l, e), alive) == RemoveFirst(Live(l, alive), e)
  {
    if l != [] {
      LiveRemoveFirst(l[1..], e, alive);
      if l[0] != e && l[0] in alive {
        var r := [l[0]] + Live(l[1..], alive);
        assert r[0] == l[0] && r[1..] == Live(l[1..], alive);
        var q := [l[0]] + RemoveFirst(l[1..], e);
        assert q[0] == l[0] && q[1..] == RemoveFirst(l[1..], e);
      } else if l[0] != e {
        var q := [l[0]] + RemoveFirst(l[1..], e);
        assert q[0] == l[0] && q[1..] == RemoveFirst(l[1..], e);
      } else {
        var r := [l[0]] + Live(l[1..], alive);
        assert r[0] == e && r[1..] == Live(l[1..], alive);
      }
    }
  }

  /**
   * A list of weak handles to peer cells. The source delegates `add`,
   * `isEmpty` and `size` to the underlying mutable list and overrides
   * `clear`, `remove` and the traversal.
   *
   * This class is the stand-alone model of that list class. The two graphs
   * keep each cell's list as the `links` field of the cell, and update it
   * with the same functions `Live` and `RemoveFirst` this class is proved
   * against.
   */
  class WeakRefList {
    var entries: seq<CellId>

    constructor ()
      ensures entries == []
    {
      entries := [];
    }

    /** Delegated `add`: appends, dead or alive, duplicate or not. */
    method Add(e: CellId)
      modifies this
      ensures entries == old(entries) + [e]
    {
      entries := entries + [e];
    }

    /** Removes the first entry equal to `e`; reports whether there was one. */
    method Remove(e: CellId) returns (removed: bool)
      modifies this
      ensures removed == (e in old(entries))
      ensures entries == RemoveFirst(old(entries), e)
      ensures removed ==> multiset(entries) == multiset(old(entries)) - multiset{e}
      ensures !removed ==> entries == old(entries)
    {
      if e in entries {
        RemoveFirstCount(entries, e);
      } else {
        RemoveAbsent(entries, e);
      }
      removed := e in entries;
      entries := RemoveFirst(entries, e);
    }

    method Clear()
      modifies this
      ensures entries == []
    {
      entries := [];
    }

    /** Delegated `size`: counts every stored entry, dead ones included, without purging. */
    method Size() returns (n: nat)
      ensures n == |entries|
      ensures n == 0 <==> entries == []
    {
      n := |entries|;
    }

    /**
     * The traversal with clean-up enabled: first every dead entry is removed
     * from the list in place, then the live entries are copied, and the
     * visits go over that copy, once per entry, in list order. The copy is
     * returned as `visits`; an action that changes the list afterwards does
     * not change it.
     */
    method ForAliveRefs(alive: set<CellId>) returns (visits: seq<CellId>)
      modifies this
      ensures entries == Live(old(entries), alive)
      ensures visits == entries
      ensures forall x :: x in visits <==> x in old(entries) && x in alive
      ensures forall x :: multiset(visits)[x] == if x in alive then multiset(old(entries))[x] else 0
    {
      LiveKeepsLiveEntries(entries, alive);
      var kept: seq<CellId> := [];
      var i := 0;
      while i < |entries|
        invariant 0 <= i <= |entries|
        invariant entries == old(entries)
        invariant kept == Live(entries[..i], alive)
      {
        LiveAppend(entries[..i], [entries[i]], alive);
        assert entries[..i + 1] == entries[..i] + [entries[i]];
        if entries[i] in alive {
          kept := kept + [entries[i]];
        }
        i := i + 1;
      }
      assert entries[..i] == entries;
      entries := kept;
      LiveIdempotent(old(entries), alive);
      visits := Live(entries, alive);
    }
  }
}
