/**
 * The observer channel of a cell (`Event` in both library generations).
 *
 * Observers sit in an insertion-ordered set: adding one that is already there
 * changes nothing, removing one that is absent changes nothing, and invoking
 * the channel calls every observer once, in the order they were added.
 * Observers are opaque callbacks, so a call is recorded as the pair of the
 * observer and the payload it received.
 */
module Observers {
  import opened Base

  /** One observer call: which observer ran, and with what. */
  datatype Call<E> = Call(observer: ObserverId, payload: E)

  ghost predicate NoDuplicates(s: seq<ObserverId>)
  {
    forall i, j :: 0 <= i < j < |s| ==> s[i] != s[j]
  }

  /** Registration in an insertion-ordered set. */
  function Subscribe(s: seq<ObserverId>, o: ObserverId): (r: seq<ObserverId>)
  {
    if o in s then s else s + [o]
  }

  /** Removal from an insertion-ordered set: every entry equal to `o` goes, the rest keep their order. */
  function Unsubscribe(s: seq<ObserverId>, o: ObserverId): (r: seq<ObserverId>)
  {
    if s == [] then []
    else if s[0] == o then Unsubscribe(s[1..], o)
    else [s[0]] + Unsubscribe(s[1..], o)
  }

  /** The calls made when a channel with observers `s` is invoked with `payload`. */
  function Invocation<E>(s: seq<ObserverId>, payload: E): (r: seq<Call<E>>)
  {
    seq(|s|, i requires 0 <= i < |s| => Call(s[i], payload))
  }

  /** Registering an observer makes it a member and keeps every earlier member in place. */
  lemma SubscribeAdds(s: seq<ObserverId>, o: ObserverId)
    ensures var r := Subscribe(s, o);
            o in r && |s| <= |r| && r[..|s|] == s && (forall x :: x in r <==> x in s || x == o)
  {
  }

  /** Registering twice leaves a single entry. */
  lemma SubscribeIdempotent(s: seq<ObserverId>, o: ObserverId)
    ensures Subscribe(Subscribe(s, o), o) == Subscribe(s, o)
    ensures NoDuplicates(s) ==> NoDuplicates(Subscribe(s, o))
  {
    assert o in Subscribe(s, o);
  }

  /** Removal deletes exactly `o`: members other than `o` stay, and their order is kept. */
  lemma {:induction false} UnsubscribeRemoves(s: seq<ObserverId>, o: ObserverId)
    ensures var r := Unsubscribe(s, o);
            o !in r && |r| <= |s| && (forall x :: x in r <==> x in s && x != o)
    ensures o !in s ==> Unsubscribe(s, o) == s
  {
    if s != [] {
      UnsubscribeRemoves(s[1..], o);
      if s[0] != o && o !in s {
        assert s == [s[0]] + s[1..];
      }
    }
  }

  /** Removal keeps a channel free of duplicates. */
  lemma {:induction false} UnsubscribeDistinct(s: seq<ObserverId>, o: ObserverId)
    requires NoDuplicates(s)
    ensures NoDuplicates(Unsubscribe(s, o))
  {
    if s != [] {
      TailDistinct(s);
      UnsubscribeDistinct(s[1..], o);
      if s[0] != o {
        UnsubscribeRemoves(s[1..], o);
        ConsDistinct(s[0], Unsubscribe(s[1..], o));
      }
    }
  }

  /** The tail of a list without duplicates has none, and does not hold the head. */
  lemma TailDistinct(s: seq<ObserverId>)
    requires s != [] && NoDuplicates(s)
    ensures NoDuplicates(s[1..]) && s[0] !in s[1..]
  {
    forall i, j | 0 <= i < j < |s[1..]|
      ensures s[1..][i] != s[1..][j]
    {
      assert s[1..][i] == s[i + 1] && s[1..][j] == s[j + 1];
    }
  }

  /** Putting a new entry in front of a list without duplicates keeps it so. */
  lemma ConsDistinct(a: ObserverId, rest: seq<ObserverId>)
    requires a !in rest && NoDuplicates(rest)
    ensures NoDuplicates([a] + rest)
  {
    var r := [a] + rest;
    forall i, j | 0 <= i < j < |r|
      ensures r[i] != r[j]
    {
      assert r[j] == rest[j - 1];
      if i > 0 {
        assert r[i] == rest[i - 1];
      }
    }
  }

  /** Registering a new observer and removing it again restores the channel. */
  lemma {:induction false} SubscribeThenUnsubscribe(s: seq<ObserverId>, o: ObserverId)
    requires o !in s
    ensures Unsubscribe(Subscribe(s, o), o) == s
  {
    if s == [] {
      assert Subscribe(s, o) == [o];
      assert Unsubscribe([o], o) == Unsubscribe([], o);
    } else {
      var r := s + [o];
      assert r[0] == s[0] && r[1..] == s[1..] + [o];
      SubscribeThenUnsubscribe(s[1..], o);
      assert Subscribe(s[1..], o) == s[1..] + [o];
      assert s == [s[0]] + s[1..];
    }
  }

  /** Unfolds `Invocation` for callers that index the calls. */
  lemma InvocationOrder<E>(s: seq<ObserverId>, payload: E)
    ensures var r := Invocation(s, payload);
            |r| == |s| && forall i :: 0 <= i < |s| ==> r[i] == Call(s[i], payload)
  {
  }

  /** How many of the calls `r` went to observer `o`. */
  function CallsTo<E>(r: seq<Call<E>>, o: ObserverId): (n: nat)
    ensures n <= |r|
    ensures n == 0 <==> forall i :: 0 <= i < |r| ==> r[i].observer != o
  {
    if r == [] then 0
    else (if r[0].observer == o then 1 else 0) + CallsTo(r[1..], o)
  }

  /**
   * Invoking a channel calls each observer as many times as it is
   * registered. A channel kept as a set has no duplicates, so each member is
   * called exactly once and nothing else is called.
   */
  lemma {:induction false} InvocationCalls<E>(s: seq<ObserverId>, payload: E)
    ensures forall o :: CallsTo(Invocation(s, payload), o) == multiset(s)[o]
    ensures NoDuplicates(s) ==>
              forall o :: CallsTo(Invocation(s, payload), o) == if o in s then 1 else 0
  {
    if s != [] {
      InvocationCalls(s[1..], payload);
      var r := Invocation(s, payload);
      assert r[1..] == Invocation(s[1..], payload);
      assert s == [s[0]] + s[1..];
      assert multiset(s) == multiset{s[0]} + multiset(s[1..]);
      if NoDuplicates(s) {
        TailDistinct(s);
        DistinctCounts(s[1..]);
      }
    }
  }

  /** A list without duplicates holds each entry once. */
  lemma {:induction false} DistinctCounts(s: seq<ObserverId>)
    requires NoDuplicates(s)
    ensures forall o :: multiset(s)[o] == if o in s then 1 else 0
  {
    if s != [] {
      TailDistinct(s);
      DistinctCounts(s[1..]);
      assert s == [s[0]] + s[1..];
      assert multiset(s) == multiset{s[0]} + multiset(s[1..]);
    }
  }

  /**
   * An observer channel. The source keeps its observers in an
   * insertion-ordered mutable set.
   *
   * This class is the stand-alone model of that event class. The two graphs
   * keep each cell's observers as fields of the cell, and update them with
   * the same functions `Subscribe` and `Invocation` this class is proved
   * against.
   */
  class Event<E> {
    var observers: seq<ObserverId>

    ghost predicate Valid()
      reads this
    {
      NoDuplicates(observers)
    }

    constructor ()
      ensures Valid() && observers == []
    {
      observers := [];
    }

    /** `+=`: register an observer. */
    method PlusAssign(o: ObserverId)
      requires Valid()
      modifies this
      ensures Valid()
      ensures observers == Subscribe(old(observers), o)
    {
      SubscribeIdempotent(observers, o);
      if o !in observers {
        observers := observers + [o];
      }
    }

    /** `-=`: remove an observer; an absent one is ignored. */
    method MinusAssign(o: ObserverId)
      requires Valid()
      modifies this
      ensures Valid()
      ensures observers == Unsubscribe(old(observers), o)
    {
      UnsubscribeRemoves(observers, o);
      UnsubscribeDistinct(observers, o);
      observers := Unsubscribe(observers, o);
    }

    /** Calls every observer with `payload`; the result records the calls in the order they were made. */
    method Invoke(payload: E) returns (calls: seq<Call<E>>)
      ensures calls == Invocation(observers, payload)
      ensures |calls| == |observers|
      ensures forall i :: 0 <= i < |calls| ==> calls[i] == Call(observers[i], payload)
    {
      calls := [];
      var k := 0;
      while k < |observers|
        invariant 0 <= k <= |observers|
        invariant |calls| == k
        invariant forall i :: 0 <= i < k ==> calls[i] == Call(observers[i], payload)
      {
        calls := calls + [Call(observers[k], payload)];
        k := k + 1;
      }
    }

    /** Removes every observer; a later `Invoke` calls nothing. */
    method Clear()
      modifies this
      ensures Valid() && observers == []
    {
      observers := [];
    }
  }
}
