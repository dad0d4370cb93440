/**
 * The registry of (filter, callback) listeners kept by `MQTTClass` (the
 * `_listeners` vector), its removal operation, the subscriptions re-sent on
 * connect and the dispatch of an inbound message.
 */
module Listeners {
  import opened Trace
  import opened TopicSpec
  import opened TopicMatcher

  /** One `MQTTMessageListener`: the filter it was subscribed with and its callback. */
  datatype Listener = Listener(filter: string, callback: CallbackId)

  // ---------------------------------------------------------------------------
  // Unsubscribe

  /**
   * The erase-remove `unsubscribe` evidently intends: every listener whose filter
   * equals the argument is dropped, the others are kept in their order.
   */
  function RemoveAll(ls: seq<Listener>, filter: string): (r: seq<Listener>)
    ensures forall l :: l in r <==> l in ls && l.filter != filter
    ensures |r| <= |ls|
  {
    if ls == [] then []
    else if ls[0].filter == filter then RemoveAll(ls[1..], filter)
    else [ls[0]] + RemoveAll(ls[1..], filter)
  }

  /** Each listener with another filter survives as many times as it was registered; none with the filter does. */
  lemma {:induction false} RemoveAllCounts(ls: seq<Listener>, filter: string)
    ensures forall l :: multiset(RemoveAll(ls, filter))[l] == if l.filter == filter then 0 else multiset(ls)[l]
  {
    if ls != [] {
      RemoveAllCounts(ls[1..], filter);
      assert ls == [ls[0]] + ls[1..];
      assert multiset(ls) == multiset{ls[0]} + multiset(ls[1..]);
    }
  }

  /** Removal distributes over concatenation: the kept listeners stay in order. */
  lemma {:induction false} RemoveAllConcat(a: seq<Listener>, b: seq<Listener>, filter: string)
    ensures RemoveAll(a + b, filter) == RemoveAll(a, filter) + RemoveAll(b, filter)
  {
    if a != [] {
      assert (a + b)[0] == a[0];
      assert (a + b)[1..] == a[1..] + b;
      RemoveAllConcat(a[1..], b, filter);
    } else {
      assert a + b == b;
    }
  }

  /** Nothing to remove: the registry is unchanged. */
  lemma {:induction false} RemoveAllAbsent(ls: seq<Listener>, filter: string)
    requires forall k :: 0 <= k < |ls| ==> ls[k].filter != filter
    ensures RemoveAll(ls, filter) == ls
  {
    if ls != [] {
      RemoveAllAbsent(ls[1..], filter);
    }
  }

  /** Unsubscribing twice is unsubscribing once. */
  lemma RemoveAllIdempotent(ls: seq<Listener>, filter: string)
    ensures RemoveAll(RemoveAll(ls, filter), filter) == RemoveAll(ls, filter)
  {
  }

  /**
   * The state a moved-from listener is left in, as far as dispatch can tell: its
   * filter string has given its buffer away and is empty.  The callback id is
   * kept only because a husk is never called.
   */
  function Vacated(l: Listener): Listener {
    l.(filter := [])
  }

  /**
   * What the tail of the vector holds after `std::remove_if`: a slot whose entry
   * was removed is never written and keeps it; a slot whose entry was kept had
   * that entry moved to the front and holds the vacated husk.
   */
  function Leftover(tail: seq<Listener>, filter: string): (r: seq<Listener>)
    ensures |r| == |tail|
    ensures forall k :: 0 <= k < |r| ==> r[k] == if tail[k].filter == filter then tail[k] else Vacated(tail[k])
  {
    if tail == [] then []
    else [if tail[0].filter == filter then tail[0] else Vacated(tail[0])] + Leftover(tail[1..], filter)
  }

  /**
   * `unsubscribe` as written (src/MycilaMQTT.cpp:77-79): `remove_if` moves the
   * kept listeners to the front, and without the `erase` the vector keeps its
   * length and its tail.
   */
  function RemoveIfNoErase(ls: seq<Listener>, filter: string): (r: seq<Listener>)
    ensures |r| == |ls|
    ensures r[..|RemoveAll(ls, filter)|] == RemoveAll(ls, filter)
  {
    var kept := RemoveAll(ls, filter);
    kept + Leftover(ls[|kept|..], filter)
  }

  /**
   * The effect of the missing `erase`: when the last listener is one being
   * removed, it stays in place, still registered under its filter.
   */
  lemma {:induction false} RemovedLastSurvives(ls: seq<Listener>, filter: string)
    requires |ls| > 0 && ls[|ls| - 1].filter == filter
    ensures RemoveIfNoErase(ls, filter)[|ls| - 1] == ls[|ls| - 1]
  {
    var kept := RemoveAll(ls, filter);
    assert ls == ls[..|ls| - 1] + [ls[|ls| - 1]];
    RemoveAllConcat(ls[..|ls| - 1], [ls[|ls| - 1]], filter);
    assert RemoveAll([ls[|ls| - 1]], filter) == [];
    assert |kept| < |ls|;
    var tail := ls[|kept|..];
    assert tail[|tail| - 1] == ls[|ls| - 1];
  }

  // ---------------------------------------------------------------------------
  // Subscriptions re-sent on connect

  /** One Subscribe per listener, in registration order (src/MycilaMQTT.cpp:127-131). */
  function SubscribeAll(ls: seq<Listener>): (r: seq<Action>)
    ensures |r| == |ls|
    ensures forall k :: 0 <= k < |r| ==> r[k] == ClientSubscribe(ls[k].filter)
  {
    if ls == [] then [] else [ClientSubscribe(ls[0].filter)] + SubscribeAll(ls[1..])
  }

  /** The subscriptions for a registry grown by one listener: one more Subscribe at the end. */
  lemma SubscribeAllSnoc(ls: seq<Listener>, l: Listener)
    ensures SubscribeAll(ls + [l]) == SubscribeAll(ls) + [ClientSubscribe(l.filter)]
  {
  }

  // ---------------------------------------------------------------------------
  // Dispatch

  /**
   * The callbacks an inbound message triggers among the first n listeners, in
   * registration order (src/MycilaMQTT.cpp:165-167).
   */
  function Dispatch(ls: seq<Listener>, topic: string, payload: string, n: nat): seq<Invocation>
    requires n <= |ls|
  {
    if n == 0 then []
    else
      Dispatch(ls, topic, payload, n - 1) +
      (if FixedMatches(ls[n - 1].filter, topic) then [MessageCall(n - 1, ls[n - 1].callback, topic, payload)] else [])
  }

  /** The dispatch of the code as written, through `_topicMatches` itself. */
  function DispatchAsWritten(ls: seq<Listener>, topic: string, payload: string, n: nat): seq<Invocation>
    requires n <= |ls|
  {
    if n == 0 then []
    else
      DispatchAsWritten(ls, topic, payload, n - 1) +
      (if AsWritten(ls[n - 1].filter, topic) then [MessageCall(n - 1, ls[n - 1].callback, topic, payload)] else [])
  }

  /**
   * Over well-formed filters the corrected dispatch makes exactly the calls of the
   * code as written, in the same order.
   */
  lemma {:induction false} DispatchAgrees(ls: seq<Listener>, topic: string, payload: string, n: nat)
    requires n <= |ls| && NoNul(topic)
    requires forall k :: 0 <= k < |ls| ==> NoNul(ls[k].filter) && ValidFilter(ls[k].filter)
    ensures Dispatch(ls, topic, payload, n) == DispatchAsWritten(ls, topic, payload, n)
  {
    if n > 0 {
      DispatchAgrees(ls, topic, payload, n - 1);
      AsWrittenOnValidFilters(ls[n - 1].filter, topic);
    }
  }

  /**
   * Exactly the listeners whose filter matches are called, each with its own
   * callback, the topic and the payload, once each, in registration order.
   */
  lemma {:induction false} DispatchExactly(ls: seq<Listener>, topic: string, payload: string, n: nat)
    requires n <= |ls|
    ensures forall c :: c in Dispatch(ls, topic, payload, n) ==>
              c.MessageCall? && c.listener < n && c == MessageCall(c.listener, ls[c.listener].callback, topic, payload) &&
              FixedMatches(ls[c.listener].filter, topic)
    ensures forall k :: 0 <= k < n && FixedMatches(ls[k].filter, topic) ==>
              MessageCall(k, ls[k].callback, topic, payload) in Dispatch(ls, topic, payload, n)
    ensures forall a, b :: 0 <= a < b < |Dispatch(ls, topic, payload, n)| ==>
              Dispatch(ls, topic, payload, n)[a].listener < Dispatch(ls, topic, payload, n)[b].listener
  {
    if n > 0 {
      DispatchExactly(ls, topic, payload, n - 1);
      var d := Dispatch(ls, topic, payload, n - 1);
      assert forall c :: c in d ==> c.listener < n - 1;
      forall a, b | 0 <= a < b < |Dispatch(ls, topic, payload, n)|
        ensures Dispatch(ls, topic, payload, n)[a].listener < Dispatch(ls, topic, payload, n)[b].listener
      {
        var e := Dispatch(ls, topic, payload, n);
        if b >= |d| {
          assert e[a] == d[a] && d[a] in d;
          assert e[b].listener == n - 1;
        }
      }
    }
  }

  /**
   * After the intended removal of a filter, a message reaches no listener that was
   * subscribed with it: every call goes to a listener still registered under
   * another filter.
   */
  lemma UnsubscribedNeverCalled(ls: seq<Listener>, filter: string, topic: string, payload: string)
    ensures forall c :: c in Dispatch(RemoveAll(ls, filter), topic, payload, |RemoveAll(ls, filter)|) ==>
              c.MessageCall? && c.listener < |RemoveAll(ls, filter)| &&
              RemoveAll(ls, filter)[c.listener].filter != filter && RemoveAll(ls, filter)[c.listener] in ls
  {
    var r := RemoveAll(ls, filter);
    DispatchExactly(r, topic, payload, |r|);
    assert forall k :: 0 <= k < |r| ==> r[k] in r;
  }

  /** A listener whose filter matches nothing adds no call: dispatch ignores vacated husks. */
  lemma VacatedNeverCalled(l: Listener, topic: string)
    ensures !FixedMatches(Vacated(l).filter, topic) && !AsWritten(Vacated(l).filter, topic)
  {
  }

  /**
   * The missing `erase` is observable: after unsubscribing "y" from [x, y] as
   * written, a message on "y" still reaches the y listener; after the intended
   * removal it reaches nobody.
   */
  lemma UnsubscribeLastStillDelivers(p: string)
    ensures Dispatch(RemoveIfNoErase([Listener("x", 0), Listener("y", 1)], "y"), "y", p, 2) == [MessageCall(1, 1, "y", p)]
    ensures Dispatch(RemoveAll([Listener("x", 0), Listener("y", 1)], "y"), "y", p, 1) == []
  {
    var ls := [Listener("x", 0), Listener("y", 1)];
    assert RemoveAll(ls, "y") == [Listener("x", 0)] by {
      assert ls[1..] == [Listener("y", 1)];
      assert RemoveAll([Listener("y", 1)], "y") == [];
    }
    assert RemoveIfNoErase(ls, "y") == ls by {
      assert ls[1..] == [Listener("y", 1)];
    }
    ExactWithoutWildcards("x", "y");
    ExactWithoutWildcards("y", "y");
    assert NoNul("x") && NoNul("y");
    assert !FixedMatches("x", "y") && FixedMatches("y", "y");
    assert Dispatch(ls, "y", p, 1) == [];
  }
}
