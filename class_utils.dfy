/** `EventEmitter`: an insertion-ordered set of callbacks with `subscribe`,
    the unsubscribe function it returns, the self-removing `subscribeOnce`,
    and `emit`, which calls every current callback with the payload.

    Callbacks are opaque: a user callback is a number `fn`, and calling it is
    recorded as a `Delivery` in the emitter's log. */
module ClassUtils {

  /** A member of the callback set. `Direct(fn)` is a function handed to
      `subscribe`. `Once(fn, tag)` is the wrapper closure that `subscribeOnce`
      builds around `fn`: every call builds a new closure, and `tag` tells the
      closures apart. */
  datatype Subscriber = Direct(fn: nat) | Once(fn: nat, tag: nat)

  /** One invocation of the user callback `via.fn` with `payload`, made by
      the set member `via`. */
  datatype Delivery<P> = Delivery(via: Subscriber, payload: P)

  /** The function `subscribe` returns: it deletes `target` from the set. */
  datatype Unsubscriber = Unsubscriber(target: Subscriber)

  /** A JavaScript `Set` holds each member once. */
  predicate NoDuplicates(subs: seq<Subscriber>)
  {
    forall i, j :: 0 <= i < j < |subs| ==> subs[i] != subs[j]
  }

  /** `Set.prototype.add`: a new member goes to the end; a present one keeps
      its place. */
  function Added(subs: seq<Subscriber>, s: Subscriber): (r: seq<Subscriber>)
    ensures forall t :: t in r <==> t in subs || t == s
    ensures NoDuplicates(subs) ==> NoDuplicates(r)
    ensures s !in subs ==> r == subs + [s]
    ensures s in subs ==> r == subs
  {
    if s in subs then subs else subs + [s]
  }

  /** `Set.prototype.delete`: the order of the others is kept
      (`RemovedKeepsOrder`). */
  function Removed(subs: seq<Subscriber>, s: Subscriber): (r: seq<Subscriber>)
    ensures forall t :: t in r <==> t in subs && t != s
    ensures NoDuplicates(subs) ==> NoDuplicates(r)
    ensures |r| <= |subs|
  {
    if |subs| == 0 then []
    else if subs[0] == s then Removed(subs[1..], s)
    else
      NoDuplicatesCons(subs[0], subs[1..]);
      NoDuplicatesCons(subs[0], Removed(subs[1..], s));
      [subs[0]] + Removed(subs[1..], s)
  }

  /** The deliveries one `emit(payload)` makes: one per member, in set order. */
  function Deliveries<P>(subs: seq<Subscriber>, payload: P): (r: seq<Delivery<P>>)
    ensures |r| == |subs|
  {
    seq(|subs|, i requires 0 <= i < |subs| => Delivery(subs[i], payload))
  }

  /** The i-th delivery of an emit goes to the i-th member, with the payload. */
  lemma DeliveriesInOrder<P>(subs: seq<Subscriber>, payload: P, i: nat)
    requires i < |subs|
    ensures Deliveries(subs, payload)[i] == Delivery(subs[i], payload)
    ensures Delivery(subs[i], payload) in Deliveries(subs, payload)
  {
  }

  lemma DeliveriesSnoc<P>(members: seq<Subscriber>, i: nat, payload: P)
    requires i < |members|
    ensures Deliveries(members[..i + 1], payload) == Deliveries(members[..i], payload) + [Delivery(members[i], payload)]
  {
  }

  /** The members left after an `emit`: every `Once` wrapper has removed
      itself, every `Direct` callback stays, in its order
      (`SurvivorsAppend`). */
  function Survivors(subs: seq<Subscriber>): (r: seq<Subscriber>)
    ensures forall t :: t in r <==> t in subs && t.Direct?
    ensures NoDuplicates(subs) ==> NoDuplicates(r)
  {
    if |subs| == 0 then []
    else if subs[0].Direct? then
      NoDuplicatesCons(subs[0], subs[1..]);
      NoDuplicatesCons(subs[0], Survivors(subs[1..]));
      [subs[0]] + Survivors(subs[1..])
    else
      NoDuplicatesCons(subs[0], subs[1..]);
      Survivors(subs[1..])
  }

  lemma NoDuplicatesCons(s: Subscriber, subs: seq<Subscriber>)
    ensures NoDuplicates([s] + subs) <==> s !in subs && NoDuplicates(subs)
  {
    var xs := [s] + subs;
    assert forall i :: 0 <= i < |subs| ==> xs[i + 1] == subs[i];
    if !NoDuplicates(subs) {
      var i, j :| 0 <= i < j < |subs| && subs[i] == subs[j];
      assert xs[i + 1] == xs[j + 1];
    }
    if s in subs {
      var j :| 0 <= j < |subs| && subs[j] == s;
      assert xs[0] == xs[j + 1];
    }
  }

  /** One step of `emit` over `members`, at index `i`: a `Direct` member
      stays where it is. */
  lemma DirectStep(members: seq<Subscriber>, i: nat)
    requires i < |members| && members[i].Direct?
    ensures Survivors(members[..i]) + members[i..] == Survivors(members[..i + 1]) + members[i + 1..]
  {
    var s := members[i];
    assert members[..i + 1] == members[..i] + [s];
    assert members[i..] == [s] + members[i + 1..];
    SurvivorsAppend(members[..i], [s]);
    assert Survivors([s]) == [s];
  }

  /** One step of `emit` over the duplicate-free `members`, at index `i`: a
      `Once` wrapper deletes itself. */
  lemma OnceStep(members: seq<Subscriber>, i: nat)
    requires NoDuplicates(members) && i < |members| && members[i].Once?
    ensures Removed(Survivors(members[..i]) + members[i..], members[i]) == Survivors(members[..i + 1]) + members[i + 1..]
  {
    var s, rest := members[i], members[i + 1..];
    assert members[..i + 1] == members[..i] + [s];
    assert members[i..] == [s] + rest;
    SurvivorsAppend(members[..i], [s]);
    assert Survivors([s]) == [];
    assert s !in rest by {
      forall k | 0 <= k < |rest| ensures rest[k] != s {
        assert rest[k] == members[i + 1 + k];
      }
    }
    RemoveSelf(Survivors(members[..i]), s, rest);
  }

  lemma RemoveSelf(kept: seq<Subscriber>, s: Subscriber, rest: seq<Subscriber>)
    requires s.Once? && s !in rest && forall t :: t in kept ==> t.Direct?
    ensures Removed(kept + ([s] + rest), s) == kept + rest
  {
    RemovedAppend(kept, [s] + rest, s);
    RemovedAppend([s], rest, s);
    RemovedAbsent(kept, s);
    RemovedAbsent(rest, s);
  }

  lemma {:induction false} SurvivorsAppend(a: seq<Subscriber>, b: seq<Subscriber>)
    ensures Survivors(a + b) == Survivors(a) + Survivors(b)
  {
    if |a| > 0 {
      assert (a + b)[1..] == a[1..] + b;
      SurvivorsAppend(a[1..], b);
    } else {
      assert a + b == b;
    }
  }

  lemma {:induction false} RemovedAppend(a: seq<Subscriber>, b: seq<Subscriber>, s: Subscriber)
    ensures Removed(a + b, s) == Removed(a, s) + Removed(b, s)
  {
    if |a| > 0 {
      assert (a + b)[1..] == a[1..] + b;
      RemovedAppend(a[1..], b, s);
    } else {
      assert a + b == b;
    }
  }

  /** Deleting the member at position `k` of a set leaves the others in
      their order. */
  lemma RemovedKeepsOrder(subs: seq<Subscriber>, k: nat)
    requires NoDuplicates(subs) && k < |subs|
    ensures Removed(subs, subs[k]) == subs[..k] + subs[k + 1..]
  {
    var s, before, after := subs[k], subs[..k], subs[k + 1..];
    assert subs == before + ([s] + after);
    OnlyAt(subs, k);
    RemovedSplit(before, s, after);
  }

  /** In a duplicate-free set, the member at `k` occurs nowhere else. */
  lemma OnlyAt(subs: seq<Subscriber>, k: nat)
    requires NoDuplicates(subs) && k < |subs|
    ensures subs[k] !in subs[..k] && subs[k] !in subs[k + 1..]
  {
    forall j | 0 <= j < k ensures subs[..k][j] != subs[k] {
      assert subs[..k][j] == subs[j];
    }
    var after := subs[k + 1..];
    forall j | 0 <= j < |after| ensures after[j] != subs[k] {
      assert after[j] == subs[k + 1 + j];
    }
  }

  lemma RemovedSplit(before: seq<Subscriber>, s: Subscriber, after: seq<Subscriber>)
    requires s !in before && s !in after
    ensures Removed(before + ([s] + after), s) == before + after
  {
    RemovedAppend(before, [s] + after, s);
    RemovedAppend([s], after, s);
    RemovedAbsent(before, s);
    RemovedAbsent(after, s);
    assert Removed([s], s) == [];
  }

  /** Deleting a callback that is not a member changes nothing. */
  lemma {:induction false} RemovedAbsent(subs: seq<Subscriber>, s: Subscriber)
    requires s !in subs
    ensures Removed(subs, s) == subs
  {
    if |subs| > 0 {
      assert subs[0] != s;
      RemovedAbsent(subs[1..], s);
      assert [subs[0]] + subs[1..] == subs;
    }
  }

  /** Subscribing the same function twice leaves a single entry. */
  lemma SubscribeTwiceKeepsOne(subs: seq<Subscriber>, fn: nat)
    requires NoDuplicates(subs)
    ensures Added(Added(subs, Direct(fn)), Direct(fn)) == Added(subs, Direct(fn))
    ensures multiset(Added(subs, Direct(fn)))[Direct(fn)] == 1
  {
    SingleOccurrence(Added(subs, Direct(fn)), Direct(fn));
  }

  lemma {:induction false} SingleOccurrence<X>(xs: seq<X>, x: X)
    requires forall i, j :: 0 <= i < j < |xs| ==> xs[i] != xs[j]
    requires x in xs
    ensures multiset(xs)[x] == 1
  {
    var k :| 0 <= k < |xs| && xs[k] == x;
    assert xs == xs[..k] + [x] + xs[k + 1..];
    assert x !in xs[..k] && x !in xs[k + 1..];
    assert multiset(xs) == multiset(xs[..k]) + multiset{x} + multiset(xs[k + 1..]);
  }

  /** `emit` calls every member exactly once, with the same payload, in the
      order of subscription. */
  lemma EmitDeliversEachOnce<P>(subs: seq<Subscriber>, payload: P, s: Subscriber)
    requires NoDuplicates(subs) && s in subs
    ensures multiset(Deliveries(subs, payload))[Delivery(s, payload)] == 1
  {
    var d := Deliveries(subs, payload);
    assert forall i, j :: 0 <= i < j < |d| ==> d[i] != d[j];
    var k :| 0 <= k < |subs| && subs[k] == s;
    assert d[k] == Delivery(s, payload);
    SingleOccurrence(d, Delivery(s, payload));
  }

  /** A callback that is not in the set receives nothing. */
  lemma NonMemberNotCalled<P>(subs: seq<Subscriber>, payload: P, s: Subscriber)
    requires s !in subs
    ensures Delivery(s, payload) !in Deliveries(subs, payload)
  {
  }

  /** The unsubscribe function removes exactly its own callback, and calling
      it a second time is a no-op. */
  lemma UnsubscribeExact(subs: seq<Subscriber>, s: Subscriber)
    requires NoDuplicates(subs)
    ensures forall t :: t in Removed(subs, s) <==> t in subs && t != s
    ensures Removed(Removed(subs, s), s) == Removed(subs, s)
  {
    RemovedAbsent(Removed(subs, s), s);
  }

  /** A `subscribeOnce` wrapper is called by the next `emit` and has removed
      itself afterwards, so a later `emit` does not call it. */
  lemma OnceDeliveredThenGone<P>(subs: seq<Subscriber>, fn: nat, tag: nat, payload: P, later: P)
    requires Once(fn, tag) !in subs
    ensures Delivery(Once(fn, tag), payload) in Deliveries(Added(subs, Once(fn, tag)), payload)
    ensures Delivery(Once(fn, tag), later) !in Deliveries(Survivors(Added(subs, Once(fn, tag))), later)
  {
    var subs' := Added(subs, Once(fn, tag));
    assert Deliveries(subs', payload)[|subs|] == Delivery(Once(fn, tag), payload);
  }

  /** Two `subscribeOnce` calls with the same function make two wrappers,
      and the next `emit` calls the function through each of them. */
  lemma TwoOnceWrappersBothDelivered<P>(subs: seq<Subscriber>, fn: nat, t1: nat, t2: nat, payload: P)
    requires t1 != t2 && Once(fn, t1) !in subs && Once(fn, t2) !in subs
    ensures var subs' := Added(Added(subs, Once(fn, t1)), Once(fn, t2));
      |subs'| == |subs| + 2 &&
      Delivery(Once(fn, t1), payload) in Deliveries(subs', payload) &&
      Delivery(Once(fn, t2), payload) in Deliveries(subs', payload)
  {
    var subs' := Added(Added(subs, Once(fn, t1)), Once(fn, t2));
    assert Deliveries(subs', payload)[|subs|] == Delivery(Once(fn, t1), payload);
    assert Deliveries(subs', payload)[|subs| + 1] == Delivery(Once(fn, t2), payload);
  }

  class EventEmitter<P> {
    var callbacks: seq<Subscriber>
    /** Number of `subscribeOnce` wrappers built so far. */
    var wrappersBuilt: nat
    /** Every callback invocation made by `emit`, in order. */
    ghost var log: seq<Delivery<P>>

    ghost predicate Valid()
      reads this
    {
      && NoDuplicates(callbacks)
      && forall s :: s in callbacks && s.Once? ==> s.tag < wrappersBuilt
    }

    constructor ()
      ensures Valid()
      ensures callbacks == [] && log == []
    {
      callbacks := [];
      wrappersBuilt := 0;
      log := [];
    }

    /** `subscribe(callback)`: adds the callback and returns its unsubscribe
        function. */
    method Subscribe(fn: nat) returns (unsubscribe: Unsubscriber)
      requires Valid()
      modifies this
      ensures Valid()
      ensures callbacks == Added(old(callbacks), Direct(fn))
      ensures unsubscribe == Unsubscriber(Direct(fn))
      ensures log == old(log) && wrappersBuilt == old(wrappersBuilt)
    {
      callbacks := Added(callbacks, Direct(fn));
      unsubscribe := Unsubscriber(Direct(fn));
    }

    /** Calling an unsubscribe function returned by `subscribe`. */
    method Unsubscribe(unsubscribe: Unsubscriber)
      requires Valid()
      modifies this
      ensures Valid()
      ensures callbacks == Removed(old(callbacks), unsubscribe.target)
      ensures log == old(log) && wrappersBuilt == old(wrappersBuilt)
    {
      callbacks := Removed(callbacks, unsubscribe.target);
    }

    /** `subscribeOnce(callback)`: subscribes a new wrapper around `fn`; it is
        always a new member, so it goes to the end of the set. */
    method SubscribeOnce(fn: nat)
      requires Valid()
      modifies this
      ensures Valid()
      ensures callbacks == old(callbacks) + [Once(fn, old(wrappersBuilt))]
      ensures Once(fn, old(wrappersBuilt)) !in old(callbacks)
      ensures wrappersBuilt == old(wrappersBuilt) + 1
      ensures log == old(log)
    {
      var wrapper := Once(fn, wrappersBuilt);
      wrappersBuilt := wrappersBuilt + 1;
      callbacks := Added(callbacks, wrapper);
    }

    /** `emit(payload)`: calls each member in turn; a `Once` wrapper calls its
        function and then deletes itself. */
    method Emit(payload: P)
      requires Valid()
      modifies this
      ensures Valid()
      ensures log == old(log) + Deliveries(old(callbacks), payload)
      ensures callbacks == Survivors(old(callbacks))
      ensures wrappersBuilt == old(wrappersBuilt)
    {
      var members := callbacks;
      var i := 0;
      while i < |members|
        invariant 0 <= i <= |members| && members == old(callbacks)
        invariant callbacks == Survivors(members[..i]) + members[i..]
        invariant log == old(log) + Deliveries(members[..i], payload)
        invariant wrappersBuilt == old(wrappersBuilt)
      {
        var s := members[i];
        log := log + [Delivery(s, payload)];
        if s.Once? {
          OnceStep(members, i);
          callbacks := Removed(callbacks, s);
        } else {
          DirectStep(members, i);
        }
        DeliveriesSnoc(members, i, payload);
        i := i + 1;
      }
      assert members[..i] == members;
    }
  }
}
