/** `debounceIdle` and `debounceAnimationFrame`: each wraps a callback so
    that a call cancels the task it scheduled last, if that task is still
    pending, and schedules a new host task that calls the callback with the
    arguments of this call. The two differ only in the host queue they use
    (`requestIdleCallback` or `requestAnimationFrame`).

    The host is modelled as a set of pending tasks keyed by token; the host
    runs a task by a `Fire(token)` step. The closure a task runs is fixed by
    the arguments it captured, so a task is stored as those arguments. */
module HocUtils {
  import opened Wrappers

  datatype HostQueue = IdleCallbacks | AnimationFrames

  /** The scheduling state of one debounced wrapper: its `frameId`, the
      host's pending tasks, the next token the host hands out, and the
      arguments of every invocation of the wrapped callback so far. */
  datatype Debounce<A> = Debounce(frameId: Option<nat>, tasks: map<nat, A>, nextToken: nat, invoked: seq<A>)

  /** The wrapper's only task is the one `frameId` names, and tokens handed
      out are all below `nextToken`. */
  predicate Consistent<A>(s: Debounce<A>)
  {
    && (s.frameId.None? ==> s.tasks == map[])
    && (s.frameId.Some? ==> s.tasks.Keys == {s.frameId.value} && s.frameId.value < s.nextToken)
  }

  /** A call of the wrapper with `args`: cancel the pending task, if any, then
      schedule a new one. */
  function AfterCall<A>(s: Debounce<A>, args: A): (r: Debounce<A>)
    ensures Consistent(s) ==> Consistent(r) && r.tasks == map[s.nextToken := args]
    ensures r.frameId == Some(s.nextToken) && r.nextToken == s.nextToken + 1
    ensures Consistent(s) && s.frameId.Some? ==> s.frameId.value !in r.tasks
    ensures r.invoked == s.invoked
  {
    var cancelled :=
      if s.frameId.Some? then s.(tasks := s.tasks - {s.frameId.value}, frameId := None) else s;
    cancelled.(
      frameId := Some(cancelled.nextToken),
      tasks := cancelled.tasks[cancelled.nextToken := args],
      nextToken := cancelled.nextToken + 1)
  }

  /** The host runs the task `token`, if it is pending: the callback is
      invoked with the task's arguments and `frameId` is cleared. */
  function AfterFire<A>(s: Debounce<A>, token: nat): (r: Debounce<A>)
    ensures token in s.tasks ==> r.invoked == s.invoked + [s.tasks[token]] && r.frameId.None?
    ensures token in s.tasks && Consistent(s) ==> r.tasks == map[]
    ensures token !in s.tasks ==> r == s
    ensures Consistent(s) ==> Consistent(r)
    ensures r.nextToken == s.nextToken
  {
    if token in s.tasks then
      s.(tasks := s.tasks - {token}, frameId := None, invoked := s.invoked + [s.tasks[token]])
    else s
  }

  /** Several calls in a row, with no task run in between. */
  function AfterCalls<A>(s: Debounce<A>, argss: seq<A>): (r: Debounce<A>)
    decreases |argss|
  {
    if argss == [] then s else AfterCalls(AfterCall(s, argss[0]), argss[1..])
  }

  /** Several host steps in a row, with no call in between. */
  function AfterFires<A>(s: Debounce<A>, tokens: seq<nat>): (r: Debounce<A>)
    decreases |tokens|
  {
    if tokens == [] then s else AfterFires(AfterFire(s, tokens[0]), tokens[1..])
  }

  /** After any call exactly one task is pending, the one that call scheduled
      with its arguments; a task pending before the call has been cancelled. */
  lemma CallLeavesOnlyItsTask<A>(s: Debounce<A>, args: A)
    requires Consistent(s)
    ensures var s' := AfterCall(s, args);
      && Consistent(s')
      && s'.frameId == Some(s.nextToken) && s'.tasks == map[s.nextToken := args]
      && s'.invoked == s.invoked
      && (s.frameId.Some? ==> s.frameId.value !in s'.tasks)
  {
    var s' := AfterCall(s, args);
    assert s'.tasks.Keys == {s.nextToken};
  }

  /** A call made when no task is pending, for instance right after the task
      has run, cancels nothing. */
  lemma CallAfterFireCancelsNothing<A>(s: Debounce<A>, token: nat, args: A)
    requires Consistent(s) && token in s.tasks
    ensures AfterFire(s, token).tasks == map[]
    ensures AfterCall(AfterFire(s, token), args).tasks == AfterFire(s, token).tasks[s.nextToken := args]
  {
  }

  /** Running the pending task invokes the callback once, with the arguments
      of the call that scheduled it, and leaves nothing pending. */
  lemma FireRunsPendingTask<A>(s: Debounce<A>, token: nat)
    requires Consistent(s) && token in s.tasks
    ensures var s' := AfterFire(s, token);
      && Consistent(s')
      && s.frameId == Some(token)
      && s'.invoked == s.invoked + [s.tasks[token]]
      && s'.frameId.None? && s'.tasks == map[]
  {
  }

  /** A host step for a token that is not pending changes nothing. */
  lemma FireOfStaleTokenIsNoOp<A>(s: Debounce<A>, token: nat)
    requires token !in s.tasks
    ensures AfterFire(s, token) == s
  {
  }

  lemma {:induction false} CallsLeaveLastPending<A>(s: Debounce<A>, argss: seq<A>)
    requires Consistent(s) && |argss| > 0
    ensures var s' := AfterCalls(s, argss);
      && Consistent(s') && s'.frameId.Some?
      && s'.tasks == map[s'.frameId.value := argss[|argss| - 1]]
      && s'.invoked == s.invoked
    decreases |argss|
  {
    CallLeavesOnlyItsTask(s, argss[0]);
    if |argss| > 1 {
      CallsLeaveLastPending(AfterCall(s, argss[0]), argss[1..]);
      assert argss[1..][|argss[1..]| - 1] == argss[|argss| - 1];
    }
  }

  lemma {:induction false} FiresWhenIdle<A>(s: Debounce<A>, tokens: seq<nat>)
    requires s.tasks == map[]
    ensures AfterFires(s, tokens) == s
    decreases |tokens|
  {
    if tokens != [] {
      FiresWhenIdle(AfterFire(s, tokens[0]), tokens[1..]);
    }
  }

  /** From a state where the single pending task carries `last`, any run of
      host steps invokes the callback at most once, and only with `last`. */
  lemma {:induction false} FiresInvokeAtMostOnce<A>(s: Debounce<A>, tokens: seq<nat>, last: A)
    requires Consistent(s) && s.frameId.Some? && s.tasks == map[s.frameId.value := last]
    ensures var s' := AfterFires(s, tokens);
      s'.invoked == s.invoked || s'.invoked == s.invoked + [last]
    decreases |tokens|
  {
    if tokens != [] {
      if tokens[0] in s.tasks {
        FiresWhenIdle(AfterFire(s, tokens[0]), tokens[1..]);
      } else {
        FiresInvokeAtMostOnce(s, tokens[1..], last);
      }
    }
  }

  /** N calls with no task run in between lead to at most one invocation of
      the callback, whatever the host then runs, and it carries the last
      call's arguments. */
  lemma CallsCoalesce<A>(s: Debounce<A>, argss: seq<A>, tokens: seq<nat>)
    requires Consistent(s) && |argss| > 0
    ensures var s' := AfterFires(AfterCalls(s, argss), tokens);
      s'.invoked == s.invoked || s'.invoked == s.invoked + [argss[|argss| - 1]]
  {
    CallsLeaveLastPending(s, argss);
    FiresInvokeAtMostOnce(AfterCalls(s, argss), tokens, argss[|argss| - 1]);
  }

  /** The host's task queue (`requestIdleCallback` / `cancelIdleCallback`, or
      `requestAnimationFrame` / `cancelAnimationFrame`). */
  class HostScheduler<A> {
    const queue: HostQueue
    var tasks: map<nat, A>
    var nextToken: nat

    constructor (queue: HostQueue)
      ensures this.queue == queue && tasks == map[] && nextToken == 0
    {
      this.queue := queue;
      tasks := map[];
      nextToken := 0;
    }

    /** Schedules a task and returns its new token. */
    method Request(args: A) returns (token: nat)
      modifies this
      ensures token == old(nextToken) && nextToken == old(nextToken) + 1
      ensures tasks == old(tasks)[token := args]
    {
      token := nextToken;
      tasks := tasks[token := args];
      nextToken := nextToken + 1;
    }

    /** Cancels a task; cancelling one that is not pending is a no-op. */
    method Cancel(token: nat)
      modifies this
      ensures tasks == old(tasks) - {token} && nextToken == old(nextToken)
    {
      tasks := tasks - {token};
    }

    /** Takes the pending task `token` off the queue to run it. */
    method Take(token: nat) returns (args: A)
      requires token in tasks
      modifies this
      ensures args == old(tasks)[token]
      ensures tasks == old(tasks) - {token} && nextToken == old(nextToken)
    {
      args := tasks[token];
      tasks := tasks - {token};
    }
  }

  /** The closure returned by `debounceIdle(callback)` or
      `debounceAnimationFrame(callback)`, with its `frameId` variable. */
  class Debouncer<A> {
    var frameId: Option<nat>
    const host: HostScheduler<A>
    /** The arguments of every invocation of the wrapped callback. */
    ghost var invoked: seq<A>

    ghost function State(): Debounce<A>
      reads this, host
    {
      Debounce(frameId, host.tasks, host.nextToken, invoked)
    }

    ghost predicate Valid()
      reads this, host
    {
      Consistent(State())
    }

    /** `debounceIdle(callback)`. */
    constructor Idle()
      ensures Valid() && fresh(host) && host.queue == IdleCallbacks
      ensures State() == Debounce(None, map[], 0, [])
    {
      frameId := None;
      host := new HostScheduler(IdleCallbacks);
      invoked := [];
    }

    /** `debounceAnimationFrame(callback)`. */
    constructor AnimationFrame()
      ensures Valid() && fresh(host) && host.queue == AnimationFrames
      ensures State() == Debounce(None, map[], 0, [])
    {
      frameId := None;
      host := new HostScheduler(AnimationFrames);
      invoked := [];
    }

    /** Calling the debounced wrapper with `args`. */
    method Call(args: A)
      requires Valid()
      modifies this, host
      ensures Valid()
      ensures State() == AfterCall(old(State()), args)
      ensures frameId == Some(old(host.nextToken)) && host.tasks == map[old(host.nextToken) := args]
    {
      if frameId.Some? {
        host.Cancel(frameId.value);
        frameId := None;
      }
      var token := host.Request(args);
      frameId := Some(token);
    }

    /** The host runs the task `token`, if it is pending: the callback is
        called with the captured arguments, then `frameId` is cleared. */
    method Fire(token: nat)
      requires Valid()
      modifies this, host
      ensures Valid()
      ensures State() == AfterFire(old(State()), token)
    {
      if token in host.tasks {
        var args := host.Take(token);
        invoked := invoked + [args];
        frameId := None;
      }
    }
  }
}
