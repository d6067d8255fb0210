/** `CanvasHook`: a positional hook registry that gives an immediate-mode
    draw routine state that persists between passes.

    The registry maps slot numbers to slots; the cursor `registryIndex`
    starts at 0 and every hook call first advances it and then uses it as
    its slot number, so the k-th hook call of a pass addresses slot k.
    `setState` writes its slot, emits `stateUpdated` and then resets the
    cursor. Effects run synchronously inside `useEffect`.

    Cleanups, callbacks and `stateUpdated` subscribers are opaque numbers;
    an effect is a number together with what calling it returns. Invoking
    an effect or cleanup, running a memo callback and emitting
    `stateUpdated` are recorded in the ghost `trace`; the calls of the
    subscribers are recorded in the emitter's own log. */
module Hooks {
  import opened Wrappers
  import opened ArrayUtils
  import opened ClassUtils

  /** A function passed to `useEffect`: `id` names it, and invoking it
      returns `cleanup`, a function (`Some`) or anything else (`None`). */
  datatype Effect = Effect(id: nat, cleanup: Option<nat>)

  /** A registry entry. `useState` and `useMemo` store the bare value;
      `useEffect` stores `{effect, deps, cleanup}`; `useCallback` stores
      `{callback, deps}`. */
  datatype Slot<V> =
    | Stored(value: V)
    | EffectRec(effect: Effect, deps: seq<V>, cleanup: Option<nat>)
    | CallbackRec(callback: nat, deps: seq<V>)

  datatype SlotKind = ValueSlot | EffectSlot | CallbackSlot

  function KindOf<V>(slot: Slot<V>): (r: SlotKind)
  {
    match slot
    case Stored(_) => ValueSlot
    case EffectRec(_, _, _) => EffectSlot
    case CallbackRec(_, _) => CallbackSlot
  }

  /** The argument of `setState`: a new state, or an updater function. */
  datatype SetStateArg<!V> = NewState(state: V) | Updater(update: V -> V)

  /** The `setState` closure `useState` returns, bound to its slot. */
  datatype Setter = Setter(index: int)

  /** The `dispatch` closure `useReducer` returns: its slot, the state read
      by the `useReducer` call that made it, and the reducer. */
  datatype Dispatcher<!V, !A> = Dispatcher(index: int, state: V, reducer: (V, A) -> V)

  datatype HookEvent =
    | EffectRan(effect: nat)
    | CleanupRan(cleanup: nat)
    | MemoComputed(index: int)
      /** `stateUpdated` was emitted; its subscribers saw the cursor at `cursor`. */
    | StateUpdated(cursor: int)

  /** `typeof cleanup === 'function' && cleanup()`. */
  function CleanupEvents(cleanup: Option<nat>): (r: seq<HookEvent>)
  {
    match cleanup
    case Some(c) => [CleanupRan(c)]
    case None => []
  }

  /** The value `setState(arg)` stores in slot `index`: the argument itself,
      or the updater applied to the value the slot holds when it is called. */
  function StoredBy<V>(arg: SetStateArg<V>, registry: map<int, Slot<V>>, index: int): (r: V)
    requires arg.Updater? ==> index in registry && registry[index].Stored?
  {
    match arg
    case NewState(v) => v
    case Updater(f) => f(registry[index].value)
  }

  /** `useMemo` runs its callback at most once per slot: every slot it has
      computed is filled, and no slot is computed twice. */
  ghost predicate MemoOncePerSlot<V>(trace: seq<HookEvent>, registry: map<int, Slot<V>>)
  {
    && (forall i :: 0 <= i < |trace| && trace[i].MemoComputed? ==> trace[i].index in registry)
    && (forall i, j :: 0 <= i < j < |trace| && trace[i].MemoComputed? && trace[j].MemoComputed?
          ==> trace[i].index != trace[j].index)
  }

  class CanvasHook<V(==)> {
    var registry: map<int, Slot<V>>
    var registryIndex: int
    const stateUpdated: EventEmitter<()>
    ghost var trace: seq<HookEvent>

    /** Slots are numbered from 1, since the cursor is advanced before it is
        read; the cursor is never negative. */
    ghost predicate Valid()
      reads this, stateUpdated
    {
      && stateUpdated.Valid()
      && registryIndex >= 0
      && (forall k :: k in registry ==> k >= 1)
      && MemoOncePerSlot(trace, registry)
    }

    /** The caller contract of positional slots: a hook call finds its slot
        empty, or holding what the same hook stored there on an earlier
        pass. Calling hooks in a different order is not defined. */
    ghost predicate NextSlotFits(kind: SlotKind)
      reads this
    {
      registryIndex + 1 in registry ==> KindOf(registry[registryIndex + 1]) == kind
    }

    constructor ()
      ensures Valid() && fresh(stateUpdated)
      ensures registry == map[] && registryIndex == 0 && trace == []
      ensures stateUpdated.callbacks == [] && stateUpdated.log == []
    {
      registry := map[];
      registryIndex := 0;
      stateUpdated := new EventEmitter();
      trace := [];
    }

    method IncrementRegistryIndex() returns (index: int)
      modifies this`registryIndex
      ensures registryIndex == old(registryIndex) + 1 && index == registryIndex
    {
      registryIndex := registryIndex + 1;
      index := registryIndex;
    }

    method ResetRegistryIndex()
      modifies this`registryIndex
      ensures registryIndex == 0
    {
      registryIndex := 0;
    }

    /** `subscribeToStateUpdated(callback)`. */
    method SubscribeToStateUpdated(fn: nat)
      requires Valid()
      modifies stateUpdated
      ensures Valid()
      ensures stateUpdated.callbacks == Added(old(stateUpdated.callbacks), Direct(fn))
      ensures stateUpdated.log == old(stateUpdated.log)
      ensures stateUpdated.wrappersBuilt == old(stateUpdated.wrappersBuilt)
    {
      var _ := stateUpdated.Subscribe(fn);
    }

    /** `useState(initialState)`: an empty slot is filled with `initialState`,
        which is returned; an occupied slot's value is returned and
        `initialState` is ignored. No other slot changes. */
    method UseState(initialState: V) returns (state: V, setState: Setter)
      requires Valid() && NextSlotFits(ValueSlot)
      modifies this
      ensures Valid()
      ensures registryIndex == old(registryIndex) + 1 && setState == Setter(registryIndex)
      ensures registryIndex in old(registry) ==>
        state == old(registry)[registryIndex].value && registry == old(registry)
      ensures registryIndex !in old(registry) ==>
        state == initialState && registry == old(registry)[registryIndex := Stored(initialState)]
      ensures trace == old(trace)
    {
      var index := IncrementRegistryIndex();
      if index in registry {
        state := registry[index].value;
      } else {
        state := initialState;
        registry := registry[index := Stored(initialState)];
      }
      setState := Setter(index);
    }

    /** Calling a `setState` closure: its slot, and no other, now holds the
        new value (an updater sees the value the slot holds now, not the one
        read at render time); then `stateUpdated` is emitted, once, even if
        the value did not change; then the cursor is reset. Subscribers run
        before the reset and see the cursor where the pass left it. */
    method SetState(setter: Setter, arg: SetStateArg<V>)
      requires Valid() && setter.index >= 1
      requires arg.Updater? ==> setter.index in registry && registry[setter.index].Stored?
      modifies this, stateUpdated
      ensures Valid()
      ensures registry == old(registry)[setter.index := Stored(StoredBy(arg, old(registry), setter.index))]
      ensures trace == old(trace) + [StateUpdated(old(registryIndex))]
      ensures stateUpdated.log == old(stateUpdated.log) + Deliveries(old(stateUpdated.callbacks), ())
      ensures stateUpdated.callbacks == Survivors(old(stateUpdated.callbacks))
      ensures stateUpdated.wrappersBuilt == old(stateUpdated.wrappersBuilt)
      ensures registryIndex == 0
    {
      var newState: V;
      match arg {
        case NewState(v) =>
          newState := v;
        case Updater(update) =>
          var currentState := registry[setter.index].value;
          newState := update(currentState);
      }
      registry := registry[setter.index := Stored(newState)];
      trace := trace + [StateUpdated(registryIndex)];
      stateUpdated.Emit(());
      ResetRegistryIndex();
    }

    /** `useReducer(reducer, initialState)`: `useState` on the same slot,
        returning a `dispatch` bound to it and to the state read now. */
    method UseReducer<A>(reducer: (V, A) -> V, initialState: V) returns (state: V, dispatch: Dispatcher<V, A>)
      requires Valid() && NextSlotFits(ValueSlot)
      modifies this
      ensures Valid()
      ensures registryIndex == old(registryIndex) + 1
      ensures dispatch.index == registryIndex && dispatch.state == state && dispatch.reducer == reducer
      ensures registryIndex in old(registry) ==>
        state == old(registry)[registryIndex].value && registry == old(registry)
      ensures registryIndex !in old(registry) ==>
        state == initialState && registry == old(registry)[registryIndex := Stored(initialState)]
      ensures trace == old(trace)
    {
      var setState;
      state, setState := UseState(initialState);
      dispatch := Dispatcher(setState.index, state, reducer);
    }

    /** Calling a `dispatch` closure: stores `reducer(state, action)` for the
        state captured by `useReducer`, through the slot's `setState`, so it
        emits and resets the cursor too. */
    method Dispatch<A>(dispatch: Dispatcher<V, A>, action: A)
      requires Valid() && dispatch.index >= 1
      modifies this, stateUpdated
      ensures Valid()
      ensures registry == old(registry)[dispatch.index := Stored(dispatch.reducer(dispatch.state, action))]
      ensures trace == old(trace) + [StateUpdated(old(registryIndex))]
      ensures stateUpdated.log == old(stateUpdated.log) + Deliveries(old(stateUpdated.callbacks), ())
      ensures stateUpdated.callbacks == Survivors(old(stateUpdated.callbacks))
      ensures stateUpdated.wrappersBuilt == old(stateUpdated.wrappersBuilt)
      ensures registryIndex == 0
    {
      var nextState := dispatch.reducer(dispatch.state, action);
      SetState(Setter(dispatch.index), NewState(nextState));
    }

    /** `useEffect(effect, deps)`: on an empty slot the effect runs once and
        `{effect, deps, cleanup}` is stored. On an occupied slot with
        `compareArray`-equal deps nothing runs and nothing changes. With
        changed deps the stored cleanup runs (if it is a function), then the
        effect, and the slot is replaced. No other slot changes. */
    method UseEffect(effect: Effect, deps: seq<V>)
      requires Valid() && NextSlotFits(EffectSlot)
      modifies this
      ensures Valid()
      ensures registryIndex == old(registryIndex) + 1
      ensures registryIndex !in old(registry) ==>
        && registry == old(registry)[registryIndex := EffectRec(effect, deps, effect.cleanup)]
        && trace == old(trace) + [EffectRan(effect.id)]
      ensures registryIndex in old(registry) && CompareArray(deps, old(registry)[registryIndex].deps) ==>
        registry == old(registry) && trace == old(trace)
      ensures registryIndex in old(registry) && !CompareArray(deps, old(registry)[registryIndex].deps) ==>
        && registry == old(registry)[registryIndex := EffectRec(effect, deps, effect.cleanup)]
        && trace == old(trace) + CleanupEvents(old(registry)[registryIndex].cleanup) + [EffectRan(effect.id)]
    {
      var index := IncrementRegistryIndex();
      if index !in registry {
        trace := trace + [EffectRan(effect.id)];
        var cleanup := effect.cleanup;
        registry := registry[index := EffectRec(effect, deps, cleanup)];
      } else {
        var registered := registry[index];
        var isDepsChanged := !CompareArray(deps, registered.deps);
        if isDepsChanged {
          trace := trace + CleanupEvents(registered.cleanup);
          trace := trace + [EffectRan(effect.id)];
          var cleanup := effect.cleanup;
          registry := registry[index := EffectRec(effect, deps, cleanup)];
        }
      }
    }

    /** `useCallback(callback, deps)`: the stored callback is returned while
        the deps compare equal; otherwise the new callback is stored with its
        deps and returned. No other slot changes. */
    method UseCallback(callback: nat, deps: seq<V>) returns (result: nat)
      requires Valid() && NextSlotFits(CallbackSlot)
      modifies this
      ensures Valid()
      ensures registryIndex == old(registryIndex) + 1
      ensures registryIndex in old(registry) && CompareArray(deps, old(registry)[registryIndex].deps) ==>
        result == old(registry)[registryIndex].callback && registry == old(registry)
      ensures registryIndex !in old(registry) || !CompareArray(deps, old(registry)[registryIndex].deps) ==>
        result == callback && registry == old(registry)[registryIndex := CallbackRec(callback, deps)]
      ensures trace == old(trace)
    {
      var index := IncrementRegistryIndex();
      if index !in registry {
        registry := registry[index := CallbackRec(callback, deps)];
        result := callback;
      } else {
        var registered := registry[index];
        var isDepsChanged := !CompareArray(deps, registered.deps);
        if isDepsChanged {
          registry := registry[index := CallbackRec(callback, deps)];
          result := callback;
        } else {
          result := registered.callback;
        }
      }
    }

    /** `useMemo(callback)`: on an empty slot the callback runs and its result
        is stored and returned; on an occupied slot the stored result is
        returned and nothing runs. */
    method UseMemo(callback: () -> V) returns (result: V)
      requires Valid() && NextSlotFits(ValueSlot)
      modifies this
      ensures Valid()
      ensures registryIndex == old(registryIndex) + 1
      ensures registryIndex in old(registry) ==>
        result == old(registry)[registryIndex].value && registry == old(registry) && trace == old(trace)
      ensures registryIndex !in old(registry) ==>
        && result == callback()
        && registry == old(registry)[registryIndex := Stored(result)]
        && trace == old(trace) + [MemoComputed(registryIndex)]
    {
      var index := IncrementRegistryIndex();
      if index in registry {
        result := registry[index].value;
      } else {
        result := callback();
        trace := trace + [MemoComputed(index)];
        registry := registry[index := Stored(result)];
      }
    }
  }

  /** Two passes of a draw routine with `useState(0)` and
      `useEffect(effect, [])`, and a `setState(count + 1)` between them: the
      second pass reads 1 from the same slot, and the effect ran only in the
      first pass. */
  method CounterScenario() returns (firstCount: int, secondCount: int, ghost trace: seq<HookEvent>)
    ensures firstCount == 0 && secondCount == 1
    ensures trace == [EffectRan(1), StateUpdated(2)]
  {
    var hook := new CanvasHook<int>();
    var count, setCount := hook.UseState(0);
    hook.UseEffect(Effect(1, None), []);
    hook.SetState(setCount, NewState(count + 1));
    assert hook.registryIndex == 0;
    var count', _ := hook.UseState(0);
    hook.UseEffect(Effect(1, None), []);
    firstCount, secondCount, trace := count, count', hook.trace;
  }

  /** An effect whose deps change from `[1]` to `[2]` between passes: the
      first effect's cleanup runs, then the second effect. */
  method EffectDepsChangeScenario() returns (slot: Slot<int>, ghost trace: seq<HookEvent>)
    ensures slot == EffectRec(Effect(2, None), [2], None)
    ensures trace == [EffectRan(1), StateUpdated(2), CleanupRan(10), EffectRan(2)]
  {
    var hook := new CanvasHook<int>();
    var _, setState := hook.UseState(0);
    hook.UseEffect(Effect(1, Some(10)), [1]);
    hook.SetState(setState, NewState(0));
    var _, _ := hook.UseState(0);
    hook.UseEffect(Effect(2, None), [2]);
    slot, trace := hook.registry[2], hook.trace;
  }

  /** An updater sees the value the slot holds when `setState` is called,
      not the one the pass read: after `setState(5)`, `setState(x => x + 1)`
      stores 6, although the pass read 0. */
  method UpdaterSeesLatestWrite() returns (read: int, stored: int)
    ensures read == 0 && stored == 6
  {
    var hook := new CanvasHook<int>();
    var count, setCount := hook.UseState(0);
    hook.SetState(setCount, NewState(5));
    hook.SetState(setCount, Updater((x: int) => x + 1));
    read, stored := count, hook.registry[1].value;
  }

  /** Two dispatches from one pass both start from the state that pass
      read, so the second does not see the first. */
  method DispatchUsesCapturedState() returns (stored: int)
    ensures stored == 1
  {
    var hook := new CanvasHook<int>();
    var _, dispatch := hook.UseReducer((s: int, a: int) => s + a, 0);
    hook.Dispatch(dispatch, 1);
    hook.Dispatch(dispatch, 1);
    stored := hook.registry[1].value;
  }
}
