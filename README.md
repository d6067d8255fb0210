# canvas-workbench runtime, modelled in Dafny

canvas-workbench is a small canvas toolkit whose one piece of real engineering
is a runtime that gives an immediate-mode draw routine persistent state
between passes. This project models that runtime and proves properties of
the model:

- `Hooks` (`canvas_hook.dfy`): the positional hook registry `CanvasHook`. A
  `map<int, Slot<V>>` of slots and a cursor `registryIndex`; every hook
  (`useState`, `useReducer`, `useEffect`, `useCallback`, `useMemo`) advances
  the cursor and uses it as its slot number. `setState` writes its slot,
  emits `stateUpdated` and resets the cursor. Cleanups, callbacks and
  subscribers are opaque numbers. An effect is `Effect(id, cleanup)`: `id`
  names it and `cleanup` is what calling it returns, a function number or
  nothing. What the registry invokes is recorded in a ghost trace so that
  the order of invocations can be stated.
- `ClassUtils` (`class_utils.dfy`): `EventEmitter`, an insertion-ordered,
  duplicate-free sequence of subscribers with `subscribe`, its unsubscribe
  function, the self-removing `subscribeOnce`, and `emit`.
- `ArrayUtils` (`array_utils.dfy`): `compareArray`, shallow element-wise
  equality of dependency arrays.
- `HocUtils` (`hoc_utils.dfy`): `debounceIdle` and `debounceAnimationFrame`,
  which share one cancel-and-reschedule logic, as a pure state machine
  (`Debounce`, `AfterCall`, `AfterFire`) and as a class `Debouncer`, over an
  abstract `HostScheduler`, whose `Call` and `Fire` are proved equal to it.
- `Canvas` (`canvas.dfy`): `CanvasElementCache` (`addCallback`, `memoize`)
  and the state threading of `CanvasElement.render`.
- `NumberUtils` (`number_utils.dfy`): `isInRange`, over exact reals.
- `Wrappers` (`wrappers.dfy`): the `Option` type standing for `Maybe<T>`.

The model follows `src/lib/canvas/canvas-hook.ts` as written:

- `setState` has no change detection: it stores the value and emits
  `stateUpdated` on every call, even when the value is unchanged.
- No update is deferred or coalesced. `setState` emits synchronously, and
  there is no idle-scheduled flush and no separate render and post-render
  events.
- `useEffect` runs the effect synchronously inside the hook call, not from a
  post-render event. It triggers no first-render flush.
- There is no `useRef`. `useMemo` takes no deps and computes once per slot.
- The cursor is reset only by `setState`, after the emit. The render driver
  `src/lib/canvas/canvas-element.ts` does not reset it before a pass.

The stable-call-order contract of positional hooks is the precondition
`NextSlotFits`: the slot a hook call reaches is empty, or it holds what the
same kind of hook stored there.

## Model

| member | source | states |
|---|---|---|
| `ArrayUtils.SomeDiffers` | src/lib/utils/array.utils.ts:2 | the `some` scan is true iff some index holds different elements in the two arrays |
| `ArrayUtils.CompareArray` | src/lib/utils/array.utils.ts:1-3 | true iff the lengths are equal and the elements are `===` at every index |
| `ArrayUtils.CompareArrayIsEquality` | src/lib/utils/array.utils.ts:2 | shallow comparison holds exactly when the two sequences are equal |
| `ArrayUtils.DifferentLengthsDiffer` | src/lib/utils/array.utils.ts:2 | arrays of different lengths never compare equal |
| `ArrayUtils.EmptyArraysEqual` | src/lib/utils/array.utils.ts:2 | two empty arrays compare equal |
| `ArrayUtils.CompareArraySymmetric` | src/lib/utils/array.utils.ts:2 | the result does not depend on the order of the arguments |
| `ArrayUtils.CompareArrayReflexive` | src/lib/utils/array.utils.ts:2 | an array compares equal to itself |
| `ArrayUtils.ChangedElementDiffers` | src/lib/utils/array.utils.ts:2 | changing one element of an equal pair to a different value, on either side, makes the pair unequal |
| `NumberUtils.IsInRange` | src/lib/utils/number.utils.ts:5-15 | exclusive mode: true iff min(x,y) < n < max(x,y); inclusive mode: true iff min(x,y) <= n <= max(x,y) |
| `NumberUtils.EndpointOrderIrrelevant` | src/lib/utils/number.utils.ts:6-8 | swapping the two ends of the range does not change the result |
| `NumberUtils.ExclusiveImpliesInclusive` | src/lib/utils/number.utils.ts:10-14 | an exclusive hit is also an inclusive hit |
| `NumberUtils.EndpointsOnlyInclusive` | src/lib/utils/number.utils.ts:10-14 | both ends are in range in inclusive mode and out of range in exclusive mode |
| `NumberUtils.DegenerateRange` | src/lib/utils/number.utils.ts:7-13 | for x = y, exclusive is always false and inclusive is true iff n = x |
| `ClassUtils.Added` | src/lib/utils/class.utils.ts:15 | `Set.add`: members are the old ones plus the new one, still without duplicates; a new member goes to the end, and adding a present one changes nothing, so it keeps its place |
| `ClassUtils.Removed` | src/lib/utils/class.utils.ts:17 | `Set.delete`: members are the old ones except the deleted one, still without duplicates |
| `ClassUtils.RemovedKeepsOrder` | src/lib/utils/class.utils.ts:17 | deleting the member at position k leaves every other member in its order |
| `ClassUtils.SurvivorsAppend` | src/lib/utils/class.utils.ts:7-11 | the members an emit leaves keep their relative order: the survivors of two runs of members are the survivors of each, concatenated |
| `ClassUtils.Survivors` | src/lib/utils/class.utils.ts:22-27 | after an emit, the members left are exactly the old `subscribe` members; every `subscribeOnce` wrapper has gone |
| `ClassUtils.Deliveries` | src/lib/utils/class.utils.ts:7-11 | the `forEach` of `emit` makes one delivery per member of the set |
| `ClassUtils.DeliveriesInOrder` | src/lib/utils/class.utils.ts:7-11 | the i-th delivery goes to the i-th member in set order, with the payload |
| `ClassUtils.SubscribeTwiceKeepsOne` | src/lib/utils/class.utils.ts:4-15 | subscribing the same function twice leaves the set as after once, with a single entry for it |
| `ClassUtils.EmitDeliversEachOnce` | src/lib/utils/class.utils.ts:6-11 | one emit calls each member exactly once with the payload |
| `ClassUtils.NonMemberNotCalled` | src/lib/utils/class.utils.ts:6-11 | emit calls no function that is not a member |
| `ClassUtils.UnsubscribeExact` | src/lib/utils/class.utils.ts:16-19 | unsubscribing removes exactly that callback, and a second call changes nothing |
| `ClassUtils.OnceDeliveredThenGone` | src/lib/utils/class.utils.ts:22-27 | a `subscribeOnce` callback is called by the next emit and not by a later one |
| `ClassUtils.TwoOnceWrappersBothDelivered` | src/lib/utils/class.utils.ts:22-26 | two `subscribeOnce` calls with the same function add two entries, and the next emit calls it through both |
| `ClassUtils.EventEmitter.constructor` | src/lib/utils/class.utils.ts:3-4 | a new emitter has no callbacks and has called nothing |
| `ClassUtils.EventEmitter.Subscribe` | src/lib/utils/class.utils.ts:14-20 | the set becomes `Added(old set, callback)`; the returned unsubscribe function targets that callback |
| `ClassUtils.EventEmitter.Unsubscribe` | src/lib/utils/class.utils.ts:16-18 | the set becomes `Removed(old set, callback)` |
| `ClassUtils.EventEmitter.SubscribeOnce` | src/lib/utils/class.utils.ts:22-27 | a new wrapper, distinct from every member, is appended to the set; the wrapper counter goes up by one, so every later wrapper is new too |
| `ClassUtils.EventEmitter.Emit` | src/lib/utils/class.utils.ts:6-12 | the log grows by one call per member with the payload, in set order; the set becomes `Survivors(old set)` and changes in no other way |
| `HocUtils.AfterCall` | src/lib/utils/hoc.utils.ts:23-34 | a call cancels the pending task and schedules one under the next token; from a consistent state, that task alone is pending and holds the call's arguments; nothing is invoked |
| `HocUtils.AfterFire` | src/lib/utils/hoc.utils.ts:28-32 | running a pending task invokes the callback once with its arguments and clears `frameId`, leaving nothing pending; a token that is not pending changes nothing; consistency is kept |
| `HocUtils.CallLeavesOnlyItsTask` | src/lib/utils/hoc.utils.ts:23-34 | after a call exactly one task is pending, the one this call scheduled with its arguments; the task pending before is cancelled; the callback is not invoked |
| `HocUtils.CallAfterFireCancelsNothing` | src/lib/utils/hoc.utils.ts:24-31 | after the task has run nothing is pending, and the next call only schedules a fresh task |
| `HocUtils.FireRunsPendingTask` | src/lib/utils/hoc.utils.ts:28-32 | running the pending task invokes the callback once with its captured arguments and clears `frameId` |
| `HocUtils.FireOfStaleTokenIsNoOp` | src/lib/utils/hoc.utils.ts:24-27 | a host step for a cancelled or already-run task changes nothing |
| `HocUtils.CallsLeaveLastPending` | src/lib/utils/hoc.utils.ts:23-34 | after N > 0 calls with no task run in between, one task is pending, carrying the last call's arguments, and nothing has been invoked |
| `HocUtils.FiresWhenIdle` | src/lib/utils/hoc.utils.ts:28-32 | with nothing pending, host steps change nothing |
| `HocUtils.FiresInvokeAtMostOnce` | src/lib/utils/hoc.utils.ts:28-32 | from a single pending task, any sequence of host steps invokes the callback at most once, with that task's arguments |
| `HocUtils.CallsCoalesce` | src/lib/utils/hoc.utils.ts:20-35 | N calls followed by any host steps invoke the callback at most once, and with the last call's arguments |
| `HocUtils.HostScheduler.constructor` | src/lib/utils/hoc.utils.ts:25-28 | a host queue of the given kind starts with no task and hands out tokens from 0 |
| `HocUtils.HostScheduler.Request` | src/lib/utils/hoc.utils.ts:28 | the host adds a task under a fresh token and returns the token |
| `HocUtils.HostScheduler.Cancel` | src/lib/utils/hoc.utils.ts:25 | the task is removed; cancelling a task that is not pending changes nothing |
| `HocUtils.HostScheduler.Take` | src/lib/utils/hoc.utils.ts:28-29 | the host takes the pending task it runs off its queue and returns the arguments it captured |
| `HocUtils.Debouncer.Idle` | src/lib/utils/hoc.utils.ts:20-22 | a new `debounceIdle` wrapper has no `frameId`, and the idle queue has no task |
| `HocUtils.Debouncer.AnimationFrame` | src/lib/utils/hoc.utils.ts:3-5 | a new `debounceAnimationFrame` wrapper has no `frameId`, and the frame queue has no task |
| `HocUtils.Debouncer.Call` | src/lib/utils/hoc.utils.ts:23-34 | the new state is `AfterCall(old state, args)`: `frameId` names the one pending task, which holds `args` |
| `HocUtils.Debouncer.Fire` | src/lib/utils/hoc.utils.ts:28-33 | the new state is `AfterFire(old state, token)` |
| `Hooks.CanvasHook.constructor` | src/lib/canvas/canvas-hook.ts:21-23 | the registry is empty, the cursor is 0, the emitter has no subscribers |
| `Hooks.CanvasHook.IncrementRegistryIndex` | src/lib/canvas/canvas-hook.ts:25-28 | the cursor goes up by one and its new value is returned |
| `Hooks.CanvasHook.ResetRegistryIndex` | src/lib/canvas/canvas-hook.ts:30-32 | the cursor becomes 0 |
| `Hooks.CanvasHook.SubscribeToStateUpdated` | src/lib/canvas/canvas-hook.ts:34-36 | the callback is added to the `stateUpdated` subscribers; no wrapper is built and nothing is called |
| `Hooks.CanvasHook.UseState` | src/lib/canvas/canvas-hook.ts:40-48 | the slot is the advanced cursor; an empty slot stores and returns `initialState`; an occupied slot returns its value and nothing changes; no other slot changes |
| `Hooks.CanvasHook.SetState` | src/lib/canvas/canvas-hook.ts:50-62 | the setter's slot, and no other, holds the value or the updater applied to the slot's value now; `stateUpdated` is emitted once to every subscriber while the cursor is still unreset, building no wrapper; then the cursor is 0 |
| `Hooks.CanvasHook.UseReducer` | src/lib/canvas/canvas-hook.ts:67-76 | behaves as `useState` and returns a dispatch bound to the slot and to the state read now |
| `Hooks.CanvasHook.Dispatch` | src/lib/canvas/canvas-hook.ts:70-73 | stores `reducer(captured state, action)` through the slot's setter, so it emits and resets too |
| `Hooks.CanvasHook.UseEffect` | src/lib/canvas/canvas-hook.ts:78-99 | empty slot: the effect runs once and is recorded; equal deps: nothing runs, nothing changes; changed deps: the stored cleanup (if a function), then the effect, then the slot is replaced |
| `Hooks.CanvasHook.UseCallback` | src/lib/canvas/canvas-hook.ts:101-117 | returns the stored callback while deps compare equal; otherwise stores and returns the new one |
| `Hooks.CanvasHook.UseMemo` | src/lib/canvas/canvas-hook.ts:119-128 | runs the callback only on an empty slot and stores its result; an occupied slot returns the stored result; the class invariant keeps one run per slot |
| `Hooks.CounterScenario` | src/lib/canvas/canvas-hook.ts:40-98 | `useState(0)` then `useEffect(e, [])`, `setState(1)`, and a second pass: the first pass reads 0, the second reads 1, and the returned trace shows the effect ran only once, before the one `stateUpdated` |
| `Hooks.EffectDepsChangeScenario` | src/lib/canvas/canvas-hook.ts:86-97 | deps changing from `[1]` to `[2]`: the returned trace shows the old cleanup running before the new effect, and the slot holds the new effect and deps |
| `Hooks.UpdaterSeesLatestWrite` | src/lib/canvas/canvas-hook.ts:50-58 | after `setState(5)`, `setState(x => x + 1)` stores 6 although the pass read 0: an updater reads the slot when `setState` is called, not the value read at render |
| `Hooks.DispatchUsesCapturedState` | src/lib/canvas/canvas-hook.ts:67-73 | two dispatches from one pass both reduce the state that pass read |
| `Canvas.CanvasElementCache.constructor` | src/lib/canvas.ts:121-122 | a new cache holds no key and has computed nothing |
| `Canvas.CanvasElementCache.AddCallback` | src/lib/canvas.ts:124-133 | a new key stores and returns the callback; a cached key returns the cached value and changes nothing; other keys are untouched |
| `Canvas.CanvasElementCache.Memoize` | src/lib/canvas.ts:135-145 | a new key runs the callback once and stores and returns the result; a cached key returns the cached value and runs nothing |
| `Canvas.SharedCacheScenario` | src/lib/canvas.ts:122-145 | a key stored by `addCallback` is returned by `memoize`, and the returned record of computed keys is empty: its callback did not run |
| `Canvas.CanvasElement.constructor` | src/lib/canvas.ts:159-164 | the element starts with the given state and draw routine |
| `Canvas.CanvasElement.SetState` | src/lib/canvas.ts:166-168 | the state becomes the given value |
| `Canvas.CanvasElement.Render` | src/lib/canvas.ts:170-178 | with a draw routine the state becomes its result for the current state; without one nothing changes |
| `Canvas.RenderThreadsState` | src/lib/canvas.ts:170-178 | each render sees the state the previous draw returned |

## Left out

- The DOM-bound `Canvas` classes in `src/lib/canvas.ts` and `src/lib/canvas/canvas.ts`, and `clearCanvas`: element creation, pixel-ratio scaling and animation loops are platform I/O.
- `src/lib/canvas/canvas-element.ts`: it re-runs an opaque draw routine from a `stateUpdated` subscriber. Here it is only a subscriber number. Draw passes that run inside that emit are not modelled. Such a pass would see the cursor that `StateUpdated(cursor)` records, because the reset comes after the emit.
- The sketches under `src/sketches` and the hooks in `src/lib/hooks`: they are drawing code and `window` listeners. Most of them call hook names that `CanvasHook` does not have (`use.state`, `use.effect`, `hook.callback`); `generative-artistry/tiled-lines.ts` calls only `useCallback`, which the model covers.
- `createGrid`: a floating-point step-accumulation loop. `Debugger`: console output. `isObject` and `isNil` are not part of this model.
- `CanvasHook` behaviour on hook calls out of order: the stable-call-order precondition `NextSlotFits` excludes it. The source then reads whatever another hook stored there.
- `useEffect` and `useCallback` deps that are not arrays: both hand their deps to `compareArray`, and the source's types (`D extends any[]`, `U extends any[]`) rule such deps out.
- The `typeof` checks on `callback` in `emit` and in the debouncers, and on `draw` in `CanvasElement` where the model uses `Option`: under the source's types these are always functions.
- `typeof arg === 'function'` in `setState` is the tagged `SetStateArg`. Strict identity `===` is Dafny equality, so NaN is left out.
- The cache key `callback.toString()` is a parameter. The 2D context and the element's own cache that `render` hands to `draw` are not modelled.
- Subscribers, effects, cleanups and callbacks are opaque. Code they run, including a subscriber that changes the emitter during `emit`, is not modelled.
- Exceptions thrown by subscribers, effects, cleanups, updaters, reducers, and memo or debounced callbacks are not modelled: every such call returns. The source has no `try`/`finally`, so a throw leaves partial state that the model never reaches: in `setState` the slot is already written and the cursor is never reset (canvas-hook.ts:55-61); a `subscribeOnce` callback that throws keeps its wrapper subscribed and stops the `forEach` of `emit` (class.utils.ts:7-11, 24-25); a cleanup that throws stops `useEffect` before the new effect runs and before the slot is replaced (canvas-hook.ts:92-96); a debounced callback that throws leaves `frameId` set (hoc.utils.ts:13-14, 30-31).
- NumberUtils.IsInRange: uses exact real arithmetic, so the rounding of `Math.abs(x - y)` and `n - Math.min(x, y)` in floating point is not modelled.
- HostScheduler: holds only the tasks of one debounced wrapper. Other users of the host queue and the timing of `requestIdleCallback` and `requestAnimationFrame` are not modelled.
