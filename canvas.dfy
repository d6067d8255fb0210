/** The two state-holding helpers of `canvas.ts`: `CanvasElementCache`, a
    keyed first-write-wins cache shared by `addCallback` and `memoize`, and
    `CanvasElement`, whose `render` makes each draw result the next state.

    The cache key the source derives from `callback.toString()` is passed in
    as `key`. */
module Canvas {
  import opened Wrappers

  /** No key occurs twice in `keys`. */
  ghost predicate Distinct(keys: seq<string>)
  {
    forall i, j :: 0 <= i < j < |keys| ==> keys[i] != keys[j]
  }

  class CanvasElementCache<V> {
    var cache: map<string, V>
    /** The keys whose `memoize` callback has run, in order. */
    ghost var computed: seq<string>

    /** A memoized callback runs at most once per key: each computed key is
        cached, and none is computed twice. */
    ghost predicate Valid()
      reads this
    {
      && (forall i :: 0 <= i < |computed| ==> computed[i] in cache)
      && Distinct(computed)
    }

    constructor ()
      ensures Valid() && cache == map[] && computed == []
    {
      cache := map[];
      computed := [];
    }

    /** `addCallback(callback)`: a key seen before returns what is cached
        under it and changes nothing, so the first registration wins; a new
        key stores the callback and returns it. */
    method AddCallback(key: string, callback: V) returns (result: V)
      requires Valid()
      modifies this
      ensures Valid()
      ensures key in old(cache) ==> result == old(cache)[key] && cache == old(cache)
      ensures key !in old(cache) ==> result == callback && cache == old(cache)[key := callback]
      ensures computed == old(computed)
    {
      if key in cache {
        result := cache[key];
      } else {
        cache := cache[key := callback];
        result := callback;
      }
    }

    /** `memoize(callback)`: a key seen before returns what is cached under
        it and runs nothing; a new key runs the callback and stores and
        returns its result. */
    method Memoize(key: string, callback: () -> V) returns (result: V)
      requires Valid()
      modifies this
      ensures Valid()
      ensures key in old(cache) ==> result == old(cache)[key] && cache == old(cache) && computed == old(computed)
      ensures key !in old(cache) ==>
        result == callback() && cache == old(cache)[key := result] && computed == old(computed) + [key]
    {
      if key in cache {
        result := cache[key];
      } else {
        result := callback();
        computed := computed + [key];
        cache := cache[key := result];
      }
    }
  }

  /** `addCallback` and `memoize` share one map: a key stored by the first is
      returned by the second, whose callback then does not run. */
  method SharedCacheScenario(key: string, stored: int, computedValue: int)
    returns (first: int, second: int, ghost computed: seq<string>)
    ensures first == stored && second == stored
    ensures computed == []
  {
    var c := new CanvasElementCache<int>();
    first := c.AddCallback(key, stored);
    second := c.Memoize(key, () => computedValue);
    computed := c.computed;
  }

  /** A `CanvasElement`: `draw` takes the current state and returns the
      next one. The 2D context and the element's cache that the source also
      hands to `draw` are not part of this model. */
  class CanvasElement<T> {
    var state: Option<T>
    var draw: Option<Option<T> -> T>

    constructor (state: Option<T>, draw: Option<Option<T> -> T>)
      ensures this.state == state && this.draw == draw
    {
      this.state := state;
      this.draw := draw;
    }

    method SetState(state: T)
      modifies this`state
      ensures this.state == Some(state)
    {
      this.state := Some(state);
    }

    /** `render(ctx)`: with a draw routine, the state becomes what it returns
        for the current state; without one nothing changes. */
    method Render()
      modifies this`state
      ensures draw.Some? ==> state == Some(draw.value(old(state)))
      ensures draw.None? ==> state == old(state)
    {
      if draw.Some? {
        var newState := draw.value(state);
        SetState(newState);
      }
    }
  }

  /** Each render sees the state the previous render's draw returned. */
  method RenderThreadsState(initial: int) returns (after: Option<int>)
    ensures after == Some(initial + 2)
  {
    var element := new CanvasElement<int>(Some(initial),
      Some((s: Option<int>) => if s.Some? then s.value + 1 else 0));
    element.Render();
    element.Render();
    after := element.state;
  }
}
