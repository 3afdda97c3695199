/** The time-limited memoisation of python-lib/prologin/cache.py: a
    function wrapped by `for_(seconds)` keeps, per tuple of positional
    arguments, the value it computed and when; the value is given back
    while it is at most `seconds` old, and recomputed after. The clock is
    a parameter (each read of `time.time()` is an argument), and the
    wrapped function is a parameter whose `None` stands for an exception. */
module Cache {
  import opened Common

  /** A cache entry: when the value was stored, and the value. */
  datatype Entry<V> = Entry(ts: real, val: V)

  /** Whether an entry stored at `ts` may still be given back at `now`. */
  predicate Fresh(ts: real, seconds: real, now: real)
  {
    ts + seconds >= now
  }

  /** What one call does, given the wrapped function's answer for the
      arguments: the new cache, the value returned (`None` when the
      function raised) and whether the function was called. */
  datatype Step<A, V> = Step(entries: map<A, Entry<V>>, result: Option<V>, called: bool)

  /** One call of the wrapper: a fresh entry is returned as it is; a stale
      one is dropped, and the function's value, if it returns one, is
      stored with the time read after it returned. */
  function Call<A(==), V>(entries: map<A, Entry<V>>, seconds: real, args: A, computed: Option<V>,
                         checkTime: real, storeTime: real): (r: Step<A, V>)
    ensures r.called <==> !(args in entries && Fresh(entries[args].ts, seconds, checkTime))
    ensures !r.called ==> r.result == Some(entries[args].val) && r.entries == entries
    ensures r.called ==> r.result == computed
    ensures r.called && computed.Some? ==> r.entries == entries[args := Entry(storeTime, computed.value)]
    ensures r.called && computed.None? ==> r.entries == entries - {args}
  {
    if args in entries && Fresh(entries[args].ts, seconds, checkTime) then Step(entries, Some(entries[args].val), false)
    else
      var kept := entries - {args};
      match computed
      case None => Step(kept, None, true)
      case Some(v) => Step(kept[args := Entry(storeTime, v)], Some(v), true)
  }

  /** Entries are keyed by the arguments: a call changes nothing under
      other arguments. */
  lemma CallKeepsOthers<A, V>(entries: map<A, Entry<V>>, seconds: real, args: A, computed: Option<V>,
                                 checkTime: real, storeTime: real, other: A)
    requires other != args
    ensures var r := Call(entries, seconds, args, computed, checkTime, storeTime);
      (other in r.entries <==> other in entries) &&
      (other in entries ==> r.entries[other] == entries[other])
  {
  }

  /** After a call that computed a value at `t`, a call with the same
      arguments at `t'` gives that value back without calling the
      function exactly when `t'` is at most `seconds` after `t`. */
  lemma ValueLastsSeconds<A, V>(entries: map<A, Entry<V>>, seconds: real, args: A, v: V,
                                   checkTime: real, t: real, computed: Option<V>, t': real, storeTime: real)
    requires Call(entries, seconds, args, Some(v), checkTime, t).called
    ensures var first := Call(entries, seconds, args, Some(v), checkTime, t);
      var second := Call(first.entries, seconds, args, computed, t', storeTime);
      (!second.called <==> t' <= t + seconds) &&
      (!second.called ==> second.result == Some(v))
  {
  }

  /** A stale entry is recomputed: the function is called, and if it
      raises the entry is gone. */
  lemma StaleDropped<A, V>(entries: map<A, Entry<V>>, seconds: real, args: A, checkTime: real, storeTime: real)
    requires args in entries && !Fresh(entries[args].ts, seconds, checkTime)
    ensures var r := Call(entries, seconds, args, None, checkTime, storeTime);
      r.called && r.result.None? && args !in r.entries
  {
  }

  /** The cache of one wrapped function, with the arguments of every call
      of the function kept in `calls`. */
  class Cached<A(==), V> {
    const seconds: real
    const func: A -> Option<V>
    var entries: map<A, Entry<V>>
    ghost var calls: seq<A>

    constructor (seconds: real, func: A -> Option<V>)
      ensures this.seconds == seconds && this.func == func
      ensures entries == map[] && calls == []
    {
      this.seconds := seconds;
      this.func := func;
      entries := map[];
      calls := [];
    }

    /** `wrapper(*args)`: `checkTime` is the clock when the cache is
        consulted and `storeTime` the clock after the function returned. */
    method Get(args: A, checkTime: real, storeTime: real) returns (result: Option<V>)
      modifies this
      ensures var step := Call(old(entries), seconds, args, func(args), checkTime, storeTime);
        entries == step.entries && result == step.result &&
        calls == if step.called then old(calls) + [args] else old(calls)
    {
      if args in entries {
        var e := entries[args];
        if e.ts + seconds >= checkTime {
          return Some(e.val);
        } else {
          entries := entries - {args};
        }
      }
      calls := calls + [args];
      result := func(args);
      if result.Some? {
        entries := entries[args := Entry(storeTime, result.value)];
      }
    }
  }

  /** Two calls with the same arguments within `seconds` of the first
      computation call the function once; the second gives back the
      first's value. */
  method CallTwice<A(==), V>(c: Cached<A, V>, args: A, t1: real, s1: real, t2: real, s2: real)
    returns (first: Option<V>, second: Option<V>)
    modifies c
    requires args !in c.entries && c.func(args).Some? && t2 <= s1 + c.seconds
    ensures first == second == c.func(args)
    ensures c.calls == old(c.calls) + [args]
  {
    first := c.Get(args, t1, s1);
    second := c.Get(args, t2, s2);
  }
}
