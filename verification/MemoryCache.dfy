/** The in-process stand-in for a memcached client: a dictionary whose expired keys are purged on reads. */
module MemoryCache {
  import opened Wrappers
  import opened Text

  /** Cached values: `None`, an integer, or a string. */
  datatype Value = Nothing | Num(n: int) | Str(s: string)

  /** `int(value)`; `None` stands for the exception it raises. */
  function ToInt(v: Value): Option<int> {
    match v
    case Nothing => None
    case Num(n) => Some(n)
    case Str(s) => PyInt(s)
  }

  datatype Op =
    | Get(key: string)
    | Set(key: string, value: Value, time: int)
    | Add(key: string, value: Value, time: int)
    | Incr(key: string, delta: int)
    | Delete(key: string)

  datatype Outcome = Got(value: Value) | Done(stored: bool) | Incremented(n: Option<int>) | Raised

  // ---------- what the dictionary does ----------

  /** Key to (timeout, value); a timeout of 0 means "never". */
  type Cache = map<string, (int, Value)>

  predicate Expired(timeout: int, now: int) { timeout != 0 && now >= timeout }

  function Purge(c: Cache, now: int): Cache {
    map k | k in c && !Expired(c[k].0, now) :: c[k]
  }

  function Lookup(c: Cache, key: string): Value {
    if key in c then c[key].1 else Nothing
  }

  function Timeout(time: int, now: int): int { if time != 0 then now + time else 0 }

  /** One call, its clock reading and its outcome. `add` reads the clock twice: `now` and `later`. */
  function Step(c: Cache, op: Op, now: int, later: int): (Cache, Outcome) {
    match op
    case Get(k) => (Purge(c, now), Got(Lookup(Purge(c, now), k)))
    case Set(k, v, t) => (c[k := (Timeout(t, now), v)], Done(true))
    case Add(k, v, t) =>
      var p := Purge(c, now);
      if Lookup(p, k) != Nothing then (p, Done(false)) else (p[k := (Timeout(t, later), v)], Done(true))
    case Incr(k, d) =>
      var p := Purge(c, now);
      if Lookup(p, k) == Nothing then (p, Incremented(None))
      else if ToInt(p[k].1).None? then (p, Raised)
      else
        var n := ToInt(p[k].1).value + d;
        (p[k := (p[k].0, Str(Repr(n)))], Incremented(Some(n)))
    case Delete(k) => (c - {k}, Done(true))
  }

  class Client {
    var cache: Cache

    constructor ()
      ensures cache == map[]
    {
      cache := map[];
    }

    /** `get`: expunges every expired key, then looks the key up. */
    method Fetch(key: string, now: int) returns (v: Value)
      modifies this
      ensures (cache, Got(v)) == Step(old(cache), Get(key), now, now)
    {
      ghost var before := cache;
      var todo := cache.Keys;
      while todo != {}
        invariant todo <= cache.Keys <= before.Keys
        invariant forall k | k in cache :: cache[k] == before[k]
        invariant forall k | k in before && k !in todo :: k in cache <==> !Expired(before[k].0, now)
        decreases |todo|
      {
        var k :| k in todo;
        todo := todo - {k};
        if cache[k].0 != 0 && now >= cache[k].0 {
          cache := cache - {k};
        }
      }
      assert cache == Purge(before, now);
      v := if key in cache then cache[key].1 else Nothing;
    }

    /** `set` */
    method Store(key: string, value: Value, time: int, now: int) returns (r: bool)
      modifies this
      ensures (cache, Done(r)) == Step(old(cache), Set(key, value, time), now, now)
    {
      var timeout := 0;
      if time != 0 {
        timeout := now + time;
      }
      cache := cache[key := (timeout, value)];
      r := true;
    }

    /** `add` */
    method AddNew(key: string, value: Value, time: int, now: int, later: int) returns (r: bool)
      modifies this
      ensures (cache, Done(r)) == Step(old(cache), Add(key, value, time), now, later)
    {
      var v := Fetch(key, now);
      if v != Nothing {
        return false;
      }
      r := Store(key, value, time, later);
    }

    /** `incr` */
    method Increment(key: string, delta: int, now: int) returns (out: Outcome)
      modifies this
      ensures (cache, out) == Step(old(cache), Incr(key, delta), now, now)
    {
      var v := Fetch(key, now);
      if v == Nothing {
        return Incremented(None);
      }
      var i := if v.Num? then Some(v.n) else PyInt(v.s);
      if i.None? {
        return Raised;
      }
      var n := i.value + delta;
      cache := cache[key := (cache[key].0, Str(Repr(n)))];
      out := Incremented(Some(n));
    }

    /** `delete` */
    method Remove(key: string)
      modifies this
      ensures cache == Step(old(cache), Delete(key), 0, 0).0
    {
      if key in cache {
        cache := cache - {key};
      }
    }
  }

  // ---------- what callers expect: a plain map with a lifetime per key ----------

  /** `expiry` is the first instant at which the entry is gone; nothing is ever purged. */
  datatype Entry = Entry(expiry: Option<int>, value: Value)

  type Store = map<string, Entry>

  predicate Alive(e: Entry, now: int) { e.expiry.None? || now < e.expiry.value }

  function Read(s: Store, key: string, now: int): Value {
    if key in s && Alive(s[key], now) then s[key].value else Nothing
  }

  function Lifetime(time: int, now: int): Option<int> { if time == 0 then None else Some(now + time) }

  function Expect(s: Store, op: Op, now: int, later: int): (Store, Outcome) {
    match op
    case Get(k) => (s, Got(Read(s, k, now)))
    case Set(k, v, t) => (s[k := Entry(Lifetime(t, now), v)], Done(true))
    case Add(k, v, t) =>
      if Read(s, k, now) != Nothing then (s, Done(false)) else (s[k := Entry(Lifetime(t, later), v)], Done(true))
    case Incr(k, d) =>
      if Read(s, k, now) == Nothing then (s, Incremented(None))
      else if ToInt(s[k].value).None? then (s, Raised)
      else
        var n := ToInt(s[k].value).value + d;
        (s[k := s[k].(value := Str(Repr(n)))], Incremented(Some(n)))
    case Delete(k) => (s - {k}, Done(true))
  }

  // ---------- refinement ----------

  predicate SameExpiry(timeout: int, expiry: Option<int>) {
    if expiry.None? then timeout == 0 else timeout == expiry.value && timeout != 0
  }

  /** The dictionary holds what the store holds, minus entries that are already gone. */
  ghost predicate Related(c: Cache, s: Store, now: int) {
    && (forall k | k in c :: k in s && c[k].1 == s[k].value && SameExpiry(c[k].0, s[k].expiry))
    && (forall k | k in s && k !in c :: !Alive(s[k], now))
  }

  /** A lifetime whose end is not the instant 0, which the dictionary reads as "never". */
  predicate Storable(op: Op, now: int, later: int) {
    match op
    case Set(_, _, t) => t == 0 || now + t != 0
    case Add(_, _, t) => t == 0 || later + t != 0
    case _ => true
  }

  lemma StepRefines(c: Cache, s: Store, op: Op, clock: int, now: int, later: int)
    requires Related(c, s, clock) && clock <= now <= later && Storable(op, now, later)
    ensures Step(c, op, now, later).1 == Expect(s, op, now, later).1
    ensures Related(Step(c, op, now, later).0, Expect(s, op, now, later).0, later)
  {
    var p := Purge(c, now);
    assert Related(p, s, now);
    assert forall k :: Lookup(p, k) == Read(s, k, now);
  }

  /** Incrementing a live number, or its text, gives the sum, and that is what reading it returns from then on, for as
      long as the entry lives. */
  lemma IncrementAdds(c: Cache, key: string, n: int, delta: int, now: int, later: int)
    requires key in c && now <= later && !Expired(c[key].0, later) && c[key].1 in {Num(n), Str(Repr(n))}
    ensures var after := Step(c, Incr(key, delta), now, now);
            && after.1 == Incremented(Some(n + delta))
            && Step(after.0, Get(key), later, later).1 == Got(Str(Repr(n + delta)))
            && Step(after.0, Incr(key, delta), later, later).1 == Incremented(Some(n + delta + delta))
  {
    PyIntRepr(n);
    PyIntRepr(n + delta);
  }

  datatype Call = Call(op: Op, now: int, later: int)

  function Outcomes(c: Cache, trace: seq<Call>): seq<Outcome>
    decreases |trace|
  {
    if |trace| == 0 then []
    else
      var r := Step(c, trace[0].op, trace[0].now, trace[0].later);
      [r.1] + Outcomes(r.0, trace[1..])
  }

  function Expected(s: Store, trace: seq<Call>): seq<Outcome>
    decreases |trace|
  {
    if |trace| == 0 then []
    else
      var r := Expect(s, trace[0].op, trace[0].now, trace[0].later);
      [r.1] + Expected(r.0, trace[1..])
  }

  /** The clock never runs backwards over a trace, within a call or between calls. */
  predicate Timed(clock: int, trace: seq<Call>)
    decreases |trace|
  {
    |trace| == 0 ||
    (clock <= trace[0].now <= trace[0].later
     && Storable(trace[0].op, trace[0].now, trace[0].later)
     && Timed(trace[0].later, trace[1..]))
  }

  lemma {:induction false} TraceRefinesFrom(c: Cache, s: Store, clock: int, trace: seq<Call>)
    requires Related(c, s, clock) && Timed(clock, trace)
    ensures Outcomes(c, trace) == Expected(s, trace)
    decreases |trace|
  {
    if |trace| > 0 {
      var t := trace[0];
      StepRefines(c, s, t.op, clock, t.now, t.later);
      TraceRefinesFrom(Step(c, t.op, t.now, t.later).0, Expect(s, t.op, t.now, t.later).0, t.later, trace[1..]);
    }
  }

  /** Every trace of calls under a clock that does not run backwards answers like the plain map. */
  lemma TraceRefines(clock: int, trace: seq<Call>)
    requires Timed(clock, trace)
    ensures Outcomes(map[], trace) == Expected(map[], trace)
  {
    TraceRefinesFrom(map[], map[], clock, trace);
  }

  /** `Storable` is exactly what a stored value needs: without it the dictionary keeps for ever a value
      the plain map loses. */
  lemma StorableIsNeeded(key: string, value: Value, time: int, now: int)
    requires value != Nothing
    ensures Storable(Set(key, value, time), now, now) <==>
            forall later: int | now <= later ::
              Lookup(Purge(Step(map[], Set(key, value, time), now, now).0, later), key)
              == Read(Expect(map[], Set(key, value, time), now, now).0, key, later)
  {
    if time != 0 && now + time == 0 {
      var later := if now >= 0 then now else 0;
      assert Lookup(Purge(Step(map[], Set(key, value, time), now, now).0, later), key) == value;
      assert Read(Expect(map[], Set(key, value, time), now, now).0, key, later) == Nothing;
    }
  }
}
