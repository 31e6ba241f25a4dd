/** The memoizing proxy (`Memoize.js`): a per-object cache of getter and
    method results with an optional time-to-live, a table saying which
    properties are memoized with which ttl, and the async calls still in
    flight. The clock is a parameter (`now`, in milliseconds); a
    property's value (a getter's result, a method's return) is the value
    the target would produce, passed in; a promise is a ticket. */
module Memoizing {
  import opened Wrappers
  import opened Strings

  /** A configured ttl: `None` for undefined or null (never expires). */
  type Ttl = Option<int>

  /** What a keys entry names: a property name, a function found (or not)
      on the prototype chain, or a `{ key, ttl }` object. Anything else is
      ignored. */
  datatype KeyRef = RefName(name: string) | RefFunction(found: Option<string>) | RefMissing
  datatype KeyItem = ItemName(name: string) | ItemFunction(found: Option<string>) | ItemObject(key: KeyRef, ttl: Ttl) | ItemOther

  /** `#processKeyConfig`: the (name, ttl) pair an entry adds, if any. A
      plain string is taken as it is, even when empty; a function or an
      object key counts only when its name is non-empty; an object's ttl
      falls back to the default only when it is undefined or null. */
  function KeyConfig(item: KeyItem, defaultTtl: Ttl): (r: Option<(string, Ttl)>)
    ensures item.ItemName? ==> r == Some((item.name, defaultTtl))
    ensures item.ItemObject? && item.key.RefName? && item.key.name != "" ==>
      r == Some((item.key.name, if item.ttl.Some? then item.ttl else defaultTtl))
    ensures item.ItemOther? || (item.ItemObject? && item.key.RefMissing?) ==> r.None?
    ensures r.Some? && !item.ItemName? ==> r.value.0 != ""
  {
    match item
    case ItemName(name) => Some((name, defaultTtl))
    case ItemFunction(found) =>
      if found.Some? && found.value != "" then Some((found.value, defaultTtl)) else None
    case ItemObject(key, ttl) =>
      var keyName := match key
        case RefName(n) => Some(n)
        case RefFunction(found) => found
        case RefMissing => None;
      if keyName.Some? && keyName.value != "" then Some((keyName.value, if ttl.Some? then ttl else defaultTtl)) else None
    case ItemOther => None
  }

  /** The config table built from the keys, later entries overriding
      earlier ones. */
  function ConfigOf(keys: seq<KeyItem>, defaultTtl: Ttl): map<string, Ttl>
  {
    if keys == [] then map[]
    else
      var rest := ConfigOf(keys[..|keys| - 1], defaultTtl);
      match KeyConfig(keys[|keys| - 1], defaultTtl)
      case None => rest
      case Some(entry) => rest[entry.0 := entry.1]
  }

  /** A configured name is one some entry named; the last entry naming it
      decides its ttl. */
  lemma {:induction false} ConfigOfLast(keys: seq<KeyItem>, defaultTtl: Ttl, i: nat, name: string, ttl: Ttl)
    requires i < |keys| && KeyConfig(keys[i], defaultTtl) == Some((name, ttl))
    requires forall j :: i < j < |keys| ==> KeyConfig(keys[j], defaultTtl).None? || KeyConfig(keys[j], defaultTtl).value.0 != name
    ensures name in ConfigOf(keys, defaultTtl) && ConfigOf(keys, defaultTtl)[name] == ttl
  {
    if i < |keys| - 1 {
      ConfigOfLast(keys[..|keys| - 1], defaultTtl, i, name, ttl);
    }
  }

  datatype Entry<V> = Entry(value: V, timestamp: int, ttl: Ttl)

  /** An entry has outlived the ttl when its age is strictly greater. */
  predicate Expired<V>(entry: Entry<V>, ttl: Ttl, now: int)
  {
    ttl.Some? && now - entry.timestamp > ttl.value
  }

  /** `#getFromCache`: a miss when the key is absent or its entry expired,
      and an expired entry is deleted; otherwise the entry. */
  function Lookup<V>(cache: map<string, Entry<V>>, key: string, ttl: Ttl, now: int): (r: (Option<Entry<V>>, map<string, Entry<V>>))
    ensures r.0.Some? <==> key in cache && !Expired(cache[key], ttl, now)
    ensures r.0.Some? ==> r.0.value == cache[key] && r.1 == cache
    ensures r.0.None? ==> r.1 == cache - {key}
  {
    if key !in cache then (None, cache)
    else if Expired(cache[key], ttl, now) then (None, cache - {key})
    else (Some(cache[key]), cache)
  }

  /** An entry whose age equals the ttl is still served; one a
      millisecond older is dropped. Without a ttl nothing expires. */
  lemma ExpiryBoundary<V>(cache: map<string, Entry<V>>, key: string, t: int)
    requires key in cache
    ensures Lookup(cache, key, Some(t), cache[key].timestamp + t).0 == Some(cache[key])
    ensures Lookup(cache, key, Some(t), cache[key].timestamp + t + 1) == (None, cache - {key})
    ensures forall now :: Lookup(cache, key, None, now).0 == Some(cache[key])
  {
  }

  /** The cache and the async calls in flight. */
  datatype State<V> = State(cache: map<string, Entry<V>>, pending: map<string, nat>)

  /** What the wrapped method does when it is invoked: return a value,
      return a promise (its ticket), or throw synchronously. */
  datatype Outcome<V> = Sync(value: V) | Async(promise: nat) | Throws(error: string)

  /** What the memoized call gives back: a value, the promise of the call
      in flight for that key (the ticket of the method's promise the
      chained one follows), or the method's exception, rethrown. */
  datatype Reply<V> = Value(value: V) | Pending(promise: nat) | Thrown(error: string)

  function MethodKey(prop: string, args: string): string
  {
    "method:" + prop + ":" + args
  }

  function GetterKey(prop: string): string
  {
    "getter:" + prop
  }

  /** `#memoizeMethod`'s wrapper for one call: a hit returns the cached
      value and does not invoke the method. On a miss the method is
      invoked; a value is stored and returned; a promise becomes the
      key's pending call, unless one is already pending, in which case
      that one is returned (the fresh promise is dropped); an exception
      leaves the wrapper, after the lookup has deleted an expired entry,
      with nothing cached and nothing pending. Result: the reply, whether
      the method was invoked, and the new state. */
  function Call<V>(s: State<V>, key: string, outcome: Outcome<V>, ttl: Ttl, now: int): (Reply<V>, bool, State<V>)
  {
    var (hit, cache) := Lookup(s.cache, key, ttl, now);
    if hit.Some? then (Value(hit.value.value), false, s)
    else match outcome
      case Sync(v) => (Value(v), true, State(cache[key := Entry(v, now, ttl)], s.pending))
      case Async(p) =>
        if key in s.pending then (Pending(s.pending[key]), true, State(cache, s.pending))
        else (Pending(p), true, State(cache, s.pending[key := p]))
      case Throws(e) => (Thrown(e), true, State(cache, s.pending))
  }

  /** A getter's value, or its exception, as the outcome of invoking it. */
  function GetterOutcome<V>(current: Result<V, string>): Outcome<V>
  {
    match current
    case Ok(v) => Sync(v)
    case Err(e) => Throws(e)
  }

  /** A method or getter that throws on a miss rethrows, caches nothing,
      leaves the calls in flight alone and drops an expired entry, so the
      next call with that key invokes it again, whatever it does then. */
  lemma ThrowCachesNothing<V>(s: State<V>, key: string, e: string, ttl: Ttl, now: int, later: int, next: Outcome<V>)
    requires !(key in s.cache && !Expired(s.cache[key], ttl, now))
    ensures var (reply, invoked, s1) := Call(s, key, Throws(e), ttl, now);
      && reply == Thrown(e) && invoked
      && s1.pending == s.pending && s1.cache == s.cache - {key}
      && Call(s1, key, next, ttl, later).1
  {
  }

  /** The settlement of a pending call: the key stops being pending, and
      only a fulfilled value is cached, stamped with the settling time. */
  function Settle<V>(s: State<V>, key: string, result: Result<V, string>, ttl: Ttl, now: int): (r: State<V>)
    ensures r.pending == s.pending - {key}
    ensures result.Err? ==> r.cache == s.cache
    ensures result.Ok? ==> r.cache == s.cache[key := Entry(result.value, now, ttl)]
  {
    var pending := s.pending - {key};
    match result
    case Ok(v) => State(s.cache[key := Entry(v, now, ttl)], pending)
    case Err(_) => State(s.cache, pending)
  }

  /** A synchronous result is served from the cache to a repeat call with
      the same key while it has not expired, without invoking the method
      again, whatever the method would return this time. */
  lemma RepeatSyncHits<V>(s: State<V>, key: string, v: V, ttl: Ttl, now: int, later: int, next: Outcome<V>)
    requires key !in s.cache
    requires now <= later && (ttl.None? || later - now <= ttl.value)
    ensures var (reply, invoked, s1) := Call(s, key, Sync(v), ttl, now);
      reply == Value(v) && invoked && Call(s1, key, next, ttl, later) == (Value(v), false, s1)
  {
  }

  /** A second async call while the first is pending still invokes the
      method, and returns the first call's promise. */
  lemma AsyncSharesPending<V>(s: State<V>, key: string, p: nat, q: nat, ttl: Ttl, now: int)
    requires key !in s.cache && key !in s.pending
    ensures var (r1, i1, s1) := Call(s, key, Async(p), ttl, now);
      var (r2, i2, s2) := Call(s1, key, Async(q), ttl, now);
      r1 == Pending(p) && r2 == Pending(p) && i1 && i2 && s2 == s1 && s1.pending == s.pending[key := p]
  {
  }

  /** After a fulfilled async call settles, the next call with its key is
      served from the cache; after a rejected one, it invokes the method
      again. */
  lemma SettledAsync<V>(s: State<V>, key: string, v: V, e: string, ttl: Ttl, now: int, next: Outcome<V>)
    requires ttl.None? || ttl.value >= 0
    ensures Call(Settle(s, key, Ok(v), ttl, now), key, next, ttl, now).0 == Value(v)
    ensures !(key in s.cache && !Expired(s.cache[key], ttl, now)) ==>
      Call(Settle(s, key, Err(e), ttl, now), key, next, ttl, now).1
  {
  }

  /** `clearCache(name)` pattern. */
  function Infix(name: string): string
  {
    ":" + name + ":"
  }

  /** The cache without the keys containing `pattern`. */
  function Without<V>(cache: map<string, Entry<V>>, pattern: string): (r: map<string, Entry<V>>)
    ensures forall k :: k in r <==> k in cache && !Contains(k, pattern)
    ensures forall k :: k in r ==> r[k] == cache[k]
  {
    map k | k in cache && !Contains(k, pattern) :: cache[k]
  }

  /** `clearCache(name)` removes every result of the method `name`, for
      any arguments, and keeps the getter entries of names without a
      colon. */
  lemma ClearSelects<V>(cache: map<string, Entry<V>>, name: string, args: string, prop: string)
    requires ':' !in prop
    ensures MethodKey(name, args) !in Without(cache, Infix(name))
    ensures GetterKey(prop) in cache ==> GetterKey(prop) in Without(cache, Infix(name))
  {
    var k := MethodKey(name, args);
    assert ContainsAt(k, Infix(name), 6) by {
      assert k[6..6 + |Infix(name)|] == Infix(name);
    }
    GetterFree(prop, name);
  }

  lemma GetterFree(prop: string, name: string)
    requires ':' !in prop
    ensures !Contains(GetterKey(prop), Infix(name))
  {
    var g := GetterKey(prop);
    var p := Infix(name);
    forall i | 0 <= i <= |g| - |p| ensures !ContainsAt(g, p, i) {
      if ContainsAt(g, p, i) {
        assert g[i] == p[0] == ':';
        assert g[i + |p| - 1] == p[|p| - 1] == ':';
        ColonAt(prop, i);
        ColonAt(prop, i + |p| - 1);
        assert false;
      }
    }
  }

  /** The only colon of a getter key is the one after "getter". */
  lemma ColonAt(prop: string, i: int)
    requires ':' !in prop && 0 <= i < |GetterKey(prop)| && GetterKey(prop)[i] == ':'
    ensures i == 6
  {
  }

  /** Per-call statistics: age and ttl of every cached entry. */
  datatype EntryStats = EntryStats(age: int, ttl: Ttl)
  datatype Stats = Stats(size: nat, pending: nat, entries: map<string, EntryStats>)

  function StatsOf<V>(s: State<V>, now: int): (r: Stats)
    ensures r.size == |r.entries.Keys| && r.entries.Keys == s.cache.Keys
    ensures r.pending == |s.pending.Keys|
    ensures forall k :: k in r.entries ==> r.entries[k].age == now - s.cache[k].timestamp && r.entries[k].ttl == s.cache[k].ttl
  {
    var entries := map k | k in s.cache :: EntryStats(now - s.cache[k].timestamp, s.cache[k].ttl);
    assert entries.Keys == s.cache.Keys;
    Stats(|s.cache.Keys|, |s.pending.Keys|, map k | k in s.cache :: EntryStats(now - s.cache[k].timestamp, s.cache[k].ttl))
  }

  class Memo<V> {
    var cache: map<string, Entry<V>>
    var config: map<string, Ttl>
    var pending: map<string, nat>
    const defaultTtl: Ttl

    function StateOf(): State<V>
      reads this
    {
      State(cache, pending)
    }

    /** The constructor records each entry of `keys` in turn. */
    constructor(keys: seq<KeyItem>, defaultTtl: Ttl)
      ensures config == ConfigOf(keys, defaultTtl) && this.defaultTtl == defaultTtl
      ensures cache == map[] && pending == map[]
    {
      this.defaultTtl := defaultTtl;
      cache := map[];
      pending := map[];
      config := map[];
      new;
      var i := 0;
      while i < |keys|
        invariant 0 <= i <= |keys|
        invariant config == ConfigOf(keys[..i], defaultTtl)
        invariant cache == map[] && pending == map[] && this.defaultTtl == defaultTtl
      {
        ProcessKeyConfig(keys[i]);
        assert keys[..i + 1][..i] == keys[..i];
        i := i + 1;
      }
      assert keys[..i] == keys;
    }

    method ProcessKeyConfig(item: KeyItem)
      modifies this
      ensures cache == old(cache) && pending == old(pending)
      ensures config == match KeyConfig(item, defaultTtl) case None => old(config) case Some(e) => old(config)[e.0 := e.1]
    {
      var entry := KeyConfig(item, defaultTtl);
      if entry.Some? {
        config := config[entry.value.0 := entry.value.1];
      }
    }

    method GetFromCache(key: string, ttl: Ttl, now: int) returns (r: Option<Entry<V>>)
      modifies this
      ensures (r, cache) == Lookup(old(cache), key, ttl, now)
      ensures pending == old(pending) && config == old(config)
    {
      if key !in cache {
        return None;
      }
      var entry := cache[key];
      if ttl.Some? && now - entry.timestamp > ttl.value {
        cache := cache - {key};
        return None;
      }
      return Some(entry);
    }

    /** `#setInCache`: only `key` changes, to the value stamped now. */
    method SetInCache(key: string, value: V, ttl: Ttl, now: int)
      modifies this
      ensures cache == old(cache)[key := Entry(value, now, ttl)]
      ensures pending == old(pending) && config == old(config)
    {
      cache := cache[key := Entry(value, now, ttl)];
    }

    /** `#memoizeGetter`, reached only for a configured property: the
        cached value under "getter:prop", or the getter's current value,
        which is then stored, or the getter's exception, which stores
        nothing; the property's configured ttl governs them all. */
    method MemoizeGetter(prop: string, current: Result<V, string>, now: int) returns (r: Result<V, string>)
      requires prop in config
      modifies this
      ensures config == old(config)
      ensures var (reply, _, after) := Call(old(StateOf()), GetterKey(prop), GetterOutcome(current), config[prop], now);
        reply == (if r.Ok? then Value(r.value) else Thrown(r.error)) && after == StateOf()
    {
      var ttl := config[prop];
      var key := GetterKey(prop);
      var cached := GetFromCache(key, ttl, now);
      if cached.Some? {
        return Ok(cached.value.value);
      }
      match current
      case Err(e) =>
        return Err(e);
      case Ok(v) =>
        SetInCache(key, v, ttl, now);
        return Ok(v);
    }

    /** One call of a memoized method with serialized arguments `args`;
        only a configured property is memoized, under its configured ttl. */
    method CallMethod(prop: string, args: string, outcome: Outcome<V>, now: int) returns (reply: Reply<V>, invoked: bool)
      requires prop in config
      modifies this
      ensures config == old(config)
      ensures (reply, invoked, StateOf()) == Call(old(StateOf()), MethodKey(prop, args), outcome, config[prop], now)
    {
      var ttl := config[prop];
      var key := MethodKey(prop, args);
      var cached := GetFromCache(key, ttl, now);
      if cached.Some? {
        return Value(cached.value.value), false;
      }
      invoked := true;
      match outcome
      case Async(p) =>
        if key in pending {
          return Pending(pending[key]), invoked;
        }
        pending := pending[key := p];
        reply := Pending(p);
      case Sync(v) =>
        SetInCache(key, v, ttl, now);
        reply := Value(v);
      case Throws(e) =>
        reply := Thrown(e);
    }

    /** The `then`/`catch` handlers of a pending call of the method
        `prop` with arguments `args`. */
    method SettleCall(prop: string, args: string, result: Result<V, string>, now: int)
      requires prop in config
      modifies this
      ensures config == old(config)
      ensures StateOf() == Settle(old(StateOf()), MethodKey(prop, args), result, config[prop], now)
    {
      var key := MethodKey(prop, args);
      var ttl := config[prop];
      if result.Ok? {
        SetInCache(key, result.value, ttl, now);
      }
      pending := pending - {key};
    }

    /** `clearCache(name)`: with a non-empty name, a loop over the keys
        deleting those containing ":name:"; with none (or an empty one),
        the cache and the pending calls are emptied. */
    method ClearCache(name: Option<string>)
      modifies this
      ensures name.Some? && name.value != "" ==>
        cache == Without(old(cache), Infix(name.value)) && pending == old(pending)
      ensures name.None? || name.value == "" ==> cache == map[] && pending == map[]
      ensures config == old(config)
    {
      if name.Some? && name.value != "" {
        var pattern := Infix(name.value);
        var keys := cache.Keys;
        while keys != {}
          invariant keys <= old(cache).Keys
          invariant forall k :: k in cache <==> k in old(cache) && (k in keys || !Contains(k, pattern))
          invariant forall k :: k in cache ==> cache[k] == old(cache)[k]
          invariant pending == old(pending) && config == old(config)
          decreases keys
        {
          var k :| k in keys;
          if Contains(k, pattern) {
            cache := cache - {k};
          }
          keys := keys - {k};
        }
      } else {
        cache := map[];
        pending := map[];
      }
    }

    /** `getCacheStats()`: the number of cached and of pending keys, and
        the age and ttl of every cached entry. */
    function GetCacheStats(now: int): (r: Stats)
      reads this
      ensures r.size == |cache.Keys| && r.pending == |pending.Keys| && r.entries.Keys == cache.Keys
      ensures forall k :: k in cache ==> r.entries[k] == EntryStats(now - cache[k].timestamp, cache[k].ttl)
    {
      StatsOf(StateOf(), now)
    }
  }
}
