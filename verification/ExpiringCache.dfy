/** The bounded caches of the resolver and of TorBox manifests: least recently used goes first,
    and every value expires.  The state refines the history of puts, hits, expiries and clears. */
module ExpiringCache {
  import opened Common
  import opened Clock

  datatype Cached<+V> = Cached(value: V, expiresAt: Time)

  datatype Event<+V> =
    | Stored(key: string, cached: Cached<V>)
    | Hit(key: string)
    | Expired(key: string)
    | Cleared

  // ---------- Specification over the history ----------

  /** The value last put for a key since the last clear. */
  function LastPut<V>(h: seq<Event<V>>, key: string): Option<Cached<V>> {
    if h == [] then None
    else match Last(h)
      case Stored(k, c) => if k == key then Some(c) else LastPut(Front(h), key)
      case Cleared => None
      case _ => LastPut(Front(h), key)
  }

  /** The distinct other keys put or hit since the key itself last was. */
  function TouchedSince<V>(h: seq<Event<V>>, key: string): set<string> {
    if h == [] then {}
    else match Last(h)
      case Stored(k, _) => if k == key then {} else TouchedSince(Front(h), key) + {k}
      case Hit(k) => if k == key then {} else TouchedSince(Front(h), key) + {k}
      case Expired(_) => TouchedSince(Front(h), key)
      case Cleared => {}
  }

  /** The keys dropped because they had expired since the key itself was last put or hit. */
  function ExpiredSince<V>(h: seq<Event<V>>, key: string): set<string> {
    if h == [] then {}
    else match Last(h)
      case Stored(k, _) => if k == key then {} else ExpiredSince(Front(h), key)
      case Hit(k) => if k == key then {} else ExpiredSince(Front(h), key)
      case Expired(k) => ExpiredSince(Front(h), key) + {k}
      case Cleared => {}
  }

  predicate Unexpired<V>(h: seq<Event<V>>, key: string, t: Time) {
    var put := LastPut(h, key);
    put.Some? && t < put.value.expiresAt
  }

  // ---------- What the stored entries mean ----------

  function Keys(order: seq<string>): set<string> {
    set k | k in order
  }

  /** The order lists keys by last touch: each was touched before all that follow it, and since
      then nothing else was, except keys that have expired. */
  ghost predicate ByLastTouch<V>(h: seq<Event<V>>, order: seq<string>) {
    order != [] ==>
      && order[0] !in order[1..]
      && Keys(order[1..]) <= TouchedSince(h, order[0]) <= Keys(order[1..]) + ExpiredSince(h, order[0])
      && ByLastTouch(h, order[1..])
  }

  /** Entries hold what was last put; what is not there has expired or was pushed out. */
  ghost predicate Refines<V>(
    h: seq<Event<V>>, order: seq<string>, entries: map<string, Cached<V>>, maxEntries: nat, now: Time)
  {
    && (forall k :: k in order <==> k in entries)
    && (forall k :: k in entries ==> LastPut(h, k) == Some(entries[k]))
    && (forall k :: k !in entries ==> Gone(h, k, maxEntries, now))
  }

  ghost predicate Gone<V>(h: seq<Event<V>>, key: string, maxEntries: nat, now: Time) {
    var put := LastPut(h, key);
    put.None? || put.value.expiresAt <= now || |TouchedSince(h, key)| >= maxEntries
  }

  predicate Touches<V>(e: Event<V>, key: string) {
    (e.Stored? || e.Hit?) && e.key == key
  }

  lemma {:induction false} TouchKeepsOrder<V>(h: seq<Event<V>>, order: seq<string>, e: Event<V>, key: string)
    requires ByLastTouch(h, order) && Touches(e, key)
    ensures ByLastTouch(h + [e], Without(order, key) + [key])
  {
    assert Front(h + [e]) == h;
    if order == [] {
      assert ([key])[1..] == [];
    } else {
      TouchKeepsOrder(h, order[1..], e, key);
      var rest := Without(order[1..], key) + [key];
      if order[0] != key {
        assert Without(order, key) + [key] == [order[0]] + rest;
        assert Keys(rest) == Keys(order[1..]) + {key};
        assert ([order[0]] + rest)[1..] == rest;
      }
    }
  }

  lemma {:induction false} ExpiryKeepsOrder<V>(h: seq<Event<V>>, order: seq<string>, key: string)
    requires ByLastTouch(h, order)
    ensures ByLastTouch(h + [Expired(key)], Without(order, key))
  {
    assert Front(h + [Expired(key)]) == h;
    if order != [] {
      ExpiryKeepsOrder(h, order[1..], key);
      var rest := Without(order[1..], key);
      if order[0] != key {
        assert Without(order, key)[1..] == rest;
        assert Keys(order[1..]) <= Keys(rest) + {key};
      }
    }
  }

  lemma {:induction false} OrderSize<V>(h: seq<Event<V>>, order: seq<string>)
    requires ByLastTouch(h, order)
    ensures |Keys(order)| == |order|
  {
    if order != [] {
      OrderSize(h, order[1..]);
      assert Keys(order) == {order[0]} + Keys(order[1..]);
    } else {
      assert Keys(order) == {};
    }
  }

  lemma {:induction false} WithoutSize<V>(h: seq<Event<V>>, order: seq<string>, key: string)
    requires ByLastTouch(h, order) && key in order
    ensures |Without(order, key)| == |order| - 1
  {
    if order[0] != key {
      WithoutSize(h, order[1..], key);
    }
  }

  /** A key that was pushed out stays pushed out, or expires, while others are touched. */
  lemma GoneStays<V>(h: seq<Event<V>>, e: Event<V>, key: string, maxEntries: nat, now: Time)
    requires Gone(h, key, maxEntries, now)
    requires !e.Cleared? && !Touches(e, key)
    ensures Gone(h + [e], key, maxEntries, now)
  {
    assert Front(h + [e]) == h;
    SubsetSize(TouchedSince(h, key), TouchedSince(h + [e], key));
  }

  lemma TouchRefines<V>(
    h: seq<Event<V>>, order: seq<string>, entries: map<string, Cached<V>>, maxEntries: nat, now: Time,
    e: Event<V>, key: string, cached: Cached<V>)
    requires Refines(h, order, entries, maxEntries, now)
    requires (e == Stored(key, cached)) || (e == Hit(key) && key in entries && entries[key] == cached)
    ensures Refines(h + [e], Without(order, key) + [key], entries[key := cached], maxEntries, now)
  {
    var h', entries' := h + [e], entries[key := cached];
    assert Front(h') == h;
    forall k | k in entries' ensures LastPut(h', k) == Some(entries'[k]) {
      if k != key {
        assert LastPut(h, k) == Some(entries[k]);
      }
    }
    forall k | k !in entries' ensures Gone(h', k, maxEntries, now) {
      GoneStays(h, e, k, maxEntries, now);
    }
  }

  lemma ExpiryRefines<V>(
    h: seq<Event<V>>, order: seq<string>, entries: map<string, Cached<V>>, maxEntries: nat, now: Time, key: string)
    requires Refines(h, order, entries, maxEntries, now)
    requires key in entries && entries[key].expiresAt <= now
    ensures Refines(h + [Expired(key)], Without(order, key), entries - {key}, maxEntries, now)
  {
    var h' := h + [Expired(key)];
    assert Front(h') == h;
    forall k | k !in entries - {key} ensures Gone(h', k, maxEntries, now) {
      assert LastPut(h', k) == LastPut(h, k);
      if k != key {
        GoneStays(h, Expired(key), k, maxEntries, now);
      }
    }
  }

  /** The key pushed out by a put has `maxEntries` distinct keys touched after it. */
  lemma EvictionRefines<V>(
    h: seq<Event<V>>, order: seq<string>, entries: map<string, Cached<V>>, maxEntries: nat, now: Time)
    requires Refines(h, order, entries, maxEntries, now)
    requires ByLastTouch(h, order) && |order| == maxEntries + 1
    ensures Refines(h, order[1..], entries - {order[0]}, maxEntries, now)
    ensures ByLastTouch(h, order[1..])
  {
    OrderSize(h, order[1..]);
    SubsetSize(Keys(order[1..]), TouchedSince(h, order[0]));
  }

  lemma {:induction false} StoredSize<V>(h: seq<Event<V>>, order: seq<string>, key: string)
    requires ByLastTouch(h, order) && key in order
    ensures ExpiredSince(h, key) == {} ==> |TouchedSince(h, key)| < |order|
  {
    if order[0] == key {
      OrderSize(h, order[1..]);
      if ExpiredSince(h, key) == {} {
        assert TouchedSince(h, key) == Keys(order[1..]);
      }
    } else {
      StoredSize(h, order[1..], key);
    }
  }

  /** What a lookup at `t` finds, told from the history: never a value that is not the last put or
      has expired; always an unexpired one with fewer than `maxEntries` other keys touched since;
      and, when nothing expired meanwhile, exactly then. */
  lemma LookupFromHistory<V>(
    h: seq<Event<V>>, order: seq<string>, entries: map<string, Cached<V>>, maxEntries: nat, t: Time, key: string)
    requires Refines(h, order, entries, maxEntries, t) && ByLastTouch(h, order) && |order| <= maxEntries
    ensures key in entries ==> LastPut(h, key) == Some(entries[key])
    ensures Unexpired(h, key, t) && |TouchedSince(h, key)| < maxEntries ==> key in entries
    ensures ExpiredSince(h, key) == {} && |TouchedSince(h, key)| >= maxEntries ==> key !in entries
  {
    if key in entries {
      StoredSize(h, order, key);
    } else {
      assert Gone(h, key, maxEntries, t);
    }
  }

  // ---------- The cache ----------

  /** `ResolvedTargetCache` keeps every value equally long; `TorBoxManifestCache` keeps an absent
      manifest for a shorter time.  The lifetime is therefore a function of the value. */
  class ExpiringCache<V> {
    const ttlOf: V -> Time
    const maxEntries: nat
    var entries: map<string, Cached<V>>
    var order: seq<string>               // the ordering of the entries
    ghost var history: seq<Event<V>>
    ghost var now: Time                  // the latest clock reading

    ghost predicate Valid()
      reads this
    {
      && maxEntries > 0 && |order| <= maxEntries
      && Refines(history, order, entries, maxEntries, now)
      && ByLastTouch(history, order)
    }

    constructor (ttlOf: V -> Time, maxEntries: nat)
      requires maxEntries > 0
      ensures Valid() && this.ttlOf == ttlOf && this.maxEntries == maxEntries && history == []
    {
      this.ttlOf, this.maxEntries := ttlOf, maxEntries;
      entries, order := map[], [];
      history, now := [], 0.0;
    }

    method Get(key: string, t: Time) returns (r: Option<V>)
      requires Valid() && now <= t
      modifies `entries, `order, `history, `now
      ensures Valid() && now == t
      ensures r.Some? ==> Unexpired(old(history), key, t) && r.value == LastPut(old(history), key).value.value
      ensures Unexpired(old(history), key, t) && |TouchedSince(old(history), key)| < maxEntries ==> r.Some?
      ensures ExpiredSince(old(history), key) == {} ==>
                (r.Some? <==> Unexpired(old(history), key, t) && |TouchedSince(old(history), key)| < maxEntries)
      ensures history == old(history) +
                         if r.Some? then [Hit(key)] else if key in old(entries) then [Expired(key)] else []
    {
      hide Refines, ByLastTouch, LastPut, TouchedSince, ExpiredSince;
      ClockAdvances(t);
      now := t;
      LookupFromHistory(history, order, entries, maxEntries, t, key);
      StoredKeys(key);
      if key !in entries {
        return None;
      }
      var cached := entries[key];
      if cached.expiresAt <= t {
        ExpiryRefines(history, order, entries, maxEntries, now, key);
        ExpiryKeepsOrder(history, order, key);
        entries := entries - {key};
        order := Without(order, key);
        history := history + [Expired(key)];
        return None;
      }
      TouchRefines(history, order, entries, maxEntries, now, Hit(key), key, cached);
      TouchKeepsOrder(history, order, Hit(key), key);
      WithoutSize(history, order, key);
      assert entries[key := cached] == entries;
      order := Without(order, key) + [key];
      history := history + [Hit(key)];
      return Some(cached.value);
    }

    method Put(key: string, value: V, t: Time)
      requires Valid() && now <= t
      modifies `entries, `order, `history, `now
      ensures Valid() && now == t
      ensures history == old(history) + [Stored(key, Cached(value, t + ttlOf(value)))]
    {
      hide Refines, ByLastTouch, LastPut, TouchedSince, ExpiredSince;
      ClockAdvances(t);
      StoredKeys(key);
      var cached := Cached(value, t + ttlOf(value));
      TouchRefines(history, order, entries, maxEntries, t, Stored(key, cached), key, cached);
      TouchKeepsOrder(history, order, Stored(key, cached), key);
      entries := entries[key := cached];
      order := Without(order, key) + [key];
      history, now := history + [Stored(key, cached)], t;
      while |order| > maxEntries
        invariant |order| <= maxEntries + 1 && now == t
        invariant Refines(history, order, entries, maxEntries, now) && ByLastTouch(history, order)
        invariant history == old(history) + [Stored(key, cached)]
        decreases |order|
      {
        EvictionRefines(history, order, entries, maxEntries, now);
        entries := entries - {order[0]};
        order := order[1..];
      }
    }

    method Clear()
      requires Valid()
      modifies `entries, `order, `history
      ensures Valid() && history == old(history) + [Cleared] && entries == map[]
    {
      assert Front(history + [Cleared]) == history;
      entries, order := map[], [];
      history := history + [Cleared];
    }

    lemma ClockAdvances(t: Time)
      requires Valid() && now <= t
      ensures Refines(history, order, entries, maxEntries, t)
    {
    }

    lemma StoredKeys(key: string)
      requires Valid()
      ensures key in order <==> key in entries
      ensures key in order ==> |Without(order, key)| == |order| - 1
    {
      if key in order {
        WithoutSize(history, order, key);
      }
    }
  }

  /** Limits that are not positive are refused. */
  method NewResolvedTargetCache(ttlSeconds: Time, maxEntries: int)
    returns (r: Option<ExpiringCache<string>>)
    ensures r.Some? <==> ttlSeconds > 0.0 && maxEntries > 0
    ensures r.Some? ==> fresh(r.value) && r.value.Valid() && r.value.maxEntries == maxEntries && r.value.history == []
    ensures r.Some? ==> forall url :: r.value.ttlOf(url) == ttlSeconds
  {
    if ttlSeconds <= 0.0 || maxEntries <= 0 {
      return None;
    }
    var cache := new ExpiringCache((url: string) => ttlSeconds, maxEntries);
    return Some(cache);
  }

  method NewTorBoxManifestCache<M>(ttlSeconds: Time, negativeTtlSeconds: Time, maxEntries: int)
    returns (r: Option<ExpiringCache<Option<M>>>)
    ensures r.Some? <==> ttlSeconds > 0.0 && negativeTtlSeconds > 0.0 && maxEntries > 0
    ensures r.Some? ==> fresh(r.value) && r.value.Valid() && r.value.maxEntries == maxEntries && r.value.history == []
    ensures r.Some? ==> forall m :: r.value.ttlOf(m) == if m.Some? then ttlSeconds else negativeTtlSeconds
  {
    if ttlSeconds <= 0.0 || negativeTtlSeconds <= 0.0 || maxEntries <= 0 {
      return None;
    }
    var cache := new ExpiringCache((m: Option<M>) => if m.Some? then ttlSeconds else negativeTtlSeconds, maxEntries);
    return Some(cache);
  }
}
