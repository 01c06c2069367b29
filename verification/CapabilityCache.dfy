/** The capability detector's cache with its time to live, and the two storage detectors, one
    of which caches a value computed from the other's cached value. A call is one instant;
    the hardware probe is an arbitrary function of path and time. */
module CapabilityCache {
  import opened Wrappers

  datatype Storage = Nvme | Ssd | Hdd

  /** What the cache holds: a storage type, the speeds derived from one, or any other result. */
  datatype Cached =
    | Kind(k: Storage)
    | Speed(of: Cached, readMbps: nat, writeMbps: nat, category: string)
    | Other(n: int)

  type Cache = map<string, (Cached, real)>
  type Probe = (string, real) -> Storage

  function TypeKey(path: string): string { "storage_type_" + path }

  function SpeedKey(path: string): string { "storage_speed_" + path }

  predicate IsFresh(cache: Cache, key: string, now: real, ttl: real) {
    key in cache && now - cache[key].1 < ttl
  }

  /** The cache after a look-up: an expired entry is gone. */
  function Expire(cache: Cache, key: string, now: real, ttl: real): Cache {
    if key in cache && !IsFresh(cache, key, now, ttl) then cache - {key} else cache
  }

  /** A cached detection: the stored result while it is fresh, else `result`, stored now. */
  function Ask(cache: Cache, key: string, result: Cached, now: real, ttl: real): (Cached, Cache) {
    if IsFresh(cache, key, now, ttl) then (cache[key].0, cache)
    else (result, cache[key := (result, now)])
  }

  function AskType(cache: Cache, path: string, now: real, ttl: real, probe: Probe): (Cached, Cache) {
    Ask(cache, TypeKey(path), Kind(probe(path, now)), now, ttl)
  }

  function SpeedOf(c: Cached): Cached {
    if c == Kind(Nvme) then Speed(c, 3000, 2000, "very_fast")
    else if c == Kind(Ssd) then Speed(c, 500, 400, "fast")
    else Speed(c, 150, 120, "slow")
  }

  /** The storage type is asked for only when no fresh speed is cached, and may itself come
      from the cache. */
  function AskSpeed(cache: Cache, path: string, now: real, ttl: real, probe: Probe): (Cached, Cache) {
    if IsFresh(cache, SpeedKey(path), now, ttl) then (cache[SpeedKey(path)].0, cache)
    else
      var (kind, rest) := AskType(Expire(cache, SpeedKey(path), now, ttl), path, now, ttl, probe);
      (SpeedOf(kind), rest[SpeedKey(path) := (SpeedOf(kind), now)])
  }

  class SystemCapabilities {
    const cacheTtl: real
    var cache: Cache

    constructor (cacheTtl: real)
      ensures this.cacheTtl == cacheTtl && cache == map[]
    {
      this.cacheTtl := cacheTtl;
      cache := map[];
    }

    method GetCached(key: string, now: real) returns (r: Option<Cached>)
      modifies this`cache
      ensures if key in old(cache) && now - old(cache)[key].1 < cacheTtl then r == Some(old(cache)[key].0)
              else r == None
      ensures cache == if r.Some? || key !in old(cache) then old(cache) else old(cache) - {key}
    {
      if key in cache {
        var (value, timestamp) := cache[key];
        if now - timestamp < cacheTtl {
          return Some(value);
        }
        cache := cache - {key};
      }
      return None;
    }

    method SetCached(key: string, value: Cached, now: real)
      modifies this`cache
      ensures cache == old(cache)[key := (value, now)]
    {
      cache := cache[key := (value, now)];
    }

    method DetectStorageType(path: string, now: real, probe: Probe) returns (r: Cached)
      modifies this`cache
      ensures (r, cache) == AskType(old(cache), path, now, cacheTtl, probe)
    {
      var cacheKey := TypeKey(path);
      var cached := GetCached(cacheKey, now);
      if cached.Some? {
        return cached.value;
      }
      r := Kind(probe(path, now));
      ghost var rest := cache;
      SetCached(cacheKey, r, now);
      assert rest[cacheKey := (r, now)] == old(cache)[cacheKey := (r, now)];
    }

    method DetectStorageSpeed(path: string, now: real, probe: Probe) returns (r: Cached)
      modifies this`cache
      ensures (r, cache) == AskSpeed(old(cache), path, now, cacheTtl, probe)
    {
      var cacheKey := SpeedKey(path);
      var cached := GetCached(cacheKey, now);
      if cached.Some? {
        return cached.value;
      }
      var storageType := DetectStorageType(path, now, probe);
      if storageType == Kind(Nvme) {
        r := Speed(storageType, 3000, 2000, "very_fast");
      } else if storageType == Kind(Ssd) {
        r := Speed(storageType, 500, 400, "fast");
      } else {
        r := Speed(storageType, 150, 120, "slow");
      }
      SetCached(cacheKey, r, now);
    }

    method ClearCache()
      modifies this`cache
      ensures cache == map[]
    {
      cache := map[];
    }
  }

  // ----- Runs.

  /** One call on the detector. The other detectors use keys of their own. */
  datatype Event = TypeAsked(path: string) | SpeedAsked(path: string) | OtherAsked(key: string, n: int) | Cleared

  predicate OwnKey(key: string) {
    !(TypeKey("") <= key) && !(SpeedKey("") <= key)
  }

  function Step(cache: Cache, e: Event, now: real, ttl: real, probe: Probe): Cache {
    match e
    case TypeAsked(path) => AskType(cache, path, now, ttl, probe).1
    case SpeedAsked(path) => AskSpeed(cache, path, now, ttl, probe).1
    case OtherAsked(key, n) => Ask(cache, key, Other(n), now, ttl).1
    case Cleared => map[]
  }

  function Run(events: seq<(real, Event)>, ttl: real, probe: Probe): Cache {
    if events == [] then map[]
    else
      var (now, e) := events[|events| - 1];
      Step(Run(events[..|events| - 1], ttl, probe), e, now, ttl, probe)
  }

  /** The clock never goes back and has reached `now`. */
  predicate Timed(events: seq<(real, Event)>, now: real) {
    && (forall i, j :: 0 <= i <= j < |events| ==> events[i].0 <= events[j].0)
    && (forall i :: 0 <= i < |events| ==> events[i].0 <= now)
    && (forall i :: 0 <= i < |events| && events[i].1.OtherAsked? ==> OwnKey(events[i].1.key))
  }

  /** `t` is the present, or less than `age` ago. */
  predicate Recent(t: real, now: real, age: real) {
    t == now || (t < now && now - t < age)
  }

  /** A cached storage type is what the probe said at its timestamp; a cached speed was
      computed at its timestamp from a probe that was then recent. */
  ghost predicate SoundAt(cache: Cache, path: string, now: real, ttl: real, probe: Probe) {
    && (TypeKey(path) in cache ==>
          cache[TypeKey(path)].1 <= now && cache[TypeKey(path)].0 == Kind(probe(path, cache[TypeKey(path)].1)))
    && (SpeedKey(path) in cache ==>
          cache[SpeedKey(path)].1 <= now &&
          exists t :: Recent(t, cache[SpeedKey(path)].1, ttl) &&
                      cache[SpeedKey(path)].0 == SpeedOf(Kind(probe(path, t))))
  }

  ghost predicate Sound(cache: Cache, now: real, ttl: real, probe: Probe) {
    forall path :: SoundAt(cache, path, now, ttl, probe)
  }

  lemma KeysApart(path: string, path': string, key: string)
    ensures TypeKey(path) != SpeedKey(path')
    ensures TypeKey(path) == TypeKey(path') ==> path == path'
    ensures SpeedKey(path) == SpeedKey(path') ==> path == path'
    ensures OwnKey(key) ==> key != TypeKey(path) && key != SpeedKey(path)
  {
    assert TypeKey(path)[8] == 't' && SpeedKey(path')[8] == 's';
    assert TypeKey("") <= TypeKey(path) && SpeedKey("") <= SpeedKey(path);
    assert TypeKey(path)[13..] == path && TypeKey(path')[13..] == path';
    assert SpeedKey(path)[14..] == path && SpeedKey(path')[14..] == path';
  }

  /** A storage type handed out at `now` was probed less than one time to live ago. */
  lemma TypeAnswer(cache: Cache, path: string, now: real, ttl: real, probe: Probe)
    requires Sound(cache, now, ttl, probe)
    ensures exists t :: Recent(t, now, ttl) && AskType(cache, path, now, ttl, probe).0 == Kind(probe(path, t))
    ensures Sound(AskType(cache, path, now, ttl, probe).1, now, ttl, probe)
  {
    assert SoundAt(cache, path, now, ttl, probe);
    if IsFresh(cache, TypeKey(path), now, ttl) {
      assert Recent(cache[TypeKey(path)].1, now, ttl);
    } else {
      assert Recent(now, now, ttl);
      var after := AskType(cache, path, now, ttl, probe).1;
      forall p: string ensures SoundAt(after, p, now, ttl, probe) {
        assert SoundAt(cache, p, now, ttl, probe);
        KeysApart(path, p, "");
      }
    }
  }

  lemma ExpireSound(cache: Cache, key: string, now: real, ttl: real, probe: Probe)
    requires Sound(cache, now, ttl, probe)
    ensures Sound(Expire(cache, key, now, ttl), now, ttl, probe)
  {
    forall p: string ensures SoundAt(Expire(cache, key, now, ttl), p, now, ttl, probe) {
      assert SoundAt(cache, p, now, ttl, probe);
    }
  }

  /** A speed handed out at `now` rests on a probe less than two times to live old. */
  lemma SpeedAnswer(cache: Cache, path: string, now: real, ttl: real, probe: Probe)
    requires Sound(cache, now, ttl, probe)
    ensures exists t :: Recent(t, now, 2.0 * ttl) &&
                        AskSpeed(cache, path, now, ttl, probe).0 == SpeedOf(Kind(probe(path, t)))
    ensures Sound(AskSpeed(cache, path, now, ttl, probe).1, now, ttl, probe)
  {
    var key := SpeedKey(path);
    assert SoundAt(cache, path, now, ttl, probe);
    if IsFresh(cache, key, now, ttl) {
      var t :| Recent(t, cache[key].1, ttl) && cache[key].0 == SpeedOf(Kind(probe(path, t)));
      assert Recent(t, now, 2.0 * ttl);
    } else {
      ExpireSound(cache, key, now, ttl, probe);
      var c := Expire(cache, key, now, ttl);
      TypeAnswer(c, path, now, ttl, probe);
      var t :| Recent(t, now, ttl) && AskType(c, path, now, ttl, probe).0 == Kind(probe(path, t));
      assert Recent(t, now, 2.0 * ttl);
      var (kind, rest) := AskType(c, path, now, ttl, probe);
      var after := rest[key := (SpeedOf(kind), now)];
      forall p: string ensures SoundAt(after, p, now, ttl, probe) {
        assert SoundAt(rest, p, now, ttl, probe);
        KeysApart(p, path, "");
      }
    }
  }

  lemma LaterSound(cache: Cache, now: real, later: real, ttl: real, probe: Probe)
    requires Sound(cache, now, ttl, probe) && now <= later
    ensures Sound(cache, later, ttl, probe)
  {
    forall p: string ensures SoundAt(cache, p, later, ttl, probe) {
      assert SoundAt(cache, p, now, ttl, probe);
    }
  }

  lemma {:induction false} RunSound(events: seq<(real, Event)>, now: real, ttl: real, probe: Probe)
    requires Timed(events, now)
    ensures Sound(Run(events, ttl, probe), now, ttl, probe)
  {
    if events != [] {
      var front := events[..|events| - 1];
      var (t, e) := events[|events| - 1];
      RunSound(front, t, ttl, probe);
      var c := Run(front, ttl, probe);
      match e {
        case TypeAsked(path) => TypeAnswer(c, path, t, ttl, probe);
        case SpeedAsked(path) => SpeedAnswer(c, path, t, ttl, probe);
        case OtherAsked(key, _) =>
          forall p: string ensures SoundAt(Run(events, ttl, probe), p, t, ttl, probe) {
            assert SoundAt(c, p, t, ttl, probe);
            KeysApart(p, p, key);
          }
        case Cleared =>
      }
      LaterSound(Run(events, ttl, probe), t, now, ttl, probe);
    }
  }

  /** Bounded staleness, over every run: after any history, what is answered at `now` was
      probed less than `ttl` ago for the type and less than `2 * ttl` ago for the speed, or
      is probed now. */
  lemma BoundedStaleness(events: seq<(real, Event)>, path: string, now: real, ttl: real, probe: Probe)
    requires Timed(events, now)
    ensures exists t :: Recent(t, now, ttl) &&
                        AskType(Run(events, ttl, probe), path, now, ttl, probe).0 == Kind(probe(path, t))
    ensures exists t :: Recent(t, now, 2.0 * ttl) &&
                        AskSpeed(Run(events, ttl, probe), path, now, ttl, probe).0 == SpeedOf(Kind(probe(path, t)))
  {
    RunSound(events, now, ttl, probe);
    TypeAnswer(Run(events, ttl, probe), path, now, ttl, probe);
    SpeedAnswer(Run(events, ttl, probe), path, now, ttl, probe);
  }

  /** No smaller bound holds for the speed: for every `d` below the time to live there is a
      history after which the answer is a probe exactly `2 * d` old. */
  lemma StalenessTight(path: string, d: real, ttl: real, probe: Probe)
    requires 0.0 < d < ttl
    ensures var events := [(0.0, TypeAsked(path)), (d, SpeedAsked(path))];
      && Timed(events, 2.0 * d)
      && AskSpeed(Run(events, ttl, probe), path, 2.0 * d, ttl, probe).0 == SpeedOf(Kind(probe(path, 0.0)))
  {
    var first := [(0.0, TypeAsked(path))];
    var events := [(0.0, TypeAsked(path)), (d, SpeedAsked(path))];
    KeysApart(path, path, "");
    assert events[..1] == first && first[..0] == [];
    assert Run(first, ttl, probe) == map[TypeKey(path) := (Kind(probe(path, 0.0)), 0.0)];
  }

  // ----- The answers, told from the cache and the probe.

  /** A type younger than the time to live is answered as it is; otherwise the probe is asked and
      its answer stored under the present time, over whatever was there. */
  lemma TypeAnswerIs(cache: Cache, path: string, now: real, ttl: real, probe: Probe)
    ensures var key, found := "storage_type_" + path, Kind(probe(path, now));
      AskType(cache, path, now, ttl, probe) ==
        if key in cache && now - cache[key].1 < ttl then (cache[key].0, cache) else (found, cache[key := (found, now)])
  {
  }

  /** A speed younger than the time to live is answered as it is; otherwise it is the speed of
      the type answered now, stored under the present time. No key but these two is touched. */
  lemma SpeedAnswerIs(cache: Cache, path: string, now: real, ttl: real, probe: Probe)
    ensures var key := "storage_speed_" + path;
      var (kind, _), (speed, after) := AskType(cache, path, now, ttl, probe), AskSpeed(cache, path, now, ttl, probe);
      if key in cache && now - cache[key].1 < ttl then speed == cache[key].0 && after == cache
      else
        && speed == SpeedOf(kind) && key in after && after[key] == (speed, now)
        && (forall k :: k != key && k != "storage_type_" + path ==>
              (k in after <==> k in cache) && (k in after ==> after[k] == cache[k]))
  {
    KeysApart(path, path, "");
  }

  /** Megabytes a second read and written, and the category, by what the probe found. */
  lemma SpeedTable(k: Storage)
    ensures SpeedOf(Kind(k)) ==
      match k
      case Nvme => Speed(Kind(k), 3000, 2000, "very_fast")
      case Ssd => Speed(Kind(k), 500, 400, "fast")
      case Hdd => Speed(Kind(k), 150, 120, "slow")
  {
  }
}
