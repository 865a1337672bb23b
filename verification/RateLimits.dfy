/** The two rate limiters over Redis keys that expire. Time is in microseconds and one call
    happens at one instant. */
module RateLimits {
  import opened Common

  datatype Key<+V> = Key(value: V, expiry: int)

  function Read<V>(key: Option<Key<V>>, now: int): Option<V> {
    if key.Some? && now < key.value.expiry then Some(key.value.value) else None
  }

  function Lookup<V>(keys: map<string, Key<V>>, name: string): Option<Key<V>> {
    if name in keys then Some(keys[name]) else None
  }

  function Stamps(key: Option<Key<set<int>>>, now: int): set<int> {
    var found := Read(key, now); if found.Some? then found.value else {}
  }

  function Count(key: Option<Key<int>>, now: int): int {
    var found := Read(key, now); if found.Some? then found.value else 0
  }

  /** ZREMRANGEBYSCORE 0 now-window, ZADD now, EXPIRE window. */
  function Slide(key: Option<Key<set<int>>>, window: int, now: int): Key<set<int>> {
    Key((set stamp | stamp in Stamps(key, now) && !(0 <= stamp <= now - window)) + {now}, now + window)
  }

  /** INCR, EXPIRE window. */
  function Bump(key: Option<Key<int>>, window: int, now: int): Key<int> {
    Key(Count(key, now) + 1, now + window)
  }

  class RateLimitRepository {
    var sorted: map<string, Key<set<int>>>
    var counters: map<string, Key<int>>

    constructor ()
      ensures sorted == map[] && counters == map[]
    {
      sorted, counters := map[], map[];
    }

    method IncrementSliding(name: string, window: int, now: int) returns (count: int)
      modifies `sorted
      ensures sorted == old(sorted)[name := Slide(Lookup(old(sorted), name), window, now)]
      ensures count == |sorted[name].value|
    {
      var members := Stamps(Lookup(sorted, name), now);
      members := members - set stamp | stamp in members && 0 <= stamp <= now - window;
      members := members + {now};
      count := |members|;
      sorted := sorted[name := Key(members, now + window)];
      assert members == Slide(Lookup(old(sorted), name), window, now).value;
    }

    method Increment(name: string, window: int, now: int) returns (count: int)
      modifies `counters
      ensures counters == old(counters)[name := Bump(Lookup(old(counters), name), window, now)]
      ensures count == counters[name].value
    {
      count := Count(Lookup(counters, name), now) + 1;
      counters := counters[name := Key(count, now + window)];
    }

    /** A missing or expired key reads as zero. */
    method Get(name: string, now: int) returns (count: int)
      ensures name in counters && now < counters[name].expiry ==> count == counters[name].value
      ensures name !in counters || counters[name].expiry <= now ==> count == 0
    {
      count := Count(Lookup(counters, name), now);
    }
  }

  datatype Policy = Policy(limit: int, window: int)

  /** The answer of CheckGlobal and the key it leaves. */
  function GlobalStep(key: Option<Key<set<int>>>, policy: Policy, now: int): (Key<set<int>>, bool) {
    var next := Slide(key, policy.window, now);
    (next, |next.value| <= policy.limit)
  }

  /** The answer of CheckIP and the key it leaves: a refused call writes nothing. */
  function IpStep(key: Option<Key<int>>, policy: Policy, now: int): (Option<Key<int>>, bool) {
    if Count(key, now) > policy.limit then (key, false) else (Some(Bump(key, policy.window, now)), true)
  }

  class RateLimiter {
    const redis: RateLimitRepository
    const globalPolicy: Policy
    const ipPolicy: Policy

    constructor (redis: RateLimitRepository, globalPolicy: Policy, ipPolicy: Policy)
      ensures this.redis == redis && this.globalPolicy == globalPolicy && this.ipPolicy == ipPolicy
    {
      this.redis, this.globalPolicy, this.ipPolicy := redis, globalPolicy, ipPolicy;
    }

    method CheckGlobal(now: int) returns (allowed: bool)
      modifies redis`sorted
      ensures
        var (key, answer) := GlobalStep(Lookup(old(redis.sorted), "global"), globalPolicy, now);
        allowed == answer && redis.sorted == old(redis.sorted)["global" := key]
    {
      var count := redis.IncrementSliding("global", globalPolicy.window, now);
      allowed := count <= globalPolicy.limit;
    }

    method CheckIP(ip: string, now: int) returns (allowed: bool)
      modifies redis`counters
      ensures
        var (key, answer) := IpStep(Lookup(old(redis.counters), "ip:" + ip), ipPolicy, now);
        && allowed == answer
        && Lookup(redis.counters, "ip:" + ip) == key
        && redis.counters - {"ip:" + ip} == old(redis.counters) - {"ip:" + ip}
    {
      var count := redis.Get("ip:" + ip, now);
      if count > ipPolicy.limit {
        return false;
      }
      count := redis.Increment("ip:" + ip, ipPolicy.window, now);
      allowed := true;
    }
  }

  // --- sequences of calls ---

  ghost predicate NonDecreasing(times: seq<int>) {
    && (forall i :: 0 <= i < |times| ==> 0 <= times[i])
    && (forall i, j :: 0 <= i <= j < |times| ==> times[i] <= times[j])
  }

  function GlobalRun(policy: Policy, times: seq<int>): (r: (Option<Key<set<int>>>, seq<bool>))
    ensures |r.1| == |times|
    decreases |times|
  {
    if times == [] then (None, [])
    else
      var (key, answers) := GlobalRun(policy, times[..|times| - 1]);
      var (next, answer) := GlobalStep(key, policy, times[|times| - 1]);
      (Some(next), answers + [answer])
  }

  function IpRun(policy: Policy, times: seq<int>): (r: (Option<Key<int>>, seq<bool>))
    ensures |r.1| == |times|
    decreases |times|
  {
    if times == [] then (None, [])
    else
      var (key, answers) := IpRun(policy, times[..|times| - 1]);
      var (next, answer) := IpStep(key, policy, times[|times| - 1]);
      (next, answers + [answer])
  }
}
