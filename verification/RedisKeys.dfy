/** The expiring keys of the shared Redis store. */
module RedisKeys {
  import opened Wrappers

  /**
   * A Redis key: missing, or a value with the instant at which it lapses.
   * A key created by an increment has no such instant until EXPIRE gives it one.
   */
  datatype Key<+V> = Absent | Present(value: V, expiresAt: Option<real>)
  {
    /** The key can still be read at instant `now`. */
    predicate LiveAt(now: real) {
      Present? && (expiresAt.None? || now < expiresAt.value)
    }

    /** EXPIRE: a live key lapses `ttl` seconds from `now`; on a missing key it has no effect. */
    function ExpireIn(now: real, ttl: real): Key<V> {
      if LiveAt(now) then Present(value, Some(now + ttl)) else Absent
    }
  }

  /** GET with 0 for a missing key. */
  function GetInt(k: Key<int>, now: real): int {
    if k.LiveAt(now) then k.value else 0
  }

  /** INCRBY: adds to a live key and keeps its expiry, or creates the key. */
  function IncrBy(k: Key<int>, now: real, delta: int): Key<int> {
    if k.LiveAt(now) then Present(k.value + delta, k.expiresAt) else Present(delta, None)
  }

  function GetReal(k: Key<real>, now: real): real {
    if k.LiveAt(now) then k.value else 0.0
  }

  /** INCRBYFLOAT: like INCRBY on a decimal value. */
  function IncrByFloat(k: Key<real>, now: real, delta: real): Key<real> {
    if k.LiveAt(now) then Present(k.value + delta, k.expiresAt) else Present(delta, None)
  }
}
