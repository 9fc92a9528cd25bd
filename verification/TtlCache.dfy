/** Counters with a time to live, as a Redis-like cache keeps them: `INCR` creates a missing
    counter without a deadline, `EXPIRE` gives a live one a deadline, a dead one counts as missing. */
module TtlCache {
  import opened Options

  const MINUTE: nat := 60_000_000_000

  datatype Counter = Counter(count: nat, deadline: Option<int>)

  type Cache = map<string, Counter>

  predicate Live(c: Cache, key: string, now: int) {
    key in c && (c[key].deadline.Some? ==> now < c[key].deadline.value)
  }

  function CountAt(c: Cache, key: string, now: int): nat {
    if Live(c, key, now) then c[key].count else 0
  }

  function Incr(c: Cache, key: string, now: int): Cache {
    c[key := Counter(CountAt(c, key, now) + 1, if Live(c, key, now) then c[key].deadline else None)]
  }

  function Expire(c: Cache, key: string, now: int, ttl: nat): Cache {
    if Live(c, key, now) then c[key := c[key].(deadline := Some(now + ttl))] else c
  }
}
