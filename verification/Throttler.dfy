/**
 The shared rate limiter: one Redis script per request over a hit counter and a block key, both expiring.
 Redis keeps a key through the millisecond its deadline names and drops it in the next one, and the whole
 script sees one clock reading.
 */
module Throttler {
  import opened Options

  datatype Limits = Limits(ttl: nat, limit: nat, blockDuration: nat) {
    predicate Positive() {
      ttl > 0 && blockDuration > 0
    }
  }

  datatype Entry = Entry(value: nat, expiresAt: Option<int>)

  datatype Key = HitKey | BlockKey

  datatype Keys = Keys(hit: Option<Entry>, block: Option<Entry>)

  /** What the script returns, times in milliseconds. */
  datatype Reply = Reply(totalHits: nat, hitPttl: int, isBlocked: bool, blockPttl: int)

  datatype Record = Record(totalHits: nat, timeToExpire: int, isBlocked: bool, timeToBlockExpire: int)

  predicate Live(e: Option<Entry>, now: int) {
    e.Some? && (e.value.expiresAt.Some? ==> now <= e.value.expiresAt.value)
  }

  /** Redis `PTTL`: -2 without a key, -1 without a deadline. */
  function Pttl(e: Option<Entry>, now: int): int {
    if !Live(e, now) then -2
    else if e.value.expiresAt.None? then -1
    else e.value.expiresAt.value - now
  }

  /** `Math.ceil(ms / 1000)`. */
  function CeilSeconds(ms: int): int {
    (ms + 999) / 1000
  }

  function ToRecord(r: Reply): Record {
    Record(r.totalHits, CeilSeconds(r.hitPttl), r.isBlocked, CeilSeconds(if r.blockPttl > 0 then r.blockPttl else 0))
  }

  // ---------------------------------------------------------------- specification of one script run

  predicate Blocking(k: Keys, now: int) {
    Pttl(k.block, now) > 0
  }

  /** The hit counter after one more counted hit: the live one goes on, otherwise a lifetime of `ttl` starts. */
  function Counted(c: Limits, hit: Option<Entry>, now: int): Entry {
    if Live(hit, now) && hit.value.value > 0
    then Entry(hit.value.value + 1, Some(hit.value.expiresAt.GetOr(now + c.ttl)))
    else Entry(1, Some(now + c.ttl))
  }

  function After(c: Limits, k: Keys, now: int): Keys {
    if Blocking(k, now) then k
    else
      var e := Counted(c, k.hit, now);
      Keys(Some(e), if e.value > c.limit then Some(Entry(1, Some(now + c.blockDuration))) else k.block)
  }

  function Answer(c: Limits, k: Keys, now: int): Reply {
    if Blocking(k, now) then
      Reply(if Live(k.hit, now) then k.hit.value.value else 0,
            if Pttl(k.hit, now) < 0 then c.ttl else Pttl(k.hit, now), true, Pttl(k.block, now))
    else
      var e := Counted(c, k.hit, now);
      Reply(e.value, e.expiresAt.value - now, e.value > c.limit, if e.value > c.limit then c.blockDuration else 0)
  }

  // ---------------------------------------------------------------- the Redis commands and the script

  class Redis {
    var now: int
    var store: map<Key, Entry>

    function Lookup(key: Key): Option<Entry> reads this {
      if key in store then Some(store[key]) else None
    }

    ghost function Snapshot(): Keys reads this {
      Keys(Lookup(HitKey), Lookup(BlockKey))
    }

    constructor (start: int)
      ensures now == start && Snapshot() == Keys(None, None)
    {
      now, store := start, map[];
    }

    method Get(key: Key) returns (value: Option<nat>)
      ensures value == if Live(Lookup(key), now) then Some(store[key].value) else None
    {
      value := if Live(Lookup(key), now) then Some(store[key].value) else None;
    }

    method Incr(key: Key) returns (value: nat)
      modifies `store
      ensures store == old(store)[key := if old(Live(Lookup(key), now))
                                         then old(store[key]).(value := old(store[key].value) + 1)
                                         else Entry(1, None)]
      ensures value == store[key].value
    {
      if Live(Lookup(key), now) {
        store := store[key := store[key].(value := store[key].value + 1)];
      } else {
        store := store[key := Entry(1, None)];
      }
      value := store[key].value;
    }

    /** `PEXPIRE` with a positive duration. */
    method PExpire(key: Key, ms: nat)
      requires ms > 0
      modifies `store
      ensures store == if old(Live(Lookup(key), now)) then old(store)[key := Entry(old(store[key].value), Some(now + ms))]
                       else old(store)
    {
      if Live(Lookup(key), now) {
        store := store[key := store[key].(expiresAt := Some(now + ms))];
      }
    }

    /** `SET key value PX ms` with a positive duration. */
    method SetPx(key: Key, value: nat, ms: nat)
      requires ms > 0
      modifies `store
      ensures store == old(store)[key := Entry(value, Some(now + ms))]
    {
      store := store[key := Entry(value, Some(now + ms))];
    }

    /** The increment script, command by command. */
    method Increment(c: Limits) returns (reply: Reply)
      requires c.Positive()
      modifies `store
      ensures Snapshot() == After(c, old(Snapshot()), now)
      ensures reply == Answer(c, old(Snapshot()), now)
    {
      var blockPttl := Pttl(Lookup(BlockKey), now);
      if blockPttl > 0 {
        var stored := Get(HitKey);
        var pttl := Pttl(Lookup(HitKey), now);
        if pttl < 0 {
          pttl := c.ttl;
        }
        return Reply(stored.GetOr(0), pttl, true, blockPttl);
      }
      var totalHits := Incr(HitKey);
      if totalHits == 1 {
        PExpire(HitKey, c.ttl);
      }
      var hitPttl := Pttl(Lookup(HitKey), now);
      if hitPttl < 0 {
        PExpire(HitKey, c.ttl);
        hitPttl := c.ttl;
      }
      var isBlocked, timeToBlockExpire := false, 0;
      if totalHits > c.limit {
        SetPx(BlockKey, 1, c.blockDuration);
        isBlocked, timeToBlockExpire := true, c.blockDuration;
      }
      reply := Reply(totalHits, hitPttl, isBlocked, timeToBlockExpire);
    }
  }

  // ---------------------------------------------------------------- the storage, which fails closed

  /** How a request fares on the way to Redis: a lost reply means the script ran but its result never arrived. */
  datatype Delivery = Answered | NotRun | ReplyLost

  function FailClosed(c: Limits): Record {
    var denyFor := Max(Max(c.ttl, c.blockDuration), 1000);
    ToRecord(Reply(c.limit + 1, denyFor, true, denyFor))
  }

  function Max(a: int, b: int): int {
    if a > b then a else b
  }

  function Response(c: Limits, k: Keys, now: int, d: Delivery): Record {
    if d.Answered? then ToRecord(Answer(c, k, now)) else FailClosed(c)
  }

  function Served(c: Limits, k: Keys, now: int, d: Delivery): Keys {
    if d.NotRun? then k else After(c, k, now)
  }

  class RedisThrottlerStorage {
    const redis: Redis
    var degraded: bool

    constructor (redis: Redis)
      ensures this.redis == redis && !degraded
    {
      this.redis := redis;
      degraded := false;
    }

    method Increment(c: Limits, d: Delivery) returns (record: Record)
      requires c.Positive()
      modifies `degraded, redis`store
      ensures redis.Snapshot() == Served(c, old(redis.Snapshot()), redis.now, d)
      ensures record == Response(c, old(redis.Snapshot()), redis.now, d)
      ensures degraded == !d.Answered?
    {
      var reply := Reply(0, 0, true, 0);
      if !d.NotRun? {
        reply := redis.Increment(c);
      }
      if d.Answered? {
        if degraded {
          degraded := false;
        }
        record := ToRecord(reply);
      } else {
        if !degraded {
          degraded := true;
        }
        var denyFor := Max(Max(c.ttl, c.blockDuration), 1000);
        record := ToRecord(Reply(c.limit + 1, denyFor, true, denyFor));
      }
    }
  }

  // ---------------------------------------------------------------- runs

  datatype Request = Request(at: int, delivery: Delivery)

  predicate InOrder(run: seq<Request>) {
    forall i, j :: 0 <= i <= j < |run| ==> run[i].at <= run[j].at
  }

  function KeysAfter(c: Limits, k: Keys, run: seq<Request>): Keys
    decreases |run|
  {
    if run == [] then k
    else KeysAfter(c, Served(c, k, run[0].at, run[0].delivery), run[1..])
  }

  predicate Admits(c: Limits, k: Keys, r: Request) {
    !Response(c, k, r.at, r.delivery).isBlocked
  }

  /** How many requests of a run are let through. */
  function Admitted(c: Limits, k: Keys, run: seq<Request>): nat
    decreases |run|
  {
    if run == [] then 0
    else (if Admits(c, k, run[0]) then 1 else 0) + Admitted(c, Served(c, k, run[0].at, run[0].delivery), run[1..])
  }

  /** What the counter of a live lifetime still leaves to admit. */
  function Remaining(c: Limits, hit: Option<Entry>): nat
    requires hit.Some?
  {
    if hit.value.value < c.limit then c.limit - hit.value.value else 0
  }

  predicate WellKept(k: Keys) {
    && (k.hit.Some? ==> k.hit.value.value > 0 && k.hit.value.expiresAt.Some?)
    && (k.block.Some? ==> k.block.value.expiresAt.Some?)
  }

  lemma {:induction false} RunKeeps(c: Limits, k: Keys, run: seq<Request>)
    requires WellKept(k)
    ensures WellKept(KeysAfter(c, k, run))
    decreases |run|
  {
    if run != [] {
      RunKeeps(c, Served(c, k, run[0].at, run[0].delivery), run[1..]);
    }
  }

  // ---------------------------------------------------------------- what a client is told

  /** `seconds` is `ms` milliseconds in whole seconds, rounded up. */
  predicate RoundedUp(seconds: int, ms: int) {
    1000 * (seconds - 1) < ms <= 1000 * seconds
  }

  /**
   While a block runs, a request is blocked and counts nothing. Otherwise it is counted in the lifetime that runs or
   in a new one of `ttl`, and is blocked, for `blockDuration`, exactly when it goes over the limit.
   */
  lemma CountsAndBlocks(c: Limits, k: Keys, at: int)
    requires c.Positive() && WellKept(k)
    ensures var record, k' := Response(c, k, at, Answered), Served(c, k, at, Answered);
            var live := k.hit.Some? && at <= k.hit.value.expiresAt.value;
            if k.block.Some? && at < k.block.value.expiresAt.value
            then k' == k && record.isBlocked && record.totalHits == if live then k.hit.value.value else 0
            else
              && k'.hit == Some(if live then Entry(k.hit.value.value + 1, k.hit.value.expiresAt) else Entry(1, Some(at + c.ttl)))
              && record.totalHits == k'.hit.value.value && (record.isBlocked <==> record.totalHits > c.limit)
              && (if record.isBlocked then k'.block.Some? && k'.block.value.expiresAt == Some(at + c.blockDuration)
                  else k'.block == k.block)
  {
  }

  /**
   The reported times are what the two keys have left after the request, in seconds rounded up; without a block the
   second is 0, and a lifetime that ended under a block is reported as a whole new one.
   */
  lemma TellsTheTime(c: Limits, k: Keys, at: int)
    requires c.Positive() && WellKept(k)
    ensures var record, k' := Response(c, k, at, Answered), Served(c, k, at, Answered);
            && (if k'.hit.Some? && at <= k'.hit.value.expiresAt.value
                then RoundedUp(record.timeToExpire, k'.hit.value.expiresAt.value - at)
                else record.isBlocked && RoundedUp(record.timeToExpire, c.ttl))
            && (if record.isBlocked
                then k'.block.Some? && RoundedUp(record.timeToBlockExpire, k'.block.value.expiresAt.value - at)
                else record.timeToBlockExpire == 0)
  {
  }

  /**
   Without an answer from Redis a request is refused, for `ttl`, the block or a second, whichever is longest; it is
   counted all the same if only the reply was lost.
   */
  lemma FailsClosed(c: Limits, k: Keys, at: int, d: Delivery)
    requires !d.Answered?
    ensures Served(c, k, at, d) == if d.ReplyLost? then Served(c, k, at, Answered) else k
    ensures var record := Response(c, k, at, d);
            && record.isBlocked && record.totalHits > c.limit && record.timeToExpire == record.timeToBlockExpire
            && record.timeToExpire >= 1 && 1000 * record.timeToExpire >= c.ttl && 1000 * record.timeToExpire >= c.blockDuration
            && (RoundedUp(record.timeToExpire, c.ttl) || RoundedUp(record.timeToExpire, c.blockDuration)
                || record.timeToExpire == 1)
  {
  }

  /** Through one lifetime of the hit key, the requests admitted fit in what its counter leaves of `limit`. */
  lemma {:induction false} LifetimeBound(c: Limits, k: Keys, run: seq<Request>)
    requires WellKept(k) && k.hit.Some?
    requires forall r <- run :: r.at <= k.hit.value.expiresAt.value
    ensures Admitted(c, k, run) <= Remaining(c, k.hit)
    decreases |run|
  {
    if run != [] {
      var k' := Served(c, k, run[0].at, run[0].delivery);
      LifetimeBound(c, k', run[1..]);
    }
  }

  /** Starting with no live counter, any span of `ttl` holds one lifetime. */
  lemma {:induction false} FromDeadBound(c: Limits, k: Keys, run: seq<Request>, start: int)
    requires WellKept(k) && InOrder(run)
    requires forall r <- run :: start <= r.at <= start + c.ttl
    requires !Live(k.hit, start)
    ensures Admitted(c, k, run) <= c.limit
    decreases |run|
  {
    if run != [] {
      var k' := Served(c, k, run[0].at, run[0].delivery);
      if k'.hit == k.hit {
        FromDeadBound(c, k', run[1..], start);
      } else {
        assert k'.hit == Some(Entry(1, Some(run[0].at + c.ttl)));
        LifetimeBound(c, k', run[1..]);
      }
    }
  }

  /** A live counter and the lifetime after it. */
  lemma {:induction false} FromLiveBound(c: Limits, k: Keys, run: seq<Request>)
    requires WellKept(k) && InOrder(run) && k.hit.Some?
    requires forall r <- run :: r.at <= k.hit.value.expiresAt.value + 1 + c.ttl
    ensures Admitted(c, k, run) <= Remaining(c, k.hit) + c.limit
    decreases |run|
  {
    if run != [] {
      if run[0].at > k.hit.value.expiresAt.value {
        FromDeadBound(c, k, run, run[0].at);
      } else {
        FromLiveBound(c, Served(c, k, run[0].at, run[0].delivery), run[1..]);
      }
    }
  }

  /**
   Whatever happened before, a stretch of requests spanning at most `ttl` milliseconds admits fewer than
   `2 * limit`, and one millisecond more makes it `2 * limit`. Outages and lost replies change nothing.
   */
  lemma WindowBound(c: Limits, before: seq<Request>, window: seq<Request>)
    requires c.limit > 0 && InOrder(window) && |window| > 0
    ensures var k := KeysAfter(c, Keys(None, None), before); var last := window[|window| - 1].at;
            && (last <= window[0].at + c.ttl ==> Admitted(c, k, window) <= 2 * c.limit - 1)
            && (last <= window[0].at + c.ttl + 1 ==> Admitted(c, k, window) <= 2 * c.limit)
  {
    var k := KeysAfter(c, Keys(None, None), before);
    RunKeeps(c, Keys(None, None), before);
    var first, last := window[0].at, window[|window| - 1].at;
    if last <= first + c.ttl + 1 {
      if Live(k.hit, first) {
        FromLiveBound(c, k, window);
      } else {
        if last <= first + c.ttl {
          FromDeadBound(c, k, window, first);
        }
        var k' := Served(c, k, first, window[0].delivery);
        if k'.hit != k.hit {
          FromLiveBound(c, k', window[1..]);
        } else if |window| > 1 {
          TwoLivesBound(c, k', window[1..], first);
        }
      }
    }
  }

  /** Still no live counter after the first request: the rest of the span holds at most two lifetimes. */
  lemma {:induction false} TwoLivesBound(c: Limits, k: Keys, run: seq<Request>, start: int)
    requires WellKept(k) && InOrder(run) && c.limit > 0
    requires forall r <- run :: start <= r.at <= start + c.ttl + 1
    requires !Live(k.hit, start)
    ensures Admitted(c, k, run) <= 2 * c.limit
    decreases |run|
  {
    if run != [] {
      var k' := Served(c, k, run[0].at, run[0].delivery);
      if k'.hit == k.hit {
        TwoLivesBound(c, k', run[1..], start);
      } else {
        FromLiveBound(c, k', run[1..]);
      }
    }
  }

  /**
   The bound for spans of `ttl` is reached, for every limit: one early request, the rest of that lifetime, and
   a full next one.
   */
  lemma WindowBoundReached(c: Limits) returns (before: seq<Request>, window: seq<Request>)
    requires c.Positive() && c.limit > 0
    ensures |window| == 2 * c.limit - 1 && InOrder(before + window)
    ensures window[|window| - 1].at <= window[0].at + 1
    ensures Admitted(c, KeysAfter(c, Keys(None, None), before), window) == 2 * c.limit - 1
  {
    var first, tail, next := Request(0, Answered), Request(c.ttl, Answered), Request(c.ttl + 1, Answered);
    before := [first];
    window := seq(c.limit - 1, _ => tail) + seq(c.limit, _ => next);
    var k := Served(c, Keys(None, None), 0, Answered);
    assert KeysAfter(c, Keys(None, None), before) == KeysAfter(c, k, before[1..]) == k;
    Burst(c, k, tail, c.limit - 1, seq(c.limit, _ => next));
    var k' := k.(hit := Some(Entry(c.limit, k.hit.value.expiresAt)));
    var one := Served(c, k', c.ttl + 1, Answered);
    assert seq(c.limit, _ => next)[1..] == seq(c.limit - 1, _ => next) + [];
    Burst(c, one, next, c.limit - 1, []);
  }

  /** Requests in one millisecond of a live lifetime are all admitted while the counter has room. */
  lemma {:induction false} Burst(c: Limits, k: Keys, r: Request, n: nat, rest: seq<Request>)
    requires WellKept(k) && k.hit.Some? && r.delivery.Answered? && k.block.None?
    requires r.at <= k.hit.value.expiresAt.value && k.hit.value.value + n <= c.limit
    ensures Admitted(c, k, seq(n, _ => r) + rest)
         == n + Admitted(c, k.(hit := Some(Entry(k.hit.value.value + n, k.hit.value.expiresAt))), rest)
    decreases n
  {
    var run := seq(n, _ => r) + rest;
    if n == 0 {
      assert run == rest;
    } else {
      assert run[1..] == seq(n - 1, _ => r) + rest;
      Burst(c, Served(c, k, r.at, r.delivery), r, n - 1, rest);
    }
  }

  // ---------------------------------------------------------------- after a block

  /** While a block is running its hit counter is over the limit, and outlives the block only if `ttl` is the longer. */
  predicate BlockBacked(c: Limits, k: Keys, now: int)
    requires WellKept(k)
  {
    && (k.hit.Some? ==> k.hit.value.expiresAt.value <= now + c.ttl)
    && (Blocking(k, now) ==>
      && k.hit.Some? && k.hit.value.value > c.limit
      && k.hit.value.expiresAt.value - c.ttl <= k.block.value.expiresAt.value - c.blockDuration)
  }

  lemma {:induction false} RunKeepsBacked(c: Limits, k: Keys, run: seq<Request>, now: int)
    requires InOrder(run) && WellKept(k) && BlockBacked(c, k, now)
    requires |run| > 0 ==> now <= run[0].at
    ensures WellKept(KeysAfter(c, k, run))
    ensures BlockBacked(c, KeysAfter(c, k, run), if run == [] then now else run[|run| - 1].at)
    decreases |run|
  {
    if run != [] {
      RunKeepsBacked(c, Served(c, k, run[0].at, run[0].delivery), run[1..], run[0].at);
    }
  }

  /** Requests made while a block runs are turned away and leave both keys as they are. */
  lemma {:induction false} BlockedRunChangesNothing(c: Limits, k: Keys, run: seq<Request>)
    requires WellKept(k) && k.block.Some?
    requires forall r <- run :: r.at < k.block.value.expiresAt.value
    ensures KeysAfter(c, k, run) == k && Admitted(c, k, run) == 0
    decreases |run|
  {
    if run != [] {
      BlockedRunChangesNothing(c, k, run[1..]);
    }
  }

  /**
   A request at `at` gets a blocked answer. More requests may arrive while that block runs. The next one,
   at `later`, is admitted exactly when the block is over and the old counter has expired too. With a
   block at least as long as `ttl` that is certain once the reported whole seconds have passed.
   */
  lemma AfterBlock(c: Limits, before: seq<Request>, at: int, during: seq<Request>, later: int)
    requires c.Positive() && c.limit > 0 && InOrder(before) && (|before| > 0 ==> before[|before| - 1].at <= at)
    requires Answer(c, KeysAfter(c, Keys(None, None), before), at).isBlocked
    requires forall r <- during :: at <= r.at < at + Answer(c, KeysAfter(c, Keys(None, None), before), at).blockPttl
    requires at <= later
    ensures var reply := Answer(c, KeysAfter(c, Keys(None, None), before), at);
            var k := KeysAfter(c, After(c, KeysAfter(c, Keys(None, None), before), at), during);
            && k.hit.Some? && k.hit.value.expiresAt.Some?
            && (Admits(c, k, Request(later, Answered)) <==>
                later >= at + reply.blockPttl && later > k.hit.value.expiresAt.value)
            && (c.blockDuration >= c.ttl && later > at + 1000 * ToRecord(reply).timeToBlockExpire ==>
                Admits(c, k, Request(later, Answered)) && Answer(c, k, later).totalHits == 1)
  {
    var empty := Keys(None, None);
    var k := KeysAfter(c, empty, before);
    RunKeeps(c, empty, before);
    RunKeepsBacked(c, empty, before, if |before| > 0 then before[0].at else at);
    BlockedRunChangesNothing(c, After(c, k, at), during);
  }

  /** At the reported second itself a client is turned away again when `ttl` and the block are both one minute. */
  lemma BoundaryBlocksAgain(c: Limits, burst: seq<Request>)
    requires c == Limits(60_000, 1, 60_000)
    requires burst == [Request(0, Answered), Request(0, Answered)]
    ensures var k := KeysAfter(c, Keys(None, None), burst);
            && Response(c, KeysAfter(c, Keys(None, None), burst[..1]), 0, Answered) == Record(2, 60, true, 60)
            && Response(c, k, 60_000, Answered).isBlocked
            && !Response(c, k, 60_001, Answered).isBlocked
  {
    var one := Keys(Some(Entry(1, Some(60_000))), None);
    var two := Keys(Some(Entry(2, Some(60_000))), Some(Entry(1, Some(60_000))));
    assert Served(c, Keys(None, None), 0, Answered) == one && Served(c, one, 0, Answered) == two;
    assert KeysAfter(c, Keys(None, None), burst[..1]) == KeysAfter(c, one, burst[..1][1..]) == one;
    assert KeysAfter(c, Keys(None, None), burst) == KeysAfter(c, one, burst[1..]) == KeysAfter(c, two, burst[1..][1..]) == two;
  }
}
