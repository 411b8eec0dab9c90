/** The `useRateLimiter` hook as pure transitions: a remaining-request
    count kept in memory and mirrored in a key/value store, with a window
    measured from the most recent request. The store stands for
    `localStorage` (values as the numbers the stored strings denote) and
    `now` for `Date.now()`. */
module RateLimiter {

  const RemainingKey: string := "remainingRequests"
  const TimestampKey: string := "lastRequestTimestamp"

  type Store = map<string, int>

  /** The store and the hook's in-memory `remainingRequests`. */
  datatype Limiter = Limiter(store: Store, remaining: int)

  /** `Number(localStorage.getItem("remainingRequests") || maxRequests)`:
      an absent entry reads as `maxRequests`. */
  function StoredRemaining(store: Store, maxRequests: int): int
  {
    if RemainingKey in store then store[RemainingKey] else maxRequests
  }

  /** `Number(localStorage.getItem("lastRequestTimestamp"))`: an absent
      entry reads as 0. */
  function StoredTimestamp(store: Store): int
  {
    if TimestampKey in store then store[TimestampKey] else 0
  }

  /** Strictly more than `duration` has passed since the last request. */
  predicate WindowExpired(store: Store, duration: int, now: int) {
    now - StoredTimestamp(store) > duration
  }

  /** The store's count agrees with the in-memory count. */
  predicate Persisted(l: Limiter, maxRequests: int) {
    StoredRemaining(l.store, maxRequests) == l.remaining
  }

  /** Mounting the hook: `useState(maxRequests)` over the existing store. */
  function Mount(store: Store, maxRequests: int): Limiter
  {
    Limiter(store, maxRequests)
  }

  /** The load effect. After an expired window the count is reset to
      `maxRequests` and written back; the stored timestamp is not touched.
      Otherwise the stored count is adopted and nothing is written. */
  function Load(l: Limiter, maxRequests: int, duration: int, now: int): (r: Limiter)
    ensures WindowExpired(l.store, duration, now) ==>
      && r.remaining == maxRequests
      && RemainingKey in r.store && r.store[RemainingKey] == maxRequests
    ensures !WindowExpired(l.store, duration, now) ==>
      r.remaining == StoredRemaining(l.store, maxRequests) && r.store == l.store
    ensures forall k :: k != RemainingKey ==> (k in r.store <==> k in l.store)
    ensures forall k :: k != RemainingKey && k in r.store ==> r.store[k] == l.store[k]
    ensures StoredTimestamp(r.store) == StoredTimestamp(l.store)
    ensures Persisted(r, maxRequests)
  {
    if WindowExpired(l.store, duration, now) then
      Limiter(l.store[RemainingKey := maxRequests], maxRequests)
    else
      Limiter(l.store, StoredRemaining(l.store, maxRequests))
  }

  /** `decrementRemainingRequests` as created by a render that saw the
      count `rendered`: one less than that count, written back together with
      `now` as the last-request time, whatever the count has become since. */
  function DecrementFrom(l: Limiter, rendered: int, now: int): (r: Limiter)
    ensures r.remaining == rendered - 1
    ensures RemainingKey in r.store && r.store[RemainingKey] == r.remaining
    ensures StoredTimestamp(r.store) == now
    ensures r.store.Keys == l.store.Keys + {RemainingKey, TimestampKey}
    ensures forall k :: k in l.store && k != RemainingKey && k != TimestampKey ==> r.store[k] == l.store[k]
  {
    Limiter(l.store[RemainingKey := rendered - 1][TimestampKey := now], rendered - 1)
  }

  /** A decrement whose closure sees the current count, as when the
      component has re-rendered since the previous call. There is no lower
      bound. */
  function Decrement(l: Limiter, now: int): (r: Limiter)
    ensures r.remaining == l.remaining - 1
    ensures RemainingKey in r.store && r.store[RemainingKey] == r.remaining
    ensures StoredTimestamp(r.store) == now
    ensures r.store.Keys == l.store.Keys + {RemainingKey, TimestampKey}
    ensures forall k :: k in l.store && k != RemainingKey && k != TimestampKey ==> r.store[k] == l.store[k]
  {
    DecrementFrom(l, l.remaining, now)
  }

  /** Two calls of the closure of one render both write the count that
      render saw less one: the count goes down once, not twice, unlike two
      calls with a re-render between them. */
  lemma SameRenderDecrementsOnce(l: Limiter, t1: int, t2: int)
    ensures var r := DecrementFrom(DecrementFrom(l, l.remaining, t1), l.remaining, t2);
      r.remaining == l.remaining - 1 && r.store[RemainingKey] == l.remaining - 1
    ensures Decrement(Decrement(l, t1), t2).remaining == l.remaining - 2
  {
  }

  /** Loading twice at the same instant is the same as loading once. */
  lemma LoadIdempotent(l: Limiter, maxRequests: int, duration: int, now: int)
    ensures var once := Load(l, maxRequests, duration, now);
      Load(once, maxRequests, duration, now) == once
  {
  }

  /** With an empty store the first load always yields `maxRequests`; once
      `now > duration` it also writes that count to the store. */
  lemma FirstLoad(maxRequests: int, duration: int, now: int)
    ensures Load(Mount(map[], maxRequests), maxRequests, duration, now).remaining == maxRequests
    ensures now > duration ==>
      Load(Mount(map[], maxRequests), maxRequests, duration, now).store == map[RemainingKey := maxRequests]
  {
  }

  /** Exactly `duration` after the last request the window has not expired
      yet: the stored count is kept. */
  lemma ExactDurationKeepsCount(l: Limiter, maxRequests: int, duration: int)
    ensures Load(l, maxRequests, duration, StoredTimestamp(l.store) + duration).remaining
      == StoredRemaining(l.store, maxRequests)
  {
  }

  /** Each request restarts the window: a load within `duration` of the last
      decrement keeps the decremented count, a later one resets it. */
  lemma DecrementSlidesWindow(l: Limiter, maxRequests: int, duration: int, t: int, later: int)
    ensures later - t <= duration ==>
      Load(Decrement(l, t), maxRequests, duration, later).remaining == l.remaining - 1
    ensures later - t > duration ==>
      Load(Decrement(l, t), maxRequests, duration, later).remaining == maxRequests
  {
  }

  /** Without a check by the caller the count goes below zero. */
  lemma DecrementBelowZero(store: Store, now: int)
    ensures Decrement(Limiter(store, 0), now).remaining == -1
  {
  }

  /** The hook's operations, in the order they happen. */
  datatype Op = LoadAt(now: int) | DecrementAt(now: int)

  function Apply(l: Limiter, op: Op, maxRequests: int, duration: int): Limiter {
    match op
    case LoadAt(now) => Load(l, maxRequests, duration, now)
    case DecrementAt(now) => Decrement(l, now)
  }

  function RunOps(l: Limiter, ops: seq<Op>, maxRequests: int, duration: int): Limiter
    decreases |ops|
  {
    if |ops| == 0 then l else RunOps(Apply(l, ops[0], maxRequests, duration), ops[1..], maxRequests, duration)
  }

  /** Once the stored and in-memory counts agree, every load and decrement
      keeps them in agreement. */
  lemma {:induction false} RunKeepsPersisted(l: Limiter, ops: seq<Op>, maxRequests: int, duration: int)
    requires Persisted(l, maxRequests)
    ensures Persisted(RunOps(l, ops, maxRequests, duration), maxRequests)
    decreases |ops|
  {
    if |ops| > 0 {
      RunKeepsPersisted(Apply(l, ops[0], maxRequests, duration), ops[1..], maxRequests, duration);
    }
  }

  /** The count never rises above `maxRequests` when it starts at or below
      it, both in memory and in the store. */
  lemma {:induction false} RunStaysAtMostMax(l: Limiter, ops: seq<Op>, maxRequests: int, duration: int)
    requires l.remaining <= maxRequests && StoredRemaining(l.store, maxRequests) <= maxRequests
    ensures RunOps(l, ops, maxRequests, duration).remaining <= maxRequests
    ensures StoredRemaining(RunOps(l, ops, maxRequests, duration).store, maxRequests) <= maxRequests
    decreases |ops|
  {
    if |ops| > 0 {
      RunStaysAtMostMax(Apply(l, ops[0], maxRequests, duration), ops[1..], maxRequests, duration);
    }
  }

  /** Decrements with no load in between, each seeing the count the
      previous one left, use up the count one by one, whatever their times:
      from a full count, the `maxRequests`-th request leaves zero. */
  lemma {:induction false} DecrementsCount(l: Limiter, ops: seq<Op>, maxRequests: int, duration: int)
    requires forall i :: 0 <= i < |ops| ==> ops[i].DecrementAt?
    ensures RunOps(l, ops, maxRequests, duration).remaining == l.remaining - |ops|
    decreases |ops|
  {
    if |ops| > 0 {
      assert forall i :: 0 <= i < |ops[1..]| ==> ops[1..][i] == ops[i + 1];
      DecrementsCount(Apply(l, ops[0], maxRequests, duration), ops[1..], maxRequests, duration);
    }
  }
}
