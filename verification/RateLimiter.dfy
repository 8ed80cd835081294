/** The in-memory fixed-window rate limiter (ratelimit.go). Times and durations are integers in one unit. */
module RateLimiter {
  type Key = string

  datatype Bucket = Bucket(count: int, reset: int)

  datatype Limiter = Limiter(window: int, limit: int, buckets: map<Key, Bucket>, lastCleanup: int)

  function Expired(b: Bucket, now: int): bool {
    now > b.reset
  }

  /** The answer and the new bucket, without the clean-up. */
  function Decide(l: Limiter, key: Key, now: int): (Limiter, bool) {
    if key !in l.buckets || Expired(l.buckets[key], now) then
      (l.(buckets := l.buckets[key := Bucket(1, now + l.window)]), true)
    else
      var b := l.buckets[key];
      if b.count >= l.limit then (l, false)
      else (l.(buckets := l.buckets[key := b.(count := b.count + 1)]), true)
  }

  function Clean(l: Limiter, now: int): Limiter {
    if now - l.lastCleanup > l.window then
      l.(buckets := map k | k in l.buckets && !Expired(l.buckets[k], now) :: l.buckets[k], lastCleanup := now)
    else l
  }

  function Allow(l: Limiter, key: Key, now: int): (Limiter, bool) {
    Decide(Clean(l, now), key, now)
  }

  class RateLimit {
    const window: int
    const limit: int
    var buckets: map<Key, Bucket>
    var lastCleanup: int

    ghost function Value(): Limiter
      reads this
    {
      Limiter(window, limit, buckets, lastCleanup)
    }

    constructor (limit: int, window: int, now: int)
      ensures Value() == Limiter(window, limit, map[], now)
    {
      this.limit, this.window := limit, window;
      buckets, lastCleanup := map[], now;
    }

    method Check(key: Key, now: int) returns (ok: bool)
      modifies this
      ensures (Value(), ok) == Allow(old(Value()), key, now)
    {
      if now - lastCleanup > window {
        RemoveExpired(now);
        lastCleanup := now;
      }
      if key !in buckets || now > buckets[key].reset {
        buckets := buckets[key := Bucket(1, now + window)];
        return true;
      }
      var b := buckets[key];
      if b.count >= limit {
        return false;
      }
      buckets := buckets[key := b.(count := b.count + 1)];
      ok := true;
    }

    /** The deletion loop, in any order of keys. */
    method RemoveExpired(now: int)
      modifies this`buckets
      ensures buckets == map k | k in old(buckets) && !Expired(old(buckets)[k], now) :: old(buckets)[k]
    {
      var keys := buckets.Keys;
      while keys != {}
        invariant keys <= old(buckets).Keys
        invariant buckets.Keys == set k | k in old(buckets) && (k in keys || !Expired(old(buckets)[k], now))
        invariant forall k | k in buckets :: buckets[k] == old(buckets)[k]
        decreases |keys|
      {
        var k :| k in keys;
        if now > buckets[k].reset {
          buckets := buckets - {k};
        }
        keys := keys - {k};
      }
    }
  }

  // ---------- Sequences of calls ----------

  datatype Call = Call(key: Key, now: int)

  predicate NonDecreasing(calls: seq<Call>) {
    forall i, j | 0 <= i < j < |calls| :: calls[i].now <= calls[j].now
  }

  function Run(l: Limiter, calls: seq<Call>): (Limiter, seq<bool>) {
    if calls == [] then (l, [])
    else
      var (l', answers) := Run(l, calls[..|calls| - 1]);
      var c := calls[|calls| - 1];
      var (l'', ok) := Allow(l', c.key, c.now);
      (l'', answers + [ok])
  }

  function RunWithoutCleanup(l: Limiter, calls: seq<Call>): (Limiter, seq<bool>) {
    if calls == [] then (l, [])
    else
      var (l', answers) := RunWithoutCleanup(l, calls[..|calls| - 1]);
      var c := calls[|calls| - 1];
      var (l'', ok) := Decide(l', c.key, c.now);
      (l'', answers + [ok])
  }

  // ---------- What cleaning up changes ----------

  /** Calls are listed in the order in which they got the lock. The time of a call is read before that, so
      it may be earlier than the time of a call listed before it. */
  predicate Cleaned(l: Limiter, calls: seq<Call>) {
    Run(l, calls).0.lastCleanup != l.lastCleanup
  }

  /** No call has a time before a clean-up that it comes after. */
  predicate InOrder(l: Limiter, calls: seq<Call>) {
    forall i | 0 <= i < |calls| :: Cleaned(l, calls[..i]) ==> Run(l, calls[..i]).0.lastCleanup <= calls[i].now
  }

  /** The limiter `a` is `b` without the buckets that had expired at the last clean-up. */
  predicate Matches(l: Limiter, a: Limiter, b: Limiter) {
    && a.window == b.window == l.window && a.limit == b.limit == l.limit && l.lastCleanup <= a.lastCleanup
    && if a.lastCleanup == l.lastCleanup then a.buckets == b.buckets else Filtered(a.buckets, b.buckets, a.lastCleanup)
  }

  predicate Filtered(a: map<Key, Bucket>, b: map<Key, Bucket>, time: int) {
    && (forall k | k in a :: k in b && a[k] == b[k] && !Expired(a[k], time))
    && (forall k | k in b && !Expired(b[k], time) :: k in a)
  }

  /** The bucket that the clean-up has dropped would still count for this earlier time, and is full. */
  predicate Missed(l: Limiter, a: Limiter, b: Limiter, key: Key, now: int) {
    && a.lastCleanup != l.lastCleanup && now < a.lastCleanup
    && key in b.buckets && Expired(b.buckets[key], a.lastCleanup) && !Expired(b.buckets[key], now)
    && b.buckets[key].count >= b.limit
  }

  lemma CleanMatches(l: Limiter, a: Limiter, b: Limiter, now: int)
    requires l.window >= 0 && Matches(l, a, b)
    ensures Matches(l, Clean(a, now), b)
    ensures Clean(a, now) == a || Clean(a, now).lastCleanup == now > a.lastCleanup
  {}

  lemma DecideMatches(l: Limiter, a: Limiter, b: Limiter, key: Key, now: int)
    requires l.window >= 0 && Matches(l, a, b)
    requires a.lastCleanup != l.lastCleanup ==> a.lastCleanup <= now
    ensures Matches(l, Decide(a, key, now).0, Decide(b, key, now).0)
    ensures Decide(a, key, now).1 == Decide(b, key, now).1
  {}

  /** With times in order the two limiters stay matched and answer alike. */
  lemma {:induction false} RunsMatch(l: Limiter, calls: seq<Call>)
    requires l.window >= 0 && InOrder(l, calls)
    ensures Run(l, calls).1 == RunWithoutCleanup(l, calls).1
    ensures Matches(l, Run(l, calls).0, RunWithoutCleanup(l, calls).0)
    decreases |calls|
  {
    hide Clean, Decide, Matches;
    if calls == [] {
      MatchesItself(l);
    } else {
      var front, c := calls[..|calls| - 1], calls[|calls| - 1];
      FrontInOrder(l, calls);
      RunsMatch(l, front);
      var a, b := Run(l, front).0, RunWithoutCleanup(l, front).0;
      CleanMatches(l, a, b, c.now);
      DecideMatches(l, Clean(a, c.now), b, c.key, c.now);
    }
  }

  lemma MatchesItself(l: Limiter)
    ensures Matches(l, l, l)
  {}

  lemma FrontInOrder(l: Limiter, calls: seq<Call>)
    requires calls != [] && InOrder(l, calls)
    ensures InOrder(l, calls[..|calls| - 1])
  {
    hide Run;
    var front := calls[..|calls| - 1];
    assert forall i | 0 <= i < |front| :: front[..i] == calls[..i] && front[i] == calls[i];
  }

  /** Removing expired buckets changes no answer as long as no call has a time before a clean-up. */
  lemma CleanupIsInvisible(l: Limiter, calls: seq<Call>)
    requires l.window >= 0 && InOrder(l, calls)
    ensures Run(l, calls).1 == RunWithoutCleanup(l, calls).1
  {
    RunsMatch(l, calls);
  }

  /** And this is exact: the next call is answered differently if and only if its time is before the last
      clean-up and its bucket, full, was dropped then but had not expired at its time. */
  lemma CleanupShowsExactly(l: Limiter, calls: seq<Call>, c: Call)
    requires l.window >= 0 && InOrder(l, calls)
    ensures Run(l, calls + [c]).1 != RunWithoutCleanup(l, calls + [c]).1 <==>
            Missed(l, Run(l, calls).0, RunWithoutCleanup(l, calls).0, c.key, c.now)
  {
    RunsMatch(l, calls);
    RunSnoc(l, calls, c);
    var a, b := Run(l, calls).0, RunWithoutCleanup(l, calls).0;
    assert (Run(l, calls).1 + [Allow(a, c.key, c.now).1])[|Run(l, calls).1|] == Allow(a, c.key, c.now).1;
    assert (Run(l, calls).1 + [Decide(b, c.key, c.now).1])[|Run(l, calls).1|] == Decide(b, c.key, c.now).1;
    hide Run, RunWithoutCleanup, Clean, Decide, Matches;
    CleanMatches(l, a, b, c.now);
    if a.lastCleanup != l.lastCleanup && c.now < a.lastCleanup {
      LateAnswer(l, a, b, c.key, c.now);
    } else {
      DecideMatches(l, Clean(a, c.now), b, c.key, c.now);
    }
  }

  lemma LateAnswer(l: Limiter, a: Limiter, b: Limiter, key: Key, now: int)
    requires l.window >= 0 && Matches(l, a, b)
    requires a.lastCleanup != l.lastCleanup && now < a.lastCleanup
    ensures Allow(a, key, now).1 != Decide(b, key, now).1 <==> Missed(l, a, b, key, now)
  {}

  /** The times of the key's own calls. */
  function TimesOf(calls: seq<Call>, key: Key): seq<int> {
    if calls == [] then []
    else
      var c := calls[|calls| - 1];
      TimesOf(calls[..|calls| - 1], key) + (if c.key == key then [c.now] else [])
  }

  /** The call that opened the last window: the first one, or the last that came after the end of a window. */
  function LastOpening(window: int, times: seq<int>): (i: nat)
    requires times != []
    ensures i < |times|
    decreases |times|
  {
    if |times| == 1 then 0
    else
      var i := LastOpening(window, times[..|times| - 1]);
      if times[|times| - 1] > times[i] + window then |times| - 1 else i
  }

  /** What the key's own calls say of its bucket in a limiter that does not clean up. */
  predicate FixedBy(l: Limiter, b: Limiter, key: Key, times: seq<int>) {
    && b.window == l.window && b.limit == l.limit
    && (key in b.buckets <==> times != [])
    && (times != [] ==>
          var i := LastOpening(l.window, times);
          && b.buckets[key].reset == times[i] + l.window
          && b.buckets[key].count == if l.limit <= 1 then 1 else Min(l.limit, |times| - i))
  }

  function Min(a: int, b: int): int {
    if a <= b then a else b
  }

  /** Without clean-up a key's bucket is fixed by the key's own calls: its end by the call that opened the
      last window, its count by the number of calls since. */
  lemma {:induction false} OwnCallsFixTheBucket(l: Limiter, calls: seq<Call>, key: Key)
    requires key !in l.buckets
    ensures FixedBy(l, RunWithoutCleanup(l, calls).0, key, TimesOf(calls, key))
    decreases |calls|
  {
    hide FixedBy, Decide;
    if calls == [] {
      NothingFixed(l, key);
    } else {
      var front, c := calls[..|calls| - 1], calls[|calls| - 1];
      OwnCallsFixTheBucket(l, front, key);
      OneCallFixes(l, RunWithoutCleanup(l, front).0, key, TimesOf(front, key), c);
    }
  }

  lemma NothingFixed(l: Limiter, key: Key)
    requires key !in l.buckets
    ensures FixedBy(l, l, key, [])
  {}

  lemma OneCallFixes(l: Limiter, b: Limiter, key: Key, times: seq<int>, c: Call)
    requires FixedBy(l, b, key, times)
    ensures FixedBy(l, Decide(b, c.key, c.now).0, key, times + (if c.key == key then [c.now] else []))
  {
    if c.key == key {
      assert (times + [c.now])[..|times|] == times;
    } else {
      assert times + [] == times;
    }
  }

  /** The same by the calls alone: the next call is answered differently if and only if the key's last window
      includes its time, had ended at the last clean-up, and has seen as many calls as the limit. */
  lemma CleanupShowsByOwnCalls(l: Limiter, calls: seq<Call>, c: Call)
    requires l.window >= 0 && InOrder(l, calls) && c.key !in l.buckets
    ensures Run(l, calls + [c]).1 != RunWithoutCleanup(l, calls + [c]).1 <==>
            && Cleaned(l, calls)
            && FullWindowEnded(l, TimesOf(calls, c.key), c.now, Run(l, calls).0.lastCleanup)
  {
    hide Run, RunWithoutCleanup, InOrder, TimesOf, Missed, FixedBy, FullWindowEnded;
    CleanupShowsExactly(l, calls, c);
    OwnCallsFixTheBucket(l, calls, c.key);
    MissedByOwnCalls(l, Run(l, calls).0, RunWithoutCleanup(l, calls).0, c.key, TimesOf(calls, c.key), c.now);
  }

  /** The last window opened at these times includes `now`, ends before `cleanup`, and is full. */
  predicate FullWindowEnded(l: Limiter, times: seq<int>, now: int, cleanup: int) {
    times != [] &&
    var i := LastOpening(l.window, times);
    now <= times[i] + l.window < cleanup && |times| - i >= l.limit
  }

  lemma MissedByOwnCalls(l: Limiter, a: Limiter, b: Limiter, key: Key, times: seq<int>, now: int)
    requires FixedBy(l, b, key, times)
    ensures Missed(l, a, b, key, now) <==>
            a.lastCleanup != l.lastCleanup && FullWindowEnded(l, times, now, a.lastCleanup)
  {}

  /** Times that never fall are in order. */
  lemma NonDecreasingIsInOrder(l: Limiter, calls: seq<Call>)
    requires NonDecreasing(calls)
    ensures InOrder(l, calls)
  {
    hide Run;
    forall i | 0 <= i < |calls|
      ensures Cleaned(l, calls[..i]) ==> Run(l, calls[..i]).0.lastCleanup <= calls[i].now
    {
      CleanupIsACall(l, calls[..i], calls[i].now);
    }
  }

  lemma {:induction false} CleanupIsACall(l: Limiter, calls: seq<Call>, now: int)
    requires forall i | 0 <= i < |calls| :: calls[i].now <= now
    ensures Cleaned(l, calls) ==> Run(l, calls).0.lastCleanup <= now
    decreases |calls|
  {
    if calls != [] {
      CleanupIsACall(l, calls[..|calls| - 1], now);
    }
  }

  /** It can happen: "a" reads its time, "b" reads a later one and gets the lock first. */
  lemma CleanupShowsWhenCallsOvertake()
    ensures var l := Limiter(10, 1, map[], 0);
            var calls := [Call("a", 0), Call("b", 20), Call("a", 5)];
            Run(l, calls).1 == [true, true, true] && RunWithoutCleanup(l, calls).1 == [true, true, false]
  {
    var l := Limiter(10, 1, map[], 0);
    var a0, b1, a2 := Call("a", 0), Call("b", 20), Call("a", 5);
    assert "a" != "b" by {
      assert "a"[0] != "b"[0];
    }
    RunThree(l, a0, b1, a2);
    hide Run, RunWithoutCleanup;
    var one := map["a" := Bucket(1, 10)];
    var l1 := Limiter(10, 1, one, 0);
    assert Allow(l, "a", 0) == Decide(l, "a", 0) == (l1, true);
    var none: map<Key, Bucket> := map[];
    assert Clean(l1, 20).buckets == none;
    var l2 := Limiter(10, 1, map["b" := Bucket(1, 30)], 20);
    assert Allow(l1, "b", 20) == (l2, true);
    var both := Limiter(10, 1, map["a" := Bucket(1, 10), "b" := Bucket(1, 30)], 0);
    assert Decide(l1, "b", 20) == (both, true);
    assert Allow(l2, "a", 5).1 && !Decide(both, "a", 5).1;
  }

  lemma RunThree(l: Limiter, a: Call, b: Call, c: Call)
    ensures var (l1, x) := Allow(l, a.key, a.now);
            var (l2, y) := Allow(l1, b.key, b.now);
            Run(l, [a, b, c]).1 == [x, y, Allow(l2, c.key, c.now).1]
    ensures var (l1, x) := Decide(l, a.key, a.now);
            var (l2, y) := Decide(l1, b.key, b.now);
            RunWithoutCleanup(l, [a, b, c]).1 == [x, y, Decide(l2, c.key, c.now).1]
  {
    hide Allow, Decide;
    RunSnoc(l, [], a);
    RunSnoc(l, [a], b);
    RunSnoc(l, [a, b], c);
    assert [] + [a] == [a] && [a] + [b] == [a, b] && [a, b] + [c] == [a, b, c];
  }

  lemma RunSnoc(l: Limiter, calls: seq<Call>, c: Call)
    ensures var (l', answers) := Run(l, calls);
            Run(l, calls + [c]) == (Allow(l', c.key, c.now).0, answers + [Allow(l', c.key, c.now).1])
    ensures var (l', answers) := RunWithoutCleanup(l, calls);
            RunWithoutCleanup(l, calls + [c]) == (Decide(l', c.key, c.now).0, answers + [Decide(l', c.key, c.now).1])
  {
    hide Allow, Decide;
    assert (calls + [c])[..|calls|] == calls;
  }

  // ---------- How many calls get through ----------

  /** The times at which calls for `key` were allowed. */
  function AllowedTimes(calls: seq<Call>, answers: seq<bool>, key: Key): seq<int>
    requires |calls| == |answers|
  {
    if calls == [] then []
    else
      var n := |calls| - 1;
      AllowedTimes(calls[..n], answers[..n], key) + (if calls[n].key == key && answers[n] then [calls[n].now] else [])
  }

  /** How many of the times lie in the closed interval from lo to hi. */
  function CountIn(times: seq<int>, lo: int, hi: int): nat {
    if times == [] then 0
    else
      var n := |times| - 1;
      CountIn(times[..n], lo, hi) + (if lo <= times[n] <= hi then 1 else 0)
  }

  function CountFrom(times: seq<int>, lo: int): nat {
    if times == [] then 0
    else
      var n := |times| - 1;
      CountFrom(times[..n], lo) + (if lo <= times[n] then 1 else 0)
  }

  lemma {:induction false} CountBounds(times: seq<int>, lo: int, lo': int, hi: int)
    requires lo <= lo'
    ensures CountIn(times, lo, hi) <= CountFrom(times, lo)
    ensures CountFrom(times, lo') <= CountFrom(times, lo)
    ensures lo > hi ==> CountIn(times, lo, hi) == 0
    ensures (forall i | 0 <= i < |times| :: times[i] < lo) ==> CountFrom(times, lo) == 0
    decreases |times|
  {
    if times != [] {
      CountBounds(times[..|times| - 1], lo, lo', hi);
    }
  }

  lemma CountSnoc(times: seq<int>, t: int, lo: int, hi: int)
    ensures CountIn(times + [t], lo, hi) == CountIn(times, lo, hi) + (if lo <= t <= hi then 1 else 0)
    ensures CountFrom(times + [t], lo) == CountFrom(times, lo) + (if lo <= t then 1 else 0)
  {
    assert (times + [t])[..|times|] == times;
  }

  /** The most calls one bucket lets through. */
  function PerBucket(limit: int): nat {
    if limit > 1 then limit else 1
  }

  /** What the limiter without clean-up keeps for one key: the calls counted in its bucket are all those
      since the bucket was opened, and looking back one more window adds at most one bucket's worth. */
  ghost predicate KeyOk(l: Limiter, key: Key, times: seq<int>) {
    if key !in l.buckets then times == []
    else
      var b := l.buckets[key];
      var start := b.reset - l.window;
      && 1 <= b.count <= PerBucket(l.limit)
      && times != [] && start <= times[|times| - 1]
      && (forall i | 0 <= i < |times| :: times[i] <= b.reset)
      && CountFrom(times, start) == b.count
      && CountFrom(times, start - l.window) <= b.count + PerBucket(l.limit)
  }

  /** One call at a time no earlier than any before. */
  lemma CallKeepsKey(l: Limiter, key: Key, times: seq<int>, c: Call)
    requires l.window >= 0 && KeyOk(l, key, times)
    requires forall i | 0 <= i < |times| :: times[i] <= c.now
    ensures var (l', ok) := Decide(l, c.key, c.now);
            KeyOk(l', key, times + (if c.key == key && ok then [c.now] else []))
  {
    assert times + [] == times;
    if c.key == key && Decide(l, c.key, c.now).1 {
      if key in l.buckets && !Expired(l.buckets[key], c.now) {
        SameBucket(l, key, times, c.now);
      } else {
        NewBucket(l, key, times, c.now);
      }
    } else {
      hide CountFrom;
    }
  }

  lemma SameBucket(l: Limiter, key: Key, times: seq<int>, now: int)
    requires l.window >= 0 && KeyOk(l, key, times) && Decide(l, key, now).1
    requires key in l.buckets && !Expired(l.buckets[key], now)
    requires forall i | 0 <= i < |times| :: times[i] <= now
    ensures KeyOk(Decide(l, key, now).0, key, times + [now])
  {
    var start := l.buckets[key].reset - l.window;
    CountSnoc(times, now, start, 0);
    CountSnoc(times, now, start - l.window, 0);
    hide CountFrom, CountIn;
  }

  lemma NewBucket(l: Limiter, key: Key, times: seq<int>, now: int)
    requires l.window >= 0 && KeyOk(l, key, times)
    requires key !in l.buckets || Expired(l.buckets[key], now)
    requires forall i | 0 <= i < |times| :: times[i] <= now
    ensures KeyOk(Decide(l, key, now).0, key, times + [now])
  {
    CountSnoc(times, now, now, 0);
    CountSnoc(times, now, now - l.window, 0);
    CountBounds(times, now, now, 0);
    CountBounds(times, now - l.window, now - l.window, 0);
    if key in l.buckets {
      CountBounds(times, l.buckets[key].reset - l.window, now - l.window, 0);
    }
    hide CountFrom, CountIn;
  }

  /** Any interval no longer than the window, once this call is counted in. */
  lemma CallKeepsBound(l: Limiter, key: Key, times: seq<int>, now: int, lo: int, hi: int)
    requires l.window >= 0 && hi - lo <= l.window
    requires KeyOk(l, key, times) && KeyOk(Decide(l, key, now).0, key, times + [now]) && Decide(l, key, now).1
    requires CountIn(times, lo, hi) <= 2 * PerBucket(l.limit)
    ensures CountIn(times + [now], lo, hi) <= 2 * PerBucket(l.limit)
  {
    CountSnoc(times, now, lo, hi);
    var l' := Decide(l, key, now).0;
    if lo <= now <= hi {
      var b := l'.buckets[key];
      CountBounds(times + [now], lo, lo, hi);
      CountBounds(times + [now], b.reset - 2 * l.window, lo, hi);
    }
  }

  lemma {:induction false} BoundWithoutCleanup(l: Limiter, calls: seq<Call>, key: Key, lo: int, hi: int)
    requires l.buckets == map[] && l.window >= 0 && hi - lo <= l.window
    requires NonDecreasing(calls)
    ensures var (l', answers) := RunWithoutCleanup(l, calls);
            && |answers| == |calls| && l'.window == l.window && l'.limit == l.limit
            && KeyOk(l', key, AllowedTimes(calls, answers, key))
            && CountIn(AllowedTimes(calls, answers, key), lo, hi) <= 2 * PerBucket(l.limit)
    decreases |calls|
  {
    if calls != [] {
      var front, c := calls[..|calls| - 1], calls[|calls| - 1];
      BoundWithoutCleanup(l, front, key, lo, hi);
      var (l', answers) := RunWithoutCleanup(l, front);
      var times := AllowedTimes(front, answers, key);
      AllowedTimesBound(front, answers, key, c.now);
      CallKeepsKey(l', key, times, c);
      var all := RunWithoutCleanup(l, calls).1;
      assert all[..|front|] == answers;
      assert times + [] == times;
      if c.key == key && Decide(l', c.key, c.now).1 {
        CallKeepsBound(l', key, times, c.now, lo, hi);
      }
    }
  }

  /** The other direction: a call is refused only when the key has had its full limit within the last
      window. */
  lemma RefusedOnlyWhenFull(limit: int, window: int, start: int, calls: seq<Call>, c: Call)
    requires NonDecreasing(calls + [c])
    ensures var answers := Run(Limiter(window, limit, map[], start), calls).1;
            && |answers| == |calls|
            && (!Run(Limiter(window, limit, map[], start), calls + [c]).1[|calls|] ==>
                  CountIn(AllowedTimes(calls, answers, c.key), c.now - window, c.now) >= limit)
  {
    hide Run, RunWithoutCleanup, Allow, Decide, CountIn, AllowedTimes, InOrder;
    var l, all := Limiter(window, limit, map[], start), calls + [c];
    RunLength(l, calls);
    RunSnoc(l, calls, c);
    AllBefore(calls, c);
    if window >= 0 {
      NonDecreasingIsInOrder(l, calls);
      NonDecreasingIsInOrder(l, all);
      CleanupIsInvisible(l, calls);
      CleanupIsInvisible(l, all);
      RefusedWithoutCleanup(l, calls, c);
    } else {
      NeverRefused(l, calls, c);
    }
  }

  lemma AllBefore(calls: seq<Call>, c: Call)
    requires NonDecreasing(calls + [c])
    ensures NonDecreasing(calls) && forall i | 0 <= i < |calls| :: calls[i].now <= c.now
  {
    var all := calls + [c];
    assert all[|calls|] == c && forall i | 0 <= i < |calls| :: all[i] == calls[i];
  }

  lemma RefusedWithoutCleanup(l: Limiter, calls: seq<Call>, c: Call)
    requires l.buckets == map[] && l.window >= 0 && NonDecreasing(calls)
    requires forall i | 0 <= i < |calls| :: calls[i].now <= c.now
    ensures var (l', answers) := RunWithoutCleanup(l, calls);
            && |answers| == |calls|
            && (!Decide(l', c.key, c.now).1 ==>
                  CountIn(AllowedTimes(calls, answers, c.key), c.now - l.window, c.now) >= l.limit)
  {
    hide RunWithoutCleanup, CountIn, CountFrom, AllowedTimes;
    var (l', answers) := RunWithoutCleanup(l, calls);
    BoundWithoutCleanup(l, calls, c.key, c.now - l.window, c.now);
    AllowedTimesBound(calls, answers, c.key, c.now);
    if !Decide(l', c.key, c.now).1 {
      CountUpTo(AllowedTimes(calls, answers, c.key), l'.buckets[c.key].reset - l.window, c.now - l.window, c.now);
    }
  }

  lemma {:induction false} CountUpTo(times: seq<int>, from: int, lo: int, hi: int)
    requires lo <= from && forall i | 0 <= i < |times| :: times[i] <= hi
    ensures CountIn(times, lo, hi) >= CountFrom(times, from)
    decreases |times|
  {
    if times != [] {
      CountUpTo(times[..|times| - 1], from, lo, hi);
    }
  }

  /** With a negative window every bucket has expired when it is looked at. */
  lemma {:induction false} NeverRefused(l: Limiter, calls: seq<Call>, c: Call)
    requires l.buckets == map[] && l.window < 0 && NonDecreasing(calls)
    requires forall i | 0 <= i < |calls| :: calls[i].now <= c.now
    ensures var l' := Run(l, calls).0;
            && l'.window == l.window && (forall k | k in l'.buckets :: l'.buckets[k].reset < c.now)
            && Allow(l', c.key, c.now).1
    decreases |calls|
  {
    if calls != [] {
      NeverRefused(l, calls[..|calls| - 1], calls[|calls| - 1]);
    }
  }

  lemma {:induction false} AllowedTimesBound(calls: seq<Call>, answers: seq<bool>, key: Key, now: int)
    requires |calls| == |answers| && forall i | 0 <= i < |calls| :: calls[i].now <= now
    ensures forall i | 0 <= i < |AllowedTimes(calls, answers, key)| :: AllowedTimes(calls, answers, key)[i] <= now
    decreases |calls|
  {
    if calls != [] {
      AllowedTimesBound(calls[..|calls| - 1], answers[..|calls| - 1], key, now);
    }
  }

  lemma {:induction false} RunLength(l: Limiter, calls: seq<Call>)
    ensures |Run(l, calls).1| == |calls|
    decreases |calls|
  {
    if calls != [] {
      RunLength(l, calls[..|calls| - 1]);
    }
  }

  /** Whatever the mix of keys, no interval of time as long as the window or shorter sees more than
      2 * max(limit, 1) allowed calls for one key. */
  lemma SlidingBound(limit: int, window: int, start: int, calls: seq<Call>, key: Key, lo: int, hi: int)
    requires hi - lo <= window && NonDecreasing(calls)
    ensures var answers := Run(Limiter(window, limit, map[], start), calls).1;
            && |answers| == |calls|
            && CountIn(AllowedTimes(calls, answers, key), lo, hi) <= 2 * PerBucket(limit)
  {
    var l := Limiter(window, limit, map[], start);
    RunLength(l, calls);
    if window >= 0 {
      NonDecreasingIsInOrder(l, calls);
      CleanupIsInvisible(l, calls);
      BoundWithoutCleanup(l, calls, key, lo, hi);
    } else {
      CountBounds(AllowedTimes(calls, Run(l, calls).1, key), lo, lo, hi);
    }
  }
}
