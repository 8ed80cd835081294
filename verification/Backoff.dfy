/** The delay before the agent restarts a failed tunnel (cmd/reach-agent/main.go). A time.Duration is a
    64-bit count of nanoseconds, so doubling wraps around. */
module Backoff {
  const TWO_62: int := 0x4000_0000_0000_0000
  const TWO_63: int := 0x8000_0000_0000_0000
  const TWO_64: int := 0x1_0000_0000_0000_0000

  type Int64 = x: int | -TWO_63 <= x < TWO_63

  const SECOND: Int64 := 1_000_000_000

  function Wrap(x: int): Int64 {
    (x + TWO_63) % TWO_64 - TWO_63
  }

  datatype Config = Config(restartMin: Int64, restartMax: Int64)

  function MinDelay(c: Config): (m: Int64)
    ensures m > 0
  {
    if c.restartMin <= 0 then 5 * SECOND else c.restartMin
  }

  function MaxDelay(c: Config): (m: Int64)
    ensures m >= MinDelay(c)
  {
    if c.restartMax < MinDelay(c) then MinDelay(c) else c.restartMax
  }

  function NextBackoff(current: Int64, max: Int64): Int64 {
    var cur := if current <= 0 then 5 * SECOND else current;
    var n := Wrap(cur * 2);
    if n > max then max else n
  }

  function NextDelay(c: Config, backoff: Int64, stable: bool): Int64 {
    if stable || backoff <= 0 then MinDelay(c) else NextBackoff(backoff, MaxDelay(c))
  }

  // ---------- Histories ----------

  /** The tunnel was stopped on purpose, or failed after or before two minutes. */
  datatype Event = Reset | Failed(stable: bool)

  /** tunnelBackoff after these events; after a failure it is also the delay. */
  function Run(c: Config, history: seq<Event>): Int64 {
    if history == [] then 0
    else
      var e := history[|history| - 1];
      if e.Reset? then 0 else NextDelay(c, Run(c, history[..|history| - 1]), e.stable)
  }

  /** How many unstable failures in a row, not counting the first, the history ends with. */
  function Doublings(history: seq<Event>): nat {
    if history == [] || history[|history| - 1] != Failed(false) then 0
    else
      var front := history[..|history| - 1];
      if front == [] || front[|front| - 1].Reset? then 0 else Doublings(front) + 1
  }

  function TimesTwoToThe(m: nat, k: nat): nat {
    if k == 0 then m else 2 * TimesTwoToThe(m, k - 1)
  }

  function Min(a: int, b: int): int {
    if a < b then a else b
  }

  predicate EndsInFailure(history: seq<Event>) {
    history != [] && history[|history| - 1].Failed?
  }

  lemma WrapKeeps(x: int)
    requires 0 <= x < TWO_64
    ensures Wrap(x) == if x < TWO_63 then x else x - TWO_64
  {}

  lemma {:induction false} Grows(m: nat, k: nat)
    ensures TimesTwoToThe(m, k) >= m
    decreases k
  {
    if k > 0 {
      Grows(m, k - 1);
    }
  }

  /** Below 2^62 every delay is the smallest one, doubled once for each failure in a row, up to the
      largest one. */
  lemma {:induction false} DelayDoubles(c: Config, history: seq<Event>)
    requires MaxDelay(c) < TWO_62
    ensures Run(c, history) ==
            if EndsInFailure(history) then Min(TimesTwoToThe(MinDelay(c), Doublings(history)), MaxDelay(c)) else 0
    decreases |history|
  {
    if EndsInFailure(history) {
      var front, e := history[..|history| - 1], history[|history| - 1];
      DelayDoubles(c, front);
      if EndsInFailure(front) && !e.stable {
        Grows(MinDelay(c), Doublings(front));
        WrapKeeps(Run(c, front) * 2);
      }
    }
  }

  /** The same in terms of the configuration: after k repeated failures the delay is restart_min times 2^k, at
      most restart_max; five seconds stand in for a restart_min that is not set, and a restart_max below
      restart_min does not count. */
  lemma DelaysAsConfigured(c: Config, history: seq<Event>)
    requires c.restartMin < TWO_62 && c.restartMax < TWO_62 && EndsInFailure(history)
    ensures var min := if c.restartMin > 0 then c.restartMin else 5_000_000_000;
            var delay := TimesTwoToThe(min, Doublings(history));
            Run(c, history) == if delay <= c.restartMax then delay else if c.restartMax > min then c.restartMax else min
  {
    DelayDoubles(c, history);
    Grows(MinDelay(c), Doublings(history));
    hide Run;
  }

  /** From 2^62 on, doubling runs into the sign bit. */
  lemma {:induction false} DelayWraps(c: Config, history: seq<Event>) returns (bad: seq<Event>)
    requires MaxDelay(c) >= TWO_62
    requires EndsInFailure(history) && Run(c, history) > 0
    ensures EndsInFailure(bad) && Run(c, bad) < 0
    decreases TWO_63 - Run(c, history)
  {
    var cur := Run(c, history);
    var next := history + [Failed(false)];
    assert next[..|next| - 1] == history;
    WrapKeeps(cur * 2);
    if cur >= TWO_62 {
      bad := next;
    } else {
      bad := DelayWraps(c, next);
    }
  }

  /** Every delay lies between the smallest and the largest exactly when the largest is below 2^62
      nanoseconds (about 146 years). */
  lemma DelaysStayInRange(c: Config)
    ensures (forall history | EndsInFailure(history) :: MinDelay(c) <= Run(c, history) <= MaxDelay(c)) <==>
            MaxDelay(c) < TWO_62
  {
    if MaxDelay(c) < TWO_62 {
      forall history | EndsInFailure(history) ensures MinDelay(c) <= Run(c, history) <= MaxDelay(c) {
        DelayDoubles(c, history);
        Grows(MinDelay(c), Doublings(history));
      }
    } else {
      var first := [Failed(false)];
      assert first[..0] == [] && Run(c, first) == MinDelay(c);
      var bad := DelayWraps(c, first);
      assert EndsInFailure(bad);
    }
  }
}
