/**
 The in-process fixed-window rate limiter (apps/api/src/common/throttler.guard.ts).  Times are Date.now()
 in milliseconds, windows are `ttl` seconds.
 */
module Throttler {
  datatype Bucket = Bucket(count: nat, resetAt: int)
  type Memory = map<string, Bucket>
  datatype Answer = Answer(count: nat, remaining: int)

  /** The limit and window a key's route gives it. */
  datatype Rule = Rule(limit: nat, ttl: nat)
  type Rules = string -> Rule

  const SWEEP_ABOVE := 50_000

  predicate Expired(m: Memory, key: string, now: int) {
    key !in m || m[key].resetAt <= now
  }

  function CeilSeconds(ms: int): int {
    (ms + 999) / 1000
  }

  function Swept(m: Memory, now: int): Memory {
    map k | k in m && m[k].resetAt > now :: m[k]
  }

  /** A hit on a memory that is never swept. */
  function Counted(m: Memory, key: string, ttl: nat, now: int): Memory {
    if Expired(m, key, now) then m[key := Bucket(1, now + ttl * 1000)]
    else m[key := m[key].(count := m[key].count + 1)]
  }

  function AfterHit(m: Memory, key: string, ttl: nat, now: int): Memory {
    var counted := Counted(m, key, ttl, now);
    if Expired(m, key, now) && |counted| > SWEEP_ABOVE then Swept(counted, now) else counted
  }

  function AnswerOf(m: Memory, key: string, ttl: nat, now: int): Answer {
    if Expired(m, key, now) then Answer(1, ttl)
    else
      var seconds := CeilSeconds(m[key].resetAt - now);
      Answer(m[key].count + 1, if seconds > 1 then seconds else 1)
  }

  /**
   The hit joins its key's window, or opens one of `ttl` seconds if there is none or it is over; the answer is the
   window's count and the whole seconds it still lasts.  Of the other buckets only expired ones may go.
   */
  ghost predicate CountedInWindow(before: Memory, after: Memory, key: string, ttl: nat, now: int, answer: Answer) {
    && key in after && answer.count == after[key].count
    && (if key in before && now < before[key].resetAt then
          && after[key] == Bucket(before[key].count + 1, before[key].resetAt)
          && 1000 * (answer.remaining - 1) < before[key].resetAt - now <= 1000 * answer.remaining
        else after[key] == Bucket(1, now + 1000 * ttl) && answer.remaining == ttl)
    && (forall k :: k in after && k != key ==> k in before && after[k] == before[k])
    && (forall k :: k in before && now < before[k].resetAt ==> k in after)
  }

  class ThrottlerGuard {
    const rules: Rules
    var memory: Memory
    /** The last time the clock was read. */
    ghost var clock: int

    ghost predicate Valid()
      reads this
    {
      && (forall k :: rules(k).ttl >= 1)
      && WithinWindows(rules, memory, clock)
    }

    constructor (rules: Rules)
      requires forall k :: rules(k).ttl >= 1
      ensures Valid() && this.rules == rules && memory == map[]
    {
      this.rules, memory, clock := rules, map[], 0;
    }

    method HitMemory(key: string, now: int) returns (answer: Answer)
      requires Valid() && now >= clock
      modifies this
      ensures Valid() && clock == now
      ensures answer == AnswerOf(old(memory), key, rules(key).ttl, now)
      ensures memory == AfterHit(old(memory), key, rules(key).ttl, now)
      ensures CountedInWindow(old(memory), memory, key, rules(key).ttl, now, answer)
      ensures 1 <= answer.remaining <= rules(key).ttl
    {
      HitCounts(memory, key, rules(key).ttl, now);
      hide CountedInWindow;
      RemainingInRange(rules, memory, clock, key, now);
      HitKeepsWindows(rules, memory, clock, key, now);
      clock := now;
      var ttl := rules(key).ttl;
      if Expired(memory, key, now) {
        memory := memory[key := Bucket(1, now + ttl * 1000)];
        if |memory| > SWEEP_ABOVE { Sweep(now); }
        return Answer(1, ttl);
      }
      var existing := memory[key];
      memory := memory[key := existing.(count := existing.count + 1)];
      var seconds := CeilSeconds(existing.resetAt - now);
      answer := Answer(existing.count + 1, if seconds > 1 then seconds else 1);
    }

    method Sweep(now: int)
      modifies this`memory
      ensures memory == Swept(old(memory), now)
      ensures forall k :: k in memory <==> k in old(memory) && now < old(memory)[k].resetAt
      ensures forall k :: k in memory ==> memory[k] == old(memory)[k]
    {
      var keys := memory.Keys;
      while keys != {}
        invariant keys <= old(memory).Keys && memory.Keys <= old(memory).Keys
        invariant forall k :: k in memory ==> memory[k] == old(memory)[k]
        invariant forall k :: k in old(memory) && k in keys ==> k in memory
        invariant forall k :: k in old(memory) && k !in keys ==> (k in memory <==> old(memory)[k].resetAt > now)
        decreases |keys|
      {
        var k :| k in keys;
        keys := keys - {k};
        if memory[k].resetAt <= now { memory := memory - {k}; }
      }
    }

    /** canActivate's decision for a request that is throttled in process. */
    method Accepts(key: string, now: int) returns (accepted: bool, answer: Answer)
      requires Valid() && now >= clock
      modifies this
      ensures Valid() && clock == now
      ensures answer == AnswerOf(old(memory), key, rules(key).ttl, now)
      ensures accepted <==> answer.count <= rules(key).limit
      ensures CountedInWindow(old(memory), memory, key, rules(key).ttl, now, answer)
      ensures memory == AfterHit(old(memory), key, rules(key).ttl, now)
    {
      answer := HitMemory(key, now);
      accepted := answer.count <= rules(key).limit;
    }
  }

  // ----- Remaining time -----

  /** No bucket lasts longer than its window from now. */
  ghost predicate WithinWindows(rules: Rules, m: Memory, clock: int) {
    forall k :: k in m ==> m[k].resetAt <= clock + rules(k).ttl * 1000
  }

  lemma RemainingInRange(rules: Rules, m: Memory, clock: int, key: string, now: int)
    requires WithinWindows(rules, m, clock) && now >= clock && rules(key).ttl >= 1
    ensures 1 <= AnswerOf(m, key, rules(key).ttl, now).remaining <= rules(key).ttl
  {
  }

  lemma HitCounts(m: Memory, key: string, ttl: nat, now: int)
    requires ttl >= 1
    ensures CountedInWindow(m, AfterHit(m, key, ttl, now), key, ttl, now, AnswerOf(m, key, ttl, now))
  {
  }

  lemma HitKeepsWindows(rules: Rules, m: Memory, clock: int, key: string, now: int)
    requires WithinWindows(rules, m, clock) && now >= clock
    ensures WithinWindows(rules, AfterHit(m, key, rules(key).ttl, now), now)
  {
  }

  // ----- Traces -----

  datatype Event = Hit(key: string, at: int) | Sweep(at: int)

  ghost predicate Ordered(es: seq<Event>, from: int)
    decreases |es|
  {
    es == [] || (es[0].at >= from && Ordered(es[1..], es[0].at))
  }

  function Step(rules: Rules, m: Memory, e: Event): Memory {
    if e.Hit? then AfterHit(m, e.key, rules(e.key).ttl, e.at) else Swept(m, e.at)
  }

  /** The answers to the hits of a trace, in order. */
  function Answers(rules: Rules, m: Memory, es: seq<Event>): seq<Answer>
    decreases |es|
  {
    if es == [] then []
    else (if es[0].Hit? then [AnswerOf(m, es[0].key, rules(es[0].key).ttl, es[0].at)] else [])
         + Answers(rules, Step(rules, m, es[0]), es[1..])
  }

  /** The same trace on a memory that never drops a bucket. */
  function AnswersUnswept(rules: Rules, m: Memory, es: seq<Event>): seq<Answer>
    decreases |es|
  {
    if es == [] then []
    else if es[0].Sweep? then AnswersUnswept(rules, m, es[1..])
    else [AnswerOf(m, es[0].key, rules(es[0].key).ttl, es[0].at)]
         + AnswersUnswept(rules, Counted(m, es[0].key, rules(es[0].key).ttl, es[0].at), es[1..])
  }

  // ----- Sweeping is invisible -----

  /** Two memories hold the same unexpired buckets. */
  ghost predicate SameLive(a: Memory, b: Memory, now: int) {
    forall k :: (Expired(a, k, now) <==> Expired(b, k, now)) && (!Expired(a, k, now) ==> a[k] == b[k])
  }

  lemma SameLiveLater(a: Memory, b: Memory, now: int, later: int)
    requires SameLive(a, b, now) && now <= later
    ensures SameLive(a, b, later)
  {
  }

  lemma SweepInvisible(m: Memory, now: int)
    ensures SameLive(Swept(m, now), m, now)
  {
  }

  lemma CountKeepsSame(a: Memory, b: Memory, key: string, ttl: nat, now: int)
    requires SameLive(a, b, now)
    ensures AnswerOf(a, key, ttl, now) == AnswerOf(b, key, ttl, now)
    ensures SameLive(AfterHit(a, key, ttl, now), Counted(b, key, ttl, now), now)
  {
    assert Expired(a, key, now) <==> Expired(b, key, now);
    var x, y := Counted(a, key, ttl, now), Counted(b, key, ttl, now);
    forall k ensures (Expired(x, k, now) <==> Expired(y, k, now)) && (!Expired(x, k, now) ==> x[k] == y[k]) {
      assert (Expired(a, k, now) <==> Expired(b, k, now)) && (!Expired(a, k, now) ==> a[k] == b[k]);
    }
    assert SameLive(x, y, now);
    SweepInvisible(x, now);
  }

  /** Whenever and however often memory is swept, every decision is the one a memory without sweeping makes. */
  lemma {:induction false} SweepingChangesNothing(rules: Rules, a: Memory, b: Memory, es: seq<Event>, now: int)
    requires Ordered(es, now) && SameLive(a, b, now)
    ensures Answers(rules, a, es) == AnswersUnswept(rules, b, es)
    decreases |es|
  {
    if es != [] {
      var e := es[0];
      SameLiveLater(a, b, now, e.at);
      if e.Hit? {
        CountKeepsSame(a, b, e.key, rules(e.key).ttl, e.at);
        SweepingChangesNothing(rules, Step(rules, a, e), Counted(b, e.key, rules(e.key).ttl, e.at), es[1..], e.at);
      } else {
        SweepInvisible(a, e.at);
        assert SameLive(Swept(a, e.at), b, e.at) by {
          forall k
            ensures (Expired(Swept(a, e.at), k, e.at) <==> Expired(b, k, e.at)) && (!Expired(b, k, e.at) ==> a[k] == b[k])
          {
            assert Expired(a, k, e.at) <==> Expired(b, k, e.at);
          }
        }
        SweepingChangesNothing(rules, Swept(a, e.at), b, es[1..], e.at);
      }
    }
  }

  // ----- How many hits are accepted -----

  /** Accepted hits on `key` between `lo` and `hi`, both included. */
  function Accepted(rules: Rules, m: Memory, es: seq<Event>, key: string, lo: int, hi: int): nat
    decreases |es|
  {
    if es == [] then 0
    else
      var e := es[0];
      (if e.Hit? && e.key == key && lo <= e.at <= hi && AnswerOf(m, key, rules(key).ttl, e.at).count <= rules(key).limit
       then 1 else 0)
      + Accepted(rules, Step(rules, m, e), es[1..], key, lo, hi)
  }

  /** What the bucket of `key` still admits at `now` before it is reset. */
  function Room(rules: Rules, m: Memory, key: string, now: int): nat {
    if Expired(m, key, now) || m[key].count >= rules(key).limit then 0 else rules(key).limit - m[key].count
  }

  /** A step leaves another key's unexpired bucket alone. */
  lemma StepElsewhere(rules: Rules, m: Memory, e: Event, key: string)
    requires e.Sweep? || e.key != key
    ensures !Expired(m, key, e.at) ==> key in Step(rules, m, e) && Step(rules, m, e)[key] == m[key]
    ensures Expired(m, key, e.at) ==> Expired(Step(rules, m, e), key, e.at)
  {
  }

  lemma StepHere(rules: Rules, m: Memory, e: Event, key: string)
    requires e.Hit? && e.key == key && rules(key).ttl >= 1
    ensures key in Step(rules, m, e)
    ensures Step(rules, m, e)[key] ==
            if Expired(m, key, e.at) then Bucket(1, e.at + rules(key).ttl * 1000)
            else m[key].(count := m[key].count + 1)
  {
  }

  lemma {:induction false} NoneAfter(rules: Rules, m: Memory, es: seq<Event>, key: string, lo: int, hi: int, now: int)
    requires Ordered(es, now) && now > hi
    ensures Accepted(rules, m, es, key, lo, hi) == 0
    decreases |es|
  {
    if es != [] { NoneAfter(rules, Step(rules, m, es[0]), es[1..], key, lo, hi, es[0].at); }
  }

  /** Within one window: no more than its room. */
  lemma {:induction false} AtMostRoom(rules: Rules, m: Memory, es: seq<Event>, key: string, lo: int, hi: int, now: int)
    requires rules(key).ttl >= 1 && Ordered(es, now) && !Expired(m, key, now) && hi < m[key].resetAt
    ensures Accepted(rules, m, es, key, lo, hi) <= Room(rules, m, key, now)
    decreases |es|
  {
    if es != [] {
      var e := es[0];
      var next := Step(rules, m, e);
      if e.at > hi {
        NoneAfter(rules, next, es[1..], key, lo, hi, e.at);
      } else {
        if e.Hit? && e.key == key { StepHere(rules, m, e, key); } else { StepElsewhere(rules, m, e, key); }
        hide Step;
        AtMostRoom(rules, next, es[1..], key, lo, hi, e.at);
      }
    }
  }

  /** Across at most one reset: the room left, and one whole window. */
  lemma {:induction false} AtMostOneReset(rules: Rules, m: Memory, es: seq<Event>, key: string, lo: int, hi: int, now: int,
                                          reset: int)
    requires rules(key).ttl >= 1 && Ordered(es, now) && hi < reset + rules(key).ttl * 1000
    requires if Expired(m, key, now) then reset <= now else reset == m[key].resetAt
    ensures Accepted(rules, m, es, key, lo, hi) <= Room(rules, m, key, now) + rules(key).limit
    decreases |es|
  {
    if es != [] {
      var e := es[0];
      var next := Step(rules, m, e);
      if e.at > hi {
        NoneAfter(rules, next, es[1..], key, lo, hi, e.at);
      } else if e.Hit? && e.key == key {
        StepHere(rules, m, e, key);
        hide Step;
        if Expired(m, key, e.at) {
          assert reset <= e.at;
          AtMostRoom(rules, next, es[1..], key, lo, hi, e.at);
        } else {
          AtMostOneReset(rules, next, es[1..], key, lo, hi, e.at, reset);
        }
      } else {
        StepElsewhere(rules, m, e, key);
        hide Step;
        AtMostOneReset(rules, next, es[1..], key, lo, hi, e.at, reset);
      }
    }
  }

  /** At most twice the limit in any interval of the window's length, ends included. */
  lemma {:induction false} AtMostTwice(rules: Rules, m: Memory, es: seq<Event>, key: string, lo: int, hi: int, now: int)
    requires rules(key).ttl >= 1 && Ordered(es, now) && hi <= lo + rules(key).ttl * 1000
    ensures Accepted(rules, m, es, key, lo, hi) <= 2 * rules(key).limit
    decreases |es|
  {
    if es != [] {
      var e := es[0];
      var next := Step(rules, m, e);
      if e.at < lo || !e.Hit? || e.key != key {
        AtMostTwice(rules, next, es[1..], key, lo, hi, e.at);
      } else {
        StepHere(rules, m, e, key);
        hide Step;
        if next[key].count <= rules(key).limit {
          AtMostOneReset(rules, next, es[1..], key, lo, hi, e.at, next[key].resetAt);
        } else {
          AtMostOneReset(rules, next, es[1..], key, lo, hi, e.at, next[key].resetAt);
        }
      }
    }
  }

  /** At most the limit in one window: from a hit that opens it until it resets. */
  lemma AtMostLimitPerWindow(rules: Rules, m: Memory, es: seq<Event>, key: string)
    requires rules(key).ttl >= 1 && es != [] && Ordered(es, es[0].at)
    requires es[0].Hit? && es[0].key == key && Expired(m, key, es[0].at)
    ensures Accepted(rules, m, es, key, es[0].at, es[0].at + rules(key).ttl * 1000 - 1) <= rules(key).limit
  {
    var e := es[0];
    StepHere(rules, m, e, key);
    AtMostRoom(rules, Step(rules, m, e), es[1..], key, e.at, e.at + rules(key).ttl * 1000 - 1, e.at);
  }

  /** `n` hits at one time. */
  function Burst(key: string, at: int, n: nat): seq<Event> {
    seq(n, i => Hit(key, at))
  }

  lemma CountsOne(rules: Rules, m: Memory, key: string, at: int)
    requires key in m && m[key].resetAt > at
    ensures Step(rules, m, Hit(key, at)) == m[key := m[key].(count := m[key].count + 1)]
    ensures AnswerOf(m, key, rules(key).ttl, at).count == m[key].count + 1
  {
  }

  /** A burst that its bucket still admits is accepted whole. */
  lemma {:induction false} BurstAccepted(rules: Rules, m: Memory, key: string, at: int, n: nat, rest: seq<Event>, lo: int,
                                         hi: int)
    requires key in m && m[key].resetAt > at && m[key].count + n <= rules(key).limit && lo <= at <= hi
    ensures Accepted(rules, m, Burst(key, at, n) + rest, key, lo, hi)
         == n + Accepted(rules, m[key := m[key].(count := m[key].count + n)], rest, key, lo, hi)
    decreases n
  {
    hide Step, AnswerOf;
    var es := Burst(key, at, n) + rest;
    if n == 0 {
      assert es == rest && m[key := m[key].(count := m[key].count + 0)] == m;
    } else {
      var next := m[key := m[key].(count := m[key].count + 1)];
      assert es[0] == Hit(key, at) && es[1..] == Burst(key, at, n - 1) + rest;
      CountsOne(rules, m, key, at);
      BurstAccepted(rules, next, key, at, n - 1, rest, lo, hi);
      assert next[key := next[key].(count := next[key].count + (n - 1))] == m[key := m[key].(count := m[key].count + n)];
    }
  }

  lemma OpensWindow(rules: Rules, m: Memory, key: string, at: int)
    requires m.Keys <= {key} && Expired(m, key, at)
    ensures Step(rules, m, Hit(key, at)) == map[key := Bucket(1, at + rules(key).ttl * 1000)]
    ensures AnswerOf(m, key, rules(key).ttl, at).count == 1
  {
    var start := map[key := Bucket(1, at + rules(key).ttl * 1000)];
    assert Counted(m, key, rules(key).ttl, at) == start && |start| == 1;
  }

  /** A burst that opens a window, on a memory of at most this key. */
  lemma OpeningBurst(rules: Rules, m: Memory, key: string, at: int, rest: seq<Event>, lo: int, hi: int)
    requires rules(key).limit >= 1 && rules(key).ttl >= 1 && m.Keys <= {key} && Expired(m, key, at) && lo <= at <= hi
    ensures Accepted(rules, m, Burst(key, at, rules(key).limit) + rest, key, lo, hi)
         == rules(key).limit
            + Accepted(rules, map[key := Bucket(rules(key).limit, at + rules(key).ttl * 1000)], rest, key, lo, hi)
  {
    hide Step, AnswerOf, Expired, AfterHit;
    var n, ttl := rules(key).limit, rules(key).ttl;
    var es := Burst(key, at, n) + rest;
    var start := map[key := Bucket(1, at + ttl * 1000)];
    assert es[0] == Hit(key, at) && es[1..] == Burst(key, at, n - 1) + rest;
    OpensWindow(rules, m, key, at);
    BurstAccepted(rules, start, key, at, n - 1, rest, lo, hi);
    assert start[key := start[key].(count := start[key].count + (n - 1))] == map[key := Bucket(n, at + ttl * 1000)];
  }

  lemma NoneAccepted(rules: Rules, m: Memory, key: string, lo: int, hi: int)
    ensures Accepted(rules, m, [], key, lo, hi) == 0
  {
  }

  /** The factor two is reached for every limit and window: a full burst at its start, another as soon as it resets. */
  lemma TwiceIsReached(rules: Rules, key: string)
    requires rules(key).limit >= 1 && rules(key).ttl >= 1
    ensures var n, end := rules(key).limit, rules(key).ttl * 1000;
            Accepted(rules, map[], Burst(key, 0, n) + Burst(key, end, n), key, 0, end) == 2 * n
  {
    hide Accepted, Burst, Step, AnswerOf;
    var n, end := rules(key).limit, rules(key).ttl * 1000;
    OpeningBurst(rules, map[], key, 0, Burst(key, end, n), 0, end);
    var full := map[key := Bucket(n, end)];
    assert Burst(key, end, n) + [] == Burst(key, end, n);
    OpeningBurst(rules, full, key, end, [], 0, end);
    NoneAccepted(rules, map[key := Bucket(n, end + end)], key, 0, end);
  }
}
