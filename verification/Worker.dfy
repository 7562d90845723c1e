/**
 The worker's exclusion protocol (apps/api/src/worker.ts): every tick of a loop checks a database session
 out of a pool, tries a Postgres session advisory lock, and runs its body only while it holds the lock.
 Any number of replicas interleave these steps.
 */
module Worker {

  // ----- Lock keys -----

  const TWO31: int := 0x8000_0000
  const TWO32: int := 0x1_0000_0000

  /** JavaScript's `x | 0`. */
  function ToInt32(x: int): (r: int)
    ensures -TWO31 <= r < TWO31 && r % TWO32 == x % TWO32
  {
    var u := x % TWO32;
    if u >= TWO31 then u - TWO32 else u
  }

  /** djb2 over unbounded integers. */
  function Djb2(name: string): int {
    if name == "" then 5381 else 33 * Djb2(name[..|name| - 1]) + name[|name| - 1] as int
  }

  /** The key of a loop: djb2 truncated once at the end, and never zero. */
  function Key(name: string): (r: int)
    ensures 1 <= r < TWO31
  {
    var low := Djb2(name) % TWO31;
    if low == 0 then 1 else low
  }

  /** Adding a multiple of 2^31 does not change the low 31 bits; likewise for 2^32. */
  lemma {:induction false} AddMultiple(x: int, k: nat)
    ensures (x + k * TWO31) % TWO31 == x % TWO31
    ensures (x + k * TWO32) % TWO32 == x % TWO32
    decreases k
  {
  }

  /** Numbers that agree modulo 2^32 differ by a multiple of it, and agree modulo 2^31. */
  lemma Congruent(x: int, y: int) returns (k: int)
    requires x % TWO32 == y % TWO32
    ensures x == y + k * TWO32 && x % TWO31 == y % TWO31
  {
    k := x / TWO32 - y / TWO32;
    assert x == y + k * TWO32;
    if k >= 0 {
      assert x == y + (2 * k) * TWO31;
      AddMultiple(y, 2 * k);
    } else {
      assert y == x + (-2 * k) * TWO31;
      AddMultiple(x, -2 * k);
    }
  }

  lemma ShiftBy(x: int, y: int, k: int)
    requires x == y + k * TWO32
    ensures x % TWO32 == y % TWO32
  {
  }

  lemma WrapStep(h: int, exact: int, c: int)
    requires h % TWO32 == exact % TWO32
    ensures ToInt32(ToInt32(h * 32) + h + c) % TWO32 == (33 * exact + c) % TWO32
  {
    var k := Congruent(h, exact);
    hide ToInt32;
    var shifted := ToInt32(h * 32);
    var j := Congruent(shifted, h * 32);
    assert shifted + h + c == (33 * exact + c) + (33 * k + j) * TWO32;
    ShiftBy(shifted + h + c, 33 * exact + c, 33 * k + j);
  }

  /** lockKey: wraps at 32 bits on every character; the result is as if it had wrapped once. */
  method LockKey(name: string) returns (r: int)
    ensures r == Key(name)
  {
    var h := 5381;
    for i := 0 to |name|
      invariant h % TWO32 == Djb2(name[..i]) % TWO32
    {
      assert name[..i + 1][..i] == name[..i];
      WrapStep(h, Djb2(name[..i]), name[i] as int);
      h := ToInt32(ToInt32(h * 32) + h + name[i] as int);
    }
    assert name[..|name|] == name;
    ghost var _ := Congruent(h, Djb2(name));
    // h & 0x7fffffff keeps the low 31 bits of the two's complement form.
    r := if h % TWO31 == 0 then 1 else h % TWO31;
  }

  // ----- The protocol -----

  /** One pooled connection of one replica. */
  datatype Session = Session(replica: nat, slot: nat)
  datatype Phase = CheckedOut | Running | Unlocking | Releasing
  datatype Tick = Tick(loop: string, phase: Phase)
  type Levels = n: int | n >= 1 witness 1
  /** A session advisory lock: taken again by its owner, it counts. */
  datatype Held = Held(owner: Session, count: Levels)
  /**
   Sessions in use by a tick (the others are idle in their pool), and the server's lock table.  `orphans` only
   records the sessions whose connection was lost under their running body.
   */
  datatype State = State(busy: map<Session, Tick>, locks: map<int, Held>, orphans: set<Session>)

  datatype Event =
    | Checkout(s: Session, loop: string)
    | TryLock(s: Session)
    | TryLockErrs(s: Session, granted: bool)
    | Finish(s: Session)
    | Unlock(s: Session)
    | UnlockErrs(s: Session)
    | Release(s: Session)
    | Crash(s: Session)
    | Disconnect(s: Session)

  const INIT := State(map[], map[], {})

  predicate In(st: State, s: Session, p: Phase) {
    s in st.busy && st.busy[s].phase == p
  }

  /** Queries may err, processes crash and connections drop at any time. */
  predicate Enabled(st: State, e: Event) {
    match e
    case Checkout(s, _) => s !in st.busy
    case TryLock(s) => In(st, s, CheckedOut)
    case TryLockErrs(s, _) => In(st, s, CheckedOut)
    case Finish(s) => In(st, s, Running)
    case Unlock(s) => In(st, s, Unlocking)
    case UnlockErrs(s) => In(st, s, Unlocking)
    case Release(s) => In(st, s, Releasing)
    case Crash(s) => true
    case Disconnect(s) => true
  }

  /** A connection lost under a running body, which goes on without it. */
  predicate Loses(st: State, e: Event) {
    e.Disconnect? && In(st, e.s, Running)
  }

  function To(st: State, s: Session, p: Phase): State
    requires s in st.busy
  {
    st.(busy := st.busy[s := st.busy[s].(phase := p)])
  }

  /** pg_try_advisory_lock answers true. */
  predicate Grants(st: State, s: Session, key: int) {
    key in st.locks ==> st.locks[key].owner == s
  }

  function Grant(st: State, s: Session, key: int): State
    requires Grants(st, s, key)
  {
    st.(locks := st.locks[key := Held(s, if key in st.locks then st.locks[key].count + 1 else 1)])
  }

  /** pg_advisory_unlock: one level, and only of the session's own lock. */
  function Ungrant(st: State, s: Session, key: int): State {
    if key in st.locks && st.locks[key].owner == s then
      if st.locks[key].count > 1 then st.(locks := st.locks[key := Held(s, st.locks[key].count - 1)])
      else st.(locks := st.locks - {key})
    else st
  }

  /** The server frees a session's locks when its connection ends. */
  function FreeAll(st: State, s: Session): State {
    st.(locks := map k | k in st.locks && st.locks[k].owner != s :: st.locks[k])
  }

  function Next(st: State, e: Event): State
    requires Enabled(st, e)
  {
    match e
    case Checkout(s, loop) => st.(busy := st.busy[s := Tick(loop, CheckedOut)])
    case TryLock(s) =>
      var key := Key(st.busy[s].loop);
      if Grants(st, s, key) then To(Grant(st, s, key), s, Running) else To(st, s, Releasing)
    case TryLockErrs(s, granted) =>
      var key := Key(st.busy[s].loop);
      To(if granted && Grants(st, s, key) then Grant(st, s, key) else st, s, Releasing)
    case Finish(s) => To(st, s, Unlocking).(orphans := st.orphans - {s})
    case Unlock(s) => To(Ungrant(st, s, Key(st.busy[s].loop)), s, Releasing)
    case UnlockErrs(s) => To(st, s, Releasing)
    case Release(s) => st.(busy := st.busy - {s})
    case Crash(s) => FreeAll(st.(busy := st.busy - {s}, orphans := st.orphans - {s}), s)
    case Disconnect(s) => FreeAll(if In(st, s, Running) then st.(orphans := st.orphans + {s}) else st, s)
  }

  ghost predicate RunFrom(st: State, es: seq<Event>)
    decreases |es|
  {
    es == [] || (Enabled(st, es[0]) && RunFrom(Next(st, es[0]), es[1..]))
  }

  ghost function After(st: State, es: seq<Event>): State
    requires RunFrom(st, es)
    decreases |es|
  {
    if es == [] then st else After(Next(st, es[0]), es[1..])
  }

  // ----- Exclusion -----

  /** A running body's session owns its loop's lock. */
  ghost predicate RunnersOwn(st: State) {
    forall s :: In(st, s, Running) ==>
      Key(st.busy[s].loop) in st.locks && st.locks[Key(st.busy[s].loop)].owner == s
  }

  lemma StepKeepsOwnership(st: State, e: Event)
    requires RunnersOwn(st) && Enabled(st, e) && !Loses(st, e)
    ensures RunnersOwn(Next(st, e))
  {
    hide Key;
    var after := Next(st, e);
    forall s | In(after, s, Running)
      ensures Key(after.busy[s].loop) in after.locks && after.locks[Key(after.busy[s].loop)].owner == s
    {
      if s != e.s {
        assert In(st, s, Running) && after.busy[s] == st.busy[s];
      }
    }
  }

  /** A run in which no running body loses its connection. */
  ghost predicate Connected(st: State, es: seq<Event>)
    requires RunFrom(st, es)
    decreases |es|
  {
    es == [] || (!Loses(st, es[0]) && Connected(Next(st, es[0]), es[1..]))
  }

  lemma {:induction false} RunKeepsOwnership(st: State, es: seq<Event>)
    requires RunnersOwn(st) && RunFrom(st, es) && Connected(st, es)
    ensures RunnersOwn(After(st, es))
    decreases |es|
  {
    if es != [] {
      StepKeepsOwnership(st, es[0]);
      RunKeepsOwnership(Next(st, es[0]), es[1..]);
    }
  }

  /** Which steps start and end bodies: a granted try-lock, and finishing or crashing. */
  lemma RunningChanges(st: State, e: Event, t: Session)
    requires Enabled(st, e)
    ensures var after := Next(st, e);
            && (t != e.s ==> (t in after.busy <==> t in st.busy) && (t in st.busy ==> after.busy[t] == st.busy[t]))
            && (In(after, e.s, Running) <==>
                  (e.TryLock? && Grants(st, e.s, Key(st.busy[e.s].loop)))
                  || (In(st, e.s, Running) && !e.Finish? && !e.Crash?))
            && (In(after, e.s, Running) && In(st, e.s, Running) ==> after.busy[e.s] == st.busy[e.s])
  {
  }

  /** A running body owns its loop's lock unless its connection was lost under it; then its session owns nothing. */
  ghost predicate OrphansOwnNothing(st: State) {
    && (forall s :: In(st, s, Running) && s !in st.orphans ==>
          Key(st.busy[s].loop) in st.locks && st.locks[Key(st.busy[s].loop)].owner == s)
    && (forall s :: s in st.orphans ==> In(st, s, Running))
    && (forall k :: k in st.locks ==> st.locks[k].owner !in st.orphans)
  }

  lemma StepKeepsOrphans(st: State, e: Event)
    requires OrphansOwnNothing(st) && Enabled(st, e)
    ensures OrphansOwnNothing(Next(st, e))
  {
    hide Key;
    var after := Next(st, e);
    forall s | In(after, s, Running) && s !in after.orphans
      ensures Key(after.busy[s].loop) in after.locks && after.locks[Key(after.busy[s].loop)].owner == s
    {
      if s != e.s {
        assert In(st, s, Running) && after.busy[s] == st.busy[s];
      }
    }
    forall s | s in after.orphans ensures In(after, s, Running) {
      assert s in st.orphans ==> In(st, s, Running);
    }
  }

  lemma {:induction false} RunKeepsOrphans(st: State, es: seq<Event>)
    requires OrphansOwnNothing(st) && RunFrom(st, es)
    ensures OrphansOwnNothing(After(st, es))
    decreases |es|
  {
    if es != [] {
      StepKeepsOrphans(st, es[0]);
      RunKeepsOrphans(Next(st, es[0]), es[1..]);
    }
  }

  /**
   In every run, whatever interleaves, errs, crashes and disconnects: of two running ticks of one loop, one has lost
   its connection under its body.
   */
  lemma TicksExclude(es: seq<Event>, s: Session, t: Session)
    requires RunFrom(INIT, es)
    requires In(After(INIT, es), s, Running) && In(After(INIT, es), t, Running)
    requires After(INIT, es).busy[s].loop == After(INIT, es).busy[t].loop
    ensures s == t || s in After(INIT, es).orphans || t in After(INIT, es).orphans
  {
    RunKeepsOrphans(INIT, es);
  }

  // ----- When exclusion lasts -----

  /** At most one running tick per loop. */
  ghost predicate OneEach(st: State) {
    forall s, t :: In(st, s, Running) && In(st, t, Running) && st.busy[s].loop == st.busy[t].loop ==> s == t
  }

  /** However things go on from here, as long as no running body loses its connection. */
  ghost predicate SafeForever(st: State) {
    forall es :: RunFrom(st, es) && Connected(st, es) ==> OneEach(After(st, es))
  }

  lemma {:induction false} FreshSlot(used: set<Session>) returns (n: nat)
    ensures forall s :: s in used ==> s.slot < n
    decreases |used|
  {
    n := 0;
    if used != {} {
      var s :| s in used;
      var m := FreshSlot(used - {s});
      n := if m > s.slot then m else s.slot + 1;
    }
  }

  /** A running body without its lock: the owner, if any, dies, and another session starts the same loop. */
  lemma UnownedOverlaps(st: State, s: Session) returns (es: seq<Event>)
    requires In(st, s, Running)
    requires var k := Key(st.busy[s].loop); k in st.locks ==> st.locks[k].owner != s
    ensures RunFrom(st, es) && Connected(st, es) && !OneEach(After(st, es))
  {
    var loop, k := st.busy[s].loop, Key(st.busy[s].loop);
    hide Key;
    var n := FreshSlot(st.busy.Keys);
    var t := Session(0, n);
    assert t !in st.busy;
    var first := if k in st.locks then Crash(st.locks[k].owner) else Crash(t);
    var st1 := Next(st, first);
    assert In(st1, s, Running) && st1.busy[s].loop == loop && k !in st1.locks && t !in st1.busy;
    var st2 := Next(st1, Checkout(t, loop));
    var st3 := Next(st2, TryLock(t));
    assert In(st3, s, Running) && In(st3, t, Running) && st3.busy[s].loop == st3.busy[t].loop;
    es := [first, Checkout(t, loop), TryLock(t)];
    assert es[1..] == [Checkout(t, loop), TryLock(t)] && es[1..][1..] == [TryLock(t)] && es[1..][1..][1..] == [];
    RunStep(st2, TryLock(t), []);
    RunStep(st1, Checkout(t, loop), [TryLock(t)]);
    RunStep(st, first, [Checkout(t, loop), TryLock(t)]);
    assert es == [first] + [Checkout(t, loop), TryLock(t)];
  }

  lemma RunStep(st: State, e: Event, es: seq<Event>)
    requires Enabled(st, e) && RunFrom(Next(st, e), es)
    ensures RunFrom(st, [e] + es) && After(st, [e] + es) == After(Next(st, e), es)
    ensures Connected(st, [e] + es) <==> !Loses(st, e) && Connected(Next(st, e), es)
  {
    hide Next, Enabled;
    assert ([e] + es)[1..] == es;
  }

  /** Exclusion lasts exactly if every running body owns its loop's lock. */
  lemma SafeForeverIff(st: State)
    ensures SafeForever(st) <==> RunnersOwn(st)
  {
    if RunnersOwn(st) {
      forall es | RunFrom(st, es) && Connected(st, es) ensures OneEach(After(st, es)) {
        RunKeepsOwnership(st, es);
      }
    } else {
      var s :| In(st, s, Running) &&
        !(Key(st.busy[s].loop) in st.locks && st.locks[Key(st.busy[s].loop)].owner == s);
      var es := UnownedOverlaps(st, s);
    }
  }

  /** Losing a connection ends that exactly if a body was running on it. */
  lemma LostSessionBreaksExclusion(st: State, s: Session)
    requires RunnersOwn(st)
    ensures SafeForever(Next(st, Disconnect(s))) <==> !In(st, s, Running)
  {
    var after := Next(st, Disconnect(s));
    SafeForeverIff(after);
    hide SafeForever, Key;
    if In(st, s, Running) {
      assert In(after, s, Running);
      assert forall k :: k in after.locks ==> after.locks[k].owner != s;
    } else {
      StepKeepsOwnership(st, Disconnect(s));
    }
  }

  /** In every reachable state: exclusion lasts exactly if no body is running without its connection. */
  lemma ReachableSafeIff(es: seq<Event>)
    requires RunFrom(INIT, es)
    ensures SafeForever(After(INIT, es)) <==> After(INIT, es).orphans == {}
  {
    RunKeepsOrphans(INIT, es);
    var st := After(INIT, es);
    SafeForeverIff(st);
    hide SafeForever, Key;
    if s :| s in st.orphans {
      assert In(st, s, Running);
    }
  }

  /** A run in which two webhook ticks overlap. */
  lemma OverlapIsReached() returns (es: seq<Event>)
    ensures RunFrom(INIT, es) && !OneEach(After(INIT, es))
  {
    hide Key;
    var a, b, loop := Session(0, 0), Session(1, 0), "webhooks";
    var st1 := Next(INIT, Checkout(a, loop));
    var st2 := Next(st1, TryLock(a));
    var st3 := Next(st2, Disconnect(a));
    var st4 := Next(st3, Checkout(b, loop));
    var st5 := Next(st4, TryLock(b));
    assert In(st5, a, Running) && In(st5, b, Running) && st5.busy[a].loop == st5.busy[b].loop && a != b;
    RunStep(st4, TryLock(b), []);
    es := [TryLock(b)];
    RunStep(st3, Checkout(b, loop), es);
    es := [Checkout(b, loop)] + es;
    RunStep(st2, Disconnect(a), es);
    es := [Disconnect(a)] + es;
    RunStep(st1, TryLock(a), es);
    es := [TryLock(a)] + es;
    RunStep(INIT, Checkout(a, loop), es);
    es := [Checkout(a, loop)] + es;
  }

  // ----- Availability -----

  predicate LockQueryErrs(e: Event) {
    e.UnlockErrs? || (e.TryLockErrs? && e.granted)
  }

  /** Every lock belongs to a tick that is running or about to unlock; so idle sessions hold none. */
  ghost predicate LocksInUse(st: State) {
    forall k :: k in st.locks ==>
      var s := st.locks[k].owner;
      && st.locks[k].count == 1 && s in st.busy && Key(st.busy[s].loop) == k
      && (st.busy[s].phase == Running || st.busy[s].phase == Unlocking)
  }

  lemma StepKeepsLocksInUse(st: State, e: Event)
    requires LocksInUse(st) && Enabled(st, e) && !LockQueryErrs(e)
    ensures LocksInUse(Next(st, e))
  {
    hide Key;
    var after := Next(st, e);
    forall k | k in after.locks
      ensures var s := after.locks[k].owner;
              && after.locks[k].count == 1 && s in after.busy && Key(after.busy[s].loop) == k
              && (after.busy[s].phase == Running || after.busy[s].phase == Unlocking)
    {
      if k in st.locks { assert st.locks[k].count == 1; }
    }
  }

  lemma {:induction false} RunKeepsLocksInUse(st: State, es: seq<Event>)
    requires LocksInUse(st) && RunFrom(st, es) && forall e :: e in es ==> !LockQueryErrs(e)
    ensures LocksInUse(After(st, es))
    decreases |es|
  {
    if es != [] {
      StepKeepsLocksInUse(st, es[0]);
      RunKeepsLocksInUse(Next(st, es[0]), es[1..]);
    }
  }

  /** A tick is turned away only while a tick with the same key is running or unlocking. */
  lemma SkippedOnlyForATick(es: seq<Event>, s: Session)
    requires RunFrom(INIT, es) && forall e :: e in es ==> !LockQueryErrs(e)
    requires In(After(INIT, es), s, CheckedOut)
    ensures var st := After(INIT, es);
            !In(Next(st, TryLock(s)), s, Running) ==>
              exists t :: t != s && t in st.busy && Key(st.busy[t].loop) == Key(st.busy[s].loop)
                          && (st.busy[t].phase == Running || st.busy[t].phase == Unlocking)
  {
    hide Key;
    RunKeepsLocksInUse(INIT, es);
    var st := After(INIT, es);
    var key := Key(st.busy[s].loop);
    if !Grants(st, s, key) {
      var t := st.locks[key].owner;
      assert t != s && t in st.busy && Key(st.busy[t].loop) == key;
    }
  }

  /**
   An unlock that errs leaves the lock with a session that goes back to the pool: other sessions are refused.  The
   session's own later ticks do not give it back either.
   */
  lemma FailedUnlockStarvesOthers(st: State, s: Session, t: Session)
    requires RunnersOwn(st) && In(st, s, Running) && In(st, t, CheckedOut) && st.busy[s].loop == st.busy[t].loop
    ensures s != t
    ensures var idle := Next(Next(Next(st, Finish(s)), UnlockErrs(s)), Release(s));
            && s !in idle.busy && In(idle, t, CheckedOut) && !In(Next(idle, TryLock(t)), t, Running)
            && var running := Next(Next(idle, Checkout(s, st.busy[s].loop)), TryLock(s));
            && In(running, s, Running)
            && Next(Next(Next(running, Finish(s)), Unlock(s)), Release(s)).locks == idle.locks
  {
    hide Key;
    var key := Key(st.busy[s].loop);
    assert st.locks[key := Held(s, st.locks[key].count)] == st.locks;
  }
}
