/**
 Unlocked-mailbox credentials (apps/api/src/webmail/credential.store.ts): the Redis form, one command at a time
 with the clock moving between commands, and the settings-table fallback.  Times are in milliseconds.
 */
module CredentialStore {
  import opened Text

  datatype Key = Key(session: string, mailbox: string)
  /** What is stored: address and sealed password. */
  type Payload = string

  // ----- Redis -----

  datatype Cred = Cred(payload: Payload, expires: int)
  datatype Index = Index(members: set<string>, expires: int)
  datatype Redis = Redis(creds: map<Key, Cred>, idx: map<string, Index>)

  predicate CredLive(r: Redis, k: Key, now: int) {
    k in r.creds && now < r.creds[k].expires
  }

  predicate IdxLive(r: Redis, s: string, now: int) {
    s in r.idx && now < r.idx[s].expires
  }

  /** SMEMBERS */
  function Members(r: Redis, s: string, now: int): set<string> {
    if IdxLive(r, s, now) then r.idx[s].members else {}
  }

  /** EXPIRE of a key that is there; of any other it does nothing. */
  function ExpireCred(r: Redis, k: Key, now: int, ttl: int): Redis {
    if CredLive(r, k, now) then r.(creds := r.creds[k := r.creds[k].(expires := now + ttl)]) else r
  }

  function ExpireIdx(r: Redis, s: string, now: int, ttl: int): Redis {
    if IdxLive(r, s, now) then r.(idx := r.idx[s := r.idx[s].(expires := now + ttl)]) else r
  }

  /** SREM: a set without members is no longer there. */
  function Srem(r: Redis, s: string, m: string, now: int): Redis {
    var left := Members(r, s, now) - {m};
    if !IdxLive(r, s, now) || left == {} then r.(idx := r.idx - {s})
    else r.(idx := r.idx[s := r.idx[s].(members := left)])
  }

  /** store: one MULTI */
  function RStore(r: Redis, k: Key, p: Payload, t: int, ttl: int): Redis {
    Redis(r.creds[k := Cred(p, t + ttl)],
          r.idx[k.session := Index(Members(r, k.session, t) + {k.mailbox}, t + ttl)])
  }

  /** get: GET at t1, EXPIRE of the credential at t2 and of the index at t3 */
  function RGet(r: Redis, k: Key, t1: int, t2: int, t3: int, ttl: int): Redis {
    if CredLive(r, k, t1) then ExpireIdx(ExpireCred(r, k, t2, ttl), k.session, t3, ttl) else r
  }

  function RGetResult(r: Redis, k: Key, t1: int): Option<Payload> {
    if CredLive(r, k, t1) then Some(r.creds[k].payload) else None
  }

  /** remove: one MULTI */
  function RRemove(r: Redis, k: Key, t: int): Redis {
    Srem(r.(creds := r.creds - {k}), k.session, k.mailbox, t)
  }

  /** purgeSession: SMEMBERS at t1, one DEL of all the keys */
  function RPurge(r: Redis, s: string, t1: int): Redis {
    Redis(map k | k in r.creds && !(k.session == s && k.mailbox in Members(r, s, t1)) :: r.creds[k], r.idx - {s})
  }

  class RedisStore {
    const ttl: nat
    var data: Redis

    constructor (ttl: nat)
      ensures this.ttl == ttl && data == Redis(map[], map[])
    {
      this.ttl, data := ttl, Redis(map[], map[]);
    }

    method Store(k: Key, p: Payload, t: int)
      modifies this
      ensures data == RStore(old(data), k, p, t, ttl * 1000)
      ensures data.creds == old(data).creds[k := Cred(p, t + 1000 * ttl)]
      ensures var live := if k.session in old(data).idx && t < old(data).idx[k.session].expires
                          then old(data).idx[k.session].members else {};
              data.idx == old(data).idx[k.session := Index(live + {k.mailbox}, t + 1000 * ttl)]
    {
      data := data.(creds := data.creds[k := Cred(p, t + ttl * 1000)]);
      var members := Members(data, k.session, t) + {k.mailbox};
      data := data.(idx := data.idx[k.session := Index(members, t + ttl * 1000)]);
    }

    method Get(k: Key, t1: int, t2: int, t3: int) returns (p: Option<Payload>)
      modifies this
      ensures p == RGetResult(old(data), k, t1)
      ensures data == RGet(old(data), k, t1, t2, t3, ttl * 1000)
      ensures p == if k in old(data).creds && t1 < old(data).creds[k].expires then Some(old(data).creds[k].payload) else None
      ensures data.creds == if p.Some? && t2 < old(data).creds[k].expires
                            then old(data).creds[k := Cred(p.value, t2 + 1000 * ttl)] else old(data).creds
      ensures data.idx == if p.Some? && k.session in old(data).idx && t3 < old(data).idx[k.session].expires
                          then old(data).idx[k.session := Index(old(data).idx[k.session].members, t3 + 1000 * ttl)]
                          else old(data).idx
    {
      if !CredLive(data, k, t1) { return None; }
      var raw := data.creds[k].payload;
      data := ExpireCred(data, k, t2, ttl * 1000);
      data := ExpireIdx(data, k.session, t3, ttl * 1000);
      p := Some(raw);
    }

    method Remove(k: Key, t: int)
      modifies this
      ensures data == RRemove(old(data), k, t) && data.creds == old(data).creds - {k}
      ensures forall s, now :: t <= now ==>
        Members(data, s, now) == Members(old(data), s, now) - (if s == k.session then {k.mailbox} else {})
    {
      data := data.(creds := data.creds - {k});
      data := Srem(data, k.session, k.mailbox, t);
    }

    method PurgeSession(s: string, t1: int)
      modifies this
      ensures data == RPurge(old(data), s, t1)
    {
      var ids := Members(data, s, t1);
      var keys := set id | id in ids :: Key(s, id);
      data := Redis(data.creds - keys, data.idx - {s});
      assert data.creds == RPurge(old(data), s, t1).creds;
    }
  }

  // ----- The index covers every live credential -----

  ghost predicate CoveredKey(r: Redis, k: Key, now: int) {
    CredLive(r, k, now) ==>
      k.session in r.idx && k.mailbox in r.idx[k.session].members && r.idx[k.session].expires >= r.creds[k].expires
  }

  /** Each live credential is in its session's index, which lives at least as long. */
  ghost predicate Covered(r: Redis, now: int) {
    forall k :: CoveredKey(r, k, now)
  }

  /** No credential lives longer than the TTL from now. */
  ghost predicate Bounded(r: Redis, now: int, ttl: int) {
    forall k :: k in r.creds ==> r.creds[k].expires <= now + ttl
  }

  lemma CoveredLater(r: Redis, now: int, later: int)
    requires Covered(r, now) && now <= later
    ensures Covered(r, later)
  {
    forall k ensures CoveredKey(r, k, later) { assert CoveredKey(r, k, now); }
  }

  lemma StoreKeeps(r: Redis, k: Key, p: Payload, t: int, ttl: nat)
    requires Covered(r, t) && Bounded(r, t, ttl)
    ensures Covered(RStore(r, k, p, t, ttl), t)
  {
    var after := RStore(r, k, p, t, ttl);
    forall j ensures CoveredKey(after, j, t) {
      assert CoveredKey(r, j, t);
      assert j != k && CredLive(r, j, t) ==> IdxLive(r, j.session, t);
    }
  }

  lemma RemoveKeeps(r: Redis, k: Key, t: int)
    requires Covered(r, t)
    ensures Covered(RRemove(r, k, t), t) && !CredLive(RRemove(r, k, t), k, t)
  {
    var after := RRemove(r, k, t);
    forall j ensures CoveredKey(after, j, t) {
      assert CoveredKey(r, j, t);
      assert CredLive(r, j, t) ==> IdxLive(r, j.session, t);
      assert CredLive(after, j, t) && j.session == k.session ==> j.mailbox in Members(r, j.session, t) - {k.mailbox};
    }
  }

  lemma PurgeKeeps(r: Redis, s: string, t1: int)
    requires Covered(r, t1)
    ensures Covered(RPurge(r, s, t1), t1)
  {
    var after := RPurge(r, s, t1);
    forall j ensures CoveredKey(after, j, t1) {
      assert CoveredKey(r, j, t1);
      assert CredLive(r, j, t1) ==> IdxLive(r, j.session, t1);
    }
  }

  /**
   A get keeps the cover exactly when its third command comes before the index expires: the second command may
   revive a credential that the third is too late to follow.
   */
  lemma GetKeepsIff(r: Redis, k: Key, t1: int, t2: int, t3: int, ttl: nat)
    requires Covered(r, t1) && Bounded(r, t1, ttl) && t1 <= t2 <= t3
    ensures CredLive(r, k, t1) ==> k.session in r.idx
    ensures Covered(RGet(r, k, t1, t2, t3, ttl), t3) <==>
            !CredLive(r, k, t1) || !CredLive(r, k, t2) || t3 < r.idx[k.session].expires || t3 >= t2 + ttl
  {
    var after := RGet(r, k, t1, t2, t3, ttl);
    assert CoveredKey(r, k, t1);
    var kept := !CredLive(r, k, t1) || !CredLive(r, k, t2) || t3 < r.idx[k.session].expires || t3 >= t2 + ttl;
    if kept {
      forall j ensures CoveredKey(after, j, t3) {
        assert CoveredKey(r, j, t1);
      }
    } else {
      assert !CoveredKey(after, k, t3);
    }
  }

  /** purgeSession leaves no live credential of the session exactly when the live index holds them all. */
  lemma PurgeLeavesNoneIff(r: Redis, s: string, t1: int, t2: int)
    requires t1 <= t2
    ensures (forall m :: !CredLive(RPurge(r, s, t1), Key(s, m), t2)) <==>
            (forall m :: CredLive(r, Key(s, m), t2) ==> m in Members(r, s, t1))
  {
  }

  lemma CoveredPurgeLeavesNone(r: Redis, s: string, t1: int, t2: int)
    requires Covered(r, t1) && t1 <= t2
    ensures forall m :: !CredLive(RPurge(r, s, t1), Key(s, m), t2)
  {
    forall m | CredLive(r, Key(s, m), t2) ensures m in Members(r, s, t1) {
      assert CoveredKey(r, Key(s, m), t1);
    }
    PurgeLeavesNoneIff(r, s, t1, t2);
  }

  /** The index does expire first in a run of the code, and the credential then outlives a logout. */
  lemma LogoutMissesCredential()
    ensures var ttl, k := 10_000, Key("s", "m");
            var stored := RStore(Redis(map[], map[]), k, "p", 0, ttl);
            var used := RGet(stored, k, 9_000, 9_999, 10_000, ttl);
            var loggedOut := RPurge(used, "s", 11_000);
            RGetResult(loggedOut, k, 12_000) == Some("p")
  {
  }

  // ----- Runs -----

  datatype Event =
    | Store(k: Key, p: Payload, t1: int)
    | Get(k: Key, t1: int, t2: int, t3: int)
    | Remove(k: Key, t1: int)
    | Purge(s: string, t1: int, end: int)
    | Sweep(t1: int)

  function EndOf(e: Event): int {
    match e
    case Get(_, _, _, t3) => t3
    case Purge(_, _, end) => end
    case _ => e.t1
  }

  predicate InOrder(e: Event, from: int) {
    match e
    case Get(_, t1, t2, t3) => from <= t1 <= t2 <= t3
    case Purge(_, t1, end) => from <= t1 <= end
    case _ => from <= e.t1
  }

  function RNext(r: Redis, e: Event, ttl: int): Redis {
    match e
    case Store(k, p, t) => RStore(r, k, p, t, ttl)
    case Get(k, t1, t2, t3) => RGet(r, k, t1, t2, t3, ttl)
    case Remove(k, t) => RRemove(r, k, t)
    case Purge(s, t1, _) => RPurge(r, s, t1)
    case Sweep(_) => r
  }

  /** The index is still there when a get reaches its third command. */
  predicate Timely(r: Redis, e: Event) {
    e.Get? && CredLive(r, e.k, e.t1) && CredLive(r, e.k, e.t2) ==>
      e.k.session in r.idx && e.t3 < r.idx[e.k.session].expires
  }

  function RAfter(r: Redis, es: seq<Event>, ttl: int): Redis
    decreases |es|
  {
    if es == [] then r else RAfter(RNext(r, es[0], ttl), es[1..], ttl)
  }

  function EndOfRun(es: seq<Event>, from: int): int
    decreases |es|
  {
    if es == [] then from else EndOfRun(es[1..], EndOf(es[0]))
  }

  lemma EventKeeps(r: Redis, e: Event, from: int, ttl: nat)
    requires Covered(r, from) && Bounded(r, from, ttl) && InOrder(e, from) && Timely(r, e)
    ensures Covered(RNext(r, e, ttl), EndOf(e)) && Bounded(RNext(r, e, ttl), EndOf(e), ttl)
  {
    CoveredLater(r, from, e.t1);
    match e
    case Store(k, p, t) => StoreKeeps(r, k, p, t, ttl);
    case Get(k, t1, t2, t3) => GetKeepsIff(r, k, t1, t2, t3, ttl);
    case Remove(k, t) => RemoveKeeps(r, k, t);
    case Purge(s, t1, end) =>
      PurgeKeeps(r, s, t1);
      CoveredLater(RPurge(r, s, t1), t1, end);
    case Sweep(_) =>
  }

  /** GetKeepsIff's condition for one operation. */
  predicate Guarded(r: Redis, e: Event, ttl: int) {
    e.Get? ==>
      !CredLive(r, e.k, e.t1) || !CredLive(r, e.k, e.t2) || IdxLive(r, e.k.session, e.t3) || e.t3 >= e.t2 + ttl
  }

  ghost predicate Ordered(es: seq<Event>, from: int)
    decreases |es|
  {
    es == [] || (InOrder(es[0], from) && Ordered(es[1..], EndOf(es[0])))
  }

  ghost predicate GuardedRun(r: Redis, es: seq<Event>, ttl: int)
    decreases |es|
  {
    es == [] || (Guarded(r, es[0], ttl) && GuardedRun(RNext(r, es[0], ttl), es[1..], ttl))
  }

  /** The index covers all live credentials after every operation. */
  ghost predicate CoveredThroughout(r: Redis, es: seq<Event>, ttl: int)
    decreases |es|
  {
    es == [] ||
    (Covered(RNext(r, es[0], ttl), EndOf(es[0])) && CoveredThroughout(RNext(r, es[0], ttl), es[1..], ttl))
  }

  lemma EventKeepsIff(r: Redis, e: Event, from: int, ttl: nat)
    requires Covered(r, from) && Bounded(r, from, ttl) && InOrder(e, from)
    ensures Covered(RNext(r, e, ttl), EndOf(e)) <==> Guarded(r, e, ttl)
    ensures Bounded(RNext(r, e, ttl), EndOf(e), ttl)
  {
    CoveredLater(r, from, e.t1);
    if e.Get? {
      GetKeepsIff(r, e.k, e.t1, e.t2, e.t3, ttl);
      assert CoveredKey(r, e.k, e.t1);
    } else {
      EventKeeps(r, e, from, ttl);
    }
  }

  /** In every run, however slow: the cover lasts throughout exactly if every get meets that condition. */
  lemma {:induction false} CoveredIffGuarded(r: Redis, es: seq<Event>, from: int, ttl: nat)
    requires Covered(r, from) && Bounded(r, from, ttl) && Ordered(es, from)
    ensures CoveredThroughout(r, es, ttl) <==> GuardedRun(r, es, ttl)
    decreases |es|
  {
    if es != [] {
      hide Covered, Bounded, Guarded, RNext;
      EventKeepsIff(r, es[0], from, ttl);
      if Guarded(r, es[0], ttl) { CoveredIffGuarded(RNext(r, es[0], ttl), es[1..], EndOf(es[0]), ttl); }
    }
  }

  /** When each credential was last stored, or renewed by a get that found it. */
  datatype Touch = Touch(payload: Payload, at: int)
  type Touches = map<Key, Touch>

  predicate Finds(touches: Touches, e: Event, ttl: nat) {
    e.Get? && e.k in touches && e.t1 < touches[e.k].at + ttl * 1000
  }

  function TNext(touches: Touches, e: Event, ttl: nat): Touches {
    match e
    case Store(k, p, t) => touches[k := Touch(p, t)]
    case Get(k, _, t2, _) =>
      if Finds(touches, e, ttl) then touches[k := touches[k].(at := t2)] else touches - {k}
    case Remove(k, _) => touches - {k}
    case Purge(s, _, _) => map k | k in touches && k.session != s :: touches[k]
    case Sweep(_) => touches
  }

  /** A get that finds its credential ends before that credential would have expired. */
  predicate Prompt(touches: Touches, e: Event, ttl: nat) {
    Finds(touches, e, ttl) ==> e.t3 < touches[e.k].at + ttl * 1000
  }

  ghost predicate PromptRun(touches: Touches, es: seq<Event>, from: int, ttl: nat)
    decreases |es|
  {
    || es == []
    || (InOrder(es[0], from) && Prompt(touches, es[0], ttl) && PromptRun(TNext(touches, es[0], ttl), es[1..], EndOf(es[0]), ttl))
  }

  ghost predicate RedisFits(touches: Touches, r: Redis, now: int, ttl: nat) {
    && Covered(r, now) && Bounded(r, now, ttl * 1000)
    && (forall k :: k in touches ==>
          if k in r.creds then r.creds[k] == Cred(touches[k].payload, touches[k].at + ttl * 1000)
          else now >= touches[k].at + ttl * 1000)
    && (forall k :: k !in touches ==> !CredLive(r, k, now))
  }

  /** A prompt operation keeps the index covering, and Redis holding what was last touched. */
  lemma RedisFitsNext(touches: Touches, r: Redis, e: Event, from: int, ttl: nat)
    requires RedisFits(touches, r, from, ttl) && InOrder(e, from) && Prompt(touches, e, ttl)
    ensures RedisFits(TNext(touches, e, ttl), RNext(r, e, ttl * 1000), EndOf(e), ttl)
  {
    CoveredLater(r, from, e.t1);
    var after, next := RNext(r, e, ttl * 1000), TNext(touches, e, ttl);
    assert Timely(r, e) by {
      if e.Get? { assert CoveredKey(r, e.k, e.t1); }
    }
    EventKeeps(r, e, from, ttl * 1000);
    if e.Purge? { CoveredPurgeLeavesNone(r, e.s, e.t1, e.t1); }
    forall k | k !in next ensures !CredLive(after, k, EndOf(e)) {
      if e.Purge? && k.session == e.s { assert k == Key(e.s, k.mailbox); }
    }
    hide Covered;
  }

  /** In every run of prompt gets the index covers all live credentials, so logging out at its end leaves none. */
  lemma {:induction false} RunIsCovered(touches: Touches, r: Redis, es: seq<Event>, from: int, ttl: nat, s: string,
                                        t1: int, t2: int)
    requires RedisFits(touches, r, from, ttl) && PromptRun(touches, es, from, ttl)
    requires EndOfRun(es, from) <= t1 <= t2
    ensures Covered(RAfter(r, es, ttl * 1000), EndOfRun(es, from))
    ensures forall m :: !CredLive(RPurge(RAfter(r, es, ttl * 1000), s, t1), Key(s, m), t2)
    decreases |es|
  {
    if es == [] {
      CoveredLater(r, from, t1);
      CoveredPurgeLeavesNone(r, s, t1, t2);
    } else {
      hide RedisFits;
      RedisFitsNext(touches, r, es[0], from, ttl);
      RunIsCovered(TNext(touches, es[0], ttl), RNext(r, es[0], ttl * 1000), es[1..], EndOf(es[0]), ttl, s, t1, t2);
    }
  }

  /** From an empty store. */
  lemma LogoutLeavesNone(es: seq<Event>, ttl: nat, s: string, t1: int, t2: int)
    requires PromptRun(map[], es, 0, ttl) && EndOfRun(es, 0) <= t1 <= t2
    ensures forall m :: !CredLive(RPurge(RAfter(Redis(map[], map[]), es, ttl * 1000), s, t1), Key(s, m), t2)
  {
    RunIsCovered(map[], Redis(map[], map[]), es, 0, ttl, s, t1, t2);
  }

  // ----- The settings-table fallback -----

  /** `expiresAt` is in whole seconds. */
  datatype Row = Row(payload: Payload, expiresAt: int)
  type Settings = map<Key, Row>

  /** Math.floor(Date.now() / 1000) */
  function Seconds(ms: int): int {
    ms / 1000
  }

  function SStore(st: Settings, k: Key, p: Payload, t: int, ttl: nat): Settings {
    st[k := Row(p, Seconds(t) + ttl)]
  }

  predicate SLive(st: Settings, k: Key, now: int) {
    k in st && st[k].expiresAt > Seconds(now)
  }

  function SGet(st: Settings, k: Key, t1: int, t2: int, ttl: nat): Settings {
    if !SLive(st, k, t1) then st - {k} else st[k := st[k].(expiresAt := Seconds(t2) + ttl)]
  }

  function SGetResult(st: Settings, k: Key, t1: int): Option<Payload> {
    if SLive(st, k, t1) then Some(st[k].payload) else None
  }

  function SPurge(st: Settings, s: string): Settings {
    map k | k in st && k.session != s :: st[k]
  }

  function SSweep(st: Settings, t: int): Settings {
    map k | k in st && st[k].expiresAt > Seconds(t) :: st[k]
  }

  class SettingsStore {
    const ttl: nat
    var rows: Settings

    constructor (ttl: nat)
      ensures this.ttl == ttl && rows == map[]
    {
      this.ttl, rows := ttl, map[];
    }

    method Store(k: Key, p: Payload, t: int)
      modifies this
      ensures rows == SStore(old(rows), k, p, t, ttl)
    {
      rows := rows[k := Row(p, Seconds(t) + ttl)];
    }

    method Get(k: Key, t1: int, t2: int) returns (p: Option<Payload>)
      modifies this
      ensures p == SGetResult(old(rows), k, t1) && rows == SGet(old(rows), k, t1, t2, ttl)
    {
      if k !in rows { return None; }
      var v := rows[k];
      if v.expiresAt <= Seconds(t1) {
        Remove(k);
        return None;
      }
      rows := rows[k := v.(expiresAt := Seconds(t2) + ttl)];
      p := Some(v.payload);
    }

    method Remove(k: Key)
      modifies this
      ensures rows == old(rows) - {k}
    {
      rows := rows - {k};
    }

    method PurgeSession(s: string)
      modifies this
      ensures rows == SPurge(old(rows), s)
    {
      rows := map k | k in rows && k.session != s :: rows[k];
    }

    method SweepExpired(t: int) returns (removed: nat)
      modifies this
      ensures rows == SSweep(old(rows), t) && removed == |old(rows)| - |rows|
      ensures forall k :: k in rows <==> k in old(rows) && t < 1000 * old(rows)[k].expiresAt
      ensures forall k :: k in rows ==> rows[k] == old(rows)[k]
    {
      ghost var before := rows;
      var expired := set k | k in rows && rows[k].expiresAt <= Seconds(t);
      removed := |expired|;
      rows := rows - expired;
      assert rows == SSweep(before, t);
      assert before.Keys == rows.Keys + expired && rows.Keys !! expired;
    }
  }

  function SNext(st: Settings, e: Event, ttl: nat): Settings {
    match e
    case Store(k, p, t) => SStore(st, k, p, t, ttl)
    case Get(k, t1, t2, _) => SGet(st, k, t1, t2, ttl)
    case Remove(k, _) => st - {k}
    case Purge(s, _, _) => SPurge(st, s)
    case Sweep(t) => SSweep(st, t)
  }

  // ----- Both backends give the same answers -----

  /** What a get returns, event by event. */
  function RResults(r: Redis, es: seq<Event>, ttl: nat): seq<Option<Payload>>
    decreases |es|
  {
    if es == [] then []
    else [if es[0].Get? then RGetResult(r, es[0].k, es[0].t1) else None] + RResults(RNext(r, es[0], ttl * 1000), es[1..], ttl)
  }

  function SResults(st: Settings, es: seq<Event>, ttl: nat): seq<Option<Payload>>
    decreases |es|
  {
    if es == [] then []
    else [if es[0].Get? then SGetResult(st, es[0].k, es[0].t1) else None] + SResults(SNext(st, es[0], ttl), es[1..], ttl)
  }

  /** The end of the last whole second before the TTL is over: here the fallback gives up, Redis not yet. */
  function LastSecond(at: int, ttl: nat): int {
    at - at % 1000 + 1000 * ttl
  }

  predicate InWindow(touches: Touches, e: Event, ttl: nat) {
    e.Get? && e.k in touches && LastSecond(touches[e.k].at, ttl) <= e.t1 < touches[e.k].at + ttl * 1000
  }

  /** No get falls into the last fraction of a second of a credential's life. */
  ghost predicate WindowFree(touches: Touches, es: seq<Event>, ttl: nat)
    decreases |es|
  {
    es == [] || (!InWindow(touches, es[0], ttl) && WindowFree(TNext(touches, es[0], ttl), es[1..], ttl))
  }

  ghost predicate SettingsFit(touches: Touches, st: Settings, now: int, ttl: nat) {
    && (forall k :: k in touches ==>
          if k in st then st[k] == Row(touches[k].payload, Seconds(touches[k].at) + ttl)
          else now >= LastSecond(touches[k].at, ttl))
    && (forall k :: k !in touches ==> !SLive(st, k, now))
  }

  lemma FitAnswers(touches: Touches, r: Redis, st: Settings, e: Event, ttl: nat)
    requires RedisFits(touches, r, e.t1, ttl) && SettingsFit(touches, st, e.t1, ttl) && e.Get?
    ensures RGetResult(r, e.k, e.t1) == SGetResult(st, e.k, e.t1) <==> !InWindow(touches, e, ttl)
  {
  }

  lemma SettingsFitNext(touches: Touches, st: Settings, e: Event, from: int, ttl: nat)
    requires SettingsFit(touches, st, from, ttl) && InOrder(e, from) && !InWindow(touches, e, ttl)
    ensures SettingsFit(TNext(touches, e, ttl), SNext(st, e, ttl), EndOf(e), ttl)
  {
  }

  /** For every sequence of prompt operations, sweeps anywhere: the same answers, exactly if no get falls in a window. */
  lemma {:induction false} SameAnswersIff(touches: Touches, r: Redis, st: Settings, es: seq<Event>, from: int, ttl: nat)
    requires RedisFits(touches, r, from, ttl) && SettingsFit(touches, st, from, ttl) && PromptRun(touches, es, from, ttl)
    ensures RResults(r, es, ttl) == SResults(st, es, ttl) <==> WindowFree(touches, es, ttl)
    decreases |es|
  {
    if es != [] {
      var e := es[0];
      Later(touches, r, st, from, e.t1, ttl);
      hide RedisFits, SettingsFit, RNext, SNext, TNext, EndOf;
      if e.Get? { FitAnswers(touches, r, st, e, ttl); }
      assert RResults(r, es, ttl)[1..] == RResults(RNext(r, e, ttl * 1000), es[1..], ttl);
      assert SResults(st, es, ttl)[1..] == SResults(SNext(st, e, ttl), es[1..], ttl);
      if InWindow(touches, e, ttl) {
        assert RResults(r, es, ttl)[0] != SResults(st, es, ttl)[0];
      } else {
        RedisFitsNext(touches, r, e, e.t1, ttl);
        SettingsFitNext(touches, st, e, e.t1, ttl);
        SameAnswersIff(TNext(touches, e, ttl), RNext(r, e, ttl * 1000), SNext(st, e, ttl), es[1..], EndOf(e), ttl);
      }
    }
  }

  lemma Later(touches: Touches, r: Redis, st: Settings, from: int, to: int, ttl: nat)
    requires RedisFits(touches, r, from, ttl) && SettingsFit(touches, st, from, ttl) && from <= to
    ensures RedisFits(touches, r, to, ttl) && SettingsFit(touches, st, to, ttl)
  {
    CoveredLater(r, from, to);
    hide Covered;
  }

  /** From two empty stores. */
  lemma BackendsAgree(es: seq<Event>, ttl: nat)
    requires PromptRun(map[], es, 0, ttl)
    ensures RResults(Redis(map[], map[]), es, ttl) == SResults(map[], es, ttl) <==> WindowFree(map[], es, ttl)
  {
    SameAnswersIff(map[], Redis(map[], map[]), map[], es, 0, ttl);
  }

  /** Operations that take no time are prompt. */
  lemma {:induction false} InstantIsPrompt(touches: Touches, es: seq<Event>, from: int, ttl: nat)
    requires forall e :: e in es ==> EndOf(e) == e.t1
    requires Ordered(es, from)
    ensures PromptRun(touches, es, from, ttl)
    decreases |es|
  {
    if es != [] {
      assert es[0] in es;
      assert forall e :: e in es[1..] ==> e in es;
      InstantIsPrompt(TNext(touches, es[0], ttl), es[1..], EndOf(es[0]), ttl);
    }
  }

  /** A get too slow to renew its credential in Redis does renew the row, and the next get tells them apart. */
  lemma SlowGetDiverges(touches: Touches, r: Redis, st: Settings, e: Event, ttl: nat, t: int)
    requires RedisFits(touches, r, e.t1, ttl) && SettingsFit(touches, st, e.t1, ttl) && InOrder(e, e.t1)
    requires Finds(touches, e, ttl) && !InWindow(touches, e, ttl) && e.t2 >= touches[e.k].at + ttl * 1000
    requires e.t3 <= t && Seconds(t) < Seconds(e.t2) + ttl
    ensures RGetResult(RNext(r, e, ttl * 1000), e.k, t) == None
    ensures SGetResult(SNext(st, e, ttl), e.k, t) == Some(touches[e.k].payload)
  {
    hide Covered;
  }

  /** On a clock that ticks in whole seconds there is no window. */
  lemma {:induction false} WholeSecondsAgree(touches: Touches, es: seq<Event>, ttl: nat)
    requires forall k :: k in touches ==> touches[k].at % 1000 == 0
    requires forall e :: e in es ==> e.t1 % 1000 == 0 && (e.Get? ==> e.t2 % 1000 == 0)
    ensures WindowFree(touches, es, ttl)
    decreases |es|
  {
    if es != [] {
      assert es[0] in es;
      assert forall e :: e in es[1..] ==> e in es;
      WholeSecondsAgree(TNext(touches, es[0], ttl), es[1..], ttl);
    }
  }
}
