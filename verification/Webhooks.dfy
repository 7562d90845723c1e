/**
 The webhook retry machine (apps/api/src/webhooks/webhooks.service.ts) run by any number of worker replicas
 under the locks of module Worker.  The fields from `posts` on only record what happened: requests sent, requests
 whose result was never saved, deliveries answered 2xx, those of them with an unsaved 2xx, the time of the last
 request, and deliveries whose last request is one of the unsaved.
 */
module Webhooks {
  import opened Text
  import W = Worker

  type Id = nat
  type Session = W.Session

  const LOOP := "webhooks"
  const MAX_ATTEMPTS := 6
  const BACKOFF: seq<int> := [10, 60, 300, 1800, 7200, 21600]
  const BATCH := 50

  datatype Delivery = Delivery(endpoint: nat, attempts: nat, nextAt: Option<int>, delivered: bool)
  type Table = map<Id, Delivery>
  /** A selected row: `attempts` is as it was when the tick read it. */
  datatype Row = Row(id: Id, attempts: nat)

  // ----- One attempt -----

  /** nextRetry's delay after `attempts` failed attempts. */
  function Delay(attempts: nat): (r: int)
    ensures 10 <= r <= 21600
  {
    BACKOFF[if attempts < |BACKOFF| - 1 then attempts else |BACKOFF| - 1]
  }

  predicate Is2xx(status: Option<int>) {
    status.Some? && 200 <= status.value < 300
  }

  /** The update after an attempt; a row deleted meanwhile is not updated. */
  function Saved(table: Table, row: Row, status: Option<int>, now: int): Table {
    if row.id !in table then table
    else
      var d := table[row.id];
      var attempts := row.attempts + 1;
      table[row.id :=
        if Is2xx(status) then d.(attempts := attempts, delivered := true, nextAt := None)
        else d.(attempts := attempts, nextAt := if attempts >= MAX_ATTEMPTS then None else Some(now + Delay(attempts)))]
  }

  /** What one attempt makes of a row: one more attempt, delivered by a 2xx, due again after the backoff before the sixth. */
  predicate AttemptMade(before: Delivery, after: Delivery, status: Option<int>, t: int) {
    var success := status.Some? && 200 <= status.value < 300;
    && after.endpoint == before.endpoint && after.attempts == before.attempts + 1
    && after.delivered == (before.delivered || success)
    && (success || before.attempts + 1 >= 6 ==> after.nextAt == None)
    && (!success && before.attempts + 1 < 6 ==>
          after.nextAt == Some(t + [10, 60, 300, 1800, 7200, 21600][before.attempts + 1]))
  }

  /** The update of a row read as it still is makes that one attempt, and touches no other row. */
  lemma SavedMakesAttempt(table: Table, row: Row, status: Option<int>, now: int)
    requires row.id in table && row.attempts == table[row.id].attempts
    ensures var after := Saved(table, row, status, now);
            && after.Keys == table.Keys && AttemptMade(table[row.id], after[row.id], status, now)
            && forall id :: id in table && id != row.id ==> after[id] == table[id]
  {
  }

  predicate DueAt(table: Table, id: Id, now: int) {
    id in table && !table[id].delivered && table[id].nextAt.Some? && table[id].nextAt.value <= now
  }

  function When(table: Table, id: Id): int {
    if id in table && table[id].nextAt.Some? then table[id].nextAt.value else 0
  }

  /** ORDER BY next_attempt_at LIMIT 50 over the due rows, ties in any order. */
  ghost predicate Selects(table: Table, now: int, rows: seq<Row>) {
    && |rows| <= 50
    && (forall i :: 0 <= i < |rows| ==>
          && rows[i].id in table && rows[i].attempts == table[rows[i].id].attempts && !table[rows[i].id].delivered
          && table[rows[i].id].nextAt.Some? && table[rows[i].id].nextAt.value <= now)
    && (forall i, j :: 0 <= i < j < |rows| ==>
          rows[i].id != rows[j].id && table[rows[i].id].nextAt.value <= table[rows[j].id].nextAt.value)
    && (forall id :: id in table && !table[id].delivered && table[id].nextAt.Some? && table[id].nextAt.value <= now
                     && (forall i :: 0 <= i < |rows| ==> rows[i].id != id) ==>
          |rows| == 50 && forall i :: 0 <= i < |rows| ==> table[rows[i].id].nextAt.value <= table[id].nextAt.value)
  }

  lemma DueRowsSelected(table: Table, now: int, rows: seq<Row>)
    requires |rows| <= BATCH
    requires forall i :: 0 <= i < |rows| ==> DueAt(table, rows[i].id, now) && rows[i].attempts == table[rows[i].id].attempts
    requires forall i, j :: 0 <= i < j < |rows| ==>
      rows[i].id != rows[j].id && When(table, rows[i].id) <= When(table, rows[j].id)
    requires forall id :: DueAt(table, id, now) && (forall i :: 0 <= i < |rows| ==> rows[i].id != id) ==>
      |rows| == BATCH && forall i :: 0 <= i < |rows| ==> When(table, rows[i].id) <= When(table, id)
    ensures Selects(table, now, rows)
  {
    forall id | id in table && !table[id].delivered && table[id].nextAt.Some? && table[id].nextAt.value <= now
                && (forall i :: 0 <= i < |rows| ==> rows[i].id != id)
      ensures |rows| == BATCH && forall i :: 0 <= i < |rows| ==> When(table, rows[i].id) <= When(table, id)
    {
      assert DueAt(table, id, now);
    }
  }

  // ----- The system -----

  /** Where a tick is with its first remaining row. */
  datatype Stage = Before | Sent | Answered(status: Option<int>, posted: bool)
  datatype Body = Unfetched | Fetched(rows: seq<Row>, stage: Stage)

  datatype State = State(
    worker: W.State, now: int, table: Table, nextId: Id, bodies: map<Session, Body>,
    posts: map<Id, nat>, lost: map<Id, nat>, ok2xx: set<Id>, lost2xx: set<Id>, lastPost: map<Id, int>, unsaved: set<Id>)

  datatype Event =
    | Lock(e: W.Event)
    | Fetch(s: Session, rows: seq<Row>)
    | Blocked(s: Session)
    | Post(s: Session)
    | Respond(s: Session, code: int)
    | NoResponse(s: Session)
    | Save(s: Session)
    | Abort(s: Session)
    | Emit(endpoint: nat)
    | DeleteEndpoint(endpoint: nat)
    | Advance(seconds: nat)

  const INIT := State(W.INIT, 0, map[], 0, map[], map[], map[], {}, {}, map[], {})

  function Count(m: map<Id, nat>, id: Id): nat {
    if id in m then m[id] else 0
  }

  predicate AtRow(st: State, s: Session) {
    s in st.bodies && st.bodies[s].Fetched? && st.bodies[s].rows != []
  }

  function HeadRow(st: State, s: Session): Row
    requires AtRow(st, s)
  {
    st.bodies[s].rows[0]
  }

  /** The request of the current row has left. */
  predicate Posted(stage: Stage) {
    stage.Sent? || (stage.Answered? && stage.posted)
  }

  /** The current row has been answered 2xx. */
  predicate Success(stage: Stage) {
    stage.Answered? && Is2xx(stage.status)
  }

  ghost predicate Enabled(st: State, e: Event) {
    match e
    case Lock(w) =>
      && W.Enabled(st.worker, w) && !W.Loses(st.worker, w)
      && (w.Finish? && w.s in st.bodies ==> st.bodies[w.s].Fetched? && st.bodies[w.s].rows == [])
    case Fetch(s, rows) => s in st.bodies && st.bodies[s].Unfetched? && Selects(st.table, st.now, rows)
    case Blocked(s) => AtRow(st, s) && st.bodies[s].stage.Before?
    case Post(s) => AtRow(st, s) && st.bodies[s].stage.Before?
    case Respond(s, _) => AtRow(st, s) && st.bodies[s].stage.Sent?
    case NoResponse(s) => AtRow(st, s) && st.bodies[s].stage.Sent?
    case Save(s) => AtRow(st, s) && st.bodies[s].stage.Answered?
    case Abort(s) => s in st.bodies && !(AtRow(st, s) && st.bodies[s].stage.Sent?)
    case _ => true
  }

  function SetStage(st: State, s: Session, stage: Stage): State
    requires AtRow(st, s)
  {
    st.(bodies := st.bodies[s := Fetched(st.bodies[s].rows, stage)])
  }

  /** A tick's body is gone, and with it the record of a request it had sent. */
  function DropBody(st: State, s: Session): (after: State)
    ensures after.bodies == st.bodies - {s} && after.worker == st.worker
  {
    if s !in st.bodies then st
    else
      var gone := st.(bodies := st.bodies - {s});
      if AtRow(st, s) && Posted(st.bodies[s].stage) then
        var id := HeadRow(st, s).id;
        gone.(lost := gone.lost[id := Count(gone.lost, id) + 1], unsaved := gone.unsaved + {id},
              lost2xx := if Success(st.bodies[s].stage) then gone.lost2xx + {id} else gone.lost2xx)
      else gone
  }

  /** A granted lock starts a webhook body; finishing or crashing ends it. */
  function AfterLock(st: State, w: W.Event): State
    requires W.Enabled(st.worker, w)
  {
    var after := st.(worker := W.Next(st.worker, w));
    if w.TryLock? && W.In(after.worker, w.s, W.Running) && after.worker.busy[w.s].loop == LOOP then
      after.(bodies := after.bodies[w.s := Unfetched])
    else if w.Finish? || w.Crash? then DropBody(after, w.s)
    else after
  }

  function Next(st: State, e: Event): State
    requires Enabled(st, e)
  {
    match e
    case Lock(w) => AfterLock(st, w)
    case Fetch(s, rows) => st.(bodies := st.bodies[s := Fetched(rows, Before)])
    case Blocked(s) => SetStage(st, s, Answered(None, false))
    case Post(s) =>
      var id := HeadRow(st, s).id;
      SetStage(st, s, Sent).(posts := st.posts[id := Count(st.posts, id) + 1], lastPost := st.lastPost[id := st.now],
                             unsaved := st.unsaved - {id})
    case Respond(s, code) =>
      var answered := SetStage(st, s, Answered(Some(code), true));
      if Is2xx(Some(code)) then answered.(ok2xx := st.ok2xx + {HeadRow(st, s).id}) else answered
    case NoResponse(s) => SetStage(st, s, Answered(None, true))
    case Save(s) =>
      var b := st.bodies[s];
      st.(table := Saved(st.table, b.rows[0], b.stage.status, st.now), bodies := st.bodies[s := Fetched(b.rows[1..], Before)])
    case Abort(s) =>
      var after := DropBody(st, s);
      if W.In(st.worker, s, W.Running) then after.(worker := W.Next(st.worker, W.Finish(s))) else after
    case Emit(endpoint) =>
      st.(table := st.table[st.nextId := Delivery(endpoint, 0, Some(st.now), false)], nextId := st.nextId + 1)
    case DeleteEndpoint(endpoint) =>
      st.(table := map id | id in st.table && st.table[id].endpoint != endpoint :: st.table[id])
    case Advance(n) => st.(now := st.now + n)
  }

  ghost predicate RunFrom(st: State, es: seq<Event>)
    decreases |es|
  {
    es == [] || (Enabled(st, es[0]) && RunFrom(Next(st, es[0]), es[1..]))
  }

  ghost function After(st: State, es: seq<Event>): State
    requires RunFrom(st, es)
    decreases |es|
  {
    if es == [] then st else After(Next(st, es[0]), es[1..])
  }

  // ----- The invariant -----

  /** Bodies are exactly the running webhook ticks, and each of those owns the lock. */
  ghost predicate BodiesRun(st: State) {
    && W.RunnersOwn(st.worker)
    && (forall s :: s in st.bodies <==> W.In(st.worker, s, W.Running) && st.worker.busy[s].loop == LOOP)
  }

  lemma OneBody(st: State, s: Session, t: Session)
    requires BodiesRun(st) && s in st.bodies && t in st.bodies
    ensures s == t
  {
  }

  /** Both states have recorded the same about this delivery. */
  predicate SameRecords(a: State, b: State, id: Id) {
    && Count(a.posts, id) == Count(b.posts, id) && (id in a.posts <==> id in b.posts)
    && (id in a.ok2xx <==> id in b.ok2xx) && (id in a.unsaved <==> id in b.unsaved)
    && (id in a.lastPost <==> id in b.lastPost) && (id in a.lastPost ==> a.lastPost[id] == b.lastPost[id])
  }

  ghost predicate RowOk(st: State, row: Row, posted: bool, success: bool) {
    var id := row.id;
    && row.attempts < MAX_ATTEMPTS && id < st.nextId
    && Count(st.posts, id) <= row.attempts + Count(st.lost, id) + (if posted then 1 else 0)
    && (id in st.ok2xx && id !in st.lost2xx ==> success)
    && (id in st.table ==> st.table[id].attempts == row.attempts && DueAt(st.table, id, st.now))
    && (id in st.lastPost && id !in st.unsaved && !posted ==>
          && st.lastPost[id] + Delay(row.attempts) <= st.now
          && (id in st.table ==> st.lastPost[id] + Delay(row.attempts) <= st.table[id].nextAt.value))
  }

  ghost predicate BodyOk(st: State, b: Body) {
    b.Fetched? ==>
      && (forall i, j :: 0 <= i < j < |b.rows| ==> b.rows[i].id != b.rows[j].id)
      && (forall i :: 0 <= i < |b.rows| ==>
            RowOk(st, b.rows[i], i == 0 && Posted(b.stage), i == 0 && Success(b.stage)))
      && (b.rows != [] && b.stage.Answered? && !b.stage.posted ==> b.stage.status == None)
      && (b.rows != [] && Success(b.stage) ==> b.rows[0].id in st.ok2xx)
  }

  predicate Lacks(b: Body, id: Id) {
    b.Fetched? ==> forall i :: 0 <= i < |b.rows| ==> b.rows[i].id != id
  }

  /** No tick is working on this delivery. */
  ghost predicate Untaken(st: State, id: Id) {
    forall s :: s in st.bodies ==> Lacks(st.bodies[s], id)
  }

  ghost predicate Settled(st: State, id: Id)
    requires id in st.table
  {
    var d := st.table[id];
    && Count(st.posts, id) <= d.attempts + Count(st.lost, id)
    && (id in st.ok2xx && id !in st.lost2xx ==> d.delivered)
    && (d.nextAt.Some? && id in st.lastPost && id !in st.unsaved ==> st.lastPost[id] + Delay(d.attempts) <= d.nextAt.value)
  }

  ghost predicate AllSettled(st: State) {
    forall id :: id in st.table && Untaken(st, id) ==> Settled(st, id)
  }

  /** What holds of every delivery, taken or not, and of the records. */
  ghost predicate TableSane(st: State) {
    && (forall id :: id in st.table ==>
          && id < st.nextId && st.table[id].attempts <= MAX_ATTEMPTS
          && (st.table[id].nextAt.None? <==> st.table[id].attempts == MAX_ATTEMPTS || st.table[id].delivered)
          && (st.table[id].nextAt.Some? ==> st.table[id].nextAt.value <= st.now + 21600))
    && (forall id :: Count(st.posts, id) <= MAX_ATTEMPTS + Count(st.lost, id))
    && (forall id :: id in st.posts || id in st.ok2xx || id in st.lastPost || id in st.lost || id in st.unsaved ==>
          id < st.nextId)
    && st.lost2xx <= st.ok2xx
    && (forall id :: id in st.lastPost ==> st.lastPost[id] <= st.now)
  }

  ghost predicate TableOk(st: State) {
    AllSettled(st) && TableSane(st)
  }

  ghost predicate Inv(st: State) {
    && BodiesRun(st)
    && (forall s :: s in st.bodies ==> BodyOk(st, st.bodies[s]))
    && TableOk(st)
  }

  // ----- Every step keeps it -----

  lemma LockKeepsBody(st: State, w: W.Event, t: Session)
    requires W.Enabled(st.worker, w)
    requires t in st.bodies <==> W.In(st.worker, t, W.Running) && st.worker.busy[t].loop == LOOP
    ensures var after := AfterLock(st, w);
            t in after.bodies <==> W.In(after.worker, t, W.Running) && after.worker.busy[t].loop == LOOP
  {
    W.RunningChanges(st.worker, w, t);
    hide W.Key, W.Next, W.Grants, DropBody;
  }

  lemma LockKeepsBodies(st: State, w: W.Event)
    requires BodiesRun(st) && Enabled(st, Lock(w))
    ensures BodiesRun(Next(st, Lock(w)))
  {
    W.StepKeepsOwnership(st.worker, w);
    var after := AfterLock(st, w);
    assert after.worker == W.Next(st.worker, w);
    forall t ensures t in after.bodies <==> W.In(after.worker, t, W.Running) && after.worker.busy[t].loop == LOOP {
      LockKeepsBody(st, w, t);
    }
    hide W.Key, W.Next, W.RunnersOwn, W.Grants, W.Enabled, AfterLock;
  }

  lemma AbortKeepsBodies(st: State, s: Session)
    requires BodiesRun(st) && Enabled(st, Abort(s))
    ensures BodiesRun(Next(st, Abort(s)))
  {
    W.StepKeepsOwnership(st.worker, W.Finish(s));
    hide W.Key, W.Next, W.RunnersOwn, W.Grants;
    var after := Next(st, Abort(s));
    forall t ensures t in after.bodies <==> W.In(after.worker, t, W.Running) && after.worker.busy[t].loop == LOOP {
      W.RunningChanges(st.worker, W.Finish(s), t);
    }
  }

  /** The worker's own steps touch nothing the rest of the invariant reads. */
  lemma WorkerIrrelevant(st: State, worker: W.State)
    requires TableOk(st) && forall s :: s in st.bodies ==> BodyOk(st, st.bodies[s])
    ensures var after := st.(worker := worker);
            TableOk(after) && forall s :: s in after.bodies ==> BodyOk(after, after.bodies[s])
  {
  }

  /** A row the tick gives up on is settled, its unrecorded request counted as lost. */
  lemma DropSettlesRow(st: State, s: Session, i: nat)
    requires TableOk(st) && s in st.bodies && BodyOk(st, st.bodies[s])
    requires st.bodies[s].Fetched? && i < |st.bodies[s].rows| && st.bodies[s].rows[i].id in st.table
    ensures Settled(DropBody(st, s), st.bodies[s].rows[i].id)
  {
    hide TableOk, Delay;
    var b := st.bodies[s];
    assert RowOk(st, b.rows[i], i == 0 && Posted(b.stage), i == 0 && Success(b.stage));
    assert i > 0 ==> b.rows[i].id != b.rows[0].id;
  }

  lemma DropKeeps(st: State, s: Session)
    requires TableOk(st) && s in st.bodies && BodyOk(st, st.bodies[s])
    requires forall t :: t in st.bodies ==> t == s
    ensures TableOk(DropBody(st, s)) && DropBody(st, s).bodies == map[]
  {
    DropSettles(st, s);
    DropSane(st, s);
  }

  lemma DropSettles(st: State, s: Session)
    requires TableOk(st) && s in st.bodies && BodyOk(st, st.bodies[s])
    requires forall t :: t in st.bodies ==> t == s
    ensures AllSettled(DropBody(st, s)) && DropBody(st, s).bodies == map[]
  {
    hide BodyOk, Delay, RowOk, Settled, TableSane;
    var after := DropBody(st, s);
    assert after.bodies == map[];
    forall id | id in after.table ensures Settled(after, id) {
      if !Lacks(st.bodies[s], id) {
        var i :| 0 <= i < |st.bodies[s].rows| && st.bodies[s].rows[i].id == id;
        DropSettlesRow(st, s, i);
      } else {
        assert Untaken(st, id);
        SettledWithFewerRequests(st, after, id);
      }
    }
  }

  lemma DropSane(st: State, s: Session)
    requires TableSane(st) && s in st.bodies && BodyOk(st, st.bodies[s])
    ensures TableSane(DropBody(st, s))
  {
    hide Delay;
    if AtRow(st, s) { assert HeadRow(st, s).id < st.nextId; }
  }

  /** Losing a record never unsettles a delivery. */
  lemma SettledWithFewerRequests(st: State, after: State, id: Id)
    requires id in st.table && Settled(st, id)
    requires after.table == st.table && after.posts == st.posts && after.ok2xx == st.ok2xx && after.lastPost == st.lastPost
    requires Count(after.lost, id) >= Count(st.lost, id)
    requires st.lost2xx <= after.lost2xx && st.unsaved <= after.unsaved
    ensures Settled(after, id)
  {
  }

  lemma UnfetchedKeeps(st: State, s: Session)
    requires TableOk(st) && (forall t :: t in st.bodies ==> BodyOk(st, st.bodies[t])) && s !in st.bodies
    ensures var after := st.(bodies := st.bodies[s := Unfetched]);
            TableOk(after) && forall t :: t in after.bodies ==> BodyOk(after, after.bodies[t])
  {
    var after := st.(bodies := st.bodies[s := Unfetched]);
    forall id | id in after.table && Untaken(after, id) ensures Settled(after, id) {
      forall t | t in st.bodies ensures Lacks(st.bodies[t], id) {
        assert after.bodies[t] == st.bodies[t];
      }
      assert Settled(st, id);
    }
    forall t | t in after.bodies ensures BodyOk(after, after.bodies[t]) {
      if t != s { assert BodyOk(st, st.bodies[t]); }
    }
  }

  lemma FetchKeeps(st: State, s: Session, rows: seq<Row>)
    requires Inv(st) && Enabled(st, Fetch(s, rows))
    ensures Inv(Next(st, Fetch(s, rows)))
  {
    hide Delay, RowOk, BodyOk, AllSettled, TableSane, Selects, Settled, W.RunnersOwn, W.In;
    var after := Next(st, Fetch(s, rows));
    forall t | t in st.bodies ensures t == s { OneBody(st, s, t); }
    FetchedIsOk(st, s, rows);
    FetchSettles(st, s, rows);
    SaneElsewhere(st, after);
  }

  lemma SaneElsewhere(st: State, after: State)
    requires TableSane(st) && after == st.(bodies := after.bodies)
    ensures TableSane(after)
  {
  }

  lemma FetchedIsOk(st: State, s: Session, rows: seq<Row>)
    requires TableOk(st) && Enabled(st, Fetch(s, rows)) && forall t :: t in st.bodies ==> t == s
    ensures BodyOk(Next(st, Fetch(s, rows)), Fetched(rows, Before))
  {
    hide Delay;
    var after := Next(st, Fetch(s, rows));
    forall i | 0 <= i < |rows| ensures RowOk(after, rows[i], false, false) {
      assert Untaken(st, rows[i].id);
      assert Settled(st, rows[i].id);
    }
  }

  lemma FetchSettles(st: State, s: Session, rows: seq<Row>)
    requires AllSettled(st) && Enabled(st, Fetch(s, rows)) && forall t :: t in st.bodies ==> t == s
    ensures AllSettled(Next(st, Fetch(s, rows)))
  {
    hide Settled, Selects;
    var after := Next(st, Fetch(s, rows));
    forall id | id in after.table && Untaken(after, id) ensures Settled(after, id) {
      assert Untaken(st, id);
      SettledWithSameRecords(st, after, id);
    }
  }

  /** Moving the current row to its next stage touches that row's records only. */
  lemma StageKeeps(st: State, after: State, s: Session, stage: Stage)
    requires Inv(st) && AtRow(st, s)
    requires after == SetStage(st, s, stage).(posts := after.posts, ok2xx := after.ok2xx, lastPost := after.lastPost,
                                              unsaved := after.unsaved)
    requires (forall id :: id != HeadRow(st, s).id ==> SameRecords(after, st, id)) && st.ok2xx <= after.ok2xx
    requires RowOk(after, HeadRow(st, s), Posted(stage), Success(stage))
    requires stage.Answered? && !stage.posted ==> stage.status == None
    requires Success(stage) ==> HeadRow(st, s).id in after.ok2xx
    requires HeadRow(st, s).id in after.lastPost ==> after.lastPost[HeadRow(st, s).id] <= st.now
    ensures Inv(after)
  {
    hide Delay, W.RunnersOwn, W.In, RowOk, Settled;
    var b := st.bodies[s];
    var head := b.rows[0].id;
    forall t | t in st.bodies ensures t == s { OneBody(st, s, t); }
    assert BodyOk(st, b);
    StageKeepsBody(st, after, b, stage);
    hide BodyOk;
    forall id | id in after.table && Untaken(after, id) ensures Settled(after, id) {
      assert Lacks(after.bodies[s], id);
      assert id != head by { assert after.bodies[s].rows[0].id == head; }
      assert Lacks(b, id) && Untaken(st, id);
      SettledWithSameRecords(st, after, id);
    }
    hide Untaken, Lacks;
    RowBounds(after, b.rows[0], Posted(stage), Success(stage));
    forall id: Id
      ensures Count(after.posts, id) <= MAX_ATTEMPTS + Count(after.lost, id)
      ensures id in after.posts || id in after.ok2xx || id in after.lastPost || id in after.lost || id in after.unsaved ==>
        id < after.nextId
      ensures id in after.lastPost ==> after.lastPost[id] <= after.now
    {
      assert id != head ==> SameRecords(after, st, id);
    }
  }

  lemma StageKeepsBody(st: State, after: State, b: Body, stage: Stage)
    requires b.Fetched? && b.rows != [] && BodyOk(st, b)
    requires after == st.(bodies := after.bodies, posts := after.posts, ok2xx := after.ok2xx, lastPost := after.lastPost,
                          unsaved := after.unsaved)
    requires forall id :: id != b.rows[0].id ==> SameRecords(after, st, id)
    requires RowOk(after, b.rows[0], Posted(stage), Success(stage))
    requires stage.Answered? && !stage.posted ==> stage.status == None
    requires (Success(stage) ==> b.rows[0].id in after.ok2xx) && st.ok2xx <= after.ok2xx
    ensures BodyOk(after, Fetched(b.rows, stage))
  {
    hide RowOk, SameRecords;
    forall i | 0 < i < |b.rows| ensures RowOk(after, b.rows[i], false, false) {
      assert b.rows[i].id != b.rows[0].id;
      RowWithSameRecords(st, after, b.rows[i]);
    }
  }

  lemma RowWithSameRecords(st: State, after: State, row: Row)
    requires RowOk(st, row, false, false) && SameRecords(after, st, row.id)
    requires after.table == st.table && after.now == st.now && after.nextId == st.nextId
    requires after.lost == st.lost && after.lost2xx == st.lost2xx
    ensures RowOk(after, row, false, false)
  {
  }

  lemma SettledWithSameRecords(st: State, after: State, id: Id)
    requires id in st.table && id in after.table && Settled(st, id) && after.table[id] == st.table[id]
    requires after.lost == st.lost && after.lost2xx == st.lost2xx && SameRecords(after, st, id)
    ensures Settled(after, id)
  {
  }

  lemma RowBounds(st: State, row: Row, posted: bool, success: bool)
    requires RowOk(st, row, posted, success)
    ensures row.id < st.nextId && Count(st.posts, row.id) <= MAX_ATTEMPTS + Count(st.lost, row.id)
  {
  }

  lemma HeadOk(st: State, s: Session)
    requires Inv(st) && AtRow(st, s)
    ensures var stage := st.bodies[s].stage;
            RowOk(st, HeadRow(st, s), Posted(stage), Success(stage))
    ensures HeadRow(st, s).id in st.lastPost ==> st.lastPost[HeadRow(st, s).id] <= st.now
  {
  }

  lemma BlockedKeeps(st: State, s: Session)
    requires Inv(st) && Enabled(st, Blocked(s))
    ensures Inv(Next(st, Blocked(s)))
  {
    HeadOk(st, s);
    hide Inv, Delay, TableOk, BodyOk;
    var after := Next(st, Blocked(s));
    StageKeeps(st, after, s, after.bodies[s].stage);
  }

  lemma PostKeeps(st: State, s: Session)
    requires Inv(st) && Enabled(st, Post(s))
    ensures Inv(Next(st, Post(s)))
  {
    HeadOk(st, s);
    hide Inv, Delay, TableOk, BodyOk;
    StageKeeps(st, Next(st, Post(s)), s, Sent);
  }

  lemma RespondKeeps(st: State, s: Session, code: int)
    requires Inv(st) && Enabled(st, Respond(s, code))
    ensures Inv(Next(st, Respond(s, code)))
  {
    hide Inv, Delay, TableOk, BodyOk, W.Next, W.In, W.Enabled, W.Loses, AfterLock, DropBody, Saved, Selects;
    HeadOk(st, s);
    StageKeeps(st, Next(st, Respond(s, code)), s, Answered(Some(code), true));
  }

  lemma NoResponseKeeps(st: State, s: Session)
    requires Inv(st) && Enabled(st, NoResponse(s))
    ensures Inv(Next(st, NoResponse(s)))
  {
    hide Inv, Delay, TableOk, BodyOk, W.Next, W.In, W.Enabled, W.Loses, AfterLock, DropBody, Saved, Selects;
    HeadOk(st, s);
    StageKeeps(st, Next(st, NoResponse(s)), s, Answered(None, true));
  }

  /** The other rows of the batch wait their turn. */
  lemma SaveKeepsBody(st: State, s: Session)
    requires Enabled(st, Save(s)) && BodyOk(st, st.bodies[s])
    ensures var after := Next(st, Save(s)); BodyOk(after, after.bodies[s])
  {
    hide Delay;
    var after := Next(st, Save(s));
    var b := st.bodies[s];
    forall i | 0 <= i < |b.rows| - 1 ensures RowOk(after, after.bodies[s].rows[i], false, false) {
      assert b.rows[1..][i] == b.rows[i + 1];
      assert RowOk(st, b.rows[i + 1], false, false);
      assert b.rows[i + 1].id != b.rows[0].id;
    }
  }

  lemma SaveSettlesRow(st: State, s: Session)
    requires Enabled(st, Save(s)) && TableOk(st)
    requires RowOk(st, HeadRow(st, s), Posted(st.bodies[s].stage), Is2xx(st.bodies[s].stage.status))
    requires HeadRow(st, s).id in st.table
    ensures Settled(Next(st, Save(s)), HeadRow(st, s).id)
  {
    hide Delay;
  }

  lemma SaveKeeps(st: State, s: Session)
    requires Inv(st) && Enabled(st, Save(s))
    ensures Inv(Next(st, Save(s)))
  {
    hide W.RunnersOwn, W.In, Delay, RowOk, BodyOk, Settled, AllSettled, TableSane, Saved, DueAt;
    HeadOk(st, s);
    forall t | t in st.bodies ensures t == s { OneBody(st, s, t); }
    HeadNotExhausted(st, s);
    SaveKeepsBody(st, s);
    SaveSettles(st, s);
    SaveSane(st, s);
  }

  lemma HeadNotExhausted(st: State, s: Session)
    requires AtRow(st, s) && BodyOk(st, st.bodies[s])
    ensures HeadRow(st, s).attempts < MAX_ATTEMPTS
    ensures HeadRow(st, s).id in st.table ==> !st.table[HeadRow(st, s).id].delivered
  {
  }

  lemma SaveSettles(st: State, s: Session)
    requires Enabled(st, Save(s)) && TableOk(st) && forall t :: t in st.bodies ==> t == s
    requires RowOk(st, HeadRow(st, s), Posted(st.bodies[s].stage), Success(st.bodies[s].stage))
    ensures AllSettled(Next(st, Save(s)))
  {
    hide Settled, RowOk, Delay, TableSane;
    var after := Next(st, Save(s));
    var b := st.bodies[s];
    var head := b.rows[0].id;
    if head in st.table { SaveSettlesRow(st, s); }
    forall id | id in after.table && Untaken(after, id) ensures Settled(after, id) {
      assert Lacks(after.bodies[s], id);
      if id != head {
        forall i | 0 <= i < |b.rows| ensures b.rows[i].id != id {
          assert i > 0 ==> b.rows[i] == b.rows[1..][i - 1];
        }
        assert Untaken(st, id);
        SettledWithSameRecords(st, after, id);
      }
    }
  }

  lemma SaveSane(st: State, s: Session)
    requires Enabled(st, Save(s)) && TableSane(st) && HeadRow(st, s).attempts < MAX_ATTEMPTS
    requires HeadRow(st, s).id in st.table ==> !st.table[HeadRow(st, s).id].delivered
    ensures TableSane(Next(st, Save(s)))
  {
    hide Delay;
  }

  lemma EmitKeeps(st: State, endpoint: nat)
    requires Inv(st)
    ensures Inv(Next(st, Emit(endpoint)))
  {
    hide Delay, W.RunnersOwn, W.In;
    var after := Next(st, Emit(endpoint));
    forall s | s in after.bodies ensures BodyOk(after, after.bodies[s]) {
      assert BodyOk(st, st.bodies[s]);
    }
    hide BodyOk, RowOk;
    assert Settled(after, st.nextId);
    hide Settled;
    forall id | id in after.table && Untaken(after, id) ensures Settled(after, id) {
      if id != st.nextId {
        assert Untaken(st, id);
        SettledWithSameRecords(st, after, id);
      }
    }
    hide Untaken;
  }

  lemma DeleteKeeps(st: State, endpoint: nat)
    requires Inv(st)
    ensures Inv(Next(st, DeleteEndpoint(endpoint)))
  {
    hide Delay, W.RunnersOwn, W.In;
    var after := Next(st, DeleteEndpoint(endpoint));
    forall s | s in after.bodies ensures BodyOk(after, after.bodies[s]) {
      assert BodyOk(st, st.bodies[s]);
    }
    forall id | id in after.table && Untaken(after, id) ensures Settled(after, id) {
      assert Untaken(st, id);
      assert Settled(st, id);
    }
  }

  lemma AdvanceKeeps(st: State, seconds: nat)
    requires Inv(st)
    ensures Inv(Next(st, Advance(seconds)))
  {
    hide Delay, W.RunnersOwn, W.In;
    var after := Next(st, Advance(seconds));
    forall s | s in after.bodies ensures BodyOk(after, after.bodies[s]) {
      assert BodyOk(st, st.bodies[s]);
    }
    forall id | id in after.table && Untaken(after, id) ensures Settled(after, id) {
      assert Untaken(st, id);
      assert Settled(st, id);
    }
  }

  lemma LockKeeps(st: State, w: W.Event)
    requires Inv(st) && Enabled(st, Lock(w))
    ensures Inv(Next(st, Lock(w)))
  {
    LockKeepsBodies(st, w);
    hide BodiesRun;
    var moved := st.(worker := W.Next(st.worker, w));
    WorkerIrrelevant(st, moved.worker);
    if w.TryLock? && W.In(moved.worker, w.s, W.Running) && moved.worker.busy[w.s].loop == LOOP {
      NotRunning(st, w.s);
      UnfetchedKeeps(moved, w.s);
    } else if (w.Finish? || w.Crash?) && w.s in st.bodies {
      forall t | t in st.bodies ensures t == w.s { OneBody(st, w.s, t); }
      DropKeeps(moved, w.s);
    }
  }

  lemma NotRunning(st: State, s: Session)
    requires BodiesRun(st) && W.In(st.worker, s, W.CheckedOut)
    ensures s !in st.bodies
  {
  }

  lemma AbortKeeps(st: State, s: Session)
    requires Inv(st) && Enabled(st, Abort(s))
    ensures Inv(Next(st, Abort(s)))
  {
    AbortKeepsBodies(st, s);
    forall t | t in st.bodies ensures t == s { OneBody(st, s, t); }
    hide BodiesRun;
    DropKeeps(st, s);
    WorkerIrrelevant(DropBody(st, s), Next(st, Abort(s)).worker);
  }

  lemma StepKeeps(st: State, e: Event)
    requires Inv(st) && Enabled(st, e)
    ensures Inv(Next(st, e))
  {
    hide Inv, Next, Enabled;
    match e
    case Lock(w) => LockKeeps(st, w);
    case Fetch(s, rows) => FetchKeeps(st, s, rows);
    case Blocked(s) => BlockedKeeps(st, s);
    case Post(s) => PostKeeps(st, s);
    case Respond(s, code) => RespondKeeps(st, s, code);
    case NoResponse(s) => NoResponseKeeps(st, s);
    case Save(s) => SaveKeeps(st, s);
    case Abort(s) => AbortKeeps(st, s);
    case Emit(endpoint) => EmitKeeps(st, endpoint);
    case DeleteEndpoint(endpoint) => DeleteKeeps(st, endpoint);
    case Advance(seconds) => AdvanceKeeps(st, seconds);
  }

  lemma {:induction false} RunKeeps(st: State, es: seq<Event>)
    requires Inv(st) && RunFrom(st, es)
    ensures Inv(After(st, es))
    decreases |es|
  {
    hide Inv, Next, Enabled;
    if es != [] {
      StepKeeps(st, es[0]);
      RunKeeps(Next(st, es[0]), es[1..]);
    }
  }

  lemma InvAtStart()
    ensures Inv(INIT)
  {
  }

  // ----- What every run guarantees -----

  /**
   One webhook tick at a time; a delivery is due again until it is delivered or has made six attempts; requests
   bounded by attempts plus unrecorded requests.
   */
  lemma DeliverySafety(es: seq<Event>)
    requires RunFrom(INIT, es)
    ensures var st := After(INIT, es);
            && (forall s, t :: s in st.bodies && t in st.bodies ==> s == t)
            && (forall id :: Count(st.posts, id) <= 6 + Count(st.lost, id))
            && (forall id :: id in st.table ==>
                  && st.table[id].attempts <= 6
                  && (st.table[id].nextAt.None? <==> st.table[id].delivered || st.table[id].attempts == 6)
                  && (st.table[id].nextAt.Some? ==> st.table[id].nextAt.value <= st.now + 21600))
            && (forall id :: id in st.table && Untaken(st, id) ==>
                  && Count(st.posts, id) <= st.table[id].attempts + Count(st.lost, id)
                  && (id in st.ok2xx && id !in st.lost2xx ==> st.table[id].delivered))
  {
    InvAtStart();
    RunKeeps(INIT, es);
    var st := After(INIT, es);
    assert Inv(st);
    hide RunFrom, After, BodyOk;
    forall id | id in st.table && Untaken(st, id)
      ensures Count(st.posts, id) <= st.table[id].attempts + Count(st.lost, id)
      ensures id in st.ok2xx && id !in st.lost2xx ==> st.table[id].delivered
    {
      assert Settled(st, id);
    }
    hide Settled, Delay;
  }

  /**
   The next request of any run: never a seventh attempt, never sooner than the backoff unless the last request went
   unsaved, and after a 2xx exactly when a 2xx of this delivery went unsaved.
   */
  lemma NextRequest(es: seq<Event>, s: Session)
    requires RunFrom(INIT, es) && Enabled(After(INIT, es), Post(s))
    ensures var st := After(INIT, es);
            var row := HeadRow(st, s);
            && (row.id in st.ok2xx <==> row.id in st.lost2xx)
            && row.attempts < 6 && Count(st.posts, row.id) <= row.attempts + Count(st.lost, row.id)
            && (row.id in st.lastPost && row.id !in st.unsaved ==>
                  st.now >= st.lastPost[row.id] + [10, 60, 300, 1800, 7200, 21600][row.attempts])
            && (row.id in st.table ==> !st.table[row.id].delivered && st.table[row.id].attempts == row.attempts)
  {
    InvAtStart();
    RunKeeps(INIT, es);
    HeadOk(After(INIT, es), s);
  }

  /** In every run a saved outcome makes exactly one attempt of its delivery, and touches no other. */
  lemma SaveMakesAttempt(es: seq<Event>, s: Session)
    requires RunFrom(INIT, es) && Enabled(After(INIT, es), Save(s))
    ensures var st := After(INIT, es);
            var id, after := HeadRow(st, s).id, Next(st, Save(s)).table;
            && after.Keys == st.table.Keys
            && (id in st.table ==> AttemptMade(st.table[id], after[id], st.bodies[s].stage.status, st.now))
            && (forall other :: other in st.table && other != id ==> after[other] == st.table[other])
  {
    InvAtStart();
    RunKeeps(INIT, es);
    var st := After(INIT, es);
    HeadOk(st, s);
    hide AttemptMade, Saved, RunFrom, After;
    if HeadRow(st, s).id in st.table {
      SavedMakesAttempt(st.table, HeadRow(st, s), st.bodies[s].stage.status, st.now);
    } else {
      SavedOfDeleted(st.table, HeadRow(st, s), st.bodies[s].stage.status, st.now);
    }
  }

  lemma SavedOfDeleted(table: Table, row: Row, status: Option<int>, now: int)
    requires row.id !in table
    ensures Saved(table, row, status, now) == table
  {
  }

  /** No process dies and no tick is cut short by a failed query. */
  ghost predicate CrashFree(es: seq<Event>) {
    forall e :: e in es ==> !e.Abort? && !(e.Lock? && e.e.Crash?)
  }

  lemma {:induction false} CrashFreeLosesNothing(st: State, es: seq<Event>)
    requires RunFrom(st, es) && CrashFree(es) && st.lost == map[] && st.lost2xx == {}
    ensures After(st, es).lost == map[] && After(st, es).lost2xx == {}
    decreases |es|
  {
    if es != [] {
      var next := Next(st, es[0]);
      assert next.lost == map[] && next.lost2xx == {} by {
        assert es[0] in es;
        hide W.Next, W.In, W.Enabled, Saved, Delay;
      }
      assert forall e :: e in es[1..] ==> e in es;
      CrashFreeLosesNothing(next, es[1..]);
    }
  }

  /** In a crash-free run: at most `attempts` requests, at most six, and nothing after a 2xx. */
  lemma CrashFreeDelivery(es: seq<Event>)
    requires RunFrom(INIT, es) && CrashFree(es)
    ensures var st := After(INIT, es);
            && (forall id :: Count(st.posts, id) <= 6)
            && (forall id :: id in st.table && Untaken(st, id) ==>
                  Count(st.posts, id) <= st.table[id].attempts && (id in st.ok2xx ==> st.table[id].delivered))
            && (forall s :: Enabled(st, Post(s)) ==>
                  HeadRow(st, s).id !in st.ok2xx && Count(st.posts, HeadRow(st, s).id) <= HeadRow(st, s).attempts < 6)
  {
    CrashFreeLosesNothing(INIT, es);
    DeliverySafety(es);
    var st := After(INIT, es);
    forall s | Enabled(st, Post(s))
      ensures HeadRow(st, s).id !in st.ok2xx && Count(st.posts, HeadRow(st, s).id) <= HeadRow(st, s).attempts < MAX_ATTEMPTS
    {
      NextRequest(es, s);
    }
  }

  /** A 2xx whose update fails leaves the delivery due. */
  lemma LostRecordStaysDue(es: seq<Event>, s: Session)
    requires RunFrom(INIT, es) && AtRow(After(INIT, es), s) && Success(After(INIT, es).bodies[s].stage)
    ensures var st := After(INIT, es);
            var after := Next(st, Abort(s));
            && HeadRow(st, s).id in after.lost2xx
            && (HeadRow(st, s).id in st.table ==> DueAt(after.table, HeadRow(st, s).id, after.now))
  {
    InvAtStart();
    RunKeeps(INIT, es);
    var st := After(INIT, es);
    HeadOk(st, s);
    assert BodyOk(st, st.bodies[s]);
    hide W.Next, W.In, Delay;
  }

  /** One more step of a run. */
  lemma {:induction false} RunOn(st: State, es: seq<Event>, e: Event)
    requires RunFrom(st, es) && Enabled(After(st, es), e)
    ensures RunFrom(st, es + [e]) && After(st, es + [e]) == Next(After(st, es), e)
    decreases |es|
  {
    hide Enabled, Next;
    if es == [] {
      assert es + [e] == [e] && [e][1..] == [];
    } else {
      assert (es + [e])[1..] == es[1..] + [e];
      RunOn(Next(st, es[0]), es[1..], e);
    }
  }

  /** A tick takes its lock. */
  lemma StartTick(es: seq<Event>, s: Session) returns (more: seq<Event>)
    requires RunFrom(INIT, es) && s !in After(INIT, es).worker.busy && After(INIT, es).worker.locks == map[]
    ensures RunFrom(INIT, more)
    ensures var st := After(INIT, es);
            After(INIT, more) == st.(bodies := st.bodies[s := Unfetched],
              worker := W.State(st.worker.busy[s := W.Tick(LOOP, W.Running)], map[W.Key(LOOP) := W.Held(s, 1)],
                                st.worker.orphans))
  {
    hide W.Key, RunFrom, After;
    var out, lock := Lock(W.Checkout(s, LOOP)), Lock(W.TryLock(s));
    RunOn(INIT, es, out);
    more := es + [out];
    RunOn(INIT, more, lock);
    more := more + [lock];
  }

  /** The tick's first delivery is fetched, requested and answered 2xx, and then its update fails. */
  lemma AnswerAndAbort(es: seq<Event>, s: Session) returns (more: seq<Event>)
    requires RunFrom(INIT, es)
    requires var st := After(INIT, es);
             && s in st.bodies && st.bodies[s] == Unfetched && W.In(st.worker, s, W.Running)
             && st.table == map[0 := Delivery(0, 0, Some(0), false)] && st.now == 0
    ensures RunFrom(INIT, more)
    ensures var st, after := After(INIT, es), After(INIT, more);
            && after.worker == W.Next(st.worker, W.Finish(s)) && after.bodies == st.bodies - {s}
            && after.table == st.table && after.now == 0 && 0 in after.ok2xx
  {
    hide W.Next, RunFrom, After;
    var fetch, post, respond, abort := Fetch(s, [Row(0, 0)]), Post(s), Respond(s, 200), Abort(s);
    OnlyDue(After(INIT, es).table);
    RunOn(INIT, es, fetch);
    more := es + [fetch];
    RunOn(INIT, more, post);
    more := more + [post];
    RunOn(INIT, more, respond);
    more := more + [respond];
    RunOn(INIT, more, abort);
    more := more + [abort];
  }

  lemma OnlyDue(table: Table)
    requires table == map[0 := Delivery(0, 0, Some(0), false)]
    ensures Selects(table, 0, [Row(0, 0)])
  {
    var rows := [Row(0, 0)];
    assert rows[0].id == 0;
  }

  /** The session gives its lock back and returns to the pool. */
  lemma EndTick(es: seq<Event>, s: Session) returns (more: seq<Event>)
    requires RunFrom(INIT, es)
    requires After(INIT, es).worker == W.State(map[s := W.Tick(LOOP, W.Unlocking)], map[W.Key(LOOP) := W.Held(s, 1)], {})
    ensures RunFrom(INIT, more)
    ensures After(INIT, more) == After(INIT, es).(worker := W.INIT)
  {
    hide W.Key, RunFrom, After;
    var unlock, release := Lock(W.Unlock(s)), Lock(W.Release(s));
    RunOn(INIT, es, unlock);
    more := es + [unlock];
    RunOn(INIT, more, release);
    more := more + [release];
    assert map[s := W.Tick(LOOP, W.Unlocking)] - {s} == map[];
  }

  /** A run from the start in which a delivery already answered 2xx is requested again. */
  lemma RequestedAgain() returns (es: seq<Event>, s: Session)
    ensures RunFrom(INIT, es) && Enabled(After(INIT, es), Post(s))
    ensures HeadRow(After(INIT, es), s).id in After(INIT, es).ok2xx
  {
    hide W.Key, RunFrom, After;
    s := W.Session(0, 0);
    assert RunFrom(INIT, []) && After(INIT, []) == INIT by { EmptyRun(); }
    RunOn(INIT, [], Emit(0));
    es := StartTick([] + [Emit(0)], s);
    es := AnswerAndAbort(es, s);
    es := EndTick(es, s);
    es := StartTick(es, s);
    OnlyDue(After(INIT, es).table);
    RunOn(INIT, es, Fetch(s, [Row(0, 0)]));
    es := es + [Fetch(s, [Row(0, 0)])];
  }

  lemma EmptyRun()
    ensures RunFrom(INIT, []) && After(INIT, []) == INIT
  {
  }

  // ----- The tick as the code runs it -----

  /** The table after attempting `rows` in turn, each with its outcome and the time its update ran. */
  function SavedAll(table: Table, rows: seq<Row>, outcome: Id -> Option<int>, at: nat -> int): Table
    decreases |rows|
  {
    if rows == [] then table
    else
      var n := |rows| - 1;
      Saved(SavedAll(table, rows[..n], outcome, at), rows[n], outcome(rows[n].id), at(n))
  }

  /** Each selected delivery makes exactly one attempt; no other row changes. */
  lemma {:induction false} SavedAllAt(table: Table, rows: seq<Row>, outcome: Id -> Option<int>, at: nat -> int, id: Id)
    requires forall i, j :: 0 <= i < j < |rows| ==> rows[i].id != rows[j].id
    requires forall i :: 0 <= i < |rows| ==> rows[i].id in table && rows[i].attempts == table[rows[i].id].attempts
    ensures var after := SavedAll(table, rows, outcome, at);
            && after.Keys == table.Keys
            && (id in table && (forall i :: 0 <= i < |rows| ==> rows[i].id != id) ==> after[id] == table[id])
            && forall i :: 0 <= i < |rows| && rows[i].id == id ==> AttemptMade(table[id], after[id], outcome(id), at(i))
    decreases |rows|
  {
    hide AttemptMade, Saved;
    if rows != [] {
      var n := |rows| - 1;
      var front := rows[..n];
      assert forall i :: 0 <= i < n ==> front[i] == rows[i];
      SavedAllAt(table, front, outcome, at, id);
      SavedAllAt(table, front, outcome, at, rows[n].id);
      SavedMakesAttempt(SavedAll(table, front, outcome, at), rows[n], outcome(rows[n].id), at(n));
    }
  }

  function Successes(rows: seq<Row>, outcome: Id -> Option<int>): nat
    decreases |rows|
  {
    if rows == [] then 0
    else Successes(rows[..|rows| - 1], outcome) + (if Is2xx(outcome(rows[|rows| - 1].id)) then 1 else 0)
  }

  class WebhooksService {
    var table: Table

    /** The due rows, oldest first, at most fifty. */
    method SelectDue(now: int) returns (rows: seq<Row>)
      ensures Selects(table, now, rows)
    {
      hide Selects;
      var due := set id | id in table && DueAt(table, id, now);
      rows := [];
      while due != {} && |rows| < BATCH
        invariant |rows| <= BATCH
        invariant due <= table.Keys
        invariant forall id :: id in due ==> DueAt(table, id, now)
        invariant forall i :: 0 <= i < |rows| ==>
          DueAt(table, rows[i].id, now) && rows[i].attempts == table[rows[i].id].attempts && rows[i].id !in due
        invariant forall i, j :: 0 <= i < j < |rows| ==>
          rows[i].id != rows[j].id && When(table, rows[i].id) <= When(table, rows[j].id)
        invariant forall id :: DueAt(table, id, now) && (forall i :: 0 <= i < |rows| ==> rows[i].id != id) ==> id in due
        invariant forall i, id :: 0 <= i < |rows| && id in due ==> When(table, rows[i].id) <= When(table, id)
        decreases |due|
      {
        var first := Earliest(table, due);
        ghost var was := rows;
        rows := rows + [Row(first, table[first].attempts)];
        due := due - {first};
        forall id | DueAt(table, id, now) && (forall i :: 0 <= i < |rows| ==> rows[i].id != id) ensures id in due {
          assert rows[|was|].id != id;
          forall i | 0 <= i < |was| ensures was[i].id != id { assert rows[i] == was[i]; }
        }
      }
      DueRowsSelected(table, now, rows);
    }

    static method Earliest(table: Table, due: set<Id>) returns (first: Id)
      requires due != {}
      ensures first in due && forall id :: id in due ==> When(table, first) <= When(table, id)
    {
      first :| first in due;
      var rest := due - {first};
      while rest != {}
        invariant rest <= due && first in due
        invariant forall id :: id in due && id !in rest ==> When(table, first) <= When(table, id)
        decreases |rest|
      {
        var id :| id in rest;
        if When(table, id) < When(table, first) { first := id; }
        rest := rest - {id};
      }
    }

    /** One tick without concurrent changes: every selected delivery makes one attempt, and no other row changes. */
    method RunTick(now: int, outcome: Id -> Option<int>, at: nat -> int) returns (rows: seq<Row>, delivered: nat, failed: nat)
      modifies this
      ensures Selects(old(table), now, rows)
      ensures table.Keys == old(table).Keys
      ensures forall i :: 0 <= i < |rows| ==>
        AttemptMade(old(table)[rows[i].id], table[rows[i].id], outcome(rows[i].id), at(i))
      ensures forall id :: id in table && (forall i :: 0 <= i < |rows| ==> rows[i].id != id) ==> table[id] == old(table)[id]
      ensures delivered + failed == |rows|
      ensures delivered == Successes(rows, outcome)
    {
      hide Saved, Delay, DueAt, Is2xx, AttemptMade;
      rows := SelectDue(now);
      delivered, failed := 0, 0;
      for n := 0 to |rows|
        invariant table == SavedAll(old(table), rows[..n], outcome, at)
        invariant delivered + failed == n
        invariant delivered == Successes(rows[..n], outcome)
      {
        assert rows[..n + 1][..n] == rows[..n];
        var status := outcome(rows[n].id);
        table := Saved(table, rows[n], status, at(n));
        if Is2xx(status) {
          delivered := delivered + 1;
        } else {
          failed := failed + 1;
        }
      }
      assert rows[..|rows|] == rows;
      forall id ensures table.Keys == old(table).Keys
        ensures id in table && (forall i :: 0 <= i < |rows| ==> rows[i].id != id) ==> table[id] == old(table)[id]
        ensures forall i :: 0 <= i < |rows| && rows[i].id == id ==> AttemptMade(old(table)[id], table[id], outcome(id), at(i))
      {
        SavedAllAt(old(table), rows, outcome, at, id);
      }
    }
  }
}
