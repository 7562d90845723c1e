/**
 SCIM provisioning (apps/api/src/scim/scim.service.ts): user and group operations
 over the tables of migration 0011, with org roles derived from group membership.
 A database transaction is one step; a constraint violation rolls it back.
 */
module Scim {
  import opened Text
  import opened GroupRoles
  import opened ScimRequests

  type Org = string
  type User = string
  type Sid = string
  type Gid = string

  datatype UserRow = UserRow(org: Org, user: User, userName: string, externalId: Option<string>, active: bool)
  datatype GroupRow = GroupRow(org: Org, name: string, externalId: Option<string>)
  datatype Config = Config(roleMap: RoleMap, defaultRole: Role)

  datatype Tables = Tables(
    accounts: map<string, User>,
    users: map<Sid, UserRow>,
    groups: map<Gid, GroupRow>,
    members: set<(Gid, Sid)>,
    roles: map<(Org, User), Role>)

  datatype Error = NotFound | Conflict

  // ----- What the tables say -----

  /** Foreign keys, UNIQUE (org_id, user_id), and members of a group's own org. */
  ghost predicate Consistent(db: Tables) {
    && (forall m :: m in db.members ==>
          m.0 in db.groups && m.1 in db.users && db.groups[m.0].org == db.users[m.1].org)
    && (forall s, t :: s in db.users && t in db.users && s != t ==>
          db.users[s].org != db.users[t].org || db.users[s].user != db.users[t].user)
  }

  ghost predicate InGroup(db: Tables, org: Org, user: User, g: Gid, s: Sid) {
    (g, s) in db.members && g in db.groups && s in db.users && db.users[s].org == org && db.users[s].user == user
  }

  /** The current display names of all the groups a user of an org is in. */
  ghost function GroupNames(db: Tables, org: Org, user: User): iset<string> {
    iset g, s | InGroup(db, org, user, g, s) :: db.groups[g].name
  }

  ghost predicate RoleRight(db: Tables, configs: map<Org, Config>, org: Org, user: User) {
    (org, user) in db.roles && org in configs &&
    IsRole(GroupNames(db, org, user), configs[org].roleMap, configs[org].defaultRole, db.roles[(org, user)])
  }

  /** Every user with a group has the derived role, except the touched ones of one org. */
  ghost predicate DerivedExcept(db: Tables, configs: map<Org, Config>, org: Org, touched: set<User>) {
    forall o, u, g, s :: InGroup(db, o, u, g, s) && !(o == org && u in touched) ==> RoleRight(db, configs, o, u)
  }

  /** The invariant: every user with at least one group has exactly the derived role. */
  ghost predicate Derived(db: Tables, configs: map<Org, Config>) {
    forall o, u, g, s :: InGroup(db, o, u, g, s) ==> RoleRight(db, configs, o, u)
  }

  // ----- What each statement does -----

  /** The listed ids that name SCIM users of the org. */
  function Resolved(db: Tables, org: Org, ids: seq<string>): set<Sid> {
    set s | s in RowIds(ids) && s in db.users && db.users[s].org == org
  }

  function Pairs(g: Gid, sids: set<Sid>): set<(Gid, Sid)> {
    set s | s in sids :: (g, s)
  }

  function UsersOf(db: Tables, sids: set<Sid>): set<User> {
    set s | s in sids && s in db.users :: db.users[s].user
  }

  function MemberSids(db: Tables, g: Gid): set<Sid> {
    set m | m in db.members && m.0 == g :: m.1
  }

  /** memberUserIds */
  function MemberUsers(db: Tables, g: Gid): set<User> {
    UsersOf(db, MemberSids(db, g))
  }

  function Added(db: Tables, org: Org, g: Gid, ids: seq<string>): Tables {
    db.(members := db.members + Pairs(g, Resolved(db, org, ids)))
  }

  function Removed(db: Tables, g: Gid, ids: seq<string>): Tables {
    db.(members := db.members - Pairs(g, RowIds(ids)))
  }

  function Cleared(db: Tables, g: Gid): Tables {
    db.(members := set m | m in db.members && m.0 != g)
  }

  function Replaced(db: Tables, org: Org, g: Gid, ids: seq<string>): Tables {
    Added(Cleared(db, g), org, g, ids)
  }

  /** A rename, unless another group of the org has that name up to case. */
  function Renamed(db: Tables, org: Org, g: Gid, name: string, externalId: Option<string>): Option<Tables> {
    if exists h :: h in db.groups && h != g && db.groups[h].org == org && ToLower(db.groups[h].name) == ToLower(name)
    then None
    else Some(db.(groups := db.groups[g := GroupRow(org, name, externalId)]))
  }

  /** One PATCH operation on the membership tables; None for a constraint violation. */
  function Patched(db: Tables, org: Org, g: Gid, op: GroupOp): Option<Tables>
    requires g in db.groups
  {
    match op
    case AddMembers(ids) => Some(Added(db, org, g, ids))
    case RemoveMembers(ids) => Some(Removed(db, g, ids))
    case ReplaceMembers(ids) => Some(Replaced(db, org, g, ids))
    case Rename(name) => Renamed(db, org, g, name, db.groups[g].externalId)
    case Nothing => Some(db)
  }

  /** The users whose role one operation may change. */
  function TouchedBy(db: Tables, org: Org, g: Gid, op: GroupOp): set<User> {
    match op
    case AddMembers(ids) => UsersOf(db, Resolved(db, org, ids))
    case RemoveMembers(ids) => UsersOf(db, Resolved(db, org, ids))
    case ReplaceMembers(ids) => MemberUsers(db, g) + UsersOf(db, Resolved(db, org, ids))
    case Rename(_) => MemberUsers(db, g)
    case Nothing => {}
  }

  // ----- Frame: only touched users' group names change -----

  /** Outside the touched users of one org, nothing a role depends on has changed. */
  ghost predicate SameOutside(db: Tables, next: Tables, org: Org, touched: set<User>) {
    && next.roles == db.roles
    && forall o, u, g, s :: !(o == org && u in touched) ==>
         (InGroup(next, o, u, g, s) <==> InGroup(db, o, u, g, s)) &&
         (InGroup(db, o, u, g, s) ==> next.groups[g].name == db.groups[g].name)
  }

  lemma StillDerived(db: Tables, next: Tables, configs: map<Org, Config>, org: Org, before: set<User>, touched: set<User>)
    requires DerivedExcept(db, configs, org, before) && SameOutside(db, next, org, touched) && before <= touched
    ensures DerivedExcept(next, configs, org, touched)
  {
  }

  lemma AddFrame(db: Tables, org: Org, g: Gid, ids: seq<string>)
    requires Consistent(db) && g in db.groups && db.groups[g].org == org
    ensures var next := Added(db, org, g, ids);
            Consistent(next) && SameOutside(db, next, org, UsersOf(db, Resolved(db, org, ids)))
  {
  }

  lemma RemoveFrame(db: Tables, org: Org, g: Gid, ids: seq<string>)
    requires Consistent(db) && g in db.groups && db.groups[g].org == org
    ensures var next := Removed(db, g, ids);
            Consistent(next) && SameOutside(db, next, org, UsersOf(db, Resolved(db, org, ids)))
  {
  }

  lemma ClearFrame(db: Tables, org: Org, g: Gid)
    requires Consistent(db) && g in db.groups && db.groups[g].org == org
    ensures Consistent(Cleared(db, g)) && SameOutside(db, Cleared(db, g), org, MemberUsers(db, g))
  {
  }

  lemma RenameFrame(db: Tables, org: Org, g: Gid, name: string, externalId: Option<string>)
    requires Consistent(db) && g in db.groups && db.groups[g].org == org
    requires Renamed(db, org, g, name, externalId).Some?
    ensures var next := Renamed(db, org, g, name, externalId).value;
            Consistent(next) && SameOutside(db, next, org, MemberUsers(db, g))
  {
  }

  lemma SameOutsideTwice(a: Tables, b: Tables, c: Tables, org: Org, s: set<User>, t: set<User>)
    requires SameOutside(a, b, org, s) && SameOutside(b, c, org, t)
    ensures SameOutside(a, c, org, s + t)
  {
  }

  /** Every PATCH operation changes the group names of its touched users only. */
  lemma PatchFrame(db: Tables, org: Org, g: Gid, op: GroupOp)
    requires Consistent(db) && g in db.groups && db.groups[g].org == org && Patched(db, org, g, op).Some?
    ensures var next := Patched(db, org, g, op).value;
            && Consistent(next) && g in next.groups && next.groups[g].org == org
            && next.users == db.users && next.accounts == db.accounts
            && SameOutside(db, next, org, TouchedBy(db, org, g, op))
  {
    hide SameOutside, Consistent;
    match op
    case AddMembers(ids) => AddFrame(db, org, g, ids);
    case RemoveMembers(ids) => RemoveFrame(db, org, g, ids);
    case ReplaceMembers(ids) =>
      ClearFrame(db, org, g);
      AddFrame(Cleared(db, g), org, g, ids);
      assert Resolved(Cleared(db, g), org, ids) == Resolved(db, org, ids);
      SameOutsideTwice(db, Cleared(db, g), Replaced(db, org, g, ids), org, MemberUsers(db, g),
                       UsersOf(db, Resolved(db, org, ids)));
    case Rename(name) => RenameFrame(db, org, g, name, db.groups[g].externalId);
    case Nothing => Unchanged(db, org);
  }

  lemma Unchanged(db: Tables, org: Org)
    ensures SameOutside(db, db, org, {})
  {
  }

  // ----- What a PATCH operation says -----

  /** The request value lists this SCIM user row. */
  ghost predicate ListsRow(value: Option<Json>, s: Sid) {
    exists v :: Lists(value, v) && IsUuid(v) && ToLower(v) == s
  }

  predicate IsOrgUser(db: Tables, org: Org, s: Sid) {
    s in db.users && db.users[s].org == org
  }

  function PathOf(op: PatchOp): string {
    if op.path.Some? then op.path.value else ""
  }

  /** The row a "remove" takes out: the one its path filters for, otherwise those its value lists. */
  ghost predicate RemovesRow(op: PatchOp, s: Sid) {
    var target := MemberFromPath(PathOf(op));
    if target.Some? then IsUuid(target.value) && ToLower(target.value) == s else ListsRow(op.value, s)
  }

  /** The operation gives the group this name: at path "displayName", or in an object without a path. */
  predicate GivesName(op: PatchOp, name: string) {
    || (ToLower(PathOf(op)) == "displayname" && op.value == Some(Str(name)))
    || (PathOf(op) == "" && op.value.Some? && op.value.value.Obj? && "displayName" in op.value.value.fields
        && op.value.value.fields["displayName"] == Str(name))
  }

  /** Another group of the org already has the name it gives, up to case. */
  ghost predicate NameTaken(db: Tables, org: Org, g: Gid, op: PatchOp) {
    exists name, h :: GivesName(op, name) && h in db.groups && h != g && db.groups[h].org == org
                      && ToLower(db.groups[h].name) == ToLower(name)
  }

  /** One operation: "add", "remove" or "replace" of members, in any case, a new name, or nothing. */
  ghost predicate OperationDone(db: Tables, next: Tables, org: Org, g: Gid, op: PatchOp)
    requires g in db.groups
  {
    var name := ToLower(op.op);
    && next == db.(members := next.members, groups := next.groups)
    && if "members" <= ToLower(PathOf(op)) then
         && next.groups == db.groups
         && forall h: Gid, s: Sid :: (h, s) in next.members <==>
              if h == g && name == "add" then (h, s) in db.members || (ListsRow(op.value, s) && IsOrgUser(db, org, s))
              else if h == g && name == "remove" then (h, s) in db.members && !RemovesRow(op, s)
              else if h == g && name == "replace" then ListsRow(op.value, s) && IsOrgUser(db, org, s)
              else (h, s) in db.members
       else
         && next.members == db.members
         && next.groups.Keys == db.groups.Keys && (forall h :: h in db.groups && h != g ==> next.groups[h] == db.groups[h])
         && (forall t :: GivesName(op, t) ==> next.groups[g] == db.groups[g].(name := t))
         && ((forall t :: !GivesName(op, t)) ==> next.groups[g] == db.groups[g])
  }

  ghost predicate IsMemberUser(db: Tables, g: Gid, u: User) {
    exists s: Sid :: (g, s) in db.members && s in db.users && db.users[s].user == u
  }

  /** The operation has this user's role recomputed. */
  ghost predicate Touches(db: Tables, org: Org, g: Gid, op: PatchOp, u: User) {
    var name := ToLower(op.op);
    if "members" <= ToLower(PathOf(op)) then
      || ((name == "add" || name == "replace")
          && exists s :: ListsRow(op.value, s) && IsOrgUser(db, org, s) && db.users[s].user == u)
      || (name == "remove" && exists s :: RemovesRow(op, s) && IsOrgUser(db, org, s) && db.users[s].user == u)
      || (name == "replace" && IsMemberUser(db, g, u))
    else (exists t :: GivesName(op, t)) && IsMemberUser(db, g, u)
  }

  lemma MemberUsersAre(db: Tables, g: Gid, u: User)
    ensures u in MemberUsers(db, g) <==> IsMemberUser(db, g, u)
  {
    if IsMemberUser(db, g, u) {
      var s: Sid :| (g, s) in db.members && s in db.users && db.users[s].user == u;
      assert (g, s).1 == s;
    }
  }

  lemma TouchesIff(db: Tables, org: Org, g: Gid, op: PatchOp, u: User)
    ensures u in TouchedBy(db, org, g, Decode(op)) <==> Touches(db, org, g, op, u)
  {
    hide ListsRow, IsUuid, MemberValues, MemberFromPath, ToLower, GivesName, MemberUsers, IsMemberUser, RowIds;
    MemberUsersAre(db, g, u);
    forall s ensures s in RowIds(MemberValues(op.value)) <==> ListsRow(op.value, s) {
      RowsAreListed(op.value, s);
    }
    if "members" <= ToLower(PathOf(op)) {
      if MemberFromPath(PathOf(op)).Some? {
        OneRow(MemberFromPath(PathOf(op)).value);
      }
    } else {
      forall t ensures GivesName(op, t) <==> Decode(op) == Rename(t) { NameDecoded(op, t); }
    }
  }

  ghost predicate StepAt(steps: seq<Tables>, ops: seq<PatchOp>, org: Org, g: Gid, i: nat)
    requires i + 1 < |steps| && i < |ops|
  {
    g in steps[i].groups && OperationDone(steps[i], steps[i + 1], org, g, ops[i])
  }

  /** Each of these tables is the one before it after one more operation. */
  ghost predicate Traced(steps: seq<Tables>, ops: seq<PatchOp>, org: Org, g: Gid) {
    0 < |steps| <= |ops| + 1 && forall i :: 0 <= i < |steps| - 1 ==> StepAt(steps, ops, org, g, i)
  }

  /** Some operation so far has this user's role recomputed. */
  ghost predicate TouchedIn(steps: seq<Tables>, ops: seq<PatchOp>, org: Org, g: Gid, n: nat, u: User)
    requires n <= |steps| && n <= |ops|
  {
    exists i :: 0 <= i < n && Touches(steps[i], org, g, ops[i], u)
  }

  lemma TouchedOneMore(steps: seq<Tables>, ops: seq<PatchOp>, org: Org, g: Gid, next: Tables, touched: set<User>)
    requires 0 < |steps| <= |ops|
    requires forall u :: u in touched <==> TouchedIn(steps, ops, org, g, |steps| - 1, u)
    ensures var n := |steps|;
            forall u :: u in touched + TouchedBy(steps[n - 1], org, g, Decode(ops[n - 1])) <==>
                        TouchedIn(steps + [next], ops, org, g, n, u)
  {
    hide Touches, TouchedBy, Decode;
    var n, more := |steps|, steps + [next];
    forall u ensures u in touched + TouchedBy(steps[n - 1], org, g, Decode(ops[n - 1])) <==> TouchedIn(more, ops, org, g, n, u) {
      TouchesIff(steps[n - 1], org, g, ops[n - 1], u);
      assert more[n - 1] == steps[n - 1];
      if u in touched {
        var i :| 0 <= i < n - 1 && Touches(steps[i], org, g, ops[i], u);
        assert more[i] == steps[i];
      }
      if TouchedIn(more, ops, org, g, n, u) {
        var i :| 0 <= i < n && Touches(more[i], org, g, ops[i], u);
        assert more[i] == steps[i];
        if i < n - 1 { assert TouchedIn(steps, ops, org, g, n - 1, u); }
      }
    }
  }

  lemma TraceOneMore(steps: seq<Tables>, ops: seq<PatchOp>, org: Org, g: Gid, next: Tables)
    requires Traced(steps, ops, org, g) && |steps| <= |ops| && g in steps[|steps| - 1].groups
    requires OperationDone(steps[|steps| - 1], next, org, g, ops[|steps| - 1])
    ensures Traced(steps + [next], ops, org, g)
  {
    hide OperationDone;
    forall i | 0 <= i < |steps| ensures StepAt(steps + [next], ops, org, g, i) {
      assert i < |steps| - 1 ==> StepAt(steps, ops, org, g, i);
    }
  }

  /** The decoded ids are the listed rows. */
  lemma RowsAreListed(value: Option<Json>, s: Sid)
    ensures s in RowIds(MemberValues(value)) <==> ListsRow(value, s)
  {
    hide MemberValues, Lists, IsUuid;
    if s in RowIds(MemberValues(value)) {
      var v :| v in MemberValues(value) && IsUuid(v) && RowId(v) == s;
      MemberValuesAreListed(value, v);
    }
    if ListsRow(value, s) {
      var v :| Lists(value, v) && IsUuid(v) && ToLower(v) == s;
      MemberValuesAreListed(value, v);
    }
  }

  lemma MemberOperationMeans(db: Tables, org: Org, g: Gid, op: PatchOp)
    requires g in db.groups && "members" <= ToLower(PathOf(op))
    ensures var next := Patched(db, org, g, Decode(op));
            next.Some? && OperationDone(db, next.value, org, g, op)
  {
    hide ListsRow, IsUuid, MemberValues, MemberFromPath, ToLower;
    forall s ensures s in RowIds(MemberValues(op.value)) <==> ListsRow(op.value, s) {
      RowsAreListed(op.value, s);
    }
    if MemberFromPath(PathOf(op)).Some? {
      OneRow(MemberFromPath(PathOf(op)).value);
    }
  }

  lemma OneRow(v: string)
    ensures RowIds([v]) == if IsUuid(v) then {ToLower(v)} else {}
  {
    hide IsUuid, ToLower;
    assert v in [v];
  }

  lemma NameDecoded(op: PatchOp, t: string)
    requires !("members" <= ToLower(PathOf(op)))
    ensures GivesName(op, t) <==> Decode(op) == Rename(t)
    ensures Decode(op).Rename? || Decode(op).Nothing?
  {
    hide MemberValues, MemberFromPath;
  }

  lemma OtherOperationMeans(db: Tables, org: Org, g: Gid, op: PatchOp)
    requires g in db.groups && db.groups[g].org == org && !("members" <= ToLower(PathOf(op)))
    ensures var next := Patched(db, org, g, Decode(op));
            && (next.None? <==> NameTaken(db, org, g, op))
            && (next.Some? ==> OperationDone(db, next.value, org, g, op))
  {
    hide MemberValues, MemberFromPath;
    forall t ensures GivesName(op, t) <==> Decode(op) == Rename(t) { NameDecoded(op, t); }
    hide Decode, GivesName;
  }

  /** What one operation does to the tables, or the name that stops it. */
  lemma OperationMeans(db: Tables, org: Org, g: Gid, op: PatchOp)
    requires g in db.groups && db.groups[g].org == org
    ensures var next := Patched(db, org, g, Decode(op));
            && (next.None? <==> !("members" <= ToLower(PathOf(op))) && NameTaken(db, org, g, op))
            && (next.Some? ==> OperationDone(db, next.value, org, g, op))
  {
    hide *;
    if "members" <= ToLower(PathOf(op)) {
      MemberOperationMeans(db, org, g, op);
    } else {
      OtherOperationMeans(db, org, g, op);
    }
  }

  // ----- A whole PATCH -----

  datatype Patching = Patching(db: Tables, touched: set<User>)

  /** The first `n` operations in order, with the users they touch; None once a constraint is violated. */
  function PatchFirst(db: Tables, org: Org, g: Gid, ops: seq<PatchOp>, n: nat): Option<Patching>
    requires n <= |ops|
  {
    if n == 0 then Some(Patching(db, {}))
    else
      var p := PatchFirst(db, org, g, ops, n - 1);
      if p.None? || g !in p.value.db.groups then None
      else
        var op := Decode(ops[n - 1]);
        var next := Patched(p.value.db, org, g, op);
        if next.None? then None
        else Some(Patching(next.value, p.value.touched + TouchedBy(p.value.db, org, g, op)))
  }

  lemma {:induction false} PatchFirstFrame(db: Tables, configs: map<Org, Config>, org: Org, g: Gid, ops: seq<PatchOp>,
                                           n: nat)
    requires n <= |ops| && Consistent(db) && g in db.groups && db.groups[g].org == org && Derived(db, configs)
    ensures var p := PatchFirst(db, org, g, ops, n);
            p.Some? ==>
              && Consistent(p.value.db) && g in p.value.db.groups && p.value.db.groups[g].org == org
              && p.value.db.users == db.users && p.value.db.accounts == db.accounts && p.value.db.roles == db.roles
              && DerivedExcept(p.value.db, configs, org, p.value.touched)
              && SameOutside(db, p.value.db, org, p.value.touched)
  {
    hide Patched, TouchedBy, Decode, InGroup, RoleRight, SameOutside;
    Unchanged(db, org);
    if n > 0 && PatchFirst(db, org, g, ops, n).Some? {
      PatchFirstFrame(db, configs, org, g, ops, n - 1);
      var p := PatchFirst(db, org, g, ops, n - 1).value;
      var op := Decode(ops[n - 1]);
      PatchFrame(p.db, org, g, op);
      var next, t := Patched(p.db, org, g, op).value, TouchedBy(p.db, org, g, op);
      SameOutsideTwice(db, p.db, next, org, p.touched, t);
      Widen(p.db, next, org, t, p.touched + t);
      StillDerived(p.db, next, configs, org, p.touched, p.touched + t);
    }
  }

  lemma Widen(db: Tables, next: Tables, org: Org, s: set<User>, t: set<User>)
    requires SameOutside(db, next, org, s) && s <= t
    ensures SameOutside(db, next, org, t)
  {
  }

  // ----- Recomputing roles -----

  /** Only roles of the listed users of the org may differ. */
  ghost predicate OnlyRoles(db: Tables, next: Tables, org: Org, touched: set<User>) {
    && next == db.(roles := next.roles)
    && (forall k :: k in db.roles ==> k in next.roles)
    && (forall k :: k in next.roles && !(k.0 == org && k.1 in touched) ==> k in db.roles && next.roles[k] == db.roles[k])
  }

  /** Setting a user's role to the derived one settles that user. */
  lemma RoleSet(db: Tables, configs: map<Org, Config>, org: Org, touched: set<User>, u: User, role: Role)
    requires DerivedExcept(db, configs, org, touched) && org in configs
    requires IsRole(GroupNames(db, org, u), configs[org].roleMap, configs[org].defaultRole, role)
    ensures DerivedExcept(db.(roles := db.roles[(org, u) := role]), configs, org, touched - {u})
  {
    hide IsRole;
    var next := db.(roles := db.roles[(org, u) := role]);
    forall o, v, g, s | InGroup(next, o, v, g, s) && !(o == org && v in touched - {u})
      ensures RoleRight(next, configs, o, v)
    {
      assert InGroup(db, o, v, g, s);
      NamesIgnoreRoles(db, next.roles, o, v);
      NamesIgnoreRoles(db, next.roles, org, u);
    }
  }

  lemma RoleStaysRight(db: Tables, configs: map<Org, Config>, org: Org, u: User, v: User, role: Role)
    requires org in configs
    requires IsRole(GroupNames(db, org, v), configs[org].roleMap, configs[org].defaultRole, role)
    requires u == v || RoleRight(db, configs, org, u)
    ensures RoleRight(db.(roles := db.roles[(org, v) := role]), configs, org, u)
  {
    hide IsRole, GroupNames;
    NamesIgnoreRoles(db, db.roles[(org, v) := role], org, u);
  }

  lemma NamesIgnoreRoles(db: Tables, roles: map<(Org, User), Role>, org: Org, user: User)
    ensures GroupNames(db.(roles := roles), org, user) == GroupNames(db, org, user)
  {
    var next := db.(roles := roles);
    forall g, s ensures InGroup(next, org, user, g, s) == InGroup(db, org, user, g, s) {
    }
    forall n ensures n in GroupNames(next, org, user) <==> n in GroupNames(db, org, user) {
      if n in GroupNames(next, org, user) {
        var g, s :| InGroup(next, org, user, g, s) && next.groups[g].name == n;
        assert InGroup(db, org, user, g, s);
      }
      if n in GroupNames(db, org, user) {
        var g, s :| InGroup(db, org, user, g, s) && db.groups[g].name == n;
        assert InGroup(next, org, user, g, s);
      }
    }
  }

  /** Everyone of the org whose groups or their names changed has the role these now give. */
  ghost predicate RegroupedRight(before: Tables, after: Tables, configs: map<Org, Config>, org: Org) {
    forall u :: GroupNames(after, org, u) != GroupNames(before, org, u) ==> RoleRight(after, configs, org, u)
  }

  lemma Regrouped(before: Tables, next: Tables, after: Tables, configs: map<Org, Config>, org: Org, touched: set<User>)
    requires SameOutside(before, next, org, touched) && OnlyRoles(next, after, org, touched)
    requires forall u :: u in touched ==> RoleRight(after, configs, org, u)
    ensures RegroupedRight(before, after, configs, org)
  {
    hide RoleRight;
    forall u | u !in touched ensures GroupNames(after, org, u) == GroupNames(before, org, u) {
      NamesIgnoreRoles(next, after.roles, org, u);
      NamesOutside(before, next, org, touched, u);
    }
  }

  lemma NamesOutside(db: Tables, next: Tables, org: Org, touched: set<User>, u: User)
    requires SameOutside(db, next, org, touched) && u !in touched
    ensures GroupNames(next, org, u) == GroupNames(db, org, u)
  {
    forall n ensures n in GroupNames(next, org, u) <==> n in GroupNames(db, org, u) {
      if n in GroupNames(next, org, u) {
        var g, s :| InGroup(next, org, u, g, s) && next.groups[g].name == n;
        assert InGroup(db, org, u, g, s);
      }
      if n in GroupNames(db, org, u) {
        var g, s :| InGroup(db, org, u, g, s) && db.groups[g].name == n;
        assert InGroup(next, org, u, g, s);
      }
    }
  }

  // ----- Creating and deleting -----

  /** The tables with a new, empty group; None if the name is taken up to case. */
  function WithGroup(db: Tables, g: Gid, row: GroupRow): Option<Tables> {
    if exists h :: h in db.groups && db.groups[h].org == row.org && ToLower(db.groups[h].name) == ToLower(row.name)
    then None
    else Some(db.(groups := db.groups[g := row]))
  }

  lemma WithGroupFrame(db: Tables, g: Gid, row: GroupRow)
    requires Consistent(db) && g !in db.groups && WithGroup(db, g, row).Some?
    ensures var next := WithGroup(db, g, row).value;
            && Consistent(next) && SameOutside(db, next, row.org, {})
            && MemberUsers(next, g) == {} && Cleared(next, g) == next
  {
  }

  /** A deleted group takes its memberships with it. */
  function WithoutGroup(db: Tables, g: Gid): Tables {
    Cleared(db, g).(groups := db.groups - {g})
  }

  lemma WithoutGroupFrame(db: Tables, org: Org, g: Gid)
    requires Consistent(db) && g in db.groups && db.groups[g].org == org
    ensures Consistent(WithoutGroup(db, g)) && SameOutside(db, WithoutGroup(db, g), org, MemberUsers(db, g))
  {
  }

  /** A deleted SCIM user takes its memberships with it; the org role stays as it was. */
  function WithoutUser(db: Tables, s: Sid): Tables {
    db.(users := db.users - {s}, members := set m | m in db.members && m.1 != s)
  }

  lemma WithoutUserDerived(db: Tables, configs: map<Org, Config>, s: Sid)
    requires Consistent(db) && Derived(db, configs) && s in db.users
    ensures Consistent(WithoutUser(db, s)) && Derived(WithoutUser(db, s), configs)
  {
    hide IsRole, GroupNames, RoleRight;
    var next, row := WithoutUser(db, s), db.users[s];
    assert SameOutside(db, next, row.org, {row.user});
    StillDerived(db, next, configs, row.org, {}, {row.user});
    assert forall g, t :: !InGroup(next, row.org, row.user, g, t);
  }

  /** The tables with a new SCIM user, a member of the org at least at the default role; None if taken. */
  function WithUser(db: Tables, s: Sid, row: UserRow, defaultRole: Role): Option<Tables> {
    if exists t :: t in db.users && db.users[t].org == row.org && db.users[t].user == row.user then None
    else
      var k := (row.org, row.user);
      Some(db.(users := db.users[s := row], roles := if k in db.roles then db.roles else db.roles[k := defaultRole]))
  }

  lemma WithUserDerived(db: Tables, configs: map<Org, Config>, s: Sid, row: UserRow, defaultRole: Role)
    requires Consistent(db) && Derived(db, configs) && s !in db.users
    requires WithUser(db, s, row, defaultRole).Some?
    ensures var next := WithUser(db, s, row, defaultRole).value; Consistent(next) && Derived(next, configs)
  {
    hide IsRole;
    var next := WithUser(db, s, row, defaultRole).value;
    forall o, u, g, t | InGroup(next, o, u, g, t) ensures RoleRight(next, configs, o, u) {
      assert (g, t) in db.members && t != s;
      assert InGroup(db, o, u, g, t);
      SameNamesFor(db, next, o, u);
    }
  }

  /** Equal memberships and group rows give equal names. */
  lemma SameNamesFor(db: Tables, next: Tables, o: Org, u: User)
    requires next.groups == db.groups && forall g, s :: InGroup(next, o, u, g, s) <==> InGroup(db, o, u, g, s)
    ensures GroupNames(next, o, u) == GroupNames(db, o, u)
  {
  }

  /** A new user name, external id and active flag: nothing a role depends on. */
  function WithProfile(db: Tables, s: Sid, userName: string, externalId: Option<string>, active: bool): Option<Tables>
    requires s in db.users
  {
    var row := db.users[s];
    if exists t :: t in db.users && t != s && db.users[t].org == row.org
                   && ToLower(db.users[t].userName) == ToLower(userName)
    then None
    else Some(db.(users := db.users[s := row.(userName := userName, externalId := externalId, active := active)]))
  }

  lemma WithProfileDerived(db: Tables, configs: map<Org, Config>, s: Sid, userName: string, externalId: Option<string>,
                           active: bool)
    requires Consistent(db) && Derived(db, configs) && s in db.users
    requires WithProfile(db, s, userName, externalId, active).Some?
    ensures var next := WithProfile(db, s, userName, externalId, active).value;
            Consistent(next) && Derived(next, configs)
  {
    hide IsRole;
    var next := WithProfile(db, s, userName, externalId, active).value;
    forall o, u, g, t | InGroup(next, o, u, g, t) ensures RoleRight(next, configs, o, u) {
      assert InGroup(db, o, u, g, t);
      SameNamesFor(db, next, o, u);
    }
  }

  /** The optional rename of replaceGroup. */
  function Relabelled(db: Tables, org: Org, g: Gid, displayName: Option<string>, externalId: Option<string>): Option<Tables>
    requires g in db.groups
  {
    if displayName.None? || displayName.value == "" then Some(db)
    else Renamed(db, org, g, Trim(displayName.value), if externalId.Some? then externalId else db.groups[g].externalId)
  }

  lemma RelabelDerived(db: Tables, configs: map<Org, Config>, org: Org, g: Gid, displayName: Option<string>,
                       externalId: Option<string>)
    requires Consistent(db) && Derived(db, configs) && g in db.groups && db.groups[g].org == org
    requires Relabelled(db, org, g, displayName, externalId).Some?
    ensures var next := Relabelled(db, org, g, displayName, externalId).value;
            && Consistent(next) && g in next.groups && next.groups[g].org == org && next.users == db.users
            && MemberUsers(next, g) == MemberUsers(db, g)
            && DerivedExcept(next, configs, org, MemberUsers(next, g)) && SameOutside(db, next, org, MemberUsers(next, g))
  {
    hide SameOutside, Consistent, Derived, DerivedExcept, Trim;
    var next := Relabelled(db, org, g, displayName, externalId).value;
    NothingTouched(db, configs, org);
    if displayName.None? || displayName.value == "" {
      Unchanged(db, org);
      Widen(db, db, org, {}, MemberUsers(db, g));
    } else {
      RenameFrame(db, org, g, Trim(displayName.value), if externalId.Some? then externalId else db.groups[g].externalId);
    }
    StillDerived(db, next, configs, org, {}, MemberUsers(db, g));
  }

  lemma SameUsers(a: Tables, b: Tables, org: Org, ids: seq<string>)
    requires a.users == b.users
    ensures Resolved(a, org, ids) == Resolved(b, org, ids)
    ensures UsersOf(a, Resolved(a, org, ids)) == UsersOf(b, Resolved(b, org, ids))
  {
  }

  /** The members of one group are now the org users these ids name, and those of no other group have changed. */
  ghost predicate MembersReplaced(db: Tables, next: Tables, org: Org, g: Gid, ids: seq<string>) {
    forall h: Gid, s: Sid :: (h, s) in next.members <==>
      if h == g then s in RowIds(ids) && IsOrgUser(db, org, s) else (h, s) in db.members
  }

  lemma MembersAfterReplace(db: Tables, org: Org, g: Gid, ids: seq<string>)
    ensures MembersReplaced(db, Replaced(db, org, g, ids), org, g, ids)
    ensures Replaced(db, org, g, ids) == db.(members := Replaced(db, org, g, ids).members)
  {
    hide RowIds;
  }

  /** No role outside these users of the org has changed, and none is lost. */
  ghost predicate RolesKept(db: Tables, next: Tables, org: Org, touched: set<User>) {
    && (forall k :: k in db.roles ==> k in next.roles)
    && (forall k :: k in next.roles && !(k.0 == org && k.1 in touched) ==> k in db.roles && next.roles[k] == db.roles[k])
  }

  lemma CreatedOutside(db: Tables, made: Tables, org: Org, g: Gid, ids: seq<string>, touched: set<User>)
    requires SameOutside(db, made, org, {}) && Consistent(made) && g in made.groups && made.groups[g].org == org
    requires touched == UsersOf(made, Resolved(made, org, ids)) && MemberUsers(made, g) == {}
    ensures SameOutside(db, Replaced(made, org, g, ids), org, touched)
  {
    hide SameOutside, Consistent, Replaced, UsersOf, Resolved, MemberUsers;
    var nil: set<User> := {};
    assert nil + touched == touched && TouchedBy(made, org, g, ReplaceMembers(ids)) == touched;
    PatchFrame(made, org, g, ReplaceMembers(ids));
    SameOutsideTwice(db, made, Replaced(made, org, g, ids), org, nil, touched);
  }

  /** Accounts play no part in the invariant. */
  lemma AccountsIrrelevant(db: Tables, configs: map<Org, Config>, accounts: map<string, User>)
    requires Consistent(db) && Derived(db, configs)
    ensures Consistent(db.(accounts := accounts)) && Derived(db.(accounts := accounts), configs)
  {
    hide IsRole;
    var next := db.(accounts := accounts);
    forall o, u, g, t | InGroup(next, o, u, g, t) ensures RoleRight(next, configs, o, u) {
      assert InGroup(db, o, u, g, t);
      SameNamesFor(db, next, o, u);
    }
  }

  /** loadGroup finds a row. */
  predicate IsGroupOf(db: Tables, org: Org, id: string) {
    IsUuid(id) && RowId(id) in db.groups && db.groups[RowId(id)].org == org
  }

  /** loadUser finds a row. */
  predicate IsUserOf(db: Tables, org: Org, id: string) {
    IsUuid(id) && RowId(id) in db.users && db.users[RowId(id)].org == org
  }

  class ScimService {
    const configs: map<Org, Config>
    var db: Tables

    ghost predicate Valid()
      reads this
    {
      Consistent(db) && Derived(db, configs) && forall s :: s in db.users ==> db.users[s].org in configs
    }

    constructor (configs: map<Org, Config>, accounts: map<string, User>, roles: map<(Org, User), Role>)
      ensures Valid() && db == Tables(accounts, map[], map[], {}, roles) && this.configs == configs
    {
      this.configs := configs;
      this.db := Tables(accounts, map[], map[], {}, roles);
    }

    /** The rows of a query, in whatever order the database returns them. */
    static method Rows<T(==)>(s: set<T>) returns (rows: seq<T>)
      ensures forall x :: x in rows <==> x in s
    {
      rows := [];
      var left := s;
      while left != {}
        invariant forall x :: x in s <==> x in rows || x in left
        decreases left
      {
        var x :| x in left;
        rows := rows + [x];
        left := left - {x};
      }
    }

    /** The display names recomputeRoles reads for one user. */
    method ReadNames(org: Org, user: User) returns (names: seq<string>)
      ensures (iset n | n in names) == GroupNames(db, org, user)
    {
      var matching := set m | m in db.members && m.0 in db.groups && m.1 in db.users
                              && db.users[m.1].org == org && db.users[m.1].user == user;
      var rows := Rows(matching);
      names := [];
      for i := 0 to |rows|
        invariant forall k :: 0 <= k < i ==> rows[k] in matching && db.groups[rows[k].0].name in names
        invariant forall n :: n in names ==> n in GroupNames(db, org, user)
      {
        assert rows[i] in matching;
        assert InGroup(db, org, user, rows[i].0, rows[i].1);
        names := names + [db.groups[rows[i].0].name];
      }
      forall n | n in GroupNames(db, org, user) ensures n in names {
        var g, s :| InGroup(db, org, user, g, s) && db.groups[g].name == n;
        assert (g, s) in matching;
      }
    }

    /** recomputeRoles: settles every listed user of the org and changes no other role. */
    method RecomputeRoles(org: Org, userIds: set<User>)
      requires org in configs && Consistent(db) && DerivedExcept(db, configs, org, userIds)
      modifies this
      ensures Derived(db, configs) && OnlyRoles(old(db), db, org, userIds)
      ensures forall u :: u in userIds ==> RoleRight(db, configs, org, u)
      ensures Consistent(db)
    {
      hide InGroup, GroupNames, IsRole, RoleRight;
      var ids := Rows(userIds);
      ghost var left := userIds;
      for i := 0 to |ids|
        invariant DerivedExcept(db, configs, org, left)
        invariant forall u :: u in left ==> u in ids[i..]
        invariant OnlyRoles(old(db), db, org, userIds)
        invariant forall u :: u in userIds && u !in left ==> RoleRight(db, configs, org, u)
      {
        var names := ReadNames(org, ids[i]);
        var role := ResolveRole(names, configs[org].roleMap, configs[org].defaultRole);
        RoleSet(db, configs, org, left, ids[i], role);
        assert ids[i..] == [ids[i]] + ids[i + 1..];
        assert ids[i] in ids;
        forall u | u in userIds && u !in left - {ids[i]}
          ensures RoleRight(db.(roles := db.roles[(org, ids[i]) := role]), configs, org, u)
        {
          RoleStaysRight(db, configs, org, u, ids[i], role);
        }
        left := left - {ids[i]};
        db := db.(roles := db.roles[(org, ids[i]) := role]);
      }
      assert left == {};
    }

    /** addMembers */
    method AddMembers(org: Org, g: Gid, ids: seq<string>) returns (userIds: set<User>)
      modifies this
      ensures db == Added(old(db), org, g, ids)
      ensures userIds == UsersOf(old(db), Resolved(old(db), org, ids))
    {
      userIds := {};
      for i := 0 to |ids|
        invariant db == Added(old(db), org, g, ids[..i])
        invariant userIds == UsersOf(old(db), Resolved(old(db), org, ids[..i]))
      {
        var sid := RowId(ids[i]);
        ResolvedNext(old(db), org, ids, i);
        if IsUuid(ids[i]) && sid in db.users && db.users[sid].org == org {
          db := db.(members := db.members + {(g, sid)});
          userIds := userIds + {db.users[sid].user};
        }
      }
      assert ids[..|ids|] == ids;
    }

    /** removeMembers */
    method RemoveMembers(org: Org, g: Gid, ids: seq<string>) returns (userIds: set<User>)
      modifies this
      ensures db == Removed(old(db), g, ids)
      ensures userIds == UsersOf(old(db), Resolved(old(db), org, ids))
    {
      userIds := {};
      for i := 0 to |ids|
        invariant db == Removed(old(db), g, ids[..i])
        invariant userIds == UsersOf(old(db), Resolved(old(db), org, ids[..i]))
      {
        var sid := RowId(ids[i]);
        ResolvedNext(old(db), org, ids, i);
        if IsUuid(ids[i]) {
          db := db.(members := db.members - {(g, sid)});
          if sid in db.users && db.users[sid].org == org {
            userIds := userIds + {db.users[sid].user};
          }
        }
      }
      assert ids[..|ids|] == ids;
    }

    /** setMembers */
    method SetMembers(org: Org, g: Gid, ids: seq<string>) returns (userIds: set<User>)
      modifies this
      ensures db == Replaced(old(db), org, g, ids)
      ensures userIds == UsersOf(old(db), Resolved(old(db), org, ids))
    {
      db := Cleared(db, g);
      ghost var cleared := db;
      userIds := AddMembers(org, g, ids);
      assert Resolved(cleared, org, ids) == Resolved(old(db), org, ids);
    }

    /** createGroup */
    method CreateGroup(org: Org, displayName: string, externalId: Option<string>, ids: seq<string>, newId: Gid)
      returns (error: Option<Error>)
      requires Valid() && org in configs && newId !in db.groups
      modifies this
      ensures Valid()
      ensures error.Some? ==> error == Some(Conflict) && db == old(db)
      ensures error.Some? <==>
                || Trim(displayName) == ""
                || exists h :: h in old(db).groups && old(db).groups[h].org == org
                               && ToLower(old(db).groups[h].name) == ToLower(Trim(displayName))
      ensures error.None? ==>
        && db == old(db).(groups := old(db).groups[newId := GroupRow(org, Trim(displayName), externalId)],
                          members := db.members, roles := db.roles)
        && MembersReplaced(old(db), db, org, newId, ids) && RegroupedRight(old(db), db, configs, org)
        && RolesKept(old(db), db, org, UsersOf(old(db), Resolved(old(db), org, ids)))
    {
      hide SameOutside, Consistent, Derived, DerivedExcept, RoleRight, InGroup, Cleared, Resolved, UsersOf, MemberUsers,
        Replaced, RegroupedRight, GroupNames;
      var name := Trim(displayName);
      if name == "" {
        return Some(Conflict);
      }
      var row := GroupRow(org, name, externalId);
      var made := WithGroup(db, newId, row);
      if made.None? {
        return Some(Conflict);
      }
      WithGroupFrame(db, newId, row);
      NothingTouched(db, configs, org);
      StillDerived(db, made.value, configs, org, {}, {});
      db := made.value;
      var touched := SetMembers(org, newId, ids);
      ReplaceDerived(made.value, configs, org, newId, ids, touched);
      SameUsers(made.value, old(db), org, ids);
      CreatedOutside(old(db), made.value, org, newId, ids, touched);
      MembersAfterReplace(made.value, org, newId, ids);
      RecomputeRoles(org, touched);
      Regrouped(old(db), Replaced(made.value, org, newId, ids), db, configs, org, touched);
      error := None;
    }

    /** patchGroup: `steps` holds the tables before the first operation and after each one applied. */
    method PatchGroup(org: Org, id: string, ops: seq<PatchOp>) returns (error: Option<Error>, ghost steps: seq<Tables>)
      requires Valid() && org in configs
      modifies this
      ensures Valid()
      ensures error == Some(NotFound) <==>
                !(IsUuid(id) && ToLower(id) in old(db).groups && old(db).groups[ToLower(id)].org == org)
      ensures error.Some? ==> db == old(db)
      ensures Traced(steps, ops, org, RowId(id)) && steps[0] == old(db)
      ensures error.None? ==>
        && |steps| == |ops| + 1 && db == steps[|ops|].(roles := db.roles) && RegroupedRight(old(db), db, configs, org)
        && (forall u :: TouchedIn(steps, ops, org, RowId(id), |ops|, u) ==> RoleRight(db, configs, org, u))
        && forall k: (Org, User) :: !(k.0 == org && TouchedIn(steps, ops, org, RowId(id), |ops|, k.1)) ==>
             if k in old(db).roles then k in db.roles && db.roles[k] == old(db).roles[k] else k !in db.roles
      ensures error.Some? && error != Some(NotFound) ==>
        && error == Some(Conflict) && |steps| <= |ops|
        && !("members" <= ToLower(PathOf(ops[|steps| - 1])))
        && NameTaken(steps[|steps| - 1], org, RowId(id), ops[|steps| - 1])
    {
      hide Consistent, Derived, DerivedExcept, Decode, IsUuid, ToLower, OperationDone, NameTaken, SameOutside, RegroupedRight,
        GroupNames, RoleRight, Patched, TouchedBy, StepAt, Touches;
      steps := [db];
      if !IsGroupOf(db, org, id) {
        return Some(NotFound), steps;
      }
      var g := RowId(id);
      var before := db;
      var touched: set<User> := {};
      for i := 0 to |ops|
        invariant PatchFirst(before, org, g, ops, i) == Some(Patching(db, touched))
        invariant db.users == before.users && g in db.groups && db.groups[g].org == org
        invariant forall u :: u in touched <==> |steps| == i + 1 && TouchedIn(steps, ops, org, g, i, u)
        invariant |steps| == i + 1 && steps[0] == before && steps[i] == db && Traced(steps, ops, org, g)
      {
        PatchFirstFrame(before, configs, org, g, ops, i);
        OperationMeans(db, org, g, ops[i]);
        var op := Decode(ops[i]);
        var ids, ok := ApplyOp(org, g, op);
        if !ok {
          db := before;
          return Some(Conflict), steps;
        }
        TraceOneMore(steps, ops, org, g, db);
        TouchedOneMore(steps, ops, org, g, db, touched);
        touched := touched + ids;
        steps := steps + [db];
        PatchFirstFrame(before, configs, org, g, ops, i + 1);
      }
      PatchFirstFrame(before, configs, org, g, ops, |ops|);
      RecomputeRoles(org, touched);
      Regrouped(before, steps[|ops|], db, configs, org, touched);
      error := None;
    }

    /** One branch of the loop of patchGroup. */
    method ApplyOp(org: Org, g: Gid, op: GroupOp) returns (touched: set<User>, ok: bool)
      requires g in db.groups && db.groups[g].org == org
      modifies this
      ensures ok == Patched(old(db), org, g, op).Some?
      ensures ok ==> db == Patched(old(db), org, g, op).value && touched == TouchedBy(old(db), org, g, op)
    {
      hide Added, Removed, Replaced, UsersOf, Resolved, MemberUsers, Renamed;
      ok := true;
      match op
      case AddMembers(ids) => touched := AddMembers(org, g, ids);
      case RemoveMembers(ids) => touched := RemoveMembers(org, g, ids);
      case ReplaceMembers(ids) =>
        var before := MemberUsers(db, g);
        var after := SetMembers(org, g, ids);
        touched := before + after;
      case Rename(name) =>
        touched := MemberUsers(db, g);
        var next := Renamed(db, org, g, name, db.groups[g].externalId);
        if next.None? {
          ok := false;
        } else {
          db := next.value;
        }
      case Nothing => touched := {};
    }

    /** replaceGroup */
    method ReplaceGroup(org: Org, id: string, displayName: Option<string>, externalId: Option<string>, ids: seq<string>)
      returns (error: Option<Error>)
      requires Valid() && org in configs
      modifies this
      ensures Valid()
      ensures error == Some(NotFound) <==>
                !(IsUuid(id) && ToLower(id) in old(db).groups && old(db).groups[ToLower(id)].org == org)
      ensures error.Some? ==> db == old(db)
      ensures error == Some(Conflict) <==>
                && IsGroupOf(old(db), org, id) && displayName.Some? && displayName.value != ""
                && exists h :: h in old(db).groups && h != RowId(id) && old(db).groups[h].org == org
                               && ToLower(old(db).groups[h].name) == ToLower(Trim(displayName.value))
      ensures error.None? ==>
        var g, row := RowId(id), old(db).groups[RowId(id)];
        && db == old(db).(groups := old(db).groups[g :=
             if displayName.None? || displayName.value == "" then row
             else GroupRow(org, Trim(displayName.value), if externalId.Some? then externalId else row.externalId)],
           members := db.members, roles := db.roles)
        && MembersReplaced(old(db), db, org, g, ids) && RegroupedRight(old(db), db, configs, org)
        && RolesKept(old(db), db, org, MemberUsers(old(db), g) + UsersOf(old(db), Resolved(old(db), org, ids)))
    {
      hide SameOutside, Consistent, Derived, DerivedExcept, RoleRight, InGroup, IsUuid, MemberUsers, Replaced,
        RegroupedRight, GroupNames, UsersOf, Resolved;
      if !IsGroupOf(db, org, id) {
        return Some(NotFound);
      }
      var g := RowId(id);
      ghost var start := db;
      var named := Relabelled(db, org, g, displayName, externalId);
      if named.None? {
        return Some(Conflict);
      }
      RelabelDerived(db, configs, org, g, displayName, externalId);
      db := named.value;
      var before := MemberUsers(db, g);
      var after := SetMembers(org, g, ids);
      SameUsers(named.value, start, org, ids);
      ReplaceTouched(named.value, configs, org, g, ids, before + after);
      RelabelOutside(start, named.value, org, g, ids, before + after);
      MembersAfterReplace(named.value, org, g, ids);
      RecomputeRoles(org, before + after);
      Regrouped(start, Replaced(named.value, org, g, ids), db, configs, org, before + after);
      error := None;
    }

    /** deleteGroup */
    method DeleteGroup(org: Org, id: string) returns (error: Option<Error>)
      requires Valid() && org in configs
      modifies this
      ensures Valid()
      ensures if !(IsUuid(id) && ToLower(id) in old(db).groups && old(db).groups[ToLower(id)].org == org) then
                error == Some(NotFound) && db == old(db)
              else
                && error.None? && RegroupedRight(old(db), db, configs, org)
                && db == old(db).(groups := old(db).groups - {RowId(id)},
                                  members := (set m | m in old(db).members && m.0 != RowId(id)), roles := db.roles)
                && RolesKept(old(db), db, org, MemberUsers(old(db), RowId(id)))
    {
      hide SameOutside, Consistent, Derived, DerivedExcept, RoleRight, InGroup, IsUuid, ToLower;
      if !IsGroupOf(db, org, id) {
        return Some(NotFound);
      }
      var g := RowId(id);
      var members := MemberUsers(db, g);
      WithoutGroupFrame(db, org, g);
      NothingTouched(db, configs, org);
      StillDerived(db, WithoutGroup(db, g), configs, org, {}, members);
      db := WithoutGroup(db, g);
      RecomputeRoles(org, members);
      Regrouped(old(db), WithoutGroup(old(db), g), db, configs, org, members);
      error := None;
    }

    /** createUser; `newUser` and `newSid` are the ids the database would generate. */
    method CreateUser(org: Org, userName: string, primaryEmail: Option<string>, externalId: Option<string>,
                      active: bool, newUser: User, newSid: Sid) returns (error: Option<Error>)
      requires Valid() && org in configs && newSid !in db.users
      modifies this
      ensures Valid()
      ensures error.Some? ==> error == Some(Conflict) && db == old(db)
      ensures error == Some(Conflict) <==>
                var name := Trim(userName);
                var email := if primaryEmail.Some? then primaryEmail.value else name;
                || name == "" || '@' !in email
                || (exists t :: t in old(db).users && old(db).users[t].org == org
                                && ToLower(old(db).users[t].userName) == ToLower(name))
                || (email in old(db).accounts
                    && exists t :: t in old(db).users && old(db).users[t].org == org
                                   && old(db).users[t].user == old(db).accounts[email])
                || (email !in old(db).accounts
                    && exists t :: t in old(db).users && old(db).users[t].org == org && old(db).users[t].user == newUser)
      ensures error.None? ==>
                var email := if primaryEmail.Some? then primaryEmail.value else Trim(userName);
                var user := if email in old(db).accounts then old(db).accounts[email] else newUser;
                var row := UserRow(org, user, Trim(userName), externalId, active);
                db == old(db).(accounts := old(db).accounts[email := user], users := old(db).users[newSid := row],
                               roles := if (org, user) in old(db).roles then old(db).roles
                                        else old(db).roles[(org, user) := configs[org].defaultRole])
    {
      hide Consistent, Derived;
      var name := Trim(userName);
      var email := if primaryEmail.Some? then primaryEmail.value else name;
      if name == "" || '@' !in email
         || exists t :: t in db.users && db.users[t].org == org && ToLower(db.users[t].userName) == ToLower(name) {
        return Some(Conflict);
      }
      var user := if email in db.accounts then db.accounts[email] else newUser;
      var base := db.(accounts := db.accounts[email := user]);
      var row := UserRow(org, user, name, externalId, active);
      var made := WithUser(base, newSid, row, configs[org].defaultRole);
      if made.None? {
        return Some(Conflict);
      }
      AccountsIrrelevant(db, configs, base.accounts);
      WithUserDerived(base, configs, newSid, row, configs[org].defaultRole);
      assert made.value.users == db.users[newSid := row];
      db := made.value;
      error := None;
    }

    /** replaceUser and patchUser: both end in this update of one row. */
    method UpdateUser(org: Org, id: string, userName: string, externalId: Option<string>, active: bool)
      returns (error: Option<Error>)
      requires Valid() && org in configs
      modifies this
      ensures Valid()
      ensures error == Some(NotFound) <==>
                !(IsUuid(id) && ToLower(id) in old(db).users && old(db).users[ToLower(id)].org == org)
      ensures error.Some? ==> db == old(db)
      ensures error == Some(Conflict) <==>
                && IsUserOf(old(db), org, id)
                && exists t :: t in old(db).users && t != RowId(id) && old(db).users[t].org == org
                               && ToLower(old(db).users[t].userName) == ToLower(userName)
      ensures error.None? ==>
        var row := UserRow(org, old(db).users[RowId(id)].user, userName, externalId, active);
        db == old(db).(users := old(db).users[RowId(id) := row])
    {
      hide Consistent, Derived, IsUuid, ToLower;
      if !IsUserOf(db, org, id) {
        return Some(NotFound);
      }
      var next := WithProfile(db, RowId(id), userName, externalId, active);
      if next.None? {
        return Some(Conflict);
      }
      WithProfileDerived(db, configs, RowId(id), userName, externalId, active);
      db := next.value;
      error := None;
    }

    /** deleteUser */
    method DeleteUser(org: Org, id: string) returns (error: Option<Error>)
      requires Valid() && org in configs
      modifies this
      ensures Valid()
      ensures if !(IsUuid(id) && ToLower(id) in old(db).users && old(db).users[ToLower(id)].org == org) then
                error == Some(NotFound) && db == old(db)
              else error.None? && db == old(db).(users := old(db).users - {RowId(id)},
                                                 members := set m | m in old(db).members && m.1 != RowId(id))
    {
      hide Consistent, Derived, IsUuid, ToLower;
      if !IsUserOf(db, org, id) {
        return Some(NotFound);
      }
      WithoutUserDerived(db, configs, RowId(id));
      db := WithoutUser(db, RowId(id));
      error := None;
    }
  }

  // ----- Steps the operations share -----

  lemma ResolvedNext(db: Tables, org: Org, ids: seq<string>, i: nat)
    requires i < |ids|
    ensures Resolved(db, org, ids[..i + 1]) ==
            Resolved(db, org, ids[..i]) +
            if IsUuid(ids[i]) && RowId(ids[i]) in db.users && db.users[RowId(ids[i])].org == org then {RowId(ids[i])} else {}
    ensures RowIds(ids[..i + 1]) == RowIds(ids[..i]) + if IsUuid(ids[i]) then {RowId(ids[i])} else {}
  {
    hide IsUuid, RowId;
    assert forall v :: v in ids[..i + 1] <==> v in ids[..i] || v == ids[i];
  }

  lemma NothingTouched(db: Tables, configs: map<Org, Config>, org: Org)
    requires Derived(db, configs)
    ensures DerivedExcept(db, configs, org, {})
  {
  }

  /** Renaming a group and replacing its members changes nothing for everyone else. */
  lemma RelabelOutside(start: Tables, db: Tables, org: Org, g: Gid, ids: seq<string>, touched: set<User>)
    requires SameOutside(start, db, org, MemberUsers(db, g))
    requires Consistent(db) && g in db.groups && db.groups[g].org == org
    requires touched == MemberUsers(db, g) + UsersOf(db, Resolved(db, org, ids))
    ensures SameOutside(start, Replaced(db, org, g, ids), org, touched)
  {
    hide SameOutside, Consistent, Replaced, UsersOf, Resolved, MemberUsers;
    PatchFrame(db, org, g, ReplaceMembers(ids));
    SameOutsideTwice(start, db, Replaced(db, org, g, ids), org, MemberUsers(db, g), touched);
    Widen(start, Replaced(db, org, g, ids), org, MemberUsers(db, g) + touched, touched);
  }

  /** Replacing the members of a group leaves everyone else right. */
  lemma ReplaceTouched(db: Tables, configs: map<Org, Config>, org: Org, g: Gid, ids: seq<string>, touched: set<User>)
    requires Consistent(db) && g in db.groups && db.groups[g].org == org
    requires touched == MemberUsers(db, g) + UsersOf(db, Resolved(db, org, ids))
    requires DerivedExcept(db, configs, org, MemberUsers(db, g))
    ensures Consistent(Replaced(db, org, g, ids)) && DerivedExcept(Replaced(db, org, g, ids), configs, org, touched)
  {
    hide SameOutside, Consistent, DerivedExcept, UsersOf, MemberUsers, Replaced, Resolved;
    PatchFrame(db, org, g, ReplaceMembers(ids));
    StillDerived(db, Replaced(db, org, g, ids), configs, org, MemberUsers(db, g), touched);
  }

  lemma ReplaceDerived(db: Tables, configs: map<Org, Config>, org: Org, g: Gid, ids: seq<string>, touched: set<User>)
    requires Consistent(db) && g in db.groups && db.groups[g].org == org
    requires MemberUsers(db, g) == {} && touched == UsersOf(db, Resolved(db, org, ids))
    requires DerivedExcept(db, configs, org, {})
    ensures Consistent(Replaced(db, org, g, ids)) && DerivedExcept(Replaced(db, org, g, ids), configs, org, touched)
  {
    hide Consistent, DerivedExcept, UsersOf, MemberUsers, Replaced, Resolved;
    ReplaceTouched(db, configs, org, g, ids, touched);
  }
}
