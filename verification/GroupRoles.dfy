/**
 Directory groups to roles (apps/api/src/ldap/mapping.ts): nested-group expansion
 over a possibly cyclic graph, and the highest mapped role.
 */
module GroupRoles {
  import opened Text

  datatype Role = Viewer | Member | Admin | Owner

  function Rank(r: Role): nat {
    match r
    case Owner => 3
    case Admin => 2
    case Member => 1
    case Viewer => 0
  }

  function NormalizeDn(dn: string): string {
    ToLower(Trim(dn))
  }

  function NormalizeAll(dns: seq<string>): (r: seq<string>)
    ensures |r| == |dns| && forall i :: 0 <= i < |dns| ==> r[i] == ToLower(Trim(dns[i]))
  {
    seq(|dns|, i requires 0 <= i < |dns| => NormalizeDn(dns[i]))
  }

  // ----- Nested groups -----

  /** A group's DN to the groups it is itself a direct member of. */
  type Parents = map<string, seq<string>>

  function ParentsOf(parents: Parents, g: string): (r: seq<string>)
    ensures g !in parents ==> r == []
    ensures g in parents ==> |r| == |parents[g]| && forall i :: 0 <= i < |r| ==> r[i] == ToLower(Trim(parents[g][i]))
  {
    if g in parents then NormalizeAll(parents[g]) else []
  }

  /** A chain of memberships from one of the direct groups. */
  ghost predicate Chain(direct: seq<string>, parents: Parents, path: seq<string>) {
    && path != [] && path[0] in NormalizeAll(direct)
    && forall i :: 0 < i < |path| ==> path[i] in ParentsOf(parents, path[i - 1])
  }

  ghost predicate Reachable(direct: seq<string>, parents: Parents, g: string) {
    exists path :: Chain(direct, parents, path) && path[|path| - 1] == g
  }

  /** Every DN the expansion can meet. */
  function Universe(direct: seq<string>, parents: Parents): set<string> {
    (set g | g in NormalizeAll(direct)) + (set k, p | k in parents && p in NormalizeAll(parents[k]) :: p)
  }

  lemma DirectReachable(direct: seq<string>, parents: Parents, g: string)
    requires g in NormalizeAll(direct)
    ensures Reachable(direct, parents, g)
  {
    assert Chain(direct, parents, [g]) && [g][|[g]| - 1] == g;
  }

  lemma ParentReachable(direct: seq<string>, parents: Parents, g: string, p: string)
    requires Reachable(direct, parents, g) && p in ParentsOf(parents, g)
    ensures Reachable(direct, parents, p)
  {
    var path :| Chain(direct, parents, path) && path[|path| - 1] == g;
    var longer := path + [p];
    assert Chain(direct, parents, longer) && longer[|longer| - 1] == p;
  }

  /** A set with the direct groups that is closed under parents holds every chain. */
  lemma {:induction false} ClosedHoldsChain(direct: seq<string>, parents: Parents, seen: seq<string>, path: seq<string>)
    requires forall g :: g in NormalizeAll(direct) ==> g in seen
    requires forall g, p :: g in seen && p in ParentsOf(parents, g) ==> p in seen
    requires Chain(direct, parents, path)
    ensures path[|path| - 1] in seen
  {
    if |path| > 1 {
      var shorter := path[..|path| - 1];
      ClosedHoldsChain(direct, parents, seen, shorter);
      assert path[|path| - 1] in ParentsOf(parents, path[|path| - 2]);
    }
  }

  predicate NoRepeats(s: seq<string>) {
    forall i, j :: 0 <= i < j < |s| ==> s[i] != s[j]
  }

  /** The inner loop of expandGroups: append the parents not yet seen. */
  method Enqueue(queue: seq<string>, seen: seq<string>, ps: seq<string>) returns (r: seq<string>)
    ensures queue <= r
    ensures forall x :: x in r ==> x in queue || x in ps
    ensures forall p :: p in ps ==> p in seen || p in r
  {
    r := queue;
    for i := 0 to |ps|
      invariant queue <= r
      invariant forall x :: x in r ==> x in queue || x in ps
      invariant forall k :: 0 <= k < i ==> ps[k] in seen || ps[k] in r
    {
      if ps[i] !in seen {
        r := r + [ps[i]];
      }
    }
  }

  lemma ParentInUniverse(direct: seq<string>, parents: Parents, g: string, p: string)
    requires p in ParentsOf(parents, g)
    ensures p in Universe(direct, parents)
  {
  }

  /** Seen and queued groups: all reachable, none lost, parents of seen groups accounted for. */
  ghost predicate Exploring(direct: seq<string>, parents: Parents, seen: seq<string>, queue: seq<string>) {
    && (forall g :: g in seen || g in queue ==> Reachable(direct, parents, g) && g in Universe(direct, parents))
    && (forall g :: g in NormalizeAll(direct) ==> g in seen || g in queue)
    && (forall g, p :: g in seen && p in ParentsOf(parents, g) ==> p in seen || p in queue)
  }

  /** One step of the search keeps the bookkeeping. */
  lemma ExploreStep(direct: seq<string>, parents: Parents, seen: seq<string>, g: string, queue: seq<string>,
                    next: seq<string>)
    requires Exploring(direct, parents, seen, [g] + queue)
    requires queue <= next && forall x :: x in next ==> x in queue || x in ParentsOf(parents, g)
    requires forall p :: p in ParentsOf(parents, g) ==> p in seen + [g] || p in next
    ensures Exploring(direct, parents, seen + [g], next)
  {
    hide Reachable, Universe, ParentsOf;
    assert g in [g] + queue;
    forall x | x in next ensures Reachable(direct, parents, x) && x in Universe(direct, parents) {
      if x in queue {
        assert x in [g] + queue;
      } else {
        ParentReachable(direct, parents, g, x);
        ParentInUniverse(direct, parents, g, x);
      }
    }
    forall x, p | x in seen + [g] && p in ParentsOf(parents, x) ensures p in seen + [g] || p in next {
      if x in seen && p !in seen {
        assert p in [g] + queue;
      }
    }
    forall x | x in NormalizeAll(direct) ensures x in seen + [g] || x in next {
      assert x in seen || x in [g] + queue;
    }
  }

  /** expandGroups: exactly the reachable groups, each once. */
  method ExpandGroups(direct: seq<string>, parents: Parents) returns (seen: seq<string>)
    ensures forall g :: g in seen <==> Reachable(direct, parents, g)
    ensures NoRepeats(seen)
  {
    hide Reachable, ParentsOf;
    seen := [];
    var queue := NormalizeAll(direct);
    ghost var left := Universe(direct, parents);
    forall g | g in queue ensures Reachable(direct, parents, g) {
      DirectReachable(direct, parents, g);
    }
    while |queue| > 0
      invariant NoRepeats(seen) && left == Universe(direct, parents) - (set g | g in seen)
      invariant Exploring(direct, parents, seen, queue)
      decreases left, |queue|
    {
      var g := queue[0];
      assert queue == [g] + queue[1..];
      queue := queue[1..];
      if g in seen {
        SkipSeen(direct, parents, seen, g, queue);
        continue;
      }
      var next := Enqueue(queue, seen + [g], ParentsOf(parents, g));
      ExploreStep(direct, parents, seen, g, queue, next);
      seen := seen + [g];
      left := left - {g};
      queue := next;
    }
    forall g | Reachable(direct, parents, g) ensures g in seen {
      ReachableInClosed(direct, parents, seen, g);
    }
  }

  lemma SkipSeen(direct: seq<string>, parents: Parents, seen: seq<string>, g: string, queue: seq<string>)
    requires Exploring(direct, parents, seen, [g] + queue) && g in seen
    ensures Exploring(direct, parents, seen, queue)
  {
    hide Reachable, Universe, ParentsOf;
    assert forall x :: x in [g] + queue <==> x == g || x in queue;
  }

  lemma ReachableInClosed(direct: seq<string>, parents: Parents, seen: seq<string>, g: string)
    requires forall x :: x in NormalizeAll(direct) ==> x in seen
    requires forall x, p :: x in seen && p in ParentsOf(parents, x) ==> p in seen
    requires Reachable(direct, parents, g)
    ensures g in seen
  {
    var path :| Chain(direct, parents, path) && path[|path| - 1] == g;
    ClosedHoldsChain(direct, parents, seen, path);
  }

  /** More direct memberships reach no fewer groups. */
  lemma ReachableGrows(direct: seq<string>, more: seq<string>, parents: Parents, g: string)
    requires forall d :: d in direct ==> d in more
    requires Reachable(direct, parents, g)
    ensures Reachable(more, parents, g)
  {
    var path :| Chain(direct, parents, path) && path[|path| - 1] == g;
    var i :| 0 <= i < |direct| && NormalizeDn(direct[i]) == path[0];
    assert direct[i] in more;
    var j :| 0 <= j < |more| && more[j] == direct[i];
    assert NormalizeAll(more)[j] == path[0];
    assert Chain(more, parents, path);
  }

  // ----- Roles -----

  /** The configured map, in entry order; keys equal after normalisation override earlier ones. */
  type RoleMap = seq<(string, Role)>

  function MappedRole(roleMap: RoleMap, g: string): Option<Role> {
    if roleMap == [] then None
    else
      var last := roleMap[|roleMap| - 1];
      if NormalizeDn(last.0) == NormalizeDn(g) then Some(last.1) else MappedRole(roleMap[..|roleMap| - 1], g)
  }

  /** The role a set of groups stands for: the highest mapped role, or the default if none is mapped. */
  ghost predicate IsRole(groups: iset<string>, roleMap: RoleMap, default: Role, role: Role) {
    && (forall g :: g in groups && MappedRole(roleMap, g).Some? ==> Rank(MappedRole(roleMap, g).value) <= Rank(role))
    && (if exists g :: g in groups && MappedRole(roleMap, g).Some?
        then exists g :: g in groups && MappedRole(roleMap, g) == Some(role)
        else role == default)
  }

  /** Of several entries for a group, up to case and outer spaces, the last one counts. */
  lemma {:induction false} MappedRoleIff(roleMap: RoleMap, g: string, role: Role)
    ensures MappedRole(roleMap, g) == Some(role) <==>
            exists i :: 0 <= i < |roleMap| && roleMap[i].1 == role && ToLower(Trim(roleMap[i].0)) == ToLower(Trim(g))
                        && forall j :: i < j < |roleMap| ==> ToLower(Trim(roleMap[j].0)) != ToLower(Trim(g))
  {
    hide ToLower, Trim;
    if roleMap != [] {
      var n := |roleMap| - 1;
      var front := roleMap[..n];
      MappedRoleIff(front, g, role);
      if i :| 0 <= i < n && front[i].1 == role && ToLower(Trim(front[i].0)) == ToLower(Trim(g))
              && forall j :: i < j < n ==> ToLower(Trim(front[j].0)) != ToLower(Trim(g)) {
        assert roleMap[i] == front[i];
        forall j | i < j < n ensures ToLower(Trim(roleMap[j].0)) != ToLower(Trim(g)) {
          assert roleMap[j] == front[j];
        }
      }
    }
  }

  ghost predicate Gives(groups: iset<string>, roleMap: RoleMap, role: Role) {
    exists g :: g in groups && MappedRole(roleMap, g) == Some(role)
  }

  /** The role a set of groups stands for, spelled out: owner before admin before member before viewer. */
  lemma HighestRoleWins(groups: iset<string>, roleMap: RoleMap, default: Role, role: Role)
    ensures IsRole(groups, roleMap, default, role) <==>
            role == if Gives(groups, roleMap, Owner) then Owner
                    else if Gives(groups, roleMap, Admin) then Admin
                    else if Gives(groups, roleMap, Member) then Member
                    else if Gives(groups, roleMap, Viewer) then Viewer
                    else default
  {
    hide MappedRole;
    var r := if Gives(groups, roleMap, Owner) then Owner
             else if Gives(groups, roleMap, Admin) then Admin
             else if Gives(groups, roleMap, Member) then Member
             else if Gives(groups, roleMap, Viewer) then Viewer
             else default;
    forall g | g in groups && MappedRole(roleMap, g).Some? ensures Gives(groups, roleMap, MappedRole(roleMap, g).value) {
    }
    if g :| g in groups && MappedRole(roleMap, g).Some? {
      var v := MappedRole(roleMap, g).value;
      assert Gives(groups, roleMap, v);
      assert v.Owner? || v.Admin? || v.Member? || v.Viewer?;
    }
    assert IsRole(groups, roleMap, default, r);
    if IsRole(groups, roleMap, default, role) {
      RoleIsUnique(groups, roleMap, default, role, r);
    }
  }

  /** The set alone decides the role. */
  lemma RoleIsUnique(groups: iset<string>, roleMap: RoleMap, default: Role, a: Role, b: Role)
    requires IsRole(groups, roleMap, default, a) && IsRole(groups, roleMap, default, b)
    ensures a == b
  {
  }

  /** Adding groups to a user who has a mapped one never lowers the role. */
  lemma RoleGrows(groups: iset<string>, more: iset<string>, roleMap: RoleMap, default: Role, a: Role, b: Role)
    requires IsRole(groups, roleMap, default, a) && IsRole(more, roleMap, default, b)
    requires groups <= more && exists g :: g in groups && MappedRole(roleMap, g).Some?
    ensures Rank(a) <= Rank(b)
  {
  }

  /** The normalised map that resolveRole builds. */
  method NormalizeMap(roleMap: RoleMap) returns (m: map<string, Role>)
    ensures forall g :: MappedRole(roleMap, g) ==
              if NormalizeDn(g) in m then Some(m[NormalizeDn(g)]) else None
  {
    hide NormalizeDn;
    m := map[];
    for i := 0 to |roleMap|
      invariant forall g :: MappedRole(roleMap[..i], g) ==
                  if NormalizeDn(g) in m then Some(m[NormalizeDn(g)]) else None
    {
      assert roleMap[..i + 1][..i] == roleMap[..i];
      m := m[NormalizeDn(roleMap[i].0) := roleMap[i].1];
    }
    assert roleMap[..|roleMap|] == roleMap;
  }

  /** resolveRole */
  method ResolveRole(groups: seq<string>, roleMap: RoleMap, default: Role) returns (role: Role)
    ensures IsRole((iset g | g in groups), roleMap, default, role)
  {
    hide NormalizeDn, MappedRole;
    var m := NormalizeMap(roleMap);
    var best: Option<Role> := None;
    for i := 0 to |groups|
      invariant best.None? ==> forall k :: 0 <= k < i ==> MappedRole(roleMap, groups[k]).None?
      invariant best.Some? ==> exists k :: 0 <= k < i && MappedRole(roleMap, groups[k]) == best
      invariant forall k :: 0 <= k < i && MappedRole(roleMap, groups[k]).Some? ==>
                  best.Some? && Rank(MappedRole(roleMap, groups[k]).value) <= Rank(best.value)
    {
      var key := NormalizeDn(groups[i]);
      if key in m && (best.None? || Rank(m[key]) > Rank(best.value)) {
        best := Some(m[key]);
      }
    }
    role := if best.Some? then best.value else default;
    ghost var all := iset g | g in groups;
    assert forall k :: 0 <= k < |groups| ==> groups[k] in all;
    if best.Some? {
      ghost var k :| 0 <= k < |groups| && MappedRole(roleMap, groups[k]) == best;
      assert groups[k] in all && MappedRole(roleMap, groups[k]) == Some(role);
    } else {
      forall g | g in all ensures MappedRole(roleMap, g).None? {
        var k :| 0 <= k < |groups| && groups[k] == g;
      }
    }
  }

  ghost function Reach(direct: seq<string>, parents: Parents): iset<string> {
    iset g | Reachable(direct, parents, g)
  }

  /** The role of a directory user: expansion, then resolution. */
  method UserRole(direct: seq<string>, parents: Parents, roleMap: RoleMap, default: Role) returns (role: Role)
    ensures IsRole(Reach(direct, parents), roleMap, default, role)
  {
    var groups := ExpandGroups(direct, parents);
    role := ResolveRole(groups, roleMap, default);
    assert (iset g | g in groups) == Reach(direct, parents);
  }

  /** The composed role depends only on what is reachable, and adding memberships never lowers a mapped user's role. */
  lemma NestedRoleGrows(direct: seq<string>, more: seq<string>, parents: Parents, roleMap: RoleMap, default: Role,
                        a: Role, b: Role)
    requires IsRole(Reach(direct, parents), roleMap, default, a) && IsRole(Reach(more, parents), roleMap, default, b)
    requires forall d :: d in direct ==> d in more
    requires exists g :: Reachable(direct, parents, g) && MappedRole(roleMap, g).Some?
    ensures Rank(a) <= Rank(b)
    ensures Reach(direct, parents) == Reach(more, parents) ==> a == b
  {
    hide MappedRole, Reachable;
    forall g | Reachable(direct, parents, g) ensures Reachable(more, parents, g) {
      ReachableGrows(direct, more, parents, g);
    }
    var g :| Reachable(direct, parents, g) && MappedRole(roleMap, g).Some?;
    assert g in Reach(direct, parents);
    RoleGrows(Reach(direct, parents), Reach(more, parents), roleMap, default, a, b);
    if Reach(direct, parents) == Reach(more, parents) {
      RoleIsUnique(Reach(direct, parents), roleMap, default, a, b);
    }
  }
}
