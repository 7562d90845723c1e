/**
 DKIM keys and their rotation (apps/api/src/dkim/dkim.service.ts): key rows, key
 files and selectors.map.  Each SQL statement is one method, and `history` records
 the key table after every one of them.
 */
module Dkim {
  import opened Text

  type KeyId = nat
  type DomainId = nat

  datatype Status = Pending | Published | Active | Retired
  datatype Algorithm = Rsa2048 | Ed25519
  datatype Key = Key(domain: DomainId, selector: string, algorithm: Algorithm, pem: string, status: Status,
                     createdAt: int, activatedAt: Option<int>)
  type Keys = map<KeyId, Key>
  datatype Error = NotFound | Conflict | DatabaseError | DiskError

  // ----- Properties of the key table -----

  predicate IsActive(keys: Keys, k: KeyId) {
    k in keys && keys[k].status == Active
  }

  ghost predicate OneActive(keys: Keys) {
    forall a, b :: IsActive(keys, a) && IsActive(keys, b) && keys[a].domain == keys[b].domain ==> a == b
  }

  ghost predicate HasActive(keys: Keys, d: DomainId) {
    exists k :: IsActive(keys, k) && keys[k].domain == d
  }

  /** A key that rotation counts as a successor. */
  predicate IsSuccessor(keys: Keys, k: KeyId, d: DomainId) {
    k in keys && keys[k].domain == d && (keys[k].status == Pending || keys[k].status == Published)
  }

  predicate HasSuccessor(keys: Keys, d: DomainId) {
    exists k | k in keys :: IsSuccessor(keys, k, d)
  }

  lemma NoSuccessor(keys: Keys, d: DomainId)
    ensures HasSuccessor(keys, d) <==> exists s :: s in keys && IsSuccessor(keys, s, d)
  {
  }

  /** Rows of startDueRotations: overdue active keys of domains without a successor. */
  predicate Due(keys: Keys, k: KeyId, cutoff: int) {
    && IsActive(keys, k)
    && keys[k].activatedAt.Some? && keys[k].activatedAt.value < cutoff
    && !HasSuccessor(keys, keys[k].domain)
  }

  /** Rows of promoteReadyRotations: successors that have waited out the overlap. */
  predicate Ready(keys: Keys, k: KeyId, cutoff: int) {
    k in keys && keys[k].status == Published && keys[k].createdAt < cutoff
  }

  ghost predicate Injective(names: map<DomainId, string>) {
    forall c, d :: c in names && d in names && names[c] == names[d] ==> c == d
  }

  /** UNIQUE (domain_id, selector), known domains, and selectors without a dot. */
  ghost predicate KeysOk(keys: Keys, names: map<DomainId, string>) {
    && (forall a, b :: a in keys && b in keys && keys[a].domain == keys[b].domain && keys[a].selector == keys[b].selector
          ==> a == b)
    && (forall k :: k in keys ==> keys[k].domain in names && '.' !in keys[k].selector)
  }

  // ----- Selectors -----

  /** nextSelector: jmYYYYMM */
  function NextSelector(year: nat, month: nat): string {
    "jm" + Decimal(year) + PadStart(Decimal(month), 2)
  }

  lemma NextSelectorHasNoDot(year: nat, month: nat)
    ensures '.' !in NextSelector(year, month)
  {
    hide Decimal, PadStart;
    PadStartFacts(Decimal(month), 2);
    assert '.' !in "jm";
  }

  /** The selector of a month: "jm", four digits of the year, two of the month. */
  lemma NextSelectorShape(year: nat, month: nat)
    requires 1000 <= year <= 9999 && 1 <= month <= 12
    ensures var r := NextSelector(year, month);
            |r| == 8 && r[..2] == "jm" && Number(r[2..6]) == year && Number(r[6..]) == month
  {
    var y, m := Decimal(year), PadStart(Decimal(month), 2);
    FourDigits(year);
    assert |Decimal(month)| <= 2;
    PadStartFacts(Decimal(month), 2);
    NumberOfDecimal(year);
    NumberOfDecimal(month);
    var r := NextSelector(year, month);
    assert r[..2] == "jm" && r[2..6] == y && r[6..] == m;
  }

  lemma FourDigits(n: nat)
    requires 1000 <= n <= 9999
    ensures |Decimal(n)| == 4
  {
    assert |Decimal(n / 1000)| == 1 && |Decimal(n / 10 / 10)| == 2 && |Decimal(n / 10)| == 3;
  }

  function Candidate(base: string, i: nat): string {
    base + "-" + Decimal(i)
  }

  lemma CandidateIs(base: string, i: nat)
    ensures Candidate(base, i) == base + "-" + Decimal(i)
  {
  }

  lemma CandidateInjective(base: string, i: nat, j: nat)
    requires Candidate(base, i) == Candidate(base, j)
    ensures i == j
  {
    hide Decimal;
    var p := base + "-";
    assert Candidate(base, i)[|p|..] == Decimal(i) && Candidate(base, j)[|p|..] == Decimal(j);
    NumberOfDecimal(i);
    NumberOfDecimal(j);
  }

  lemma CandidateHasNoDot(base: string, i: nat)
    requires '.' !in base
    ensures '.' !in Candidate(base, i)
  {
  }

  lemma CandidateExtends(base: string, i: nat)
    ensures base <= Candidate(base, i)
  {
  }

  // ----- Key files -----

  function Path(name: string, selector: string): string {
    name + "." + selector + ".key"
  }

  lemma LastDot(n: string, s: string, m: string, t: string)
    requires n + "." + s == m + "." + t && '.' !in t
    ensures |n| <= |m|
  {
    var w := m + "." + t;
    assert (n + "." + s)[|n|] == '.';
    assert forall i :: |m| < i < |w| ==> w[i] == t[i - |m| - 1];
  }

  /** Two keys share a file only if they share domain name and selector. */
  lemma PathInjective(n1: string, s1: string, n2: string, s2: string)
    requires '.' !in s1 && '.' !in s2 && Path(n1, s1) == Path(n2, s2)
    ensures n1 == n2 && s1 == s2
  {
    var t1, t2, p := n1 + "." + s1, n2 + "." + s2, Path(n1, s1);
    assert |".key"| == 4;
    assert p[..|p| - 4] == t1 && Path(n2, s2)[..|p| - 4] == t2;
    LastDot(n1, s1, n2, s2);
    LastDot(n2, s2, n1, s1);
    assert t1[..|n1|] == n1 && t2[..|n2|] == n2;
    assert t1[|n1| + 1..] == s1 && t2[|n2| + 1..] == s2;
  }

  /** selectors.map has exactly one line per domain with an active key, naming its selector. */
  ghost predicate MapAgrees(keys: Keys, names: map<DomainId, string>, lines: seq<(string, string)>)
    requires KeysOk(keys, names)
  {
    && (forall k :: IsActive(keys, k) ==> (names[keys[k].domain], keys[k].selector) in lines)
    && (forall l :: l in lines ==> exists k :: IsActive(keys, k) && l == (names[keys[k].domain], keys[k].selector))
    && (forall i, j :: 0 <= i < j < |lines| ==> lines[i].0 != lines[j].0)
  }

  /** One line for each of the active keys `done`. */
  lemma LinesMakeMap(keys: Keys, names: map<DomainId, string>, lines: seq<(string, string)>, done: seq<KeyId>)
    requires KeysOk(keys, names) && OneActive(keys) && Injective(names) && |done| == |lines|
    requires forall i :: 0 <= i < |done| ==>
      IsActive(keys, done[i]) && lines[i] == (names[keys[done[i]].domain], keys[done[i]].selector)
    requires forall i, j :: 0 <= i < j < |done| ==> done[i] != done[j]
    requires forall k :: IsActive(keys, k) ==> k in done
    ensures MapAgrees(keys, names, lines)
  {
  }

  predicate FileHolds(key: Key, names: map<DomainId, string>, files: map<string, string>)
    requires key.domain in names
  {
    var p := Path(names[key.domain], key.selector);
    p in files && files[p] == key.pem
  }

  /** The file is the one the mail server looks for. */
  lemma FileIsNamed(key: Key, names: map<DomainId, string>, files: map<string, string>)
    requires key.domain in names
    ensures var p := names[key.domain] + "." + key.selector + ".key";
            FileHolds(key, names, files) <==> p in files && files[p] == key.pem
  {
  }

  /** Every active key's file exists and holds the key. */
  ghost predicate FilesAgree(keys: Keys, names: map<DomainId, string>, files: map<string, string>)
    requires KeysOk(keys, names)
  {
    forall k :: IsActive(keys, k) ==> FileHolds(keys[k], names, files)
  }

  /** Writing or deleting one key's file leaves every other key's file alone. */
  lemma OtherFiles(keys: Keys, names: map<DomainId, string>, files: map<string, string>, k: KeyId)
    requires KeysOk(keys, names) && Injective(names) && k in keys
    ensures var p := Path(names[keys[k].domain], keys[k].selector);
            && (forall a :: a in keys ==>
                  (FileHolds(keys[a], names, files[p := keys[k].pem]) <==> a == k || FileHolds(keys[a], names, files)))
            && (forall a :: a in keys && a != k ==>
                  (FileHolds(keys[a], names, files - {p}) <==> FileHolds(keys[a], names, files)))
  {
    hide Path;
    forall a | a in keys && a != k
      ensures Path(names[keys[a].domain], keys[a].selector) != Path(names[keys[k].domain], keys[k].selector)
    {
      if Path(names[keys[a].domain], keys[a].selector) == Path(names[keys[k].domain], keys[k].selector) {
        PathInjective(names[keys[a].domain], keys[a].selector, names[keys[k].domain], keys[k].selector);
        assert false;
      }
    }
  }

  // ----- Statements as functions of the table -----

  function RetireOthers(keys: Keys, d: DomainId, target: KeyId): Keys {
    map k | k in keys ::
      if keys[k].domain == d && k != target && keys[k].status == Active then keys[k].(status := Retired) else keys[k]
  }

  function SetActive(keys: Keys, k: KeyId, now: int): Keys
    requires k in keys
  {
    keys[k := keys[k].(status := Active, activatedAt := Some(now))]
  }

  /** Activating k makes it active now, retires the key that was active in its domain, and changes nothing else. */
  ghost predicate ActivationChanges(before: Keys, after: Keys, k: KeyId, now: int)
    requires k in before
  {
    && after.Keys == before.Keys && after[k] == before[k].(status := Active, activatedAt := Some(now))
    && forall a :: a in before && a != k ==>
         after[a] == if before[a].domain == before[k].domain && before[a].status == Active
                     then before[a].(status := Retired) else before[a]
  }

  lemma RetiringOthers(keys: Keys, names: map<DomainId, string>, d: DomainId, k: KeyId)
    requires OneActive(keys) && KeysOk(keys, names)
    ensures var mid := RetireOthers(keys, d, k);
            && OneActive(mid) && KeysOk(mid, names)
            && (forall a :: IsActive(mid, a) && mid[a].domain == d ==> a == k)
            && (forall e :: e != d && HasActive(keys, e) ==> HasActive(mid, e))
            && mid.Keys == keys.Keys
            && (forall a :: a in keys ==>
                  && mid[a].domain == keys[a].domain && mid[a].selector == keys[a].selector
                  && (mid[a] != keys[a] ==> keys[a].domain == d && IsActive(keys, a)))
  {
    var mid := RetireOthers(keys, d, k);
    assert forall a :: IsActive(mid, a) <==> IsActive(keys, a) && (keys[a].domain != d || a == k);
    forall e | e != d && HasActive(keys, e) ensures HasActive(mid, e) {
      var a :| IsActive(keys, a) && keys[a].domain == e;
      assert IsActive(mid, a) && mid[a].domain == e;
    }
  }

  lemma SettingActive(mid: Keys, names: map<DomainId, string>, k: KeyId, now: int)
    requires OneActive(mid) && KeysOk(mid, names) && k in mid
    requires forall a :: IsActive(mid, a) && mid[a].domain == mid[k].domain ==> a == k
    ensures var after := SetActive(mid, k, now);
            && OneActive(after) && KeysOk(after, names) && HasActive(after, mid[k].domain)
            && (forall a :: IsActive(after, a) && after[a].domain == after[k].domain ==> a == k)
            && forall e :: HasActive(mid, e) ==> HasActive(after, e)
  {
    var after := SetActive(mid, k, now);
    assert forall a :: IsActive(after, a) <==> IsActive(mid, a) || a == k;
    assert IsActive(after, k) && after[k].domain == mid[k].domain;
    forall e | HasActive(mid, e) ensures HasActive(after, e) {
      var a :| IsActive(mid, a) && mid[a].domain == e;
      assert IsActive(after, a) && after[a].domain == e;
    }
  }

  /** The two updates of an activation: one active key before, one active key between, exactly the target after. */
  lemma ActivationKeepsOne(keys: Keys, names: map<DomainId, string>, k: KeyId, now: int)
    requires OneActive(keys) && KeysOk(keys, names) && k in keys
    ensures var mid := RetireOthers(keys, keys[k].domain, k);
            var after := SetActive(mid, k, now);
            && OneActive(mid) && KeysOk(mid, names) && OneActive(after) && KeysOk(after, names)
            && ActivationChanges(keys, after, k, now)
            && (forall a :: IsActive(mid, a) && mid[a].domain == mid[k].domain ==> a == k)
            && (forall a :: IsActive(after, a) && after[a].domain == after[k].domain ==> a == k)
            && forall e :: HasActive(keys, e) ==> HasActive(after, e)
  {
    hide OneActive, KeysOk, HasActive;
    var mid := RetireOthers(keys, keys[k].domain, k);
    RetiringOthers(keys, names, keys[k].domain, k);
    SettingActive(mid, names, k, now);
  }

  lemma RetirementKeepsOne(keys: Keys, names: map<DomainId, string>, k: KeyId)
    requires OneActive(keys) && KeysOk(keys, names) && k in keys
    ensures var after := keys[k := keys[k].(status := Retired)];
            && OneActive(after) && KeysOk(after, names)
            && (forall e :: HasActive(after, e) <==>
                  HasActive(keys, e) && !(e == keys[k].domain && IsActive(keys, k)))
  {
    var after := keys[k := keys[k].(status := Retired)];
    assert forall a :: IsActive(after, a) <==> IsActive(keys, a) && a != k;
    forall e ensures HasActive(after, e) <==> HasActive(keys, e) && !(e == keys[k].domain && IsActive(keys, k)) {
      if a :| IsActive(after, a) && after[a].domain == e { assert IsActive(keys, a) && a != k; }
      if a :| IsActive(keys, a) && keys[a].domain == e && a != k { assert IsActive(after, a); }
    }
  }

  /** A key that is not active changes neither what the map must say nor which files must exist. */
  lemma InactiveKeyInvisible(keys: Keys, names: map<DomainId, string>, k: KeyId, key: Key,
                             lines: seq<(string, string)>, files: map<string, string>)
    requires KeysOk(keys, names) && KeysOk(keys[k := key], names) && !IsActive(keys, k) && key.status != Active
    requires OneActive(keys)
    ensures OneActive(keys[k := key])
    ensures MapAgrees(keys, names, lines) ==> MapAgrees(keys[k := key], names, lines)
    ensures FilesAgree(keys, names, files) <==> FilesAgree(keys[k := key], names, files)
    ensures forall d :: HasActive(keys, d) <==> HasActive(keys[k := key], d)
  {
    var after := keys[k := key];
    assert forall a :: IsActive(keys, a) <==> IsActive(after, a);
    assert forall a :: IsActive(keys, a) ==> keys[a] == after[a];
    forall d ensures HasActive(keys, d) <==> HasActive(after, d) {
      if a :| IsActive(keys, a) && keys[a].domain == d { assert IsActive(after, a); }
      if a :| IsActive(after, a) && after[a].domain == d { assert IsActive(keys, a); }
    }
    if MapAgrees(keys, names, lines) {
      forall l | l in lines ensures exists a :: IsActive(after, a) && l == (names[after[a].domain], after[a].selector) {
        var a :| IsActive(keys, a) && l == (names[keys[a].domain], keys[a].selector);
        assert IsActive(after, a);
      }
    }
  }

  /** `after` adds to `before` a published successor for each key `made` maps, and nothing else. */
  ghost predicate SuccessorsAdded(before: Keys, after: Keys, made: map<KeyId, KeyId>, now: int) {
    && (forall k :: k in before ==> k in after && after[k] == before[k])
    && (forall r :: r in made ==>
          && r in before && made[r] in after && made[r] !in before
          && after[made[r]].domain == before[r].domain && after[made[r]].algorithm == before[r].algorithm
          && after[made[r]].status == Published && after[made[r]].createdAt == now)
    && (forall k :: k in after && k !in before ==> exists r :: r in made && made[r] == k)
  }

  /** Inserting the successor of one more row. */
  lemma AddSuccessor(before: Keys, after: Keys, made: map<KeyId, KeyId>, now: int, r: KeyId, k: KeyId, key: Key)
    requires SuccessorsAdded(before, after, made, now)
    requires r in before && r !in made && k !in after
    requires key.domain == before[r].domain && key.algorithm == before[r].algorithm
    requires key.status == Published && key.createdAt == now
    ensures SuccessorsAdded(before, after[k := key], made[r := k], now)
  {
    var more := made[r := k];
    forall n | n in after[k := key] && n !in before ensures exists q :: q in more && more[q] == n {
      if n == k {
        assert more[r] == n;
      } else {
        var q :| q in made && made[q] == n;
        assert q in more && more[q] == n;
      }
    }
  }

  /** At most one successor per domain, and none where one was already waiting. */
  lemma OneSuccessorEach(before: Keys, after: Keys, made: map<KeyId, KeyId>, now: int, cutoff: int)
    requires OneActive(before) && SuccessorsAdded(before, after, made, now)
    requires forall r :: r in made ==> Due(before, r, cutoff)
    ensures forall k :: k in after && k !in before ==> !HasSuccessor(before, after[k].domain)
    ensures forall k, l :: k in after && k !in before && l in after && l !in before && after[k].domain == after[l].domain
              ==> k == l
    ensures forall k :: IsActive(before, k) <==> IsActive(after, k)
    ensures forall d :: HasActive(before, d) <==> HasActive(after, d)
  {
    forall k, l | k in after && k !in before && l in after && l !in before && after[k].domain == after[l].domain
      ensures k == l
    {
      var q :| q in made && made[q] == k;
      var r :| r in made && made[r] == l;
      assert q == r;
    }
    assert forall k :: IsActive(before, k) <==> IsActive(after, k);
    forall d ensures HasActive(before, d) <==> HasActive(after, d) {
      if a :| IsActive(before, a) && before[a].domain == d { assert IsActive(after, a); }
      if a :| IsActive(after, a) && after[a].domain == d { assert IsActive(before, a); }
    }
  }

  predicate InDomains(keys: Keys, ks: seq<KeyId>, d: DomainId)
    requires forall k :: k in ks ==> k in keys
  {
    exists i :: 0 <= i < |ks| && keys[ks[i]].domain == d
  }

  /** The last key of its domain in a list. */
  predicate IsLast(keys: Keys, ks: seq<KeyId>, k: KeyId)
    requires forall k :: k in ks ==> k in keys
  {
    exists i :: 0 <= i < |ks| && ks[i] == k && forall j :: i < j < |ks| ==> keys[ks[j]].domain != keys[k].domain
  }

  /**
   The keys of `before` once those in `promoted` were activated in turn: in each of their domains the last of them is
   active since `now`, the others and the key active before are retired, and nothing else has changed.
   */
  ghost predicate Promoted(before: Keys, after: Keys, promoted: seq<KeyId>, now: int)
    requires forall k :: k in promoted ==> k in before
  {
    before.Keys <= after.Keys &&
    forall k :: k in before ==>
      after[k] ==
        if IsLast(before, promoted, k) then before[k].(status := Active, activatedAt := Some(now))
        else if k in promoted then before[k].(status := Retired, activatedAt := Some(now))
        else if before[k].status == Active && InDomains(before, promoted, before[k].domain)
        then before[k].(status := Retired)
        else before[k]
  }

  lemma PromoteOneMore(before: Keys, mid: Keys, after: Keys, promoted: seq<KeyId>, now: int, k: KeyId)
    requires forall p :: p in promoted ==> p in before
    requires Promoted(before, mid, promoted, now) && mid.Keys == before.Keys
    requires k in before && k !in promoted && before[k].status != Active
    requires ActivationChanges(mid, after, k, now)
    ensures Promoted(before, after, promoted + [k], now)
  {
    hide IsLast, InDomains;
    var more := promoted + [k];
    forall x | x in before
      ensures IsLast(before, more, x) <==> x == k || (IsLast(before, promoted, x) && before[x].domain != before[k].domain)
      ensures InDomains(before, more, before[x].domain) <==>
              InDomains(before, promoted, before[x].domain) || before[x].domain == before[k].domain
      ensures IsLast(before, promoted, x) ==> x in promoted
    {
      LastOneMore(before, promoted, k, x);
    }
    forall x | x in before && !IsLast(before, promoted, x) && x !in promoted && before[x].status == Active
      ensures mid[x].status == Active ==> !InDomains(before, promoted, before[x].domain)
    {
    }
  }

  lemma LastOneMore(keys: Keys, ks: seq<KeyId>, k: KeyId, x: KeyId)
    requires (forall p :: p in ks ==> p in keys) && k in keys && x in keys && k !in ks
    ensures IsLast(keys, ks + [k], x) <==> x == k || (IsLast(keys, ks, x) && keys[x].domain != keys[k].domain)
    ensures InDomains(keys, ks + [k], keys[x].domain) <==>
            InDomains(keys, ks, keys[x].domain) || keys[x].domain == keys[k].domain
    ensures IsLast(keys, ks, x) ==> x in ks
  {
    var more := ks + [k];
    assert more[|ks|] == k;
    assert forall i :: 0 <= i < |ks| ==> more[i] == ks[i];
  }

  /** A tick's two phases in a row: new successors are too young to be promoted. */
  lemma TickComposes(before: Keys, mid: Keys, after: Keys, made: map<KeyId, KeyId>, promoted: seq<KeyId>, now: int,
                     hours: nat)
    requires SuccessorsAdded(before, mid, made, now) && after.Keys == mid.Keys
    requires forall k :: k in promoted ==> k in mid && Ready(mid, k, now - 3600 * hours)
    requires Promoted(mid, after, promoted, now)
    requires forall d :: HasActive(before, d) <==> HasActive(mid, d)
    requires forall d :: HasActive(mid, d) ==> HasActive(after, d)
    ensures forall d :: HasActive(before, d) ==> HasActive(after, d)
    ensures before.Keys <= after.Keys
    ensures forall k :: k in promoted ==> k in before
    ensures Promoted(before, after, promoted, now)
    ensures forall k :: k in after && k !in before ==> k in mid && after[k] == mid[k] && after[k].status == Published
    ensures forall k :: k in promoted ==> Ready(before, k, now - 3600 * hours)
    ensures forall k :: k in before && Ready(before, k, now - 3600 * hours) ==> Ready(mid, k, now - 3600 * hours)
  {
    hide HasActive, Promoted;
    forall k | k in mid && k !in before ensures k !in promoted && mid[k].status == Published {
      var r :| r in made && made[r] == k;
      assert !Ready(mid, k, now - 3600 * hours);
    }
    PromotedOfOld(before, mid, after, promoted, now);
  }

  /** Promotions leave keys added meanwhile alone, and treat the others as if these were not there. */
  lemma PromotedOfOld(before: Keys, mid: Keys, after: Keys, promoted: seq<KeyId>, now: int)
    requires forall k :: k in before ==> k in mid && mid[k] == before[k]
    requires forall k :: k in promoted ==> k in before
    requires forall k :: k in mid && k !in before ==> mid[k].status == Published
    requires Promoted(mid, after, promoted, now)
    ensures Promoted(before, after, promoted, now)
    ensures forall k :: k in mid && k !in before ==> after[k] == mid[k]
  {
    hide IsLast, InDomains;
    forall k | k in mid ensures IsLast(mid, promoted, k) ==> k in promoted { LastListed(mid, promoted, k); }
    forall k | k in before
      ensures IsLast(before, promoted, k) <==> IsLast(mid, promoted, k)
      ensures InDomains(before, promoted, before[k].domain) <==> InDomains(mid, promoted, before[k].domain)
    {
      SameOrder(before, mid, promoted, k);
    }
  }

  lemma LastListed(keys: Keys, ks: seq<KeyId>, k: KeyId)
    requires forall p :: p in ks ==> p in keys
    ensures IsLast(keys, ks, k) ==> k in ks
  {
  }

  lemma SameOrder(a: Keys, b: Keys, ks: seq<KeyId>, k: KeyId)
    requires (forall p :: p in ks ==> p in a && p in b && a[p] == b[p]) && k in a && k in b && a[k] == b[k]
    ensures IsLast(a, ks, k) <==> IsLast(b, ks, k)
    ensures InDomains(a, ks, a[k].domain) <==> InDomains(b, ks, a[k].domain)
  {
    assert forall i :: 0 <= i < |ks| ==> ks[i] in ks;
  }

  lemma PromotionsStart(keys: Keys, now: int)
    ensures Promoted(keys, keys, [], now)
  {
  }

  /** What writing to the key directory does: these paths cannot be written, nor perhaps selectors.map. */
  datatype Disk = Disk(bad: set<string>, mapFails: bool)

  class DkimService {
    const names: map<DomainId, string>
    var keys: Keys
    var nextId: KeyId
    var files: map<string, string>
    var selectors: seq<(string, string)>
    ghost var history: seq<Keys>

    ghost predicate Valid()
      reads this
    {
      && Injective(names) && KeysOk(keys, names) && OneActive(keys)
      && (forall k :: k in keys ==> k < nextId)
      && (forall t :: t in history ==> OneActive(t))
    }

    ghost predicate MapOk()
      requires Valid()
      reads this
    {
      MapAgrees(keys, names, selectors)
    }

    ghost predicate FilesOk()
      requires Valid()
      reads this
    {
      FilesAgree(keys, names, files)
    }

    constructor (names: map<DomainId, string>)
      requires Injective(names)
      ensures Valid() && this.names == names && keys == map[] && history == [] && MapOk() && FilesOk()
    {
      this.names := names;
      keys, nextId, files, selectors, history := map[], 0, map[], [], [];
    }

    // ----- Statements -----

    /** INSERT INTO dkim_keys: refused when the selector is taken. */
    method Insert(key: Key) returns (r: Option<KeyId>)
      requires Valid() && key.domain in names && '.' !in key.selector && key.status != Active
      modifies this`keys, this`nextId, this`history
      ensures Valid() && old(history) <= history
      ensures r.None? <==> exists k :: k in old(keys) && old(keys)[k].domain == key.domain
                                       && old(keys)[k].selector == key.selector
      ensures r.None? ==> keys == old(keys)
      ensures r.Some? ==> r.value !in old(keys) && keys == old(keys)[r.value := key]
    {
      if exists k | k in keys :: keys[k].domain == key.domain && keys[k].selector == key.selector {
        return None;
      }
      ghost var before := keys;
      r := Some(nextId);
      assert KeysOk(keys[nextId := key], names);
      InactiveKeyInvisible(keys, names, nextId, key, selectors, files);
      keys, nextId := keys[nextId := key], nextId + 1;
      history := history + [keys];
    }

    /** UPDATE ... SET status = 'retired' WHERE domain_id = d AND id <> k AND status = 'active' */
    method RetireOthersStatement(d: DomainId, k: KeyId)
      requires Valid()
      modifies this`keys, this`history
      ensures Valid() && old(history) <= history && keys == RetireOthers(old(keys), d, k)
    {
      keys := RetireOthers(keys, d, k);
      history := history + [keys];
    }

    /** UPDATE ... SET status = 'active': keeps one active key when the others of its domain are not active. */
    method SetActiveStatement(k: KeyId, now: int)
      requires Valid() && k in keys
      requires forall a :: IsActive(keys, a) && keys[a].domain == keys[k].domain ==> a == k
      modifies this`keys, this`history
      ensures Valid() && old(history) <= history && keys == SetActive(old(keys), k, now)
    {
      keys := SetActive(keys, k, now);
      history := history + [keys];
    }

    /** UPDATE ... SET status = 'retired' WHERE id = k */
    method RetireStatement(k: KeyId)
      requires Valid() && k in keys
      modifies this`keys, this`history
      ensures Valid() && old(history) <= history && keys == old(keys)[k := old(keys)[k].(status := Retired)]
      ensures forall e ::
        HasActive(keys, e) <==> HasActive(old(keys), e) && !(e == old(keys)[k].domain && IsActive(old(keys), k))
      ensures old(FilesOk()) ==> FilesOk()
    {
      RetirementKeepsOne(keys, names, k);
      hide Path, FileHolds, HasActive, Injective, OneActive, KeysOk;
      keys := keys[k := keys[k].(status := Retired)];
      history := history + [keys];
    }

    /** The promotion transaction of activate and promoteReadyRotations; a failure rolls it back. */
    method Promote(k: KeyId, now: int, fails: bool)
      requires Valid() && k in keys
      modifies this`keys, this`history
      ensures Valid() && old(history) <= history
      ensures fails ==> keys == old(keys)
      ensures !fails ==> IsActive(keys, k) && ActivationChanges(old(keys), keys, k, now)
      ensures !fails ==> forall a :: IsActive(keys, a) && keys[a].domain == keys[k].domain ==> a == k
      ensures forall d :: HasActive(old(keys), d) ==> HasActive(keys, d)
    {
      var before := keys;
      ActivationKeepsOne(keys, names, k, now);
      RetireOthersStatement(keys[k].domain, k);
      if fails {
        keys := before;
      } else {
        SetActiveStatement(k, now);
      }
    }

    // ----- Disk -----

    method WriteKeyFile(k: KeyId, disk: Disk) returns (ok: bool)
      requires Valid() && k in keys
      modifies this`files
      ensures ok <==> Path(names[keys[k].domain], keys[k].selector) !in disk.bad
      ensures forall a :: a in keys ==>
        (FileHolds(keys[a], names, files) <==> (a == k && ok) || FileHolds(keys[a], names, old(files)))
      ensures ok ==>
        var name := names[keys[k].domain] + "." + keys[k].selector + ".key";
        name in files && files[name] == keys[k].pem
    {
      hide Path;
      var p := Path(names[keys[k].domain], keys[k].selector);
      OtherFiles(keys, names, files, k);
      ok := p !in disk.bad;
      if ok { files := files[p := keys[k].pem]; }
      FileIsNamed(keys[k], names, files);
    }

    /** deleteKeyFile, of a key that does not sign. */
    method DeleteKeyFile(k: KeyId, unlinkFails: bool)
      requires Valid() && k in keys && !IsActive(keys, k)
      modifies this`files
      ensures files == if unlinkFails then old(files) else old(files) - {Path(names[keys[k].domain], keys[k].selector)}
      ensures old(FilesOk()) ==> FilesOk()
    {
      OtherFiles(keys, names, files, k);
      hide Path, FileHolds, OneActive;
      if !unlinkFails { files := files - {Path(names[keys[k].domain], keys[k].selector)}; }
    }

    /** rebuildSelectorMap: whatever the file said before, one line per active key. */
    method RebuildSelectorMap(disk: Disk) returns (ok: bool)
      requires Valid()
      modifies this`selectors
      ensures ok <==> !disk.mapFails
      ensures ok ==> MapOk()
      ensures !ok ==> selectors == old(selectors)
    {
      hide OneActive, MapAgrees, Injective;
      var rows := set k | k in keys && IsActive(keys, k);
      var lines: seq<(string, string)> := [];
      ghost var done: seq<KeyId> := [];
      while rows != {}
        invariant |done| == |lines|
        invariant forall k :: k in rows ==> IsActive(keys, k)
        invariant forall i :: 0 <= i < |done| ==>
          IsActive(keys, done[i]) && done[i] !in rows && lines[i] == (names[keys[done[i]].domain], keys[done[i]].selector)
        invariant forall i, j :: 0 <= i < j < |done| ==> done[i] != done[j]
        invariant forall k :: IsActive(keys, k) ==> k in rows || k in done
        decreases |rows|
      {
        var k :| k in rows;
        lines := lines + [(names[keys[k].domain], keys[k].selector)];
        done := done + [k];
        rows := rows - {k};
      }
      ok := !disk.mapFails;
      if ok {
        selectors := lines;
        LinesMakeMap(keys, names, lines, done);
      }
    }

    /**
     syncKeysToDisk: when it completes the map is right, and the files are right unless one that could
     not be written was not already there (write failures are swallowed).
     */
    method SyncKeysToDisk(disk: Disk) returns (ok: bool)
      requires Valid()
      modifies this`files, this`selectors
      ensures ok <==> !disk.mapFails
      ensures ok ==> MapOk()
      ensures !ok ==> selectors == old(selectors)
      ensures FilesOk() <==>
              forall k :: IsActive(keys, k) && Path(names[keys[k].domain], keys[k].selector) in disk.bad ==>
                FileHolds(keys[k], names, old(files))
    {
      var rows := set k | k in keys && keys[k].status != Retired;
      ghost var all := rows;
      ghost var keys0, names0, files0 := keys, names, files;
      while rows != {}
        invariant rows <= all && selectors == old(selectors)
        invariant forall a :: a in keys ==>
          (FileHolds(keys[a], names, files) <==>
            (a in all && a !in rows && Path(names[keys[a].domain], keys[a].selector) !in disk.bad)
            || FileHolds(keys[a], names, old(files)))
        decreases |rows|
      {
        hide Path, FileHolds, KeysOk, OneActive;
        var k :| k in rows;
        var _ := WriteKeyFile(k, disk);
        rows := rows - {k};
      }
      ok := RebuildSelectorMap(disk);
    }

    // ----- Operations -----

    /** freshSelector: the first of base, base-2, base-3, ... the domain does not use. */
    method FreshSelector(d: DomainId, year: nat, month: nat) returns (r: string)
      requires Valid()
      ensures '.' !in r
      ensures forall k :: k in keys && keys[k].domain == d ==> keys[k].selector != r
      ensures var base := NextSelector(year, month);
              var taken := set k | k in keys && keys[k].domain == d :: keys[k].selector;
              || r == base
              || (base in taken && exists i :: 2 <= i && r == base + "-" + Decimal(i)
                                               && forall j :: 2 <= j < i ==> base + "-" + Decimal(j) in taken)
    {
      hide *;
      NextSelectorHasNoDot(year, month);
      var base := NextSelector(year, month);
      var taken := set k | k in keys && keys[k].domain == d && base <= keys[k].selector :: keys[k].selector;
      if base !in taken { return base; }
      forall j: nat ensures Candidate(base, j) == base + "-" + Decimal(j) { CandidateIs(base, j); }
      ghost var used: set<string> := {};
      var i := 2;
      while true
        invariant 2 <= i
        invariant used == set j | 2 <= j < i :: Candidate(base, j)
        invariant forall j :: 2 <= j < i ==> Candidate(base, j) in taken
        invariant |used| == i - 2
        decreases |taken| + 2 - i
      {
        SubsetSize(used, taken);
        CandidateHasNoDot(base, i);
        if Candidate(base, i) !in taken {
          assert base <= Candidate(base, i) by { CandidateExtends(base, i); }
          CandidateIs(base, i);
          return Candidate(base, i);
        }
        forall j | 2 <= j < i ensures Candidate(base, j) != Candidate(base, i) {
          if Candidate(base, j) == Candidate(base, i) { CandidateInjective(base, j, i); }
        }
        used := used + {Candidate(base, i)};
        SubsetSize(used, taken);
        i := i + 1;
      }
    }

    method Generate(org: set<DomainId>, d: DomainId, algorithm: Algorithm, pem: string, now: int, year: nat, month: nat,
                    disk: Disk) returns (r: Result)
      requires Valid() && org <= names.Keys
      modifies this
      ensures Valid() && old(history) <= history
      ensures r == Err(NotFound) <==> d !in org
      ensures r == Err(Conflict) <==> d in org && exists k :: k in old(keys) && old(keys)[k].domain == d
                                                    && old(keys)[k].selector == NextSelector(year, month)
      ensures r == Err(NotFound) || r == Err(Conflict) ==> keys == old(keys)
      ensures r == Done || r == Err(DiskError) ==> exists k: KeyId ::
        && k !in old(keys)
        && keys == old(keys)[k := Key(d, NextSelector(year, month), algorithm, pem, Pending, now, None)]
        && (r == Done ==> FileHolds(keys[k], names, files))
      ensures r == Done ==> MapOk()
      ensures old(MapOk()) ==> MapOk()
      ensures old(FilesOk()) ==> FilesOk()
    {
      hide NextSelector, Path, HasActive, MapAgrees, OneActive, Injective;
      if d !in org { return Err(NotFound); }
      NextSelectorHasNoDot(year, month);
      var key := Key(d, NextSelector(year, month), algorithm, pem, Pending, now, None);
      ghost var before := keys;
      var inserted := Insert(key);
      if inserted.None? { return Err(Conflict); }
      var k := inserted.value;
      InactiveKeyInvisible(before, names, k, key, selectors, files);
      var written := WriteKeyFile(k, disk);
      if !written { return Err(DiskError); }
      var rebuilt := RebuildSelectorMap(disk);
      r := if rebuilt then Done else Err(DiskError);
    }

    method Activate(org: set<DomainId>, d: DomainId, k: KeyId, now: int, tx: Tx, disk: Disk) returns (r: Result)
      requires Valid()
      modifies this
      ensures Valid() && old(history) <= history
      ensures r == Err(NotFound) <==> !(k in old(keys) && old(keys)[k].domain == d && d in org)
      ensures r == Err(Conflict) <==> r != Err(NotFound) && tx == Violates
      ensures r == Err(DatabaseError) <==> r != Err(NotFound) && tx == Fails
      ensures var committed := r == Done || r == Err(DiskError);
              && (!committed ==> keys == old(keys) && files == old(files) && selectors == old(selectors))
              && (committed ==> ActivationChanges(old(keys), keys, k, now) && IsActive(keys, k))
      ensures forall e :: HasActive(old(keys), e) ==> HasActive(keys, e)
      ensures r == Done ==> MapOk()
      ensures r == Done ==>
        (FilesOk() <==>
          forall a :: IsActive(keys, a) && Path(names[keys[a].domain], keys[a].selector) in disk.bad ==>
            FileHolds(keys[a], names, old(files)))
    {
      if !(k in keys && keys[k].domain == d && d in org) { return Err(NotFound); }
      Promote(k, now, tx != Commits);
      if tx != Commits { return Err(if tx == Violates then Conflict else DatabaseError); }
      var ok := SyncKeysToDisk(disk);
      r := if ok then Done else Err(DiskError);
    }

    /** retire: of any key, so this one may leave its domain unsigned; a failing unlink is swallowed. */
    method Retire(org: set<DomainId>, d: DomainId, k: KeyId, unlinkFails: bool, disk: Disk) returns (r: Result)
      requires Valid()
      modifies this
      ensures Valid() && old(history) <= history
      ensures r == Err(NotFound) <==> !(k in old(keys) && old(keys)[k].domain == d && d in org)
      ensures r == Err(NotFound) ==> keys == old(keys) && files == old(files) && selectors == old(selectors)
      ensures r != Err(NotFound) ==>
        && keys == old(keys)[k := old(keys)[k].(status := Retired)]
        && files == if unlinkFails then old(files) else old(files) - {Path(names[d], keys[k].selector)}
      ensures forall e ::
        HasActive(keys, e) <==> HasActive(old(keys), e) && !(r != Err(NotFound) && e == d && IsActive(old(keys), k))
      ensures r == Done ==> MapOk()
      ensures old(FilesOk()) ==> FilesOk()
      ensures r.Err? ==> r.error == NotFound || (r.error == DiskError && disk.mapFails)
    {
      hide Path, HasActive, FilesAgree, OneActive, MapAgrees, Injective, KeysOk;
      if !(k in keys && keys[k].domain == d && d in org) { return Err(NotFound); }
      RetireStatement(k);
      DeleteKeyFile(k, unlinkFails);
      var ok := RebuildSelectorMap(disk);
      r := if ok then Done else Err(DiskError);
    }

    // ----- Rotation -----

    /** One iteration of startDueRotations, for the overdue key `row`; every failure ends it, none reaches the caller. */
    method StartOne(row: KeyId, pem: string, now: int, year: nat, month: nat, txOk: bool, publishOk: bool, disk: Disk)
      returns (made: Option<KeyId>, complete: bool)
      requires Valid() && row in keys
      modifies this
      ensures Valid() && old(history) <= history
      ensures made.Some? <==> txOk
      ensures made.None? ==> keys == old(keys)
      ensures made.Some? ==>
        && made.value !in old(keys) && made.value in keys
        && '.' !in keys[made.value].selector
        && keys == old(keys)[made.value := Key(old(keys)[row].domain, keys[made.value].selector,
                                               old(keys)[row].algorithm, pem, Published, now, None)]
        && (complete ==> FileHolds(keys[made.value], names, files))
      ensures complete ==> made.Some? && publishOk && MapOk()
      ensures txOk && publishOk && disk == Disk({}, false) ==> complete
      ensures old(MapOk()) ==> MapOk()
      ensures old(FilesOk()) ==> FilesOk()
    {
      hide NextSelector, Candidate, Path, HasActive, Decimal;
      made, complete := None, false;
      ghost var before := keys;
      var selector := FreshSelector(keys[row].domain, year, month);
      if !txOk { return; }
      var key := Key(keys[row].domain, selector, keys[row].algorithm, pem, Published, now, None);
      made := Insert(key);
      InactiveKeyInvisible(before, names, made.value, key, selectors, files);
      if !publishOk { return; }
      var written := WriteKeyFile(made.value, disk);
      if !written { return; }
      complete := RebuildSelectorMap(disk);
    }

    method StartDueRotations(now: int, days: nat, year: nat, month: nat, pem: KeyId -> string, txOk: KeyId -> bool,
                             publishOk: KeyId -> bool, disk: Disk)
      returns (ghost made: map<KeyId, KeyId>, started: seq<KeyId>)
      requires Valid()
      modifies this
      ensures Valid() && old(history) <= history
      ensures SuccessorsAdded(old(keys), keys, made, now)
      ensures forall r :: r in made <==>
        && r in old(keys) && old(keys)[r].status == Active && txOk(r)
        && old(keys)[r].activatedAt.Some? && old(keys)[r].activatedAt.value < now - 86_400 * days
        && forall s :: s in old(keys) && old(keys)[s].domain == old(keys)[r].domain ==>
             old(keys)[s].status == Active || old(keys)[s].status == Retired
      ensures forall k :: k in started ==> k in keys && k !in old(keys)
      ensures forall k :: k in keys && k !in old(keys) ==> !HasSuccessor(old(keys), keys[k].domain)
      ensures forall k, l ::
        k in keys && k !in old(keys) && l in keys && l !in old(keys) && keys[k].domain == keys[l].domain ==> k == l
      ensures forall d :: HasActive(old(keys), d) <==> HasActive(keys, d)
      ensures old(MapOk()) || started != [] ==> MapOk()
      ensures old(FilesOk()) ==> FilesOk()
    {
      hide HasActive, MapAgrees, FilesAgree, KeysOk, OneActive, HasSuccessor;
      ghost var before := keys;
      var rows := set k | k in keys && Due(keys, k, now - 86_400 * days);
      ghost var all := rows;
      made, started := map[], [];
      while rows != {}
        invariant Valid() && old(history) <= history && rows <= all
        invariant SuccessorsAdded(before, keys, made, now)
        invariant forall r :: r in made <==> r in all && r !in rows && txOk(r)
        invariant forall k :: k in started ==> k in keys && k !in before
        invariant old(MapOk()) || started != [] ==> MapOk()
        invariant old(FilesOk()) ==> FilesOk()
        decreases |rows|
      {
        var row :| row in rows;
        ghost var mid := keys;
        var successor, complete := StartOne(row, pem(row), now, year, month, txOk(row), publishOk(row), disk);
        if successor.Some? {
          AddSuccessor(before, mid, made, now, row, successor.value, keys[successor.value]);
          made := made[row := successor.value];
          if complete { started := started + [successor.value]; }
        }
        rows := rows - {row};
      }
      OneSuccessorEach(before, keys, made, now, now - 86_400 * days);
      forall r ensures HasSuccessor(before, r) <==> exists s :: s in before && IsSuccessor(before, s, r) {
        NoSuccessor(before, r);
      }
    }

    /** One iteration of promoteReadyRotations for a key whose record resolves. */
    method PromoteOne(k: KeyId, now: int, txFails: bool, disk: Disk) returns (ok: bool)
      requires Valid() && k in keys
      modifies this
      ensures Valid() && old(history) <= history
      ensures txFails ==> ok && keys == old(keys) && files == old(files) && selectors == old(selectors)
      ensures !txFails ==> ActivationChanges(old(keys), keys, k, now)
      ensures forall d :: HasActive(old(keys), d) ==> HasActive(keys, d)
      ensures keys.Keys == old(keys).Keys
      ensures ok <==> txFails || !disk.mapFails
      ensures !txFails && ok ==> MapOk()
      ensures !txFails && disk.bad == {} ==> FilesOk()
    {
      hide HasActive, MapAgrees, KeysOk, OneActive, Path;
      Promote(k, now, txFails);
      if txFails { return true; }
      ok := SyncKeysToDisk(disk);
    }

    /** Stops early only when selectors.map cannot be written. */
    method PromoteReadyRotations(now: int, hours: nat, resolves: KeyId -> bool, txFails: KeyId -> bool, disk: Disk)
      returns (promoted: seq<KeyId>, completed: bool)
      requires Valid()
      modifies this
      ensures Valid() && old(history) <= history
      ensures keys.Keys == old(keys).Keys
      ensures forall k :: k in promoted ==>
        && k in old(keys) && old(keys)[k].status == Published && old(keys)[k].createdAt < now - 3_600 * hours
        && resolves(k) && !txFails(k)
      ensures completed ==>
        forall k :: k in old(keys) && resolves(k) && !txFails(k) ==>
          old(keys)[k].status == Published && old(keys)[k].createdAt < now - 3_600 * hours ==> k in promoted
      ensures Promoted(old(keys), keys, promoted, now)
      ensures forall d :: HasActive(old(keys), d) ==> HasActive(keys, d)
      ensures completed && (old(MapOk()) || promoted != []) ==> MapOk()
      ensures !disk.mapFails ==> completed
      ensures old(FilesOk()) && disk.bad == {} ==> FilesOk()
    {
      hide HasActive, MapAgrees, FilesAgree, KeysOk, OneActive, Promoted, Path, RetireOthers, SetActive, Injective,
        ActivationChanges;
      ghost var before := keys;
      var rows := set k | k in keys && Ready(keys, k, now - 3_600 * hours);
      ghost var all := rows;
      promoted, completed := [], false;
      PromotionsStart(keys, now);
      ghost var mapOk, filesOk := MapOk(), FilesOk();
      while rows != {}
        invariant Valid() && old(history) <= history && rows <= all
        invariant forall k :: k in promoted ==> k in all && k !in rows && resolves(k) && !txFails(k)
        invariant Promoted(before, keys, promoted, now) && keys.Keys == before.Keys
        invariant forall d :: HasActive(before, d) ==> HasActive(keys, d)
        invariant forall k :: k in all && k !in rows && resolves(k) && !txFails(k) ==> k in promoted
        invariant mapOk || promoted != [] ==> MapOk()
        invariant filesOk && disk.bad == {} ==> FilesOk()
        decreases |rows|
      {
        var k :| k in rows;
        rows := rows - {k};
        if !resolves(k) { continue; }
        ghost var mid := keys;
        var ok := PromoteOne(k, now, txFails(k), disk);
        if !txFails(k) {
          PromoteOneMore(before, mid, keys, promoted, now, k);
          promoted := promoted + [k];
        }
        if !ok { return; }
      }
      completed := true;
    }

    /**
     A whole tick: due domains get successors, ready keys become active for the keys they replace, no domain loses its
     signer, and a successor never signs in the tick that made it.
     */
    method RotateDue(enabled: bool, now: int, days: nat, hours: nat, year: nat, month: nat, pem: KeyId -> string,
                     txOk: KeyId -> bool, publishOk: KeyId -> bool, resolves: KeyId -> bool, txFails: KeyId -> bool,
                     disk: Disk)
      returns (started: seq<KeyId>, promoted: seq<KeyId>, completed: bool)
      requires Valid()
      modifies this
      ensures Valid() && old(history) <= history
      ensures !enabled ==> keys == old(keys) && files == old(files) && selectors == old(selectors)
      ensures forall d :: HasActive(old(keys), d) ==> HasActive(keys, d)
      ensures old(keys).Keys <= keys.Keys
      ensures forall k :: k in promoted ==>
        && k in old(keys) && old(keys)[k].status == Published && old(keys)[k].createdAt < now - 3_600 * hours
        && resolves(k) && !txFails(k)
      ensures enabled && completed ==>
        forall k :: k in old(keys) && resolves(k) && !txFails(k) ==>
          old(keys)[k].status == Published && old(keys)[k].createdAt < now - 3_600 * hours ==> k in promoted
      ensures Promoted(old(keys), keys, promoted, now)
      ensures forall k :: k in keys && k !in old(keys) ==>
        keys[k].status == Published && keys[k].createdAt == now && !HasSuccessor(old(keys), keys[k].domain)
      ensures enabled ==> forall r ::
        && r in old(keys) && old(keys)[r].status == Active && txOk(r)
        && old(keys)[r].activatedAt.Some? && old(keys)[r].activatedAt.value < now - 86_400 * days
        && (forall s :: s in old(keys) && old(keys)[s].domain == old(keys)[r].domain ==>
              old(keys)[s].status == Active || old(keys)[s].status == Retired) ==>
        exists k :: k in keys && k !in old(keys) && keys[k].domain == old(keys)[r].domain
      ensures forall k, l ::
        k in keys && k !in old(keys) && l in keys && l !in old(keys) && keys[k].domain == keys[l].domain ==> k == l
      ensures completed && old(MapOk()) ==> MapOk()
      ensures old(FilesOk()) && disk.bad == {} ==> FilesOk()
    {
      started, promoted, completed := [], [], true;
      PromotionsStart(keys, now);
      if !enabled { return; }
      hide *;
      ghost var made;
      made, started := StartDueRotations(now, days, year, month, pem, txOk, publishOk, disk);
      ghost var mid := keys;
      promoted, completed := PromoteReadyRotations(now, hours, resolves, txFails, disk);
      TickComposes(old(keys), mid, keys, made, promoted, now, hours);
    }
  }

  datatype Result = Done | Err(error: Error)

  /** How a transaction ends: a unique violation becomes a conflict, any other failure is passed on. */
  datatype Tx = Commits | Violates | Fails

  lemma SubsetSize<T>(a: set<T>, b: set<T>)
    requires a <= b
    ensures |a| <= |b|
  {
    assert b == a + (b - a);
  }
}
