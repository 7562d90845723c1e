/**
 What a sync guarantees: nothing unmanaged is touched, however the provider calls
 fail; a fault-free sync settles every row; and settled rows stay settled.
 */
module DnsConverge {
  import opened Text
  import opened DnsReconcile
  import opened DnsSync

  predicate UniqueIds(z: Zone, nextId: nat) {
    && (forall i, j :: 0 <= i < j < |z| ==> z[i].id != z[j].id)
    && (forall i :: 0 <= i < |z| ==> z[i].id < nextId)
  }

  // ----- Ids -----

  lemma {:induction false} FilterIds(z: Zone, p: Pred, nextId: nat)
    requires UniqueIds(z, nextId)
    ensures UniqueIds(Filter(z, p), nextId)
  {
    if z != [] {
      FilterIds(z[1..], p, nextId);
      var t := Filter(z[1..], p);
      forall i | 0 <= i < |t| ensures t[i].id != z[0].id && t[i].id < nextId {
        assert t[i] in z[1..];
      }
    }
  }

  lemma {:induction false} DeleteAllIds(z: Zone, dups: seq<ProviderRecord>, nextId: nat)
    requires UniqueIds(z, nextId)
    ensures UniqueIds(DeleteAll(z, dups), nextId)
    decreases |dups|
  {
    if dups != [] {
      FilterIds(z, OtherId(dups[0].id), nextId);
      DeleteAllIds(Without(z, dups[0].id), dups[1..], nextId);
    }
  }

  lemma SyncOneIds(z: Zone, nextId: nat, r: Expected, f: Fault)
    requires UniqueIds(z, nextId)
    ensures var s := SyncOne(z, nextId, r, f); UniqueIds(s.zone, s.nextId)
  {
    hide ChooseExisting, StaleDuplicates, DeleteAll, Strip;
    var existing := List(z, r);
    var chosen := ChooseExisting(r, existing);
    var after := if chosen.Some? then nextId else nextId + 1;
    ChosenIn(z, r);
    var z1 := Upsert(z, chosen, r, nextId);
    assert UniqueIds(z1, after);
    var dups := StaleDuplicates(r, existing, UpsertId(chosen, nextId));
    DeleteAllIds(z1, dups, after);
    if f.DeleteFails? {
      DeleteAllIds(z1, dups[..if f.done < |dups| then f.done else |dups|], after);
    }
  }

  /** The chosen record is in the zone and claimed by the row; so are the stale ones. */
  lemma ChosenIn(z: Zone, r: Expected)
    ensures var c := ChooseExisting(r, List(z, r));
            c.Some? ==> c.value in z && Claims(r, c.value)
    ensures forall id, e :: e in StaleDuplicates(r, List(z, r), id) ==> e in z && Claims(r, e) && e.id != id
  {
    ChosenIsClaimed(r, List(z, r));
    hide ChooseExisting, StaleDuplicates, Claims;
  }

  // ----- Frame: what no row claims keeps its records, in order -----

  lemma {:induction false} PutFrame(z: Zone, e: ProviderRecord, p: Pred)
    requires !p(e) && forall x :: x in z && x.id == e.id ==> !p(x)
    ensures Filter(Put(z, e), p) == Filter(z, p)
  {
    if z != [] {
      PutFrame(z[1..], e, p);
      assert Put(z, e)[1..] == Put(z[1..], e);
    }
  }

  lemma {:induction false} AppendFrame(z: Zone, e: ProviderRecord, p: Pred)
    requires !p(e)
    ensures Filter(z + [e], p) == Filter(z, p)
  {
    if z == [] {
      assert (z + [e])[1..] == [];
    } else {
      AppendFrame(z[1..], e, p);
      assert (z + [e])[1..] == z[1..] + [e];
    }
  }

  lemma {:induction false} WithoutFrame(z: Zone, id: nat, p: Pred)
    requires forall x :: x in z && x.id == id ==> !p(x)
    ensures Filter(Without(z, id), p) == Filter(z, p)
  {
    if z != [] {
      WithoutFrame(z[1..], id, p);
      if z[0].id != id {
        assert Without(z, id)[1..] == Without(z[1..], id);
      } else {
        assert Without(z, id) == Without(z[1..], id);
      }
    }
  }

  lemma {:induction false} DeleteAllFrame(z: Zone, dups: seq<ProviderRecord>, p: Pred)
    requires forall x, d :: x in z && d in dups && x.id == d.id ==> !p(x)
    ensures Filter(DeleteAll(z, dups), p) == Filter(z, p)
    decreases |dups|
  {
    if dups != [] {
      WithoutFrame(z, dups[0].id, p);
      DeleteAllFrame(Without(z, dups[0].id), dups[1..], p);
    }
  }

  /** A predicate that leaves out everything row `r` claims. */
  ghost predicate Avoids(p: Pred, r: Expected) {
    forall e :: p(e) ==> !Claims(r, e)
  }

  lemma PayloadClaimed(r: Expected, id: nat)
    ensures Claims(r, Payload(r, id))
  {
  }

  lemma {:induction false} SameIdSame(z: Zone, nextId: nat, a: ProviderRecord, b: ProviderRecord)
    requires UniqueIds(z, nextId) && a in z && b in z && a.id == b.id
    ensures a == b
  {
  }

  lemma UpsertMembers(z: Zone, nextId: nat, r: Expected, x: ProviderRecord)
    requires UniqueIds(z, nextId)
    requires var c := ChooseExisting(r, List(z, r)); x in Upsert(z, c, r, nextId)
    ensures x in z || x == Payload(r, UpsertId(ChooseExisting(r, List(z, r)), nextId))
  {
  }

  lemma SyncOneFrame(z: Zone, nextId: nat, r: Expected, f: Fault, p: Pred)
    requires UniqueIds(z, nextId) && Avoids(p, r)
    ensures Filter(SyncOne(z, nextId, r, f).zone, p) == Filter(z, p)
  {
    hide ChooseExisting, StaleDuplicates, DeleteAll, Claims, Filter, Strip;
    var chosen := ChooseExisting(r, List(z, r));
    var id := UpsertId(chosen, nextId);
    var z1 := Upsert(z, chosen, r, nextId);
    var dups := StaleDuplicates(r, List(z, r), id);
    ChosenIn(z, r);
    PayloadClaimed(r, id);
    if chosen.Some? {
      forall x | x in z && x.id == id ensures !p(x) {
        SameIdSame(z, nextId, x, chosen.value);
      }
      PutFrame(z, Payload(r, id), p);
    } else {
      AppendFrame(z, Payload(r, id), p);
    }
    forall x, d | x in z1 && d in dups && x.id == d.id ensures !p(x) {
      UpsertMembers(z, nextId, r, x);
      if x in z {
        SameIdSame(z, nextId, x, d);
      }
    }
    DeleteAllFrame(z1, dups, p);
    DeleteAllFrame(z1, dups[..if f.DeleteFails? && f.done < |dups| then f.done else |dups|], p);
  }

  lemma {:induction false} SyncFirstIds(z: Zone, nextId: nat, saved: map<nat, nat>, records: seq<Expected>,
                                        faults: seq<Fault>, n: nat)
    requires UniqueIds(z, nextId) && n <= |records|
    ensures var s := SyncFirst(z, nextId, saved, records, faults, n); UniqueIds(s.zone, s.nextId)
  {
    hide SyncOne;
    if n > 0 {
      SyncFirstIds(z, nextId, saved, records, faults, n - 1);
      var s := SyncFirst(z, nextId, saved, records, faults, n - 1);
      SyncOneIds(s.zone, s.nextId, records[n - 1], FaultAt(faults, n - 1));
    }
  }

  /** However the calls fail, records that no row claims keep their contents and their order. */
  lemma {:induction false} SyncFrame(z: Zone, nextId: nat, saved: map<nat, nat>, records: seq<Expected>,
                                     faults: seq<Fault>, n: nat, p: Pred)
    requires UniqueIds(z, nextId) && n <= |records|
    requires forall i :: 0 <= i < |records| ==> Avoids(p, records[i])
    ensures Filter(SyncFirst(z, nextId, saved, records, faults, n).zone, p) == Filter(z, p)
  {
    hide SyncOne, Avoids, Filter;
    if n > 0 {
      SyncFrame(z, nextId, saved, records, faults, n - 1, p);
      SyncFirstIds(z, nextId, saved, records, faults, n - 1);
      var s := SyncFirst(z, nextId, saved, records, faults, n - 1);
      SyncOneFrame(s.zone, s.nextId, records[n - 1], FaultAt(faults, n - 1), p);
    }
  }

  function UnrecognisedTxt(): Pred {
    (e: ProviderRecord) => e.kind == "TXT" && TxtKind(e.content).None?
  }

  function TxtOf(name: string, kind: string): Pred {
    (e: ProviderRecord) => e.kind == "TXT" && e.name == name && TxtKind(e.content) == Some(kind)
  }

  /** If every TXT row is of a recognised kind, no TXT record of another kind or purpose is ever touched. */
  lemma OtherTxtUntouched(z: Zone, nextId: nat, records: seq<Expected>, faults: seq<Fault>, name: string, kind: string)
    requires UniqueIds(z, nextId)
    requires forall r :: r in records && r.kind == "TXT" ==> TxtKind(r.content).Some?
    ensures Filter(Sync(z, nextId, records, faults), UnrecognisedTxt()) == Filter(z, UnrecognisedTxt())
    ensures (forall r :: r in records && r.kind == "TXT" && r.name == name ==> TxtKind(r.content) != Some(kind)) ==>
              Filter(Sync(z, nextId, records, faults), TxtOf(name, kind)) == Filter(z, TxtOf(name, kind))
  {
    hide TxtKind, Filter, SyncFirst, MxHost, Strip;
    forall i | 0 <= i < |records| ensures Avoids(UnrecognisedTxt(), records[i]) {
      KindsDiffer(UnrecognisedTxt(), records[i], None);
    }
    SyncFrame(z, nextId, map[], records, faults, |records|, UnrecognisedTxt());
    if forall r :: r in records && r.kind == "TXT" && r.name == name ==> TxtKind(r.content) != Some(kind) {
      forall i | 0 <= i < |records| ensures Avoids(TxtOf(name, kind), records[i]) {
        KindsDiffer(TxtOf(name, kind), records[i], Some(kind));
      }
      SyncFrame(z, nextId, map[], records, faults, |records|, TxtOf(name, kind));
    }
  }

  lemma KindsDiffer(p: Pred, r: Expected, kind: Option<string>)
    requires r.kind == "TXT" ==> TxtKind(r.content).Some?
    requires forall e :: p(e) ==> e.kind == "TXT" && TxtKind(e.content) == kind
    requires forall e :: p(e) && r.kind == "TXT" && e.name == r.name ==> TxtKind(r.content) != kind
    ensures Avoids(p, r)
  {
  }

  // ----- Settled rows -----

  predicate Exact(r: Expected, e: ProviderRecord) {
    e.kind == r.kind && e.name == r.name && Strip(e.content) == Strip(r.content)
  }

  function ExactTo(r: Expected): Pred {
    (e: ProviderRecord) => Exact(r, e)
  }

  /** The same TXT purpose as a managed row. */
  predicate SamePurpose(r: Expected, e: ProviderRecord) {
    && r.kind == "TXT" && e.kind == "TXT" && e.name == r.name
    && TxtKind(r.content).Some? && TxtKind(e.content) == TxtKind(r.content)
  }

  /** The record a row would match holds exactly what the row asks for, and is the only one of its purpose. */
  predicate Settled(r: Expected, z: Zone) {
    var e := Find(z, ExactTo(r));
    && e.Some? && e.value == Payload(r, e.value.id)
    && (forall x :: x in z && SamePurpose(r, x) ==> x == e.value)
  }

  lemma {:induction false} FindInFilter(z: Zone, p: Pred, q: Pred, both: Pred)
    requires forall e :: both(e) <==> p(e) && q(e)
    ensures Find(Filter(z, p), q) == Find(z, both)
  {
    if z != [] {
      FindInFilter(z[1..], p, q, both);
      if p(z[0]) {
        assert Filter(z, p)[1..] == Filter(z[1..], p);
      } else {
        assert Filter(z, p) == Filter(z[1..], p);
      }
    }
  }

  /** An exact record always wins. */
  lemma ExactChosen(z: Zone, r: Expected)
    ensures var e := Find(z, ExactTo(r));
            e.Some? ==> ChooseExisting(r, List(z, r)) == e
    ensures Find(z, ExactTo(r)).None? ==> forall x :: x in List(z, r) ==> Strip(x.content) != Strip(r.content)
  {
    hide Strip, TxtKind, MxHost, Find, Filter;
    FindInFilter(z, Under(r), SameText(r.content), ExactTo(r));
  }

  lemma {:induction false} FindPut(z: Zone, e: ProviderRecord, p: Pred)
    requires Find(z, p).Some?
    requires if p(e) then Find(z, p).value.id == e.id else Find(z, p).value.id != e.id
    ensures Find(Put(z, e), p) == if p(e) then Some(e) else Find(z, p)
  {
    assert Put(z, e)[1..] == Put(z[1..], e);
    if !p(z[0]) {
      if p(e) && z[0].id == e.id {
      } else {
        FindPut(z[1..], e, p);
      }
    }
  }

  lemma {:induction false} FindPutNew(z: Zone, e: ProviderRecord, p: Pred)
    requires p(e) && (exists c :: c in z && c.id == e.id) && forall x :: x in z ==> !p(x)
    ensures Find(Put(z, e), p) == Some(e)
  {
  }

  lemma {:induction false} FindAppend(z: Zone, e: ProviderRecord, p: Pred)
    ensures Find(z + [e], p) == if Find(z, p).Some? then Find(z, p) else if p(e) then Some(e) else None
  {
    if z == [] {
      assert (z + [e])[1..] == [];
    } else {
      FindAppend(z[1..], e, p);
      assert (z + [e])[1..] == z[1..] + [e];
    }
  }

  lemma {:induction false} FindWithout(z: Zone, id: nat, p: Pred)
    requires Find(z, p).Some? && Find(z, p).value.id != id
    ensures Find(Without(z, id), p) == Find(z, p)
  {
    if z[0].id != id {
      assert Without(z, id)[0] == z[0] && Without(z, id)[1..] == Without(z[1..], id);
    } else {
      assert Without(z, id) == Without(z[1..], id);
    }
    if !p(z[0]) {
      FindWithout(z[1..], id, p);
    }
  }

  lemma {:induction false} DeleteAllFacts(z: Zone, dups: seq<ProviderRecord>, p: Pred)
    requires Find(z, p).Some? && forall d :: d in dups ==> d.id != Find(z, p).value.id
    ensures Find(DeleteAll(z, dups), p) == Find(z, p)
    ensures forall x :: x in DeleteAll(z, dups) ==> x in z && forall d :: d in dups ==> x.id != d.id
    decreases |dups|
  {
    hide Find;
    if dups != [] {
      FindWithout(z, dups[0].id, p);
      DeleteAllFacts(Without(z, dups[0].id), dups[1..], p);
    }
  }

  /** Everything of the row's purpose but the written record is stale. */
  lemma StaleComplete(z: Zone, r: Expected, id: nat, x: ProviderRecord)
    requires x in z && SamePurpose(r, x) && x.id != id
    ensures x in StaleDuplicates(r, List(z, r), id)
  {
  }

  /** A fault-free turn settles its row. */
  lemma SettlesItsRow(z: Zone, nextId: nat, r: Expected)
    requires UniqueIds(z, nextId)
    ensures Settled(r, SyncOne(z, nextId, r, NoFault).zone)
  {
    hide ChooseExisting, StaleDuplicates, Claims, Filter, Strip, TxtKind, Find, DeleteAll;
    var chosen := ChooseExisting(r, List(z, r));
    var id := UpsertId(chosen, nextId);
    var e := Payload(r, id);
    var z1 := Upsert(z, chosen, r, nextId);
    var dups := StaleDuplicates(r, List(z, r), id);
    ChosenIn(z, r);
    ExactChosen(z, r);
    var found := Find(z, ExactTo(r));
    if found.Some? {
      FindPut(z, e, ExactTo(r));
    } else if chosen.Some? {
      FindPutNew(z, e, ExactTo(r));
    } else {
      FindAppend(z, e, ExactTo(r));
    }
    assert Find(z1, ExactTo(r)) == Some(e);
    DeleteAllFacts(z1, dups, ExactTo(r));
    forall x | x in DeleteAll(z1, dups) && SamePurpose(r, x) ensures x == e {
      UpsertMembers(z, nextId, r, x);
      if x in z && x.id != id {
        StaleComplete(z, r, id, x);
      } else if x != e {
        NotWritten(z, nextId, r, x);
      }
    }
  }

  /** After the write, the written id holds the written record only. */
  lemma NotWritten(z: Zone, nextId: nat, r: Expected, x: ProviderRecord)
    requires UniqueIds(z, nextId)
    requires var c := ChooseExisting(r, List(z, r)); x in Upsert(z, c, r, nextId)
    ensures var id := UpsertId(ChooseExisting(r, List(z, r)), nextId); x.id == id ==> x == Payload(r, id)
  {
  }

  lemma ExactIsClaimed(r: Expected, e: ProviderRecord)
    ensures Exact(r, e) || SamePurpose(r, e) ==> Claims(r, e)
  {
  }

  lemma ClaimsIgnoresId(q: Expected, r: Expected, e: ProviderRecord)
    requires e == Payload(r, e.id)
    ensures Claims(q, e) <==> Claims(q, Payload(r, 0))
  {
  }

  /** A turn for another row, fault or not, leaves a settled row settled. */
  lemma StaysSettled(z: Zone, nextId: nat, r: Expected, q: Expected, f: Fault)
    requires UniqueIds(z, nextId) && Settled(r, z)
    requires !Claims(q, Payload(r, 0)) && !Claims(r, Payload(q, 0))
    ensures Settled(r, SyncOne(z, nextId, q, f).zone)
  {
    hide ChooseExisting, StaleDuplicates, Claims, Filter, Strip, TxtKind, Find, DeleteAll;
    var e := Find(z, ExactTo(r)).value;
    var chosen := ChooseExisting(q, List(z, q));
    var id := UpsertId(chosen, nextId);
    var w := Payload(q, id);
    var z1 := Upsert(z, chosen, q, nextId);
    var dups := StaleDuplicates(q, List(z, q), id);
    ChosenIn(z, q);
    ClaimsIgnoresId(q, r, e);
    ClaimsIgnoresId(r, q, w);
    ExactIsClaimed(r, w);
    if chosen.Some? {
      var c := chosen.value;
      if c.id == e.id {
        SameIdSame(z, nextId, c, e);
        assert false;
      }
      FindPut(z, w, ExactTo(r));
    } else {
      FindAppend(z, w, ExactTo(r));
    }
    forall d | d in dups ensures d.id != e.id {
      if d.id == e.id {
        SameIdSame(z, nextId, d, e);
        assert false;
      }
    }
    forall x | x in z1 && SamePurpose(r, x) ensures x == e {
      UpsertMembers(z, nextId, q, x);
    }
    DeleteAllFacts(z1, dups, ExactTo(r));
    DeleteAllFacts(z1, dups[..if f.DeleteFails? && f.done < |dups| then f.done else |dups|], ExactTo(r));
  }

  /** A turn for a settled row changes nothing. */
  lemma SettledIsFixed(z: Zone, nextId: nat, r: Expected)
    requires UniqueIds(z, nextId) && Settled(r, z)
    ensures var s := SyncOne(z, nextId, r, NoFault);
            s.zone == z && s.nextId == nextId && s.action == Kept
  {
    hide ChooseExisting, StaleDuplicates, Claims, Filter, Strip, TxtKind, Find;
    var e := Find(z, ExactTo(r)).value;
    ExactChosen(z, r);
    ChosenIn(z, r);
    forall i | 0 <= i < |z| && z[i].id == e.id ensures z[i] == e {
      SameIdSame(z, nextId, z[i], e);
    }
    assert Put(z, e) == z;
    var dups := StaleDuplicates(r, List(z, r), e.id);
    if dups != [] {
      StaleArePurpose(z, r, e.id, dups[0]);
      assert false;
    }
  }

  lemma StaleArePurpose(z: Zone, r: Expected, id: nat, d: ProviderRecord)
    requires d in StaleDuplicates(r, List(z, r), id)
    ensures d in z && SamePurpose(r, d) && d.id != id
  {
  }

  // ----- What a fault-free turn does -----

  function ClaimedBy(r: Expected): Pred {
    (e: ProviderRecord) => Claims(r, e)
  }

  /** Nothing is claimed and the record is created, under a new id. */
  ghost predicate Creates(z: Zone, nextId: nat, r: Expected, s: Step) {
    && (forall e :: e in z ==> !Claims(r, e))
    && s == Step(z + [Payload(r, nextId)], nextId + 1, Created, Some(nextId))
  }

  /**
   The record at `i` is overwritten in place: the first exact one, or else the first the row claims.  Other TXT records
   of the same purpose go, and everything else stays.
   */
  ghost predicate Overwrites(z: Zone, nextId: nat, r: Expected, s: Step, i: nat)
    requires i < |z|
  {
    var e := z[i];
    var stale := set x | x in z && SamePurpose(r, x) && x.id != e.id;
    && Claims(r, e) && (Exact(r, e) || forall x :: x in z ==> !Exact(r, x))
    && (forall j :: 0 <= j < i ==> if Exact(r, e) then !Exact(r, z[j]) else !Claims(r, z[j]))
    && s.nextId == nextId && s.saved == Some(e.id)
    && (forall x :: x in s.zone <==> x == Payload(r, e.id) || (x in z && x.id != e.id && x !in stale))
    && (stale == {} ==> s.zone == z[i := Payload(r, e.id)])
    && s.action == if stale != {} then Fixed(|stale|) else if Exact(r, e) then Kept else Updated
  }

  lemma {:induction false} FindSame(z: Zone, p: Pred, q: Pred)
    requires forall x :: x in z ==> p(x) == q(x)
    ensures Find(z, p) == Find(z, q)
  {
    if z != [] {
      FindSame(z[1..], p, q);
    }
  }

  lemma {:induction false} FindFirst(z: Zone, p: Pred) returns (i: nat)
    requires Find(z, p).Some?
    ensures i < |z| && z[i] == Find(z, p).value && p(z[i]) && forall j :: 0 <= j < i ==> !p(z[j])
  {
    if p(z[0]) {
      i := 0;
    } else {
      var k := FindFirst(z[1..], p);
      i := k + 1;
    }
  }

  /** The choice: the first exact record of the zone, or else the first claimed one. */
  lemma ChoiceMeans(z: Zone, r: Expected)
    ensures ChooseExisting(r, List(z, r)) ==
            if Find(z, ExactTo(r)).Some? then Find(z, ExactTo(r)) else Find(z, ClaimedBy(r))
  {
    hide Strip, TxtKind, MxHost, Find, Filter;
    ExactChosen(z, r);
    if Find(z, ExactTo(r)).None? {
      var existing := List(z, r);
      FindInFilter(z, Under(r), ClaimedBy(r), ClaimedBy(r));
      InexactChoice(r, existing);
    }
  }

  lemma InexactChoice(r: Expected, existing: Zone)
    requires forall x :: x in existing ==> x.kind == r.kind && x.name == r.name && Strip(x.content) != Strip(r.content)
    ensures ChooseExisting(r, existing) == Find(existing, ClaimedBy(r))
  {
    hide Strip, TxtKind, MxHost;
    if r.kind == "TXT" && TxtKind(r.content).Some? {
      FindSame(existing, OfKind(TxtKind(r.content)), ClaimedBy(r));
    } else if r.kind == "MX" {
      FindSame(existing, OfHost(MxHost(r.content)), ClaimedBy(r));
    }
  }

  lemma {:induction false} CountOnce(z: Zone, nextId: nat)
    requires UniqueIds(z, nextId)
    ensures |set x | x in z| == |z|
  {
    if z != [] {
      CountOnce(z[1..], nextId);
      assert (set x | x in z) == {z[0]} + (set x | x in z[1..]);
    }
  }

  lemma StaleAre(z: Zone, nextId: nat, r: Expected, id: nat)
    requires UniqueIds(z, nextId)
    ensures var stale := set x | x in z && SamePurpose(r, x) && x.id != id;
            var dups := StaleDuplicates(r, List(z, r), id);
            && (forall x :: x in dups <==> x in stale) && |dups| == |stale|
  {
    hide TxtKind, Filter, Strip;
    var stale := set x | x in z && SamePurpose(r, x) && x.id != id;
    var dups := StaleDuplicates(r, List(z, r), id);
    forall x ensures x in dups <==> x in stale {
      if x in stale { StaleComplete(z, r, id, x); }
      if x in dups { StaleArePurpose(z, r, id, x); }
    }
    FilterIds(z, Under(r), nextId);
    FilterIds(List(z, r), Duplicates(TxtKind(r.content), id), nextId);
    CountOnce(dups, nextId);
    assert stale == set x | x in dups;
  }

  lemma {:induction false} DeleteAllMembers(z: Zone, dups: seq<ProviderRecord>)
    ensures forall x :: x in DeleteAll(z, dups) <==> x in z && forall d :: d in dups ==> x.id != d.id
    decreases |dups|
  {
    if dups != [] {
      DeleteAllMembers(Without(z, dups[0].id), dups[1..]);
    }
  }

  lemma TurnCreates(z: Zone, nextId: nat, r: Expected)
    requires forall e :: e in z ==> !Claims(r, e)
    ensures Creates(z, nextId, r, SyncOne(z, nextId, r, NoFault))
  {
    hide ChooseExisting, StaleDuplicates, Claims, Filter, Strip, Find;
    ChosenIn(z, r);
    var dups := StaleDuplicates(r, List(z, r), nextId);
    if dups != [] { HeadIn(dups); assert false; }
  }

  lemma HeadIn(z: Zone)
    requires z != []
    ensures z[0] in z
  {
  }

  lemma TurnOverwrites(z: Zone, nextId: nat, r: Expected) returns (i: nat)
    requires UniqueIds(z, nextId) && exists e :: e in z && Claims(r, e)
    ensures i < |z| && Overwrites(z, nextId, r, SyncOne(z, nextId, r, NoFault), i)
  {
    hide ChooseExisting, StaleDuplicates, Claims, Filter, Strip, TxtKind, DeleteAll, SamePurpose, Put, List, UniqueIds;
    i := FirstChosen(z, r);
    ZoneAfter(z, nextId, r, i);
  }

  /** The zone once the record at `i` is overwritten and the stale ones are gone. */
  lemma ZoneAfter(z: Zone, nextId: nat, r: Expected, i: nat)
    requires UniqueIds(z, nextId) && i < |z|
    ensures var stale := set x | x in z && SamePurpose(r, x) && x.id != z[i].id;
            var dups := StaleDuplicates(r, List(z, r), z[i].id);
            var after := DeleteAll(Put(z, Payload(r, z[i].id)), dups);
            && |dups| == |stale|
            && (forall x :: x in after <==> x == Payload(r, z[i].id) || (x in z && x.id != z[i].id && x !in stale))
            && (stale == {} ==> after == z[i := Payload(r, z[i].id)])
  {
    hide ChooseExisting, StaleDuplicates, Claims, Filter, Strip, TxtKind, SamePurpose, Put, List;
    var z1 := Put(z, Payload(r, z[i].id));
    var dups := StaleDuplicates(r, List(z, r), z[i].id);
    StaleAre(z, nextId, r, z[i].id);
    DeleteAllMembers(z1, dups);
    OnlyDeleted(z, nextId, r, i, dups);
    if dups == [] { DeleteNone(z1); }
  }

  lemma FirstChosen(z: Zone, r: Expected) returns (i: nat)
    requires exists e :: e in z && Claims(r, e)
    ensures i < |z| && ChooseExisting(r, List(z, r)) == Some(z[i]) && Claims(r, z[i])
    ensures Exact(r, z[i]) <==> Strip(z[i].content) == Strip(r.content)
    ensures Exact(r, z[i]) || forall x :: x in z ==> !Exact(r, x)
    ensures forall j :: 0 <= j < i ==> if Exact(r, z[i]) then !Exact(r, z[j]) else !Claims(r, z[j])
  {
    hide ChooseExisting, Filter, Strip, Find, TxtKind, MxHost;
    ChoiceMeans(z, r);
    if Find(z, ExactTo(r)).Some? {
      i := FindFirst(z, ExactTo(r));
      ExactIsClaimed(r, z[i]);
    } else {
      i := FindFirst(z, ClaimedBy(r));
    }
  }

  /** The records left after the deletions. */
  lemma OnlyDeleted(z: Zone, nextId: nat, r: Expected, i: nat, dups: seq<ProviderRecord>)
    requires UniqueIds(z, nextId) && i < |z| && forall d :: d in dups ==> d in z && d.id != z[i].id
    ensures var z1 := Put(z, Payload(r, z[i].id));
            && z1 == z[i := Payload(r, z[i].id)]
            && forall x :: (x in z1 && forall d :: d in dups ==> x.id != d.id) <==>
                           x == Payload(r, z[i].id) || (x in z && x.id != z[i].id && x !in dups)
  {
    var w := Payload(r, z[i].id);
    var z1 := Put(z, w);
    assert z1[i] == w;
    forall x | x in z && x.id != z[i].id ensures x in z1 {
      var k :| 0 <= k < |z| && z[k] == x;
      assert z1[k] == x;
    }
    forall x, d | x in z && d in dups && x.id == d.id ensures x == d {
      SameIdSame(z, nextId, x, d);
    }
  }

  /**
   A fault-free turn creates a record if and only if the zone holds none the row claims; otherwise it takes no new id
   and overwrites a claimed one.
   */
  lemma TurnMeans(z: Zone, nextId: nat, r: Expected)
    requires UniqueIds(z, nextId)
    ensures var s := SyncOne(z, nextId, r, NoFault);
            if forall e :: e in z ==> !Claims(r, e) then Creates(z, nextId, r, s)
            else exists i: nat :: i < |z| && Overwrites(z, nextId, r, s, i)
  {
    hide SyncOne, Claims, Creates, Overwrites;
    if forall e :: e in z ==> !Claims(r, e) {
      TurnCreates(z, nextId, r);
    } else {
      var i := TurnOverwrites(z, nextId, r);
    }
  }

  /** Where the row claims at most one record there is exactly one afterwards, the expected one, under the id it had. */
  lemma OneClaimedStaysOne(z: Zone, nextId: nat, r: Expected)
    requires UniqueIds(z, nextId) && |Filter(z, ClaimedBy(r))| <= 1
    ensures var s := SyncOne(z, nextId, r, NoFault);
            var had := Filter(z, ClaimedBy(r));
            Filter(s.zone, ClaimedBy(r)) == [Payload(r, if had == [] then nextId else had[0].id)]
  {
    hide SyncOne, Claims, Filter, UniqueIds, SamePurpose, Exact;
    var s := SyncOne(z, nextId, r, NoFault);
    var had := Filter(z, ClaimedBy(r));
    SyncOneIds(z, nextId, r, NoFault);
    var w;
    if forall e :: e in z ==> !Claims(r, e) {
      TurnCreates(z, nextId, r);
      w := Payload(r, nextId);
      if had != [] { HeadIn(had); assert false; }
    } else {
      var i := TurnOverwrites(z, nextId, r);
      assert z[i] in had;
      w := Payload(r, z[i].id);
      assert forall x :: x in z && Claims(r, x) ==> x in had;
    }
    PayloadClaimed(r, w.id);
    OneMatch(s.zone, s.nextId, ClaimedBy(r), w);
  }

  // ----- Whole runs -----

  lemma {:induction false} FirstSettle(z: Zone, nextId: nat, saved: map<nat, nat>, records: seq<Expected>, n: nat)
    requires UniqueIds(z, nextId) && Compatible(records) && n <= |records|
    ensures forall i :: 0 <= i < n ==> Settled(records[i], SyncFirst(z, nextId, saved, records, [], n).zone)
  {
    hide SyncOne, Settled, Claims;
    if n > 0 {
      FirstSettle(z, nextId, saved, records, n - 1);
      SyncFirstIds(z, nextId, saved, records, [], n - 1);
      var s := SyncFirst(z, nextId, saved, records, [], n - 1);
      SettlesItsRow(s.zone, s.nextId, records[n - 1]);
      forall i | 0 <= i < n - 1 ensures Settled(records[i], SyncOne(s.zone, s.nextId, records[n - 1], NoFault).zone) {
        StaysSettled(s.zone, s.nextId, records[i], records[n - 1], NoFault);
      }
    }
  }

  lemma {:induction false} SettledRun(z: Zone, nextId: nat, saved: map<nat, nat>, records: seq<Expected>, n: nat)
    requires UniqueIds(z, nextId) && n <= |records|
    requires forall i :: 0 <= i < |records| ==> Settled(records[i], z)
    ensures var s := SyncFirst(z, nextId, saved, records, [], n);
            s.zone == z && s.nextId == nextId && forall a :: a in s.applied ==> a == Kept
  {
    hide SyncOne, Settled, UniqueIds;
    if n > 0 {
      SettledRun(z, nextId, saved, records, n - 1);
      SettledIsFixed(z, nextId, records[n - 1]);
      assert FaultAt([], n - 1) == NoFault;
    }
  }

  lemma {:induction false} OneMatch(z: Zone, nextId: nat, p: Pred, e: ProviderRecord)
    requires UniqueIds(z, nextId) && e in z && p(e) && forall x :: x in z && p(x) ==> x == e
    ensures Filter(z, p) == [e]
  {
    var f := Filter(z, p);
    FilterIds(z, p, nextId);
    assert e in f;
    assert |f| > 1 ==> f[0].id != f[1].id;
    forall i | 0 <= i < |f| ensures f[i] == e {
      assert f[i] in f;
    }
  }

  /** A settled row of a recognised kind has exactly one record of its purpose, holding its content. */
  lemma SettledTxt(z: Zone, nextId: nat, r: Expected)
    requires UniqueIds(z, nextId) && Settled(r, z) && r.kind == "TXT" && TxtKind(r.content).Some?
    ensures exists id :: Filter(z, TxtOf(r.name, TxtKind(r.content).value)) == [Payload(r, id)]
  {
    hide TxtKind, Filter, Strip, Find;
    var e := Find(z, ExactTo(r)).value;
    OneMatch(z, nextId, TxtOf(r.name, TxtKind(r.content).value), e);
  }

  /** A fault-free sync settles every row, whatever state earlier runs, failed or not, left the zone in. */
  lemma SyncConverges(z: Zone, nextId: nat, records: seq<Expected>)
    requires UniqueIds(z, nextId) && Compatible(records)
    ensures forall r :: r in records ==> Settled(r, Sync(z, nextId, records, []))
    ensures forall r :: r in records && r.kind == "TXT" && TxtKind(r.content).Some? ==>
              exists id :: Filter(Sync(z, nextId, records, []), TxtOf(r.name, TxtKind(r.content).value)) == [Payload(r, id)]
  {
    hide SyncFirst, Settled, TxtKind, Filter;
    FirstSettle(z, nextId, map[], records, |records|);
    SyncFirstIds(z, nextId, map[], records, [], |records|);
    var s := SyncFirst(z, nextId, map[], records, [], |records|);
    forall r | r in records && r.kind == "TXT" && TxtKind(r.content).Some?
      ensures exists id :: Filter(s.zone, TxtOf(r.name, TxtKind(r.content).value)) == [Payload(r, id)]
    {
      SettledTxt(s.zone, s.nextId, r);
    }
  }

  /** A second sync changes nothing: same zone, no new ids, every action `kept`. */
  lemma SyncIsIdempotent(z: Zone, nextId: nat, saved: map<nat, nat>, records: seq<Expected>)
    requires UniqueIds(z, nextId) && Compatible(records)
    ensures var s := SyncFirst(z, nextId, saved, records, [], |records|);
            var t := SyncFirst(s.zone, s.nextId, s.saved, records, [], |records|);
            t.zone == s.zone && t.nextId == s.nextId && forall a :: a in t.applied ==> a == Kept
  {
    hide SyncFirst, Settled, Compatible;
    FirstSettle(z, nextId, saved, records, |records|);
    SyncFirstIds(z, nextId, saved, records, [], |records|);
    var s := SyncFirst(z, nextId, saved, records, [], |records|);
    SettledRun(s.zone, s.nextId, s.saved, records, |records|);
  }

  /** Row `k` alone decides what the records it claims become: untouched before its turn, the expected one after it. */
  lemma {:induction false} OneRecordAfter(z: Zone, nextId: nat, saved: map<nat, nat>, records: seq<Expected>, k: nat, n: nat)
    returns (id: nat)
    requires UniqueIds(z, nextId) && k < |records| && n <= |records|
    requires |Filter(z, ClaimedBy(records[k]))| <= 1
    requires forall i :: 0 <= i < |records| && i != k ==> Avoids(ClaimedBy(records[k]), records[i])
    ensures var had := Filter(z, ClaimedBy(records[k]));
            && Filter(SyncFirst(z, nextId, saved, records, [], n).zone, ClaimedBy(records[k])) ==
               (if n <= k then had else [Payload(records[k], id)])
            && (had != [] ==> id == had[0].id)
  {
    hide SyncOne, Claims, Filter, Avoids;
    var had, p := Filter(z, ClaimedBy(records[k])), ClaimedBy(records[k]);
    id := if had != [] then had[0].id else 0;
    if n > 0 {
      id := OneRecordAfter(z, nextId, saved, records, k, n - 1);
      SyncFirstIds(z, nextId, saved, records, [], n - 1);
      var s := SyncFirst(z, nextId, saved, records, [], n - 1);
      if n - 1 == k {
        OneClaimedStaysOne(s.zone, s.nextId, records[k]);
        id := if had != [] then id else s.nextId;
      } else {
        SyncOneFrame(s.zone, s.nextId, records[n - 1], NoFault, p);
      }
    }
  }

  /**
   A row whose records no other row claims, and that claims at most one: a fault-free sync leaves exactly one, the
   expected one, under the id it had.
   */
  lemma OneRecordConverges(z: Zone, nextId: nat, records: seq<Expected>, k: nat)
    requires UniqueIds(z, nextId) && k < |records| && |Filter(z, ClaimedBy(records[k]))| <= 1
    requires forall i, e :: 0 <= i < |records| && i != k && Claims(records[k], e) ==> !Claims(records[i], e)
    ensures var had := Filter(z, ClaimedBy(records[k]));
            exists id :: && Filter(Sync(z, nextId, records, []), ClaimedBy(records[k])) == [Payload(records[k], id)]
                         && (had != [] ==> id == had[0].id)
  {
    hide SyncFirst, Claims, Filter;
    var id := OneRecordAfter(z, nextId, map[], records, k, |records|);
  }

  lemma {:induction false} FilterSame(z: Zone, p: Pred, q: Pred)
    requires forall x :: p(x) == q(x)
    ensures Filter(z, p) == Filter(z, q)
  {
    if z != [] {
      FilterSame(z[1..], p, q);
    }
  }

  /** For an address or alias this is the one record of its name. */
  lemma AddressConverges(z: Zone, nextId: nat, records: seq<Expected>, k: nat)
    requires UniqueIds(z, nextId) && Compatible(records) && k < |records| && |Filter(z, Under(records[k]))| <= 1
    requires records[k].kind !in ["TXT", "MX", "CAA"]
    ensures var r, had := records[k], Filter(z, Under(records[k]));
            exists id :: && Filter(Sync(z, nextId, records, []), Under(r)) == [Payload(r, id)]
                         && (had != [] ==> id == had[0].id)
  {
    hide SyncFirst, Filter, Strip, TxtKind, MxHost;
    var r := records[k];
    assert forall e :: Claims(r, e) <==> Under(r)(e);
    FilterSame(z, Under(r), ClaimedBy(r));
    FilterSame(Sync(z, nextId, records, []), Under(r), ClaimedBy(r));
    assert forall i :: 0 <= i < |records| && i != k ==> !Claims(records[i], Payload(r, 0));
    OneRecordConverges(z, nextId, records, k);
  }

  function Contents(z: Zone): seq<string> {
    seq(|z|, i requires 0 <= i < |z| => z[i].content)
  }

  /** Recovery: after any run, however it failed, a fault-free run gives every managed TXT the contents a clean run gives. */
  lemma FailedRunsRecover(z: Zone, nextId: nat, records: seq<Expected>, faults: seq<Fault>, r: Expected)
    requires UniqueIds(z, nextId) && Compatible(records)
    requires r in records && r.kind == "TXT" && TxtKind(r.content).Some?
    ensures var p := TxtOf(r.name, TxtKind(r.content).value);
            var failed := SyncFirst(z, nextId, map[], records, faults, |records|);
            Contents(Filter(Sync(failed.zone, failed.nextId, records, []), p)) ==
            Contents(Filter(Sync(z, nextId, records, []), p)) == [r.content]
  {
    hide SyncFirst, Settled, Compatible, TxtKind, Filter;
    var failed := SyncFirst(z, nextId, map[], records, faults, |records|);
    SyncFirstIds(z, nextId, map[], records, faults, |records|);
    SyncConverges(z, nextId, records);
    SyncConverges(failed.zone, failed.nextId, records);
  }
}
