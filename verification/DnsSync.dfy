/**
 Reconciling a domain's expected records with the provider
 (apps/api/src/dkim/dns.service.ts, syncToProvider), for providers with an id per
 record.  A zone is the provider's record list in listing order.
 */
module DnsSync {
  import opened Text
  import opened DnsReconcile

  type Zone = seq<ProviderRecord>

  /** How far one row's provider calls get; `applied` is whether a failed call still took effect. */
  datatype Fault =
    | NoFault
    | ListFails
    | UpsertFails(applied: bool)
    | DeleteFails(done: nat)
    | SaveFails

  datatype Action = Fixed(removed: nat) | Created | Kept | Updated | Error

  datatype Step = Step(zone: Zone, nextId: nat, action: Action, saved: Option<nat>)

  function Under(r: Expected): Pred {
    (e: ProviderRecord) => e.name == r.name && e.kind == r.kind
  }

  function List(z: Zone, r: Expected): Zone {
    Filter(z, Under(r))
  }

  /** PUT on a record id. */
  function Put(z: Zone, e: ProviderRecord): (n: Zone)
    ensures |n| == |z|
    ensures forall i :: 0 <= i < |z| ==> n[i] == if z[i].id == e.id then e else z[i]
  {
    seq(|z|, i requires 0 <= i < |z| => if z[i].id == e.id then e else z[i])
  }

  /** PUT on the chosen record, or POST. */
  function Upsert(z: Zone, chosen: Option<ProviderRecord>, r: Expected, nextId: nat): Zone {
    if chosen.Some? then Put(z, Payload(r, chosen.value.id)) else z + [Payload(r, nextId)]
  }

  function UpsertId(chosen: Option<ProviderRecord>, nextId: nat): nat {
    if chosen.Some? then chosen.value.id else nextId
  }

  function OtherId(id: nat): Pred {
    (e: ProviderRecord) => e.id != id
  }

  function Without(z: Zone, id: nat): Zone {
    Filter(z, OtherId(id))
  }

  function DeleteAll(z: Zone, dups: seq<ProviderRecord>): Zone
    decreases |dups|
  {
    if dups == [] then z else DeleteAll(Without(z, dups[0].id), dups[1..])
  }

  /** One turn of the loop of syncToProvider. */
  function SyncOne(z: Zone, nextId: nat, r: Expected, fault: Fault): Step {
    if fault.ListFails? then Step(z, nextId, Error, None)
    else
      var existing := List(z, r);
      var chosen := ChooseExisting(r, existing);
      var id := UpsertId(chosen, nextId);
      var after := if chosen.Some? then nextId else nextId + 1;
      if fault.UpsertFails? && !fault.applied then Step(z, nextId, Error, None)
      else
        var z1 := Upsert(z, chosen, r, nextId);
        if fault.UpsertFails? then Step(z1, after, Error, None)
        else
          var dups := StaleDuplicates(r, existing, id);
          if fault.DeleteFails? && dups != [] then
            Step(DeleteAll(z1, dups[..if fault.done < |dups| then fault.done else |dups|]), after, Error, None)
          else if fault.SaveFails? then Step(DeleteAll(z1, dups), after, Error, None)
          else
            var action := if dups != [] then Fixed(|dups|)
                          else if chosen.None? then Created
                          else if Strip(chosen.value.content) == Strip(r.content) then Kept else Updated;
            Step(DeleteAll(z1, dups), after, action, Some(id))
  }

  datatype Synced = Synced(zone: Zone, nextId: nat, saved: map<nat, nat>, applied: seq<Action>)

  function FaultAt(faults: seq<Fault>, i: nat): Fault {
    if i < |faults| then faults[i] else NoFault
  }

  /** The whole loop over the first `n` rows. */
  function SyncFirst(z: Zone, nextId: nat, saved: map<nat, nat>, records: seq<Expected>, faults: seq<Fault>,
                     n: nat): Synced
    requires n <= |records|
  {
    if n == 0 then Synced(z, nextId, saved, [])
    else
      var s := SyncFirst(z, nextId, saved, records, faults, n - 1);
      var r := records[n - 1];
      var t := SyncOne(s.zone, s.nextId, r, FaultAt(faults, n - 1));
      Synced(t.zone, t.nextId, if t.saved.Some? then s.saved[r.rowId := t.saved.value] else s.saved,
             s.applied + [t.action])
  }

  function Sync(z: Zone, nextId: nat, records: seq<Expected>, faults: seq<Fault>): Zone {
    SyncFirst(z, nextId, map[], records, faults, |records|).zone
  }

  class DnsService {
    var zone: Zone
    var nextId: nat
    /** provider_record_id of each dns_records row */
    var saved: map<nat, nat>

    constructor (zone: Zone, nextId: nat, saved: map<nat, nat>)
      ensures this.zone == zone && this.nextId == nextId && this.saved == saved
    {
      this.zone, this.nextId, this.saved := zone, nextId, saved;
    }

    /** syncToProvider */
    method SyncToProvider(records: seq<Expected>, faults: seq<Fault>) returns (applied: seq<Action>)
      modifies this
      ensures Synced(zone, nextId, saved, applied) ==
              SyncFirst(old(zone), old(nextId), old(saved), records, faults, |records|)
      ensures |applied| == |records|
    {
      hide SyncOne;
      applied := [];
      for i := 0 to |records|
        invariant |applied| == i
        invariant Synced(zone, nextId, saved, applied) ==
                  SyncFirst(old(zone), old(nextId), old(saved), records, faults, i)
      {
        var action := SyncRecord(records[i], FaultAt(faults, i));
        applied := applied + [action];
      }
    }

    /** The body of the loop, with its inner loop over the stale duplicates. */
    method SyncRecord(r: Expected, fault: Fault) returns (action: Action)
      modifies this
      ensures var s := SyncOne(old(zone), old(nextId), r, fault);
              && zone == s.zone && nextId == s.nextId && action == s.action
              && saved == if s.saved.Some? then old(saved)[r.rowId := s.saved.value] else old(saved)
    {
      hide ChooseExisting, StaleDuplicates, Strip, DeleteAll, List, Upsert, Without;
      if fault.ListFails? {
        return Error;
      }
      var existing := List(zone, r);
      var chosen := ChooseExisting(r, existing);
      var exact := chosen.Some? && Strip(chosen.value.content) == Strip(r.content);
      if fault.UpsertFails? && !fault.applied {
        return Error;
      }
      var id := UpsertId(chosen, nextId);
      zone := Upsert(zone, chosen, r, nextId);
      nextId := if chosen.Some? then nextId else nextId + 1;
      if fault.UpsertFails? {
        return Error;
      }
      var dups := StaleDuplicates(r, existing, id);
      var stop := if fault.DeleteFails? && fault.done < |dups| then fault.done else |dups|;
      var removed := 0;
      ghost var z1 := zone;
      assert dups[..0] == [];
      DeleteNone(z1);
      while removed < stop
        invariant 0 <= removed <= stop
        invariant zone == DeleteAll(z1, dups[..removed])
        invariant nextId == (if chosen.Some? then old(nextId) else old(nextId) + 1) && saved == old(saved)
      {
        DeleteSnoc(z1, dups[..removed], dups[removed]);
        assert dups[..removed + 1] == dups[..removed] + [dups[removed]];
        zone := Without(zone, dups[removed].id);
        removed := removed + 1;
      }
      assert dups[..|dups|] == dups;
      if (fault.DeleteFails? && dups != []) || fault.SaveFails? {
        return Error;
      }
      saved := saved[r.rowId := id];
      action := if removed > 0 then Fixed(removed) else if chosen.None? then Created else if exact then Kept else Updated;
    }
  }

  lemma DeleteNone(z: Zone)
    ensures DeleteAll(z, []) == z
  {
  }

  lemma {:induction false} DeleteSnoc(z: Zone, dups: seq<ProviderRecord>, d: ProviderRecord)
    ensures DeleteAll(z, dups + [d]) == Without(DeleteAll(z, dups), d.id)
    decreases |dups|
  {
    if dups == [] {
      assert (dups + [d])[1..] == [];
    } else {
      assert (dups + [d])[1..] == dups[1..] + [d];
      DeleteSnoc(Without(z, dups[0].id), dups[1..], d);
    }
  }
}
