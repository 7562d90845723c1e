/**
 Resumable storage migration (packages/storage/src/migrate.ts) with arbitrary failures per object.
 */
module Migrate {
  import opened Text

  type Data = seq<bv8>
  type Objects = map<string, Data>

  datatype Entry = Entry(key: string, size: nat)
  datatype Options = Options(prefix: string, force: bool, dryRun: bool, verify: bool)

  /** What a failed put leaves under the key. */
  datatype Left = Untouched | Removed | Holds(data: Data)
  /** How the backends behave for one key; PutStores is a put that reports success but stored `data`. */
  datatype Fault = Faultless | HeadErrs | ReadErrs | PutErrs(left: Left) | PutStores(data: Data) | VerifyErrs
  type Faults = string -> Fault

  datatype Action = Copied | Skipped | Failed | Aborts

  /** listPrefix: every key with the prefix, once, with its size. */
  ghost predicate Lists(source: Objects, prefix: string, entries: seq<Entry>) {
    && (forall i :: 0 <= i < |entries| ==>
          prefix <= entries[i].key && entries[i].key in source && entries[i].size == |source[entries[i].key]|)
    && (forall i, j :: 0 <= i < j < |entries| ==> entries[i].key != entries[j].key)
    && (forall k :: k in source && prefix <= k ==> exists i :: 0 <= i < |entries| && entries[i].key == k)
  }

  /** targetHasSameSize */
  predicate SameSize(target: Objects, e: Entry) {
    e.key in target && |target[e.key]| == e.size
  }

  /** What the target holds under a key after copyOne. */
  function Stored(source: Objects, target: Objects, e: Entry, fault: Fault): Option<Data>
    requires e.key in source
  {
    var kept := if e.key in target then Some(target[e.key]) else None;
    match fault
    case ReadErrs => kept
    case PutErrs(Untouched) => kept
    case PutErrs(Removed) => None
    case PutErrs(Holds(data)) => Some(data)
    case PutStores(data) => Some(data)
    case _ => Some(source[e.key])
  }

  predicate CopyFails(source: Objects, e: Entry, opts: Options, fault: Fault)
    requires e.key in source
  {
    || fault.ReadErrs? || fault.PutErrs?
    || (opts.verify && (fault.VerifyErrs? || (fault.PutStores? && |fault.data| != e.size)))
  }

  function ActionOf(source: Objects, target: Objects, e: Entry, opts: Options, fault: Fault): Action
    requires e.key in source
  {
    if !opts.force && fault.HeadErrs? then Aborts
    else if !opts.force && SameSize(target, e) then Skipped
    else if opts.dryRun then Copied
    else if CopyFails(source, e, opts, fault) then Failed
    else Copied
  }

  /** What the target holds under a listed key once its entry is processed. */
  function HeldAfter(source: Objects, target: Objects, e: Entry, opts: Options, fault: Fault): Option<Data>
    requires e.key in source
  {
    var action := ActionOf(source, target, e, opts, fault);
    if opts.dryRun || action == Skipped || action == Aborts then
      if e.key in target then Some(target[e.key]) else None
    else Stored(source, target, e, fault)
  }

  function Held(target: Objects, key: string): Option<Data> {
    if key in target then Some(target[key]) else None
  }

  /** The first `done` entries have been processed, nothing else has changed. */
  ghost predicate Processed(source: Objects, before: Objects, after: Objects, entries: seq<Entry>, done: nat,
                            opts: Options, faults: Faults)
    requires done <= |entries| && Lists(source, opts.prefix, entries)
  {
    && (forall i :: 0 <= i < done ==>
          Held(after, entries[i].key) == HeldAfter(source, before, entries[i], opts, faults(entries[i].key)))
    && (forall k :: (forall i :: 0 <= i < done ==> entries[i].key != k) ==> Held(after, k) == Held(before, k))
  }

  /** The entries among the first ones that get a given action. */
  function Picked(source: Objects, target: Objects, entries: seq<Entry>, opts: Options, faults: Faults, action: Action)
    : (r: seq<Entry>)
    requires forall e :: e in entries ==> e.key in source
    ensures forall e :: e in r <==> e in entries && ActionOf(source, target, e, opts, faults(e.key)) == action
    decreases |entries|
  {
    if entries == [] then []
    else
      var e := entries[|entries| - 1];
      Picked(source, target, entries[..|entries| - 1], opts, faults, action)
      + (if ActionOf(source, target, e, opts, faults(e.key)) == action then [e] else [])
  }

  function TotalSize(entries: seq<Entry>): nat
    decreases |entries|
  {
    if entries == [] then 0 else TotalSize(entries[..|entries| - 1]) + entries[|entries| - 1].size
  }

  datatype Summary = Summary(copied: nat, skipped: nat, failed: nat, bytesCopied: nat, failures: seq<string>)

  predicate Counts(s: Summary, copied: seq<Entry>, skipped: seq<Entry>, failed: seq<Entry>) {
    && s.copied == |copied| && s.bytesCopied == TotalSize(copied)
    && s.skipped == |skipped|
    && s.failed == |failed| == |s.failures|
    && forall i :: 0 <= i < |failed| ==> s.failures[i] == failed[i].key
  }

  /** The summary of a run over these entries. */
  ghost predicate Sums(s: Summary, source: Objects, target: Objects, entries: seq<Entry>, opts: Options, faults: Faults)
    requires forall e :: e in entries ==> e.key in source
  {
    Counts(s, Picked(source, target, entries, opts, faults, Copied), Picked(source, target, entries, opts, faults, Skipped),
           Picked(source, target, entries, opts, faults, Failed))
  }

  class Store {
    var objects: Objects

    constructor (objects: Objects)
      ensures this.objects == objects
    {
      this.objects := objects;
    }

    /** copyOne */
    method CopyOne(source: Objects, e: Entry, opts: Options, fault: Fault) returns (ok: bool)
      requires e.key in source && |source[e.key]| == e.size
      modifies this
      ensures ok <==> !CopyFails(source, e, opts, fault)
      ensures Held(objects, e.key) == Stored(source, old(objects), e, fault)
      ensures forall k :: k != e.key ==> Held(objects, k) == Held(old(objects), k)
    {
      if fault.ReadErrs? { return false; }
      if fault.PutErrs? {
        match fault.left {
          case Untouched =>
          case Removed => objects := objects - {e.key};
          case Holds(data) => objects := objects[e.key := data];
        }
        return false;
      }
      objects := objects[e.key := if fault.PutStores? then fault.data else source[e.key]];
      if opts.verify {
        if fault.VerifyErrs? { return false; }
        if |objects[e.key]| != e.size { return false; }
      }
      ok := true;
    }
  }

  function Tally(s: Summary, e: Entry, action: Action): Summary {
    match action
    case Copied => s.(copied := s.copied + 1, bytesCopied := s.bytesCopied + e.size)
    case Skipped => s.(skipped := s.skipped + 1)
    case Failed => s.(failed := s.failed + 1, failures := s.failures + [e.key])
    case Aborts => s
  }

  /** One iteration of migrateStorage's loop. */
  method MigrateOne(source: Objects, target: Store, e: Entry, opts: Options, fault: Fault, summary: Summary)
    returns (tallied: Summary, aborts: bool)
    requires e.key in source && |source[e.key]| == e.size
    modifies target
    ensures var action := ActionOf(source, old(target.objects), e, opts, fault);
            tallied == Tally(summary, e, action) && (aborts <==> action == Aborts)
    ensures Held(target.objects, e.key) == HeldAfter(source, old(target.objects), e, opts, fault)
    ensures forall k :: k != e.key || aborts ==> Held(target.objects, k) == Held(old(target.objects), k)
  {
    hide CopyFails, Stored;
    if !opts.force {
      if fault.HeadErrs? { return summary, true; }
      if SameSize(target.objects, e) { return Tally(summary, e, Skipped), false; }
    }
    if opts.dryRun { return Tally(summary, e, Copied), false; }
    var ok := target.CopyOne(source, e, opts, fault);
    return Tally(summary, e, if ok then Copied else Failed), false;
  }

  /** migrateStorage: `done` entries were processed before it returned, or before a head request threw. */
  method MigrateStorage(source: Objects, target: Store, entries: seq<Entry>, opts: Options, faults: Faults)
    returns (summary: Summary, done: nat)
    requires Lists(source, opts.prefix, entries)
    modifies target
    ensures done <= |entries|
    ensures Processed(source, old(target.objects), target.objects, entries, done, opts, faults)
    ensures Sums(summary, source, old(target.objects), entries[..done], opts, faults)
    ensures summary.copied + summary.skipped + summary.failed == done
    ensures done < |entries| ==> !opts.force && faults(entries[done].key).HeadErrs?
    ensures forall i :: 0 <= i < done && !opts.force ==> !faults(entries[i].key).HeadErrs?
  {
    hide Processed, Sums, Lists;
    assert forall i :: 0 <= i < |entries| ==> entries[i].key in source && |source[entries[i].key]| == entries[i].size by {
      ListedKeys(source, opts.prefix, entries);
    }
    summary, done := Summary(0, 0, 0, 0, []), 0;
    ghost var before := target.objects;
    NothingProcessed(source, before, entries, opts, faults, summary);
    while done < |entries|
      invariant done <= |entries|
      invariant Processed(source, before, target.objects, entries, done, opts, faults)
      invariant Sums(summary, source, before, entries[..done], opts, faults)
      invariant summary.copied + summary.skipped + summary.failed == done
      invariant forall i :: 0 <= i < done && !opts.force ==> !faults(entries[i].key).HeadErrs?
    {
      hide HeldAfter, Held;
      var e := entries[done];
      ghost var now := target.objects;
      SameHere(source, before, now, entries, done, opts, faults);
      ghost var was := summary;
      var tallied, aborts := MigrateOne(source, target, e, opts, faults(e.key), summary);
      if aborts {
        SameObjects(now, target.objects);
        return;
      }
      summary := tallied;
      ProcessedStep(source, before, now, target.objects, entries, done, opts, faults);
      SumsStep(was, source, before, entries, done, opts, faults);
      done := done + 1;
    }
  }

  lemma ListedKeys(source: Objects, prefix: string, entries: seq<Entry>)
    requires Lists(source, prefix, entries)
    ensures forall i :: 0 <= i < |entries| ==> entries[i].key in source && |source[entries[i].key]| == entries[i].size
    ensures forall e :: e in entries ==> e.key in source
  {
  }

  lemma SameObjects(a: Objects, b: Objects)
    requires forall k :: Held(a, k) == Held(b, k)
    ensures a == b
  {
    forall k ensures k in a <==> k in b { assert Held(a, k) == Held(b, k); }
    forall k | k in a ensures a[k] == b[k] { assert Held(a, k) == Held(b, k); }
  }

  lemma NothingProcessed(source: Objects, target: Objects, entries: seq<Entry>, opts: Options, faults: Faults, s: Summary)
    requires Lists(source, opts.prefix, entries) && s == Summary(0, 0, 0, 0, [])
    ensures Processed(source, target, target, entries, 0, opts, faults)
    ensures Sums(s, source, target, entries[..0], opts, faults)
  {
  }

  /** An entry not yet processed is as it was, and so gets the same action. */
  lemma SameHere(source: Objects, before: Objects, now: Objects, entries: seq<Entry>, done: nat, opts: Options,
                 faults: Faults)
    requires done < |entries| && Lists(source, opts.prefix, entries)
    requires Processed(source, before, now, entries, done, opts, faults)
    ensures var e := entries[done];
            var fault := faults(e.key);
            && ActionOf(source, now, e, opts, fault) == ActionOf(source, before, e, opts, fault)
            && HeldAfter(source, now, e, opts, fault) == HeldAfter(source, before, e, opts, fault)
  {
    var e := entries[done];
    assert Held(now, e.key) == Held(before, e.key);
    assert SameSize(now, e) <==> SameSize(before, e);
  }

  lemma ProcessedStep(source: Objects, before: Objects, now: Objects, after: Objects, entries: seq<Entry>, done: nat,
                      opts: Options, faults: Faults)
    requires done < |entries| && Lists(source, opts.prefix, entries)
    requires Processed(source, before, now, entries, done, opts, faults)
    requires Held(after, entries[done].key) == HeldAfter(source, before, entries[done], opts, faults(entries[done].key))
    requires forall k :: k != entries[done].key ==> Held(after, k) == Held(now, k)
    ensures Processed(source, before, after, entries, done + 1, opts, faults)
  {
  }

  lemma SumsStep(s: Summary, source: Objects, target: Objects, entries: seq<Entry>, done: nat, opts: Options,
                 faults: Faults)
    requires done < |entries| && Lists(source, opts.prefix, entries)
    requires Sums(s, source, target, entries[..done], opts, faults)
    ensures Sums(Tally(s, entries[done], ActionOf(source, target, entries[done], opts, faults(entries[done].key))),
                 source, target, entries[..done + 1], opts, faults)
  {
    ListedKeys(source, opts.prefix, entries);
    var e := entries[done];
    var action := ActionOf(source, target, e, opts, faults(e.key));
    hide ActionOf, Picked, Lists, Counts;
    TallyCounts(s, Picked(source, target, entries[..done], opts, faults, Copied),
                Picked(source, target, entries[..done], opts, faults, Skipped),
                Picked(source, target, entries[..done], opts, faults, Failed), e, action);
    PickedStep(source, target, entries, done, opts, faults, Copied);
    PickedStep(source, target, entries, done, opts, faults, Skipped);
    PickedStep(source, target, entries, done, opts, faults, Failed);
  }

  lemma TallyCounts(s: Summary, copied: seq<Entry>, skipped: seq<Entry>, failed: seq<Entry>, e: Entry, action: Action)
    requires Counts(s, copied, skipped, failed)
    ensures Counts(Tally(s, e, action), copied + (if action == Copied then [e] else []),
                   skipped + (if action == Skipped then [e] else []), failed + (if action == Failed then [e] else []))
  {
    TotalSizeAppend(copied, e);
    assert copied + [] == copied;
  }

  lemma PickedStep(source: Objects, target: Objects, entries: seq<Entry>, done: nat, opts: Options, faults: Faults,
                   action: Action)
    requires done < |entries| && forall e :: e in entries ==> e.key in source
    ensures Picked(source, target, entries[..done + 1], opts, faults, action)
         == Picked(source, target, entries[..done], opts, faults, action)
            + if ActionOf(source, target, entries[done], opts, faults(entries[done].key)) == action then [entries[done]] else []
  {
    hide ActionOf;
    assert entries[..done + 1][..done] == entries[..done];
  }

  lemma TotalSizeAppend(xs: seq<Entry>, e: Entry)
    ensures TotalSize(xs + [e]) == TotalSize(xs) + e.size
  {
  }

  // ----- What the operator relies on -----

  /** The summary shows no failures, and the run went to its end. */
  ghost predicate Clean(source: Objects, target: Objects, entries: seq<Entry>, opts: Options, faults: Faults)
    requires Lists(source, opts.prefix, entries)
  {
    forall i :: 0 <= i < |entries| ==>
      var action := ActionOf(source, target, entries[i], opts, faults(entries[i].key));
      action == Copied || action == Skipped
  }

  /** With backends that store what they are given, or with verification, every listed key is there in full size. */
  lemma CleanRunCompletes(source: Objects, before: Objects, after: Objects, entries: seq<Entry>, opts: Options,
                          faults: Faults, i: nat)
    requires Lists(source, opts.prefix, entries) && Processed(source, before, after, entries, |entries|, opts, faults)
    requires Clean(source, before, entries, opts, faults) && !opts.dryRun && i < |entries|
    requires opts.verify || !faults(entries[i].key).PutStores?
    ensures entries[i].key in after && |after[entries[i].key]| == |source[entries[i].key]|
    ensures var copied := ActionOf(source, before, entries[i], opts, faults(entries[i].key)) == Copied;
            (copied || opts.force) && !faults(entries[i].key).PutStores? ==>
              after[entries[i].key] == source[entries[i].key]
  {
    var e := entries[i];
    assert Held(after, e.key) == HeldAfter(source, before, e, opts, faults(e.key));
  }

  /** Keys that were not listed are never touched, however the run ended. */
  lemma UnlistedUntouched(source: Objects, before: Objects, after: Objects, entries: seq<Entry>, done: nat, opts: Options,
                          faults: Faults, key: string)
    requires done <= |entries| && Lists(source, opts.prefix, entries)
    requires Processed(source, before, after, entries, done, opts, faults)
    requires !(opts.prefix <= key) || key !in source || opts.dryRun
    ensures Held(after, key) == Held(before, key)
  {
  }

  /** After a clean run, an immediate run copies nothing and changes nothing. */
  lemma RerunSkips(source: Objects, before: Objects, after: Objects, entries: seq<Entry>, opts: Options, faults: Faults,
                   again: Options, moreFaults: Faults, i: nat)
    requires Lists(source, opts.prefix, entries) && Processed(source, before, after, entries, |entries|, opts, faults)
    requires Clean(source, before, entries, opts, faults) && !opts.dryRun && i < |entries|
    requires opts.verify || !faults(entries[i].key).PutStores?
    requires !again.force && !moreFaults(entries[i].key).HeadErrs?
    ensures ActionOf(source, after, entries[i], again, moreFaults(entries[i].key)) == Skipped
  {
  }

  /** Any run, failed or cut short, followed by one without faults: everything listed is there, nothing is failed. */
  method ResumeCompletes(source: Objects, target: Store, entries: seq<Entry>, opts: Options, faults: Faults)
    returns (first: Summary, second: Summary, third: Summary)
    requires Lists(source, opts.prefix, entries) && !opts.dryRun && !opts.force
    modifies target
    ensures second.failed == 0 && third.copied == 0 && third.failed == 0 && third.skipped == |entries|
    ensures forall k :: k in source && opts.prefix <= k ==> k in target.objects && |target.objects[k]| == |source[k]|
    ensures forall k :: !(opts.prefix <= k) || k !in source ==> Held(target.objects, k) == Held(old(target.objects), k)
  {
    hide Processed, Sums, Lists;
    ghost var t0 := target.objects;
    var done1, done2, done3;
    first, done1 := MigrateStorage(source, target, entries, opts, faults);
    ghost var t1 := target.objects;
    var calm: Faults := _ => Faultless;
    second, done2 := MigrateStorage(source, target, entries, opts, calm);
    ghost var t2 := target.objects;
    third, done3 := MigrateStorage(source, target, entries, opts, calm);
    ghost var t3 := target.objects;
    assert done2 == |entries| && done3 == |entries| && entries[..|entries|] == entries;
    CalmRun(source, t0, t1, t2, t3, entries, opts, calm, second, third);
    AllThere(source, t3, opts.prefix, entries);
    forall k | !(opts.prefix <= k) || k !in source ensures Held(t3, k) == Held(t0, k) {
      UnlistedUntouched(source, t0, t1, entries, done1, opts, faults, k);
      UnlistedUntouched(source, t1, t2, entries, done2, opts, calm, k);
      UnlistedUntouched(source, t2, t3, entries, done3, opts, calm, k);
    }
  }

  lemma AllThere(source: Objects, target: Objects, prefix: string, entries: seq<Entry>)
    requires Lists(source, prefix, entries) && forall i :: 0 <= i < |entries| ==> SameSize(target, entries[i])
    ensures forall k :: k in source && prefix <= k ==> k in target && |target[k]| == |source[k]|
  {
  }

  lemma CalmRun(source: Objects, t0: Objects, t1: Objects, t2: Objects, t3: Objects, entries: seq<Entry>, opts: Options,
                calm: Faults, second: Summary, third: Summary)
    requires Lists(source, opts.prefix, entries) && !opts.dryRun && !opts.force
    requires forall k :: calm(k) == Faultless
    requires Processed(source, t1, t2, entries, |entries|, opts, calm)
    requires Processed(source, t2, t3, entries, |entries|, opts, calm)
    requires Sums(second, source, t1, entries, opts, calm) && Sums(third, source, t2, entries, opts, calm)
    requires third.copied + third.skipped + third.failed == |entries|
    ensures second.failed == 0 && third.copied == 0 && third.failed == 0 && third.skipped == |entries|
    ensures forall i :: 0 <= i < |entries| ==> SameSize(t3, entries[i])
  {
    ListedKeys(source, opts.prefix, entries);
    hide Lists, Sums, Picked, Processed, HeldAfter, Held, CopyFails, Stored;
    CalmIsClean(source, t1, entries, opts, calm);
    forall i | 0 <= i < |entries|
      ensures ActionOf(source, t2, entries[i], opts, calm(entries[i].key)) == Skipped && SameSize(t3, entries[i])
    {
      RerunSkips(source, t1, t2, entries, opts, calm, opts, calm, i);
      StillThere(source, t2, t3, entries, opts, calm, i);
    }
    hide SameSize;
    forall e | e in entries ensures ActionOf(source, t2, e, opts, calm(e.key)) == Skipped {
      var i :| 0 <= i < |entries| && entries[i] == e;
    }
    forall e | e in entries ensures ActionOf(source, t1, e, opts, calm(e.key)) != Failed {
      var i :| 0 <= i < |entries| && entries[i] == e;
    }
    hide ActionOf, Clean;
    NonePicked(source, t1, entries, opts, calm, Failed);
    CalmSums(source, t1, entries, opts, calm, second);
    NonePicked(source, t2, entries, opts, calm, Copied);
    NonePicked(source, t2, entries, opts, calm, Failed);
    CalmSums(source, t2, entries, opts, calm, third);
  }

  lemma CalmIsClean(source: Objects, target: Objects, entries: seq<Entry>, opts: Options, calm: Faults)
    requires Lists(source, opts.prefix, entries) && forall k :: calm(k) == Faultless
    ensures Clean(source, target, entries, opts, calm)
  {
  }

  lemma StillThere(source: Objects, before: Objects, after: Objects, entries: seq<Entry>, opts: Options, faults: Faults,
                   i: nat)
    requires Lists(source, opts.prefix, entries) && Processed(source, before, after, entries, |entries|, opts, faults)
    requires i < |entries| && ActionOf(source, before, entries[i], opts, faults(entries[i].key)) == Skipped
    ensures SameSize(after, entries[i])
  {
  }

  lemma CalmSums(source: Objects, target: Objects, entries: seq<Entry>, opts: Options, calm: Faults, s: Summary)
    requires forall e :: e in entries ==> e.key in source
    requires Sums(s, source, target, entries, opts, calm)
    ensures s.failed == |Picked(source, target, entries, opts, calm, Failed)|
    ensures s.copied == |Picked(source, target, entries, opts, calm, Copied)|
  {
  }

  lemma {:induction false} NonePicked(source: Objects, target: Objects, entries: seq<Entry>, opts: Options, faults: Faults,
                                      action: Action)
    requires forall e :: e in entries ==> e.key in source
    requires forall e :: e in entries ==> ActionOf(source, target, e, opts, faults(e.key)) != action
    ensures Picked(source, target, entries, opts, faults, action) == []
    decreases |entries|
  {
    if entries != [] { NonePicked(source, target, entries[..|entries| - 1], opts, faults, action); }
  }
}
