/**
 Chunked uploads and content-addressed attachments (apps/api/src/attachments/attachments.service.ts), one
 request at a time, with failures of storage and database at each step.
 */
module Uploads {
  import opened Text

  type Data = seq<bv8>
  type Id = nat
  type Org = nat

  /** `uploads/<id>` and `attachments/<hash>` within an organisation. */
  datatype ObjectKey = Staging(org: Org, id: Id) | Final(org: Org, hash: string)
  type Storage = map<ObjectKey, Data>
  datatype Upload = Upload(org: Org, size: nat, uploaded: nat, offset: nat)
  datatype Attachment = Attachment(org: Org, hash: string, size: nat)
  datatype Error = NotFound | TooLarge | OffsetMismatch | ExceedsSize | Incomplete | StorageError | DatabaseError
  datatype Result<T> = Ok(value: T) | Err(error: Error)

  // ----- One upload -----

  /** An upload row and its staged object. */
  datatype Slot = Slot(upload: Upload, staged: Option<Data>)
  datatype Attempt = Attempt(offset: nat, chunk: Data, readFails: bool, putFails: bool, updateFails: bool)

  predicate Accepted(u: Upload, a: Attempt) {
    u.offset == a.offset && u.uploaded + |a.chunk| <= u.size
  }

  function StagedBytes(s: Slot): Data {
    if s.staged.Some? then s.staged.value else []
  }

  /** appendChunk's effect: a failed read counts as an empty object. */
  function Append(s: Slot, a: Attempt): Slot {
    if !Accepted(s.upload, a) || a.putFails then s
    else
      var merged := (if a.readFails then [] else StagedBytes(s)) + a.chunk;
      var u := s.upload;
      Slot(if a.updateFails then u else u.(uploaded := u.uploaded + |a.chunk|, offset := u.offset + |a.chunk|), Some(merged))
  }

  function AppendAll(s: Slot, attempts: seq<Attempt>): Slot
    decreases |attempts|
  {
    if attempts == [] then s else AppendAll(Append(s, attempts[0]), attempts[1..])
  }

  /** The client sends the slice of `source` at the offset it claims. */
  predicate Slice(source: Data, a: Attempt) {
    a.offset + |a.chunk| <= |source| && a.chunk == source[a.offset..a.offset + |a.chunk|]
  }

  /** The staged bytes are the source up to the recorded offset. */
  predicate Aligned(source: Data, s: Slot) {
    && s.upload.size == |source|
    && s.upload.offset == s.upload.uploaded <= s.upload.size
    && StagedBytes(s) == source[..s.upload.offset]
  }

  /**
   One attempt keeps the staged bytes right exactly when it stores nothing; or its read and its update succeed; or
   the failed read had nothing to miss; or the lost update had nothing to record; or, both lost, the chunk repeats
   what was staged.
   */
  lemma AppendKeepsIff(source: Data, s: Slot, a: Attempt)
    requires Aligned(source, s) && Slice(source, a)
    ensures Aligned(source, Append(s, a)) <==>
            || !Accepted(s.upload, a) || a.putFails
            || (if a.updateFails then (if a.readFails then a.chunk == source[..a.offset] else a.chunk == [])
                else !a.readFails || a.offset == 0)
  {
  }

  /** Any run of accepted, rejected, stalled and repeated attempts whose reads and updates succeed. */
  lemma {:induction false} RunStaysAligned(source: Data, s: Slot, attempts: seq<Attempt>)
    requires Aligned(source, s)
    requires forall a :: a in attempts ==> Slice(source, a) && !a.readFails && !a.updateFails
    ensures Aligned(source, AppendAll(s, attempts))
    decreases |attempts|
  {
    if attempts != [] {
      var a := attempts[0];
      assert a in attempts;
      AppendKeepsIff(source, s, a);
      assert forall b :: b in attempts[1..] ==> b in attempts;
      RunStaysAligned(source, Append(s, a), attempts[1..]);
    }
  }

  /** From wherever a run left off, sending the rest at the recorded offset completes the upload. */
  lemma ResumeCompletes(source: Data, s: Slot, attempts: seq<Attempt>)
    requires Aligned(source, s)
    requires forall a :: a in attempts ==> Slice(source, a) && !a.readFails && !a.updateFails
    ensures AppendAll(s, attempts).upload.offset <= |source|
    ensures var left := AppendAll(s, attempts);
            var rest := Attempt(left.upload.offset, source[left.upload.offset..], false, false, false);
            var done := Append(left, rest);
            Accepted(left.upload, rest) && done.upload.uploaded == |source| && done.staged == Some(source)
  {
    RunStaysAligned(source, s, attempts);
    var left := AppendAll(s, attempts);
    assert source[..left.upload.offset] + source[left.upload.offset..] == source;
  }

  /** A lost update makes the client resend, and the chunk is then staged twice. */
  lemma LostUpdateDuplicates(source: Data, s: Slot, a: Attempt)
    requires Aligned(source, s) && Slice(source, a) && Accepted(s.upload, a) && !a.putFails && !a.readFails
    requires a.updateFails
    ensures var again := Append(Append(s, a), a.(updateFails := false));
            && again.upload.offset == a.offset + |a.chunk|
            && StagedBytes(again) == source[..a.offset] + a.chunk + a.chunk
            && (a.chunk != [] ==> !Aligned(source, again))
  {
  }

  /** What a finalise that fails leaves of its upload: the row, and the staged object unless it was removed. */
  function AfterFailedFinalise(s: Slot, removed: bool): Slot {
    if removed then s.(staged := None) else s
  }

  /** Removing the staged object before the attachment row exists loses the upload, unless there was nothing in it. */
  lemma FailedFinaliseKeepsIff(source: Data, s: Slot, removed: bool)
    requires Aligned(source, s) && s.upload.uploaded == s.upload.size
    ensures Aligned(source, AfterFailedFinalise(s, removed)) <==> !removed || source == []
  {
  }

  /** An empty chunk at the end then stages an empty object for an upload that counts as complete. */
  lemma EmptyAppendRestages(source: Data, s: Slot)
    requires Aligned(source, s) && s.upload.uploaded == s.upload.size
    ensures var lost := AfterFailedFinalise(s, true);
            var empty := Attempt(s.upload.offset, [], false, false, false);
            && Accepted(lost.upload, empty) && Append(lost, empty) == Slot(s.upload, Some([]))
            && (Aligned(source, Append(lost, empty)) <==> source == [])
  {
    var none: Data := [];
    assert none + none == none;
    assert source[..s.upload.offset] == source;
  }

  // ----- The service -----

  predicate SameContent(a: Attachment, b: Attachment) {
    a.org == b.org && a.hash == b.hash
  }

  ghost predicate Injective(hash: Data -> string) {
    forall a, b :: hash(a) == hash(b) ==> a == b
  }

  datatype FinaliseFaults = FinaliseFaults(
    readFails: bool, putFails: bool, removeFails: bool, insertFails: bool, deleteFails: bool)

  // ----- What the tables and objects keep -----

  type Attachments = map<Id, Attachment>

  predicate UploadsOk(uploads: map<Id, Upload>, storage: Storage, nextId: Id) {
    && (forall i :: i in uploads ==> i < nextId && uploads[i].offset == uploads[i].uploaded <= uploads[i].size)
    && (forall k :: k in storage && k.Staging? ==> k.id < nextId)
  }

  /** At most one attachment row per organisation and hash. */
  predicate RowsOk(attachments: Attachments, nextId: Id) {
    && (forall i :: i in attachments ==> i < nextId)
    && (forall i, j :: i in attachments && j in attachments && SameContent(attachments[i], attachments[j]) ==> i == j)
  }

  predicate ObjectMatches(hash: Data -> string, row: Attachment, storage: Storage) {
    var key := Final(row.org, row.hash);
    key in storage && hash(storage[key]) == row.hash && |storage[key]| == row.size
  }

  predicate NoRowFor(attachments: Attachments, org: Org, contentHash: string) {
    forall i :: i in attachments ==> !(attachments[i].org == org && attachments[i].hash == contentHash)
  }

  /** Every row's object is there and is what its hash says, as is every other finished object. */
  predicate ObjectsOk(hash: Data -> string, attachments: Attachments, storage: Storage) {
    && (forall i :: i in attachments ==> ObjectMatches(hash, attachments[i], storage))
    && (forall k :: k in storage && k.Final? ==> hash(storage[k]) == k.hash)
  }

  /** Finished objects are never changed or removed. */
  predicate FinalsKept(before: Storage, after: Storage) {
    forall k :: k in before && k.Final? ==> k in after && after[k] == before[k]
  }

  lemma RemoveStaged(hash: Data -> string, attachments: Attachments, storage: Storage, org: Org, id: Id)
    requires ObjectsOk(hash, attachments, storage)
    ensures ObjectsOk(hash, attachments, storage - {Staging(org, id)}) && FinalsKept(storage, storage - {Staging(org, id)})
  {
  }

  lemma PutStaged(hash: Data -> string, attachments: Attachments, storage: Storage, org: Org, id: Id, data: Data)
    requires ObjectsOk(hash, attachments, storage)
    ensures ObjectsOk(hash, attachments, storage[Staging(org, id) := data])
  {
  }

  /** Storing a body under its hash: an object already there is the same body. */
  lemma PutFinal(hash: Data -> string, attachments: Attachments, storage: Storage, org: Org, body: Data)
    requires Injective(hash) && ObjectsOk(hash, attachments, storage)
    ensures var after := storage[Final(org, hash(body)) := body];
            ObjectsOk(hash, attachments, after) && FinalsKept(storage, after)
  {
  }

  /** Steps that stage nothing new keep the upload rows right, with or without the finished one. */
  lemma UploadsStayOk(uploads: map<Id, Upload>, before: Storage, after: Storage, nextId: Id, later: Id, id: Id)
    requires UploadsOk(uploads, before, nextId) && nextId <= later
    requires forall k :: k in after && k.Staging? ==> k in before
    ensures UploadsOk(uploads, after, later) && UploadsOk(uploads - {id}, after, later)
  {
  }

  lemma FinalsKeptTwice(a: Storage, b: Storage, c: Storage)
    requires FinalsKept(a, b) && FinalsKept(b, c)
    ensures FinalsKept(a, c)
  {
  }

  lemma InsertRow(hash: Data -> string, attachments: Attachments, storage: Storage, nextId: Id, row: Attachment)
    requires ObjectsOk(hash, attachments, storage) && RowsOk(attachments, nextId) && ObjectMatches(hash, row, storage)
    requires NoRowFor(attachments, row.org, row.hash)
    ensures ObjectsOk(hash, attachments[nextId := row], storage) && RowsOk(attachments[nextId := row], nextId + 1)
  {
  }

  class AttachmentsService {
    const hash: Data -> string
    var uploads: map<Id, Upload>
    var attachments: Attachments
    var storage: Storage
    var nextId: Id

    ghost predicate Valid()
      reads this
    {
      && Injective(hash) && UploadsOk(uploads, storage, nextId) && RowsOk(attachments, nextId)
      && ObjectsOk(hash, attachments, storage)
    }

    function SlotOf(id: Id): Slot
      requires id in uploads
      reads this
    {
      var key := Staging(uploads[id].org, id);
      Slot(uploads[id], if key in storage then Some(storage[key]) else None)
    }

    constructor (hash: Data -> string)
      requires Injective(hash)
      ensures Valid() && this.hash == hash && uploads == map[] && attachments == map[] && storage == map[]
    {
      this.hash := hash;
      uploads, attachments, storage, nextId := map[], map[], map[], 0;
    }

    method CreateUpload(org: Org, size: nat, maxTotalBytes: nat) returns (r: Result<Id>)
      requires Valid()
      modifies this
      ensures Valid() && attachments == old(attachments) && storage == old(storage)
      ensures r == Err(TooLarge) <==> size > maxTotalBytes
      ensures r.Err? ==> r.error == TooLarge && uploads == old(uploads)
      ensures r.Ok? ==>
        && r.value !in old(uploads) && uploads == old(uploads)[r.value := Upload(org, size, 0, 0)]
        && SlotOf(r.value).staged == None
        && forall source: Data :: |source| == size ==> Aligned(source, SlotOf(r.value))
    {
      if size > maxTotalBytes { return Err(TooLarge); }
      var id := nextId;
      nextId := nextId + 1;
      uploads := uploads[id := Upload(org, size, 0, 0)];
      r := Ok(id);
    }

    method AppendChunk(org: Org, id: Id, a: Attempt) returns (r: Result<Upload>)
      requires Valid()
      modifies this
      ensures Valid() && attachments == old(attachments) && uploads.Keys == old(uploads).Keys
      ensures r == Err(NotFound) <==> !(id in old(uploads) && old(uploads)[id].org == org)
      ensures r == Err(NotFound) ==> uploads == old(uploads) && storage == old(storage)
      ensures r != Err(NotFound) ==> SlotOf(id) == Append(old(SlotOf(id)), a)
      ensures r.Ok? <==> r != Err(NotFound) && Accepted(old(uploads)[id], a) && !a.putFails && !a.updateFails
      ensures r.Ok? ==> r.value == uploads[id]
      ensures r == Err(OffsetMismatch) <==> r != Err(NotFound) && old(uploads)[id].offset != a.offset
      ensures forall i :: i in uploads && i != id ==> SlotOf(i) == old(SlotOf(i))
    {
      hide ObjectsOk;
      if !(id in uploads && uploads[id].org == org) { return Err(NotFound); }
      var upload := uploads[id];
      if upload.offset != a.offset { return Err(OffsetMismatch); }
      if upload.uploaded + |a.chunk| > upload.size { return Err(ExceedsSize); }
      var key := Staging(org, id);
      var staged := if a.readFails || key !in storage then [] else storage[key];
      var merged := staged + a.chunk;
      if a.putFails { return Err(StorageError); }
      PutStaged(hash, attachments, storage, org, id, merged);
      storage := storage[key := merged];
      if a.updateFails { return Err(DatabaseError); }
      var u := upload.(uploaded := upload.uploaded + |a.chunk|, offset := upload.offset + |a.chunk|);
      uploads := uploads[id := u];
      r := Ok(u);
    }

    /** The row answers for this body: its object is there, byte for byte. */
    predicate Holds(row: Id, org: Org, body: Data)
      reads this
    {
      && row in attachments && attachments[row] == Attachment(org, hash(body), |body|)
      && Final(org, hash(body)) in storage && storage[Final(org, hash(body))] == body
    }

    /** Under any failures tables and objects stay consistent, rows and finished objects stay as they were. */
    method FinaliseUpload(org: Org, id: Id, f: FinaliseFaults) returns (r: Result<Id>)
      requires Valid()
      modifies this
      ensures Valid()
      ensures r == Err(NotFound) <==> !(id in old(uploads) && old(uploads)[id].org == org)
      ensures r == Err(Incomplete) <==> r != Err(NotFound) && old(uploads)[id].uploaded != old(uploads)[id].size
      ensures r == Err(NotFound) || r == Err(Incomplete) || old(SlotOf(id)).staged == None ==>
        uploads == old(uploads) && attachments == old(attachments) && storage == old(storage) && r.Err?
      ensures r.Ok? ==>
        uploads == old(uploads) - {id} && Holds(r.value, org, StagedBytes(old(SlotOf(id))))
      ensures r.Err? ==> uploads == old(uploads)
      ensures r.Err? && id in uploads ==>
        SlotOf(id) == AfterFailedFinalise(old(SlotOf(id)), r.error == DatabaseError && !f.removeFails
                        && NoRowFor(old(attachments), org, hash(StagedBytes(old(SlotOf(id))))))
      ensures r.Err? && r.error != NotFound && r.error != Incomplete ==>
        old(SlotOf(id)).staged == None || f.readFails || f.putFails || f.insertFails || f.deleteFails
      ensures forall i :: i in old(attachments) ==> i in attachments && attachments[i] == old(attachments)[i]
      ensures FinalsKept(old(storage), storage)
      ensures forall i :: i in uploads && i != id ==> i in old(uploads) && SlotOf(i) == old(SlotOf(i))
    {
      if !(id in uploads && uploads[id].org == org) { return Err(NotFound); }
      var upload := uploads[id];
      if upload.uploaded != upload.size { return Err(Incomplete); }
      var key := Staging(org, id);
      if f.readFails || key !in storage { return Err(StorageError); }
      var body := storage[key];
      var contentHash := hash(body);
      if i :| i in attachments && attachments[i].org == org && attachments[i].hash == contentHash {
        assert ObjectMatches(hash, attachments[i], storage);
        if f.deleteFails { return Err(DatabaseError); }
        RemoveStaged(hash, attachments, storage, org, id);
        hide ObjectsOk, RowsOk;
        uploads := uploads - {id};
        if !f.removeFails { storage := storage - {key}; }
        return Ok(i);
      }
      r := Promote(org, id, body, f);
    }

    /** The rest of finaliseUpload for a body no row of the organisation has yet. */
    method Promote(org: Org, id: Id, body: Data, f: FinaliseFaults) returns (r: Result<Id>)
      requires Valid() && id in uploads && uploads[id].org == org && Staging(org, id) in storage
      requires NoRowFor(attachments, org, hash(body))
      modifies this
      ensures Valid()
      ensures r.Ok? ==> uploads == old(uploads) - {id} && Holds(r.value, org, body)
      ensures r.Err? ==> uploads == old(uploads)
      ensures r.Err? ==>
        SlotOf(id) == AfterFailedFinalise(old(SlotOf(id)), r.error == DatabaseError && !f.removeFails)
      ensures r.Err? ==> (r.error == StorageError && f.putFails)
                         || (r.error == DatabaseError && (f.insertFails || f.deleteFails))
      ensures forall i :: i in old(attachments) ==> i in attachments && attachments[i] == old(attachments)[i]
      ensures FinalsKept(old(storage), storage)
      ensures forall i :: i in uploads && i != id ==> i in old(uploads) && SlotOf(i) == old(SlotOf(i))
    {
      hide ObjectsOk, RowsOk, UploadsOk, FinalsKept, Injective, NoRowFor, ObjectMatches;
      if f.putFails {
        FinalsUnchanged(storage);
        return Err(StorageError);
      }
      var contentHash := hash(body);
      MoveToFinal(org, id, body, f.removeFails);
      if f.insertFails { return Err(DatabaseError); }
      var row := nextId;
      InsertRow(hash, attachments, storage, nextId, Attachment(org, contentHash, |body|));
      FreshRow(attachments, nextId);
      nextId := nextId + 1;
      attachments := attachments[row := Attachment(org, contentHash, |body|)];
      if f.deleteFails { return Err(DatabaseError); }
      uploads := uploads - {id};
      r := Ok(row);
    }

    /** Put the body under its hash, then remove the staged object; a failing removal is swallowed. */
    method MoveToFinal(org: Org, id: Id, body: Data, removeFails: bool)
      requires Valid() && id in uploads && uploads[id].org == org && Staging(org, id) in storage
      modifies this`storage
      ensures Valid() && UploadsOk(uploads, storage, nextId + 1) && UploadsOk(uploads - {id}, storage, nextId + 1)
      ensures FinalsKept(old(storage), storage)
      ensures ObjectMatches(hash, Attachment(org, hash(body), |body|), storage)
      ensures Final(org, hash(body)) in storage && storage[Final(org, hash(body))] == body
      ensures SlotOf(id) == AfterFailedFinalise(old(SlotOf(id)), !removeFails)
      ensures forall i :: i in uploads && i != id ==> SlotOf(i) == old(SlotOf(i))
    {
      hide ObjectsOk, RowsOk, UploadsOk, FinalsKept, Injective;
      ghost var before := storage;
      PutFinal(hash, attachments, storage, org, body);
      storage := storage[Final(org, hash(body)) := body];
      RemoveStaged(hash, attachments, storage, org, id);
      FinalsKeptTwice(before, storage, storage - {Staging(org, id)});
      if !removeFails { storage := storage - {Staging(org, id)}; }
      UploadsStayOk(uploads, before, storage, nextId, nextId + 1, id);
      UploadsStayOk(uploads, before, storage, nextId, nextId, id);
    }
  }

  lemma FinalsUnchanged(storage: Storage)
    ensures FinalsKept(storage, storage)
  {
  }

  lemma FreshRow(attachments: Attachments, nextId: Id)
    requires RowsOk(attachments, nextId)
    ensures nextId !in attachments
  {
  }

  /**
   A whole upload, whatever attempts the client made: finalising stores exactly its source, and succeeds exactly
   when all of it has arrived (for an empty source, when at least one attempt was stored).
   */
  method UploadAll(service: AttachmentsService, org: Org, source: Data, maxTotalBytes: nat, attempts: seq<Attempt>)
    returns (r: Result<Id>)
    requires service.Valid() && |source| <= maxTotalBytes
    requires forall a :: a in attempts ==> Slice(source, a) && !a.readFails && !a.updateFails
    modifies service
    ensures service.Valid()
    ensures r.Ok? ==> service.Holds(r.value, org, source)
    ensures var slot := AppendAll(Slot(Upload(org, |source|, 0, 0), None), attempts);
            r.Ok? <==> slot.upload.uploaded == |source| && slot.staged.Some?
  {
    var created := service.CreateUpload(org, |source|, maxTotalBytes);
    var id := created.value;
    ghost var start := service.SlotOf(id);
    assert attempts[0..] == attempts;
    for n := 0 to |attempts|
      invariant service.Valid() && id in service.uploads && service.uploads[id].org == org
      invariant Aligned(source, service.SlotOf(id))
      invariant AppendAll(service.SlotOf(id), attempts[n..]) == AppendAll(start, attempts)
    {
      hide ObjectsOk, RowsOk, UploadsOk, Injective;
      assert attempts[n] in attempts;
      assert attempts[n..][1..] == attempts[n + 1..];
      AppendKeepsIff(source, service.SlotOf(id), attempts[n]);
      var _ := service.AppendChunk(org, id, attempts[n]);
    }
    hide ObjectsOk, RowsOk, UploadsOk, Injective, FinalsKept;
    ghost var slot := service.SlotOf(id);
    r := service.FinaliseUpload(org, id, FinaliseFaults(false, false, false, false, false));
    if r.Ok? {
      assert slot.upload.offset == |source|;
      assert source[..|source|] == source;
    }
  }
}
