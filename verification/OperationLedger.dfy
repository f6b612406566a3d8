/** The backfill of the Resume operation ledger: applied batches become V2 receipts, the
    operations of all other batches are deleted and those batches quarantined. */
module OperationLedger {
  import opened Backfill
  import opened Basics
  import opened RowOrder
  import V1RichText

  const RETENTION: int := 30 * 86_400 * 1_000_000

  datatype BatchStatus = Received | Applied | Conflicted | Rejected

  datatype Operation = Operation(
    batch: RowId,
    operationId: string,
    ordinal: int,
    operationType: string,
    payload: Json,
    fingerprint: Option<string>,
    appliedRevision: Option<int>)

  datatype Receipt = Receipt(resume: Json, appliedOperationIds: seq<string>)

  datatype Request = Request(clientBatchId: string, baseRevision: int, strategy: string, operations: seq<Converted>)

  datatype Batch = Batch(
    resume: ResumeId,
    clientBatchId: string,
    baseRevision: Option<int>,
    appliedRevision: Option<int>,
    strategy: Option<string>,
    status: BatchStatus,
    requestFingerprint: Option<string>,
    outcome: Option<Receipt>,
    expiresAt: Option<Time>,
    classification: string)

  datatype Tables = Tables(operations: map<RowId, Operation>, batches: map<RowId, Batch>)

  /** The operation converter, the hashes and the id generator, which the backfill treats as given. */
  datatype Converter = Converter(
    convert: (Json, ResumeId, RowId) -> Result<Converted>,
    fingerprint: Converted -> Digest,
    requestDigest: Request -> Digest,
    legacyId: (RowId, string) -> string)

  // ---------------------------------------------------------------- the tables' own constraints

  /** UNIQUE (workspace_id, resource_owner_id, resume_id, client_batch_id); the Resume of a batch
      determines the other two columns. */
  ghost predicate UniqueClientIds(batches: map<RowId, Batch>) {
    forall a, b {:trigger Siblings(batches, a, b)} | Siblings(batches, a, b) ::
      batches[a].clientBatchId != batches[b].clientBatchId
  }

  /** Two batches of one Resume. */
  predicate Siblings(batches: map<RowId, Batch>, a: RowId, b: RowId) {
    a in batches && b in batches && a != b && batches[a].resume == batches[b].resume
  }

  ghost predicate ForeignKeys(t: Tables) {
    forall id | id in t.operations :: t.operations[id].batch in t.batches
  }

  /** UNIQUE (operation_id) and UNIQUE (batch_id, ordinal) */
  ghost predicate UniqueOperations(t: Tables) {
    forall a, b {:trigger Distinct(t, a, b)} | Distinct(t, a, b) ::
      && t.operations[a].operationId != t.operations[b].operationId
      && (t.operations[a].batch == t.operations[b].batch ==> t.operations[a].ordinal != t.operations[b].ordinal)
  }

  predicate Distinct(t: Tables, a: RowId, b: RowId) { a in t.operations && b in t.operations && a != b }

  /** The tables before the migration; the receipt columns are new. */
  ghost predicate Valid(t: Tables) {
    && ForeignKeys(t)
    && UniqueOperations(t)
    && UniqueClientIds(t.batches)
    && (forall b | b in t.batches :: NoReceipt(t.batches[b]))
  }

  predicate NoReceipt(b: Batch) { b.requestFingerprint.None? && b.outcome.None? && b.expiresAt.None? }

  /** CHECK resume_batches_v2_receipt */
  predicate ReceiptShape(b: Batch) {
    || NoReceipt(b)
    || (b.status.Applied? && b.requestFingerprint.Some? && b.outcome.Some? && b.expiresAt.Some?)
  }

  // ---------------------------------------------------------------- what a row becomes

  predicate IsApplied(t: Tables, id: RowId) {
    id in t.operations && t.operations[id].batch in t.batches && t.batches[t.operations[id].batch].status.Applied?
  }

  function Conversion(c: Converter, t: Tables, id: RowId): Result<Converted> {
    if id in t.operations && t.operations[id].batch in t.batches then
      c.convert(t.operations[id].payload, t.batches[t.operations[id].batch].resume, id)
    else Failure
  }

  /** The first loop does not raise on this operation. */
  predicate OperationAccepted(c: Converter, docs: Documents, t: Tables, id: RowId) {
    && Conversion(c, t, id).Success?
    && t.batches[t.operations[id].batch].resume in docs.current
    && IsOpaqueId(t.operations[id].operationId)
    && Conversion(c, t, id).value.operationId == t.operations[id].operationId
    && (IsApplied(t, id) ==>
          var b := t.batches[t.operations[id].batch];
          HasRevision(docs, b.resume, b.appliedRevision))
  }

  function Members(t: Tables, batch: RowId): set<RowId> {
    set id | id in t.operations && t.operations[id].batch == batch
  }

  /** The second loop does not raise on this batch. */
  predicate BatchAccepted(docs: Documents, t: Tables, id: RowId)
    requires id in t.batches
  {
    var b := t.batches[id];
    b.status.Applied? ==>
      && Members(t, id) != {}
      && IsOpaqueId(b.clientBatchId)
      && Positive(b.baseRevision)
      && b.strategy.Some? && b.strategy.value in {"reject", "rebase_if_safe"}
      && Positive(b.appliedRevision)
      && HasRevision(docs, b.resume, b.appliedRevision)
  }

  ghost predicate Accepted(c: Converter, docs: Documents, t: Tables) {
    && (forall id | id in t.operations :: OperationAccepted(c, docs, t, id))
    && BatchesAccepted(docs, t)
  }

  ghost predicate BatchesAccepted(docs: Documents, t: Tables) {
    forall id | id in t.batches :: BatchAccepted(docs, t, id)
  }

  /** ORDER BY batch.id, operation.ordinal, operation.id */
  function LedgerOrder(t: Tables): RowId -> Key {
    id => if id in t.operations then Key(t.operations[id].batch.position, t.operations[id].ordinal, 0, id.position)
          else Key(0, 0, 0, id.position)
  }

  /** The operations of a batch in ordinal order. */
  function InOrdinalOrder(t: Tables, batch: RowId): seq<RowId> {
    Ordered(Members(t, batch), LedgerOrder(t))
  }

  function Conversions(c: Converter, t: Tables, ids: seq<RowId>): (r: seq<Converted>)
    requires forall id | id in ids :: Conversion(c, t, id).Success?
  {
    seq(|ids|, i requires 0 <= i < |ids| => Conversion(c, t, ids[i]).value)
  }

  function OperationAfter(c: Converter, t: Tables, id: RowId): Operation
    requires IsApplied(t, id) && Conversion(c, t, id).Success?
  {
    var converted := Conversion(c, t, id).value;
    t.operations[id].(operationType := converted.op,
                      payload := V1RichText.Obj(converted.body),
                      fingerprint := Some(c.fingerprint(converted)),
                      appliedRevision := t.batches[t.operations[id].batch].appliedRevision)
  }

  function ReceiptedBatch(c: Converter, docs: Documents, b: Batch, operations: seq<Converted>, migratedAt: Time): Batch
    requires Positive(b.baseRevision) && b.strategy.Some? && HasRevision(docs, b.resume, b.appliedRevision)
  {
    b.(requestFingerprint := Some(c.requestDigest(Request(b.clientBatchId, b.baseRevision.value, b.strategy.value,
                                                          operations))),
       outcome := Some(Receipt(docs.revisions[(b.resume, b.appliedRevision.value)], OperationIds(operations))),
       expiresAt := Some(migratedAt + RETENTION),
       classification := "converted_applied_receipt")
  }

  function QuarantinedBatch(c: Converter, id: RowId, b: Batch): Batch {
    b.(clientBatchId := c.legacyId(id, b.clientBatchId), classification := "legacy_unapplied_quarantined")
  }

  /** The ledger after the backfill, row by row. */
  ghost predicate Migrated(c: Converter, docs: Documents, migratedAt: Time, t: Tables, t': Tables)
    requires Accepted(c, docs, t)
  {
    && (forall id :: id in t'.operations <==> IsApplied(t, id))
    && (forall id | id in t'.operations :: t'.operations[id] == OperationAfter(c, t, id))
    && t'.batches.Keys == t.batches.Keys
    && (forall id | id in t.batches :: t'.batches[id] == BatchAfter(c, docs, migratedAt, t, id))
  }

  function BatchAfter(c: Converter, docs: Documents, migratedAt: Time, t: Tables, id: RowId): Batch
    requires id in t.batches && BatchAccepted(docs, t, id)
    requires forall op | op in t.operations :: Conversion(c, t, op).Success?
  {
    if t.batches[id].status.Applied? then
      ListsMembers(t, id);
      ReceiptedBatch(c, docs, t.batches[id], Conversions(c, t, InOrdinalOrder(t, id)), migratedAt)
    else QuarantinedBatch(c, id, t.batches[id])
  }

  /** The id that batch o has when batch id is rewritten: batches are rewritten by ascending id. */
  function IdThen(c: Converter, batches: map<RowId, Batch>, o: RowId, id: RowId): string
    requires o in batches
  {
    if o.position < id.position && !batches[o].status.Applied? then c.legacyId(o, batches[o].clientBatchId)
    else batches[o].clientBatchId
  }

  /** The quarantine id of this batch is then taken by another batch of its Resume. */
  ghost predicate CollidesAt(c: Converter, batches: map<RowId, Batch>, id: RowId) {
    && id in batches && !batches[id].status.Applied?
    && exists o {:trigger Siblings(batches, id, o)} ::
         Siblings(batches, id, o) && c.legacyId(id, batches[id].clientBatchId) == IdThen(c, batches, o, id)
  }

  ghost predicate LegacyIdCollides(c: Converter, batches: map<RowId, Batch>) {
    exists id | id in batches :: CollidesAt(c, batches, id)
  }

  // ---------------------------------------------------------------- grouping by batch

  /** Among the rows read so far, those of one applied batch, in the order read. */
  function Selected(t: Tables, ids: seq<RowId>, batch: RowId): seq<RowId> {
    if ids == [] then []
    else
      var front, last := Selected(t, ids[..|ids| - 1], batch), ids[|ids| - 1];
      if IsApplied(t, last) && t.operations[last].batch == batch then front + [last] else front
  }

  /** What by_batch holds for a batch after those rows. */
  function Collected(c: Converter, t: Tables, ids: seq<RowId>, batch: RowId): seq<Converted> {
    if ids == [] then []
    else
      var front, last := Collected(c, t, ids[..|ids| - 1], batch), ids[|ids| - 1];
      var conversion := Conversion(c, t, last);
      if IsApplied(t, last) && t.operations[last].batch == batch && conversion.Success?
      then front + [conversion.value] else front
  }

  lemma CollectedSnoc(c: Converter, t: Tables, ids: seq<RowId>, id: RowId, batch: RowId)
    ensures var more := IsApplied(t, id) && t.operations[id].batch == batch && Conversion(c, t, id).Success?;
      Collected(c, t, ids + [id], batch)
      == if more then Collected(c, t, ids, batch) + [Conversion(c, t, id).value] else Collected(c, t, ids, batch)
  {
    FrontOfSnoc(ids, id);
  }

  lemma {:induction false} SelectedMembers(t: Tables, ids: seq<RowId>, batch: RowId)
    ensures forall id :: id in Selected(t, ids, batch)
                         <==> id in ids && IsApplied(t, id) && t.operations[id].batch == batch
  {
    if ids != [] {
      SelectedMembers(t, ids[..|ids| - 1], batch);
      assert forall id :: id in ids <==> id in ids[..|ids| - 1] || id == ids[|ids| - 1];
    }
  }

  lemma {:induction false} SelectedAscending(t: Tables, ids: seq<RowId>, batch: RowId, key: RowId -> Key)
    requires Ascending(ids, key)
    ensures Ascending(Selected(t, ids, batch), key)
  {
    if ids != [] {
      var front, last := Unsnoc(ids);
      FrontOfSnoc(front, last);
      FirstBeforeRest(front, [last], key);
      SelectedAscending(t, front, batch, key);
      SelectedMembers(t, front, batch);
      AscendingSnoc(Selected(t, front, batch), last, key);
    }
  }

  lemma {:induction false} CollectedIsConversions(c: Converter, t: Tables, ids: seq<RowId>, batch: RowId)
    requires forall id | id in ids :: Conversion(c, t, id).Success?
    ensures forall id | id in Selected(t, ids, batch) :: Conversion(c, t, id).Success?
    ensures Collected(c, t, ids, batch) == Conversions(c, t, Selected(t, ids, batch))
  {
    if ids != [] {
      CollectedIsConversions(c, t, ids[..|ids| - 1], batch);
    }
  }

  /** The joined rows in the order the first loop reads them. */
  function JoinedRows(t: Tables): seq<RowId> {
    Ordered(t.operations.Keys, LedgerOrder(t))
  }

  lemma JoinedRowsAreOperations(t: Tables, rows: seq<RowId>)
    requires rows == JoinedRows(t)
    ensures forall i | 0 <= i < |rows| :: rows[i] in t.operations
    ensures Ascending(rows, LedgerOrder(t)) && forall id :: id in rows <==> id in t.operations
  {
    OrderedLists(t.operations.Keys, LedgerOrder(t));
  }

  lemma ListsMembers(t: Tables, batch: RowId)
    ensures forall id :: id in InOrdinalOrder(t, batch) <==> id in Members(t, batch)
    ensures Ascending(InOrdinalOrder(t, batch), LedgerOrder(t))
  {
    OrderedLists(Members(t, batch), LedgerOrder(t));
  }

  lemma SelectedIsListing(t: Tables, all: seq<RowId>, batch: RowId)
    requires batch in t.batches && t.batches[batch].status.Applied?
    requires Ascending(all, LedgerOrder(t)) && forall id :: id in all <==> id in t.operations
    ensures Selected(t, all, batch) == InOrdinalOrder(t, batch)
  {
    SelectedAscending(t, all, batch, LedgerOrder(t));
    SelectedMembers(t, all, batch);
    OrderedIsUnique(Members(t, batch), Selected(t, all, batch), LedgerOrder(t));
  }

  /** Grouping the joined listing by batch gives each applied batch its operations in ordinal order. */
  lemma GroupedInOrdinalOrder(c: Converter, t: Tables, all: seq<RowId>, batch: RowId)
    requires forall id | id in t.operations :: Conversion(c, t, id).Success?
    requires batch in t.batches && t.batches[batch].status.Applied?
    requires Ascending(all, LedgerOrder(t)) && forall id :: id in all <==> id in t.operations
    ensures forall id | id in InOrdinalOrder(t, batch) :: Conversion(c, t, id).Success?
    ensures Collected(c, t, all, batch) == Conversions(c, t, InOrdinalOrder(t, batch))
  {
    SelectedIsListing(t, all, batch);
    CollectedIsConversions(c, t, all, batch);
  }

  function Lookup(byBatch: map<RowId, seq<Converted>>, batch: RowId): seq<Converted> {
    if batch in byBatch then byBatch[batch] else []
  }

  /** The first loop after the rows `seen`. */
  ghost predicate Progress(c: Converter, docs: Documents, t: Tables, seen: seq<RowId>,
                           operations: map<RowId, Operation>, deleteIds: set<RowId>,
                           byBatch: map<RowId, seq<Converted>>)
  {
    && operations.Keys == t.operations.Keys
    && (forall id | id in seen :: OperationAccepted(c, docs, t, id))
    && (forall id | id in seen && IsApplied(t, id) :: operations[id] == OperationAfter(c, t, id))
    && (forall id :: id in deleteIds <==> id in seen && !IsApplied(t, id))
    && (forall b :: Lookup(byBatch, b) == Collected(c, t, seen, b))
  }

  lemma ProgressStart(c: Converter, docs: Documents, t: Tables)
    ensures Progress(c, docs, t, [], t.operations, {}, map[])
  {
  }

  lemma DeletedProgress(c: Converter, docs: Documents, t: Tables, seen: seq<RowId>, id: RowId,
                        operations: map<RowId, Operation>, deleteIds: set<RowId>,
                        byBatch: map<RowId, seq<Converted>>)
    requires Progress(c, docs, t, seen, operations, deleteIds, byBatch)
    requires OperationAccepted(c, docs, t, id) && !IsApplied(t, id)
    ensures Progress(c, docs, t, seen + [id], operations, deleteIds + {id}, byBatch)
  {
    forall b ensures Lookup(byBatch, b) == Collected(c, t, seen + [id], b) {
      CollectedSnoc(c, t, seen, id, b);
    }
  }

  lemma ConvertedProgress(c: Converter, docs: Documents, t: Tables, seen: seq<RowId>, id: RowId,
                          operations: map<RowId, Operation>, deleteIds: set<RowId>,
                          byBatch: map<RowId, seq<Converted>>)
    requires Progress(c, docs, t, seen, operations, deleteIds, byBatch)
    requires OperationAccepted(c, docs, t, id) && IsApplied(t, id)
    ensures var b := t.operations[id].batch;
      Progress(c, docs, t, seen + [id], operations[id := OperationAfter(c, t, id)], deleteIds,
               byBatch[b := Lookup(byBatch, b) + [Conversion(c, t, id).value]])
  {
    var batch := t.operations[id].batch;
    var byBatch' := byBatch[batch := Lookup(byBatch, batch) + [Conversion(c, t, id).value]];
    forall b ensures Lookup(byBatch', b) == Collected(c, t, seen + [id], b) {
      CollectedSnoc(c, t, seen, id, b);
      assert Lookup(byBatch, b) == Collected(c, t, seen, b);
    }
  }

  /** What the first loop leaves in the table. */
  ghost predicate OperationsMigrated(c: Converter, t: Tables, operations: map<RowId, Operation>) {
    && (forall id | id in t.operations :: Conversion(c, t, id).Success?)
    && (forall id :: id in operations <==> IsApplied(t, id))
    && (forall id | id in operations :: operations[id] == OperationAfter(c, t, id))
  }

  /** What the first loop hands to the second: the operations of each applied batch in ordinal order. */
  ghost predicate Grouped(c: Converter, t: Tables, byBatch: map<RowId, seq<Converted>>) {
    forall b | b in t.batches && t.batches[b].status.Applied? ::
      && (forall id | id in InOrdinalOrder(t, b) :: Conversion(c, t, id).Success?)
      && Lookup(byBatch, b) == Conversions(c, t, InOrdinalOrder(t, b))
  }

  lemma ListingIsGrouped(c: Converter, docs: Documents, t: Tables, rows: seq<RowId>,
                         operations: map<RowId, Operation>, deleteIds: set<RowId>,
                         byBatch: map<RowId, seq<Converted>>)
    requires Progress(c, docs, t, rows, operations, deleteIds, byBatch)
    requires Ascending(rows, LedgerOrder(t)) && forall id :: id in rows <==> id in t.operations
    ensures forall id | id in t.operations :: OperationAccepted(c, docs, t, id)
    ensures OperationsMigrated(c, t, map id | id in operations && id !in deleteIds :: operations[id])
    ensures Grouped(c, t, byBatch)
  {
    forall b | b in t.batches && t.batches[b].status.Applied?
      ensures forall id | id in InOrdinalOrder(t, b) :: Conversion(c, t, id).Success?
      ensures Lookup(byBatch, b) == Conversions(c, t, InOrdinalOrder(t, b))
    {
      GroupedInOrdinalOrder(c, t, rows, b);
    }
  }

  /** ORDER BY id */
  function ByPosition(batches: map<RowId, Batch>): seq<RowId> {
    Ordered(batches.Keys, (id: RowId) => Key(0, 0, 0, id.position))
  }

  lemma ListsBatches(batches: map<RowId, Batch>, rows: seq<RowId>)
    requires rows == ByPosition(batches)
    ensures forall i | 0 <= i < |rows| :: rows[i] in batches
    ensures forall id :: id in rows <==> id in batches
    ensures forall i, j | 0 <= i < j < |rows| :: rows[i].position < rows[j].position
  {
    var key := (id: RowId) => Key(0, 0, 0, id.position);
    OrderedLists(batches.Keys, key);
    forall i, j | 0 <= i < j < |rows| ensures rows[i].position < rows[j].position {
      assert Less(key(rows[i]), key(rows[j]));
    }
  }

  lemma SeenIsBefore(batches: map<RowId, Batch>, rows: seq<RowId>, seen: seq<RowId>)
    requires forall id :: id in rows <==> id in batches
    requires forall i, j | 0 <= i < j < |rows| :: rows[i].position < rows[j].position
    requires |seen| < |rows| && forall k | 0 <= k < |seen| :: seen[k] == rows[k]
    ensures SeenBefore(batches, seen, rows[|seen|])
  {
    var id := rows[|seen|];
    forall o | o in batches ensures o in seen <==> o.position < id.position {
      assert o in rows;
      var j :| 0 <= j < |rows| && rows[j] == o;
      if j < |seen| {
        assert seen[j] == o;
      }
      if o in seen {
        var k :| 0 <= k < |seen| && seen[k] == o;
        assert rows[k] == o;
      }
    }
  }

  lemma NotAccepted(c: Converter, docs: Documents, t: Tables, id: RowId)
    requires id in t.batches && (!BatchAccepted(docs, t, id) || CollidesAt(c, t.batches, id))
    ensures !BatchesAccepted(docs, t) || LegacyIdCollides(c, t.batches)
  {
    hide BatchAccepted, CollidesAt;
  }

  lemma AllAccepted(c: Converter, docs: Documents, t: Tables, rows: seq<RowId>)
    requires forall id :: id in rows <==> id in t.batches
    requires forall k | 0 <= k < |rows| :: rows[k] in t.batches
    requires forall k | 0 <= k < |rows| :: BatchAccepted(docs, t, rows[k]) && !CollidesAt(c, t.batches, rows[k])
    ensures BatchesAccepted(docs, t) && !LegacyIdCollides(c, t.batches)
  {
    hide BatchAccepted, CollidesAt;
    forall id | id in t.batches ensures BatchAccepted(docs, t, id) && !CollidesAt(c, t.batches, id) {
      assert id in rows;
    }
  }

  lemma NoOperations(c: Converter, t: Tables, byBatch: map<RowId, seq<Converted>>, batch: RowId)
    requires Grouped(c, t, byBatch) && batch in t.batches && t.batches[batch].status.Applied?
    ensures Lookup(byBatch, batch) == [] <==> Members(t, batch) == {}
  {
    OrderedLists(Members(t, batch), LedgerOrder(t));
  }

  /** The batches that the second loop accepts, as it leaves them. */
  ghost function BatchesAfter(c: Converter, docs: Documents, migratedAt: Time, t: Tables): map<RowId, Batch>
    requires forall op | op in t.operations :: Conversion(c, t, op).Success?
  {
    map id | id in t.batches && BatchAccepted(docs, t, id) :: BatchAfter(c, docs, migratedAt, t, id)
  }

  /** The second loop after the batches `seen`. */
  ghost predicate Receipting(before: map<RowId, Batch>, after: map<RowId, Batch>, seen: seq<RowId>,
                             batches: map<RowId, Batch>)
  {
    && batches.Keys == before.Keys
    && (forall id | id in seen :: id in after && id in before && batches[id] == after[id])
    && (forall id | id in before && id !in seen :: batches[id] == before[id])
  }

  lemma AfterKeys(c: Converter, docs: Documents, migratedAt: Time, t: Tables)
    requires forall op | op in t.operations :: Conversion(c, t, op).Success?
    ensures BatchesAfter(c, docs, migratedAt, t).Keys <= t.batches.Keys
  {
  }

  lemma AllReceipted(before: map<RowId, Batch>, after: map<RowId, Batch>, seen: seq<RowId>,
                     batches: map<RowId, Batch>)
    requires Receipting(before, after, seen, batches) && after.Keys <= before.Keys
    requires forall id :: id in seen <==> id in before
    ensures batches == after && batches.Keys == before.Keys
  {
  }

  lemma ReceiptingStart(before: map<RowId, Batch>, after: map<RowId, Batch>)
    ensures Receipting(before, after, [], before)
  {
  }

  lemma ReceiptingStep(before: map<RowId, Batch>, after: map<RowId, Batch>, seen: seq<RowId>, id: RowId,
                       batches: map<RowId, Batch>)
    requires Receipting(before, after, seen, batches) && id in before && id in after
    ensures Receipting(before, after, seen + [id], batches[id := after[id]])
  {
  }

  /** Another batch of the Resume has the id now. */
  predicate ClientIdTaken(batches: map<RowId, Batch>, id: RowId, clientBatchId: string)
    requires id in batches
  {
    exists o | o in batches ::
      o != id && batches[o].resume == batches[id].resume && batches[o].clientBatchId == clientBatchId
  }

  /** The batches rewritten so far are those with a smaller id. */
  ghost predicate SeenBefore(batches: map<RowId, Batch>, seen: seq<RowId>, id: RowId) {
    forall o | o in batches :: o in seen <==> o.position < id.position
  }

  lemma IdNow(c: Converter, docs: Documents, migratedAt: Time, t: Tables, seen: seq<RowId>,
              batches: map<RowId, Batch>, o: RowId, id: RowId)
    requires forall op | op in t.operations :: Conversion(c, t, op).Success?
    requires Receipting(t.batches, BatchesAfter(c, docs, migratedAt, t), seen, batches)
    requires SeenBefore(t.batches, seen, id) && o in t.batches
    ensures o in batches && batches[o].resume == t.batches[o].resume
    ensures batches[o].clientBatchId == IdThen(c, t.batches, o, id)
  {
    hide BatchAccepted, Conversions, InOrdinalOrder;
  }

  lemma TakenIff(c: Converter, docs: Documents, migratedAt: Time, t: Tables, seen: seq<RowId>,
                 batches: map<RowId, Batch>, id: RowId)
    requires forall op | op in t.operations :: Conversion(c, t, op).Success?
    requires Receipting(t.batches, BatchesAfter(c, docs, migratedAt, t), seen, batches)
    requires SeenBefore(t.batches, seen, id)
    requires id in t.batches && id in batches && !t.batches[id].status.Applied?
    ensures ClientIdTaken(batches, id, c.legacyId(id, t.batches[id].clientBatchId)) <==> CollidesAt(c, t.batches, id)
  {
    assert batches.Keys == t.batches.Keys;
    var fresh' := c.legacyId(id, t.batches[id].clientBatchId);
    IdNow(c, docs, migratedAt, t, seen, batches, id, id);
    forall o | o in t.batches
      ensures batches[o].resume == t.batches[o].resume && batches[o].clientBatchId == IdThen(c, t.batches, o, id)
    {
      IdNow(c, docs, migratedAt, t, seen, batches, o, id);
    }
    hide Receipting, BatchesAfter, SeenBefore, IdThen;
    if o :| o in batches && o != id && batches[o].resume == batches[id].resume && batches[o].clientBatchId == fresh' {
      assert Siblings(t.batches, id, o);
    }
    if CollidesAt(c, t.batches, id) {
      var o :| Siblings(t.batches, id, o) && fresh' == IdThen(c, t.batches, o, id);
      assert batches[o].clientBatchId == fresh';
    }
  }

  lemma ClientIdsStayUnique(batches: map<RowId, Batch>, id: RowId, after: Batch)
    requires UniqueClientIds(batches) && id in batches && after.resume == batches[id].resume
    requires after.clientBatchId == batches[id].clientBatchId || !ClientIdTaken(batches, id, after.clientBatchId)
    ensures UniqueClientIds(batches[id := after])
  {
    var batches' := batches[id := after];
    forall a, b | Siblings(batches', a, b) ensures batches'[a].clientBatchId != batches'[b].clientBatchId {
      assert Siblings(batches, a, b);
      assert batches[a].clientBatchId != batches[b].clientBatchId;
    }
  }

  // ---------------------------------------------------------------- what the backfill establishes

  /** The resume.operations clause of the guard finds this row. */
  predicate OperationInvalid(t: Tables, id: RowId)
    requires id in t.operations && t.operations[id].batch in t.batches
  {
    var row := t.operations[id];
    || !t.batches[row.batch].status.Applied?
    || row.fingerprint.None? || !IsHex(row.fingerprint.value, 64)
    || row.appliedRevision.None? || row.appliedRevision.value < 1
    || !row.payload.Obj?
  }

  /** A ledger that the backfill accepts passes the guard behind it, and the CHECK that follows. */
  lemma LedgerGuardIsRedundant(c: Converter, docs: Documents, migratedAt: Time, t: Tables, t': Tables)
    requires Valid(t) && Accepted(c, docs, t) && Migrated(c, docs, migratedAt, t, t')
    ensures ForeignKeys(t')
    ensures forall id | id in t'.operations :: !OperationInvalid(t', id)
    ensures forall b | b in t'.batches :: ReceiptShape(t'.batches[b])
  {
    forall id | id in t'.operations ensures t'.operations[id].batch in t'.batches && !OperationInvalid(t', id) {
      assert IsApplied(t, id) && BatchAccepted(docs, t, t.operations[id].batch);
    }
    forall b | b in t'.batches ensures ReceiptShape(t'.batches[b]) {
      assert NoReceipt(t.batches[b]);
    }
  }

  /** The ids stored with the operations of a batch, by ordinal. */
  function StoredIds(t: Tables, ids: seq<RowId>): (r: seq<string>)
    requires forall id | id in ids :: id in t.operations
  {
    seq(|ids|, i requires 0 <= i < |ids| => t.operations[ids[i]].operationId)
  }

  /** The operations of a batch stand in strictly ascending ordinals, under different ids. */
  lemma OrdinalsAscend(t: Tables, batch: RowId, ids: seq<RowId>, i: nat, j: nat)
    requires UniqueOperations(t) && ids == InOrdinalOrder(t, batch) && i < j < |ids|
    ensures ids[i] in t.operations && ids[j] in t.operations
    ensures t.operations[ids[i]].ordinal < t.operations[ids[j]].ordinal
    ensures t.operations[ids[i]].operationId != t.operations[ids[j]].operationId
  {
    ListsMembers(t, batch);
    assert ids[i] in ids && ids[j] in ids && Less(LedgerOrder(t)(ids[i]), LedgerOrder(t)(ids[j]));
    assert Distinct(t, ids[i], ids[j]);
  }

  /** The operations of applied batches survive, each with its batch, ordinal and id. */
  ghost predicate KeepsSurvivors(t: Tables, t': Tables) {
    && (forall id :: id in t'.operations <==> IsApplied(t, id))
    && (forall id | id in t'.operations :: SameIdentity(t.operations[id], t'.operations[id]))
  }

  predicate SameIdentity(a: Operation, b: Operation) {
    a.batch == b.batch && a.ordinal == b.ordinal && a.operationId == b.operationId
  }

  lemma MigratedKeepsSurvivors(c: Converter, docs: Documents, migratedAt: Time, t: Tables, t': Tables)
    requires Accepted(c, docs, t) && Migrated(c, docs, migratedAt, t, t')
    ensures KeepsSurvivors(t, t')
  {
    hide BatchAfter, BatchAccepted;
  }

  lemma SurvivorsKeepTheirOrder(t: Tables, t': Tables, batch: RowId)
    requires KeepsSurvivors(t, t') && batch in t.batches && t.batches[batch].status.Applied?
    ensures Members(t', batch) == Members(t, batch) && InOrdinalOrder(t', batch) == InOrdinalOrder(t, batch)
  {
    assert Members(t', batch) == Members(t, batch);
    OrderedCongruent(Members(t, batch), LedgerOrder(t), LedgerOrder(t'));
  }

  lemma SurvivorsStayUnique(t: Tables, t': Tables)
    requires UniqueOperations(t) && KeepsSurvivors(t, t')
    ensures UniqueOperations(t')
  {
    forall a, b | Distinct(t', a, b)
      ensures t'.operations[a].operationId != t'.operations[b].operationId
      ensures t'.operations[a].batch == t'.operations[b].batch ==> t'.operations[a].ordinal != t'.operations[b].ordinal
    {
      assert Distinct(t, a, b);
    }
  }

  lemma ConvertedIds(c: Converter, t: Tables, t': Tables, rows: seq<RowId>)
    requires forall id | id in rows :: IsApplied(t, id) && Conversion(c, t, id).Success?
    requires forall id | id in rows :: Conversion(c, t, id).value.operationId == t.operations[id].operationId
    requires KeepsSurvivors(t, t')
    ensures OperationIds(Conversions(c, t, rows)) == StoredIds(t', rows)
  {
    forall i | 0 <= i < |rows|
      ensures OperationIds(Conversions(c, t, rows))[i] == t'.operations[rows[i]].operationId
    {
      assert rows[i] in rows;
    }
  }

  lemma DistinctIds(t: Tables, batch: RowId, rows: seq<RowId>)
    requires UniqueOperations(t) && rows == InOrdinalOrder(t, batch)
    ensures forall id | id in rows :: id in t.operations
    ensures |rows| == |Members(t, batch)|
    ensures forall i, j | 0 <= i < j < |rows| :: StoredIds(t, rows)[i] != StoredIds(t, rows)[j]
  {
    ListsMembers(t, batch);
    OrderedLists(Members(t, batch), LedgerOrder(t));
    hide UniqueOperations;
    forall i, j | 0 <= i < j < |rows| ensures StoredIds(t, rows)[i] != StoredIds(t, rows)[j] {
      OrdinalsAscend(t, batch, rows, i, j);
    }
  }

  /** The receipt of an applied batch names exactly the operations that survive in the batch, by
      ascending ordinal and without repetition, and there is at least one. */
  lemma ReceiptListsSurvivors(c: Converter, docs: Documents, migratedAt: Time, t: Tables, t': Tables, batch: RowId)
    requires Valid(t) && Accepted(c, docs, t) && Migrated(c, docs, migratedAt, t, t')
    requires batch in t'.batches && t'.batches[batch].status.Applied?
    ensures forall id | id in InOrdinalOrder(t', batch) :: id in t'.operations
    ensures t'.batches[batch].outcome.Some?
    ensures var ids := t'.batches[batch].outcome.value.appliedOperationIds;
      && ids == StoredIds(t', InOrdinalOrder(t', batch))
      && |ids| == |Members(t', batch)| > 0
      && forall i, j | 0 <= i < j < |ids| :: ids[i] != ids[j]
  {
    var rows := InOrdinalOrder(t, batch);
    MigratedKeepsSurvivors(c, docs, migratedAt, t, t');
    SurvivorsKeepTheirOrder(t, t', batch);
    SurvivorsStayUnique(t, t');
    DistinctIds(t', batch, rows);
    assert t'.batches[batch] == BatchAfter(c, docs, migratedAt, t, batch) && BatchAccepted(docs, t, batch);
    forall id | id in rows ensures IsApplied(t, id) && OperationAccepted(c, docs, t, id) {
      assert id in t'.operations;
    }
    hide Migrated, UniqueOperations, Valid;
    ConvertedIds(c, t, t', rows);
  }

  /** When an operation goes through, column by column: it converts under its stored id, for a Resume with a
      current document, and an applied one for a revision of which there is a snapshot. */
  lemma OperationAcceptedIff(c: Converter, docs: Documents, t: Tables, id: RowId)
    requires ForeignKeys(t) && id in t.operations
    ensures var row, b := t.operations[id], t.batches[t.operations[id].batch];
      OperationAccepted(c, docs, t, id) <==>
        && b.resume in docs.current && IsOpaqueId(row.operationId)
        && c.convert(row.payload, b.resume, id).Success?
        && c.convert(row.payload, b.resume, id).value.operationId == row.operationId
        && (b.status == Applied ==> b.appliedRevision.Some? && (b.resume, b.appliedRevision.value) in docs.revisions)
  {
    hide IsOpaqueId;
    assert Conversion(c, t, id) == c.convert(t.operations[id].payload, t.batches[t.operations[id].batch].resume, id);
  }

  /** When a batch goes through: it is not applied, or it has operations, a well-formed request and a snapshot
      of its applied revision. */
  lemma BatchAcceptedIff(docs: Documents, t: Tables, id: RowId)
    requires id in t.batches
    ensures var b := t.batches[id];
      BatchAccepted(docs, t, id) <==>
        || b.status != Applied
        || (&& (exists o :: o in t.operations && t.operations[o].batch == id)
            && IsOpaqueId(b.clientBatchId)
            && b.baseRevision.Some? && b.baseRevision.value >= 1
            && (b.strategy == Some("reject") || b.strategy == Some("rebase_if_safe"))
            && b.appliedRevision.Some? && b.appliedRevision.value >= 1
            && (b.resume, b.appliedRevision.value) in docs.revisions)
  {
    hide IsOpaqueId;
    if o :| o in t.operations && t.operations[o].batch == id {
      assert o in Members(t, id);
    }
  }

  /** What becomes of an operation: it survives exactly in an applied batch, with its batch, id and ordinal,
      and holds the converted operation, its fingerprint and the revision that its batch was applied as. */
  lemma SurvivorsAreConverted(c: Converter, docs: Documents, migratedAt: Time, t: Tables, t': Tables, id: RowId)
    requires ForeignKeys(t) && Accepted(c, docs, t) && Migrated(c, docs, migratedAt, t, t')
    ensures id in t'.operations <==> id in t.operations && t.batches[t.operations[id].batch].status == Applied
    ensures id in t'.operations ==>
      var row, batch := t.operations[id], t.batches[t.operations[id].batch];
      var v := c.convert(row.payload, batch.resume, id);
      && v.Success? && v.value.operationId == row.operationId && batch.appliedRevision.Some?
      && t'.operations[id] == Operation(row.batch, row.operationId, row.ordinal, v.value.op,
                                        V1RichText.Obj(v.value.body), Some(c.fingerprint(v.value)),
                                        batch.appliedRevision)
  {
    hide BatchAccepted, BatchAfter, IsOpaqueId;
    assert id in t.operations ==> OperationAccepted(c, docs, t, id);
  }

  /** The operations of a batch, each once, by ascending ordinal. */
  ghost predicate ListsByOrdinal(t: Tables, batch: RowId, rows: seq<RowId>) {
    && (forall o :: o in rows <==> o in t.operations && t.operations[o].batch == batch)
    && (forall i | 0 <= i < |rows| :: rows[i] in t.operations)
    && (forall i, j | 0 <= i < j < |rows| :: t.operations[rows[i]].ordinal < t.operations[rows[j]].ordinal)
  }

  /** The converter reads these operations out of the payloads of the rows. */
  ghost predicate ConvertedFrom(c: Converter, t: Tables, resume: ResumeId, rows: seq<RowId>, operations: seq<Converted>)
  {
    && |operations| == |rows|
    && (forall i | 0 <= i < |rows| :: rows[i] in t.operations
          && c.convert(t.operations[rows[i]].payload, resume, rows[i]) == Success(operations[i]))
  }

  /** The batch keeps its columns and has a receipt: a digest of its request, the snapshot of its applied
      revision, the ids of its operations, and an expiry after 30 days. */
  ghost predicate HasReceipt(c: Converter, docs: Documents, migratedAt: Time, before: Batch,
                             operations: seq<Converted>, after: Batch)
  {
    && before.baseRevision.Some? && before.strategy.Some? && before.appliedRevision.Some?
    && (before.resume, before.appliedRevision.value) in docs.revisions
    && after.outcome.Some? && |after.outcome.value.appliedOperationIds| == |operations|
    && after == before.(
         requestFingerprint := Some(c.requestDigest(Request(before.clientBatchId, before.baseRevision.value,
                                                            before.strategy.value, operations))),
         outcome := Some(Receipt(docs.revisions[(before.resume, before.appliedRevision.value)],
                                 after.outcome.value.appliedOperationIds)),
         expiresAt := Some(migratedAt + 2_592_000_000_000),
         classification := "converted_applied_receipt")
    && (forall i | 0 <= i < |operations| ::
          after.outcome.value.appliedOperationIds[i] == operations[i].operationId)
  }

  lemma ReceiptedHasReceipt(c: Converter, docs: Documents, migratedAt: Time, b: Batch, operations: seq<Converted>)
    requires Positive(b.baseRevision) && b.strategy.Some? && HasRevision(docs, b.resume, b.appliedRevision)
    ensures HasReceipt(c, docs, migratedAt, b, operations, ReceiptedBatch(c, docs, b, operations, migratedAt))
  {
  }

  lemma ListingByOrdinal(t: Tables, batch: RowId)
    requires UniqueOperations(t)
    ensures ListsByOrdinal(t, batch, InOrdinalOrder(t, batch))
  {
    var rows := InOrdinalOrder(t, batch);
    ListsMembers(t, batch);
    hide UniqueOperations;
    forall i | 0 <= i < |rows| ensures rows[i] in t.operations {
      assert rows[i] in rows;
    }
    forall i, j | 0 <= i < j < |rows| ensures t.operations[rows[i]].ordinal < t.operations[rows[j]].ordinal {
      OrdinalsAscend(t, batch, rows, i, j);
    }
  }

  lemma ListingConverts(c: Converter, t: Tables, batch: RowId, rows: seq<RowId>)
    requires batch in t.batches && ListsByOrdinal(t, batch, rows)
    requires forall o | o in t.operations :: Conversion(c, t, o).Success?
    ensures ConvertedFrom(c, t, t.batches[batch].resume, rows, Conversions(c, t, rows))
  {
    forall i | 0 <= i < |rows|
      ensures c.convert(t.operations[rows[i]].payload, t.batches[batch].resume, rows[i])
           == Success(Conversions(c, t, rows)[i])
    {
      assert rows[i] in rows;
    }
  }

  /** What becomes of a batch: an applied one gets the receipt of its converted operations, by ascending
      ordinal; any other keeps everything but its client id. */
  lemma BatchesAreReceipted(c: Converter, docs: Documents, migratedAt: Time, t: Tables, t': Tables, id: RowId)
    returns (rows: seq<RowId>, operations: seq<Converted>)
    requires Valid(t) && Accepted(c, docs, t) && Migrated(c, docs, migratedAt, t, t') && id in t.batches
    ensures id in t'.batches && ListsByOrdinal(t, id, rows)
    ensures ConvertedFrom(c, t, t.batches[id].resume, rows, operations)
    ensures t.batches[id].status == Applied ==>
      HasReceipt(c, docs, migratedAt, t.batches[id], operations, t'.batches[id])
    ensures t.batches[id].status != Applied ==>
      t'.batches[id] == t.batches[id].(clientBatchId := c.legacyId(id, t.batches[id].clientBatchId),
                                       classification := "legacy_unapplied_quarantined")
  {
    rows := InOrdinalOrder(t, id);
    ListingByOrdinal(t, id);
    hide UniqueOperations, UniqueClientIds, ListsByOrdinal, ConvertedFrom, HasReceipt, InOrdinalOrder, ReceiptedBatch;
    AllConvert(c, docs, t);
    ListingConverts(c, t, id, rows);
    operations := Conversions(c, t, rows);
    assert BatchAccepted(docs, t, id) && t'.batches[id] == BatchAfter(c, docs, migratedAt, t, id);
    if t.batches[id].status.Applied? {
      ReceiptedHasReceipt(c, docs, migratedAt, t.batches[id], operations);
    }
  }

  lemma AllConvert(c: Converter, docs: Documents, t: Tables)
    requires Accepted(c, docs, t)
    ensures forall o | o in t.operations :: Conversion(c, t, o).Success?
  {
    forall o | o in t.operations ensures Conversion(c, t, o).Success? {
      assert OperationAccepted(c, docs, t, o);
    }
  }

  // ---------------------------------------------------------------- the tables

  class OperationLedger {
    var operations: map<RowId, Operation>
    var batches: map<RowId, Batch>

    ghost function State(): Tables
      reads this
    {
      Tables(operations, batches)
    }

    /** One row of the first loop; `t` is the snapshot that the query read. */
    method ConvertRow(c: Converter, docs: Documents, t: Tables, id: RowId, ghost seen: seq<RowId>,
                      deleteIds: set<RowId>, byBatch: map<RowId, seq<Converted>>)
      returns (ok: bool, deleteIds': set<RowId>, byBatch': map<RowId, seq<Converted>>)
      requires ForeignKeys(t) && id in t.operations
      requires Progress(c, docs, t, seen, operations, deleteIds, byBatch)
      modifies this`operations
      ensures ok <==> OperationAccepted(c, docs, t, id)
      ensures ok ==> Progress(c, docs, t, seen + [id], operations, deleteIds', byBatch')
    {
      var row := t.operations[id];
      var batch := t.batches[row.batch];
      if batch.resume !in docs.current {
        return false, deleteIds, byBatch;
      }
      var conversion := c.convert(row.payload, batch.resume, id);
      if conversion.Failure? || !IsOpaqueId(row.operationId) || conversion.value.operationId != row.operationId {
        return false, deleteIds, byBatch;
      }
      if !batch.status.Applied? {
        DeletedProgress(c, docs, t, seen, id, operations, deleteIds, byBatch);
        return true, deleteIds + {id}, byBatch;
      }
      if !HasRevision(docs, batch.resume, batch.appliedRevision) {
        return false, deleteIds, byBatch;
      }
      var converted := conversion.value;
      ConvertedProgress(c, docs, t, seen, id, operations, deleteIds, byBatch);
      operations := operations[id := row.(operationType := converted.op,
                                          payload := V1RichText.Obj(converted.body),
                                          fingerprint := Some(c.fingerprint(converted)),
                                          appliedRevision := batch.appliedRevision)];
      return true, deleteIds, byBatch[row.batch := Lookup(byBatch, row.batch) + [converted]];
    }

    /** The first loop: convert the operations of applied batches in place, delete all others. */
    method ConvertOperations(c: Converter, docs: Documents)
      returns (ok: bool, byBatch: map<RowId, seq<Converted>>)
      requires ForeignKeys(State())
      modifies this`operations
      ensures ok <==> forall id | id in old(operations) :: OperationAccepted(c, docs, old(State()), id)
      ensures ok ==> OperationsMigrated(c, old(State()), operations) && Grouped(c, old(State()), byBatch)
    {
      hide Progress, OperationAccepted, OperationsMigrated, Grouped, JoinedRows, ForeignKeys;
      var t := Tables(operations, batches);
      var rows := JoinedRows(t);
      JoinedRowsAreOperations(t, rows);
      var deleteIds := {};
      byBatch := map[];
      var i := 0;
      ghost var seen := [];
      ProgressStart(c, docs, t);
      while i < |rows|
        invariant 0 <= i == |seen| <= |rows|
        invariant forall k | 0 <= k < i :: seen[k] == rows[k]
        invariant Progress(c, docs, t, seen, operations, deleteIds, byBatch)
      {
        ok, deleteIds, byBatch := ConvertRow(c, docs, t, rows[i], seen, deleteIds, byBatch);
        if !ok {
          return;
        }
        seen := seen + [rows[i]];
        i := i + 1;
      }
      assert seen == rows;
      ListingIsGrouped(c, docs, t, rows, operations, deleteIds, byBatch);
      operations := map id | id in operations && id !in deleteIds :: operations[id];
      return true, byBatch;
    }

    /** One batch of the second loop: a receipt for an applied batch, a fresh identity for any other. */
    method WriteBatch(c: Converter, docs: Documents, migratedAt: Time, ghost t: Tables, id: RowId, batch: Batch,
                      ghost seen: seq<RowId>, byBatch: map<RowId, seq<Converted>>)
      returns (ok: bool)
      requires (forall op | op in t.operations :: Conversion(c, t, op).Success?) && Grouped(c, t, byBatch)
      requires Receipting(t.batches, BatchesAfter(c, docs, migratedAt, t), seen, batches) && UniqueClientIds(batches)
      requires id in t.batches && batch == t.batches[id] && SeenBefore(t.batches, seen, id)
      modifies this`batches
      ensures ok <==> BatchAccepted(docs, t, id) && !CollidesAt(c, t.batches, id)
      ensures ok ==>
        && id in BatchesAfter(c, docs, migratedAt, t)
        && batches == old(batches)[id := BatchesAfter(c, docs, migratedAt, t)[id]]
        && UniqueClientIds(batches)
    {
      if !batch.status.Applied? {
        var clientBatchId := c.legacyId(id, batch.clientBatchId);
        TakenIff(c, docs, migratedAt, t, seen, batches, id);
        if ClientIdTaken(batches, id, clientBatchId) {
          return false;  // UNIQUE resume_batches_client_id
        }
        var quarantined := batch.(clientBatchId := clientBatchId, classification := "legacy_unapplied_quarantined");
        ClientIdsStayUnique(batches, id, quarantined);
        batches := batches[id := quarantined];
        return true;
      }
      NoOperations(c, t, byBatch, id);
      var operations := Lookup(byBatch, id);
      if operations == [] || !IsOpaqueId(batch.clientBatchId) || !Positive(batch.baseRevision)
         || batch.strategy.None? || batch.strategy.value !in {"reject", "rebase_if_safe"}
         || !Positive(batch.appliedRevision) || !HasRevision(docs, batch.resume, batch.appliedRevision)
      {
        return false;
      }
      var request := Request(batch.clientBatchId, batch.baseRevision.value, batch.strategy.value, operations);
      var snapshot := docs.revisions[(batch.resume, batch.appliedRevision.value)];
      var receipted := batch.(requestFingerprint := Some(c.requestDigest(request)),
                              outcome := Some(Receipt(snapshot, OperationIds(operations))),
                              expiresAt := Some(migratedAt + RETENTION),
                              classification := "converted_applied_receipt");
      ClientIdsStayUnique(batches, id, receipted);
      batches := batches[id := receipted];
      return true;
    }

    /** The second loop, over the batches by id. */
    method WriteReceipts(c: Converter, docs: Documents, migratedAt: Time, ghost t: Tables,
                         byBatch: map<RowId, seq<Converted>>)
      returns (ok: bool)
      requires (forall op | op in t.operations :: Conversion(c, t, op).Success?) && Grouped(c, t, byBatch)
      requires batches == t.batches && UniqueClientIds(batches)
      modifies this`batches
      ensures ok ==> batches == BatchesAfter(c, docs, migratedAt, t) && batches.Keys == t.batches.Keys
      ensures ok ==> UniqueClientIds(batches)
      ensures ok <==> BatchesAccepted(docs, t) && !LegacyIdCollides(c, t.batches)
    {
      hide Receipting, BatchAccepted, BatchAfter, BatchesAfter, BatchesAccepted, Grouped, UniqueClientIds, ByPosition,
           SeenBefore, CollidesAt, LegacyIdCollides;
      var snapshot := batches;
      var rows := ByPosition(batches);
      ListsBatches(batches, rows);
      ghost var after := BatchesAfter(c, docs, migratedAt, t);
      var i := 0;
      ghost var seen := [];
      ReceiptingStart(t.batches, after);
      while i < |rows|
        invariant 0 <= i == |seen| <= |rows|
        invariant forall k | 0 <= k < i :: seen[k] == rows[k]
        invariant Receipting(t.batches, after, seen, batches) && UniqueClientIds(batches)
        invariant forall k | 0 <= k < i :: BatchAccepted(docs, t, rows[k]) && !CollidesAt(c, t.batches, rows[k])
      {
        SeenIsBefore(t.batches, rows, seen);
        ghost var batches' := batches;
        ok := WriteBatch(c, docs, migratedAt, t, rows[i], snapshot[rows[i]], seen, byBatch);
        if !ok {
          NotAccepted(c, docs, t, rows[i]);
          return;
        }
        ReceiptingStep(t.batches, after, seen, rows[i], batches');
        seen := seen + [rows[i]];
        i := i + 1;
      }
      assert seen == rows;
      AfterKeys(c, docs, migratedAt, t);
      AllReceipted(t.batches, after, rows, batches);
      AllAccepted(c, docs, t, rows);
      return true;
    }

    /** `_backfill_operation_ledger`: false is the exception, and rolls the tables back. */
    method Backfill(c: Converter, docs: Documents, migratedAt: Time) returns (ok: bool)
      requires Valid(State())
      modifies this
      ensures ok <==> Accepted(c, docs, old(State())) && !LegacyIdCollides(c, old(batches))
      ensures ok ==> Migrated(c, docs, migratedAt, old(State()), State()) && UniqueClientIds(batches)
      ensures !ok ==> State() == old(State())
    {
      var before := Tables(operations, batches);
      var byBatch;
      ok, byBatch := ConvertOperations(c, docs);
      if ok {
        ok := WriteReceipts(c, docs, migratedAt, before, byBatch);
      }
      if !ok {
        operations, batches := before.operations, before.batches;
      }
    }
  }
}
