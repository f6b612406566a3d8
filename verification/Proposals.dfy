/** The backfill of Resume proposals: their operations become V2 operations, decided proposals
    keep their decision, and what cannot be replayed safely expires. */
module Proposals {
  import opened Backfill
  import opened Basics
  import opened RowOrder
  import V1RichText

  const MAX_OPERATIONS: nat := 200
  const MAX_TITLE: nat := 300

  /** decision_payload: the V1 runtime JSON, or what the backfill puts in its place. */
  datatype DecisionPayload =
    | V1(json: Json)
    | V2(acceptedOperationIds: seq<string>, classification: string)

  datatype Proposal = Proposal(
    resume: ResumeId,
    status: string,
    decisionPayload: DecisionPayload,
    decidedBy: Option<string>,
    decidedAt: Option<Time>,
    updatedAt: Time,
    title: Option<string>,
    evidenceRefs: Option<seq<Json>>)

  datatype ProposalOperation = ProposalOperation(
    proposal: RowId,
    ordinal: int,
    payload: Json,
    decision: Option<string>,
    operationId: Option<string>,
    operationType: string,
    fingerprint: Option<string>,
    appliedRevision: Option<int>)

  datatype Tables = Tables(proposals: map<RowId, Proposal>, operations: map<RowId, ProposalOperation>)

  /** The operation converter, the hash, and the text of a row id, which the backfill treats as given. */
  datatype Converter = Converter(
    convert: (Json, ResumeId, RowId) -> Result<Converted>,
    fingerprint: Converted -> Digest,
    text: RowId -> string)

  ghost predicate ForeignKeys(t: Tables) {
    forall o | o in t.operations :: t.operations[o].proposal in t.proposals
  }

  // ---------------------------------------------------------------- reading the V1 decision

  function Field(j: Json, key: string): Json {
    if j.Obj? && key in j.fields then j.fields[key] else V1RichText.Null
  }

  /** The runtime namespace of the V1 payload; an empty object when there is none. */
  function Runtime(p: Proposal): Json {
    if p.decisionPayload.V1? && Field(p.decisionPayload.json, "runtime").Obj?
    then Field(p.decisionPayload.json, "runtime")
    else V1RichText.Obj(map[])
  }

  function SelectedIds(p: Proposal): set<string> {
    var raw := Field(Runtime(p), "selected_operation_ids");
    if raw.Arr? then set i | 0 <= i < |raw.items| && raw.items[i].Str? :: raw.items[i].s else {}
  }

  /** The revision that the V1 application result proves; `revision` counts only where there is no
      `new_revision` at all. */
  function ProvenRevision(p: Proposal): Option<int> {
    var result := Field(Runtime(p), "application_result");
    var named := if result.Obj? && "new_revision" !in result.fields then Field(result, "revision")
                 else Field(result, "new_revision");
    var candidate := if named.Null? && p.decisionPayload.V1? then Field(p.decisionPayload.json, "new_revision")
                     else named;
    if candidate.Int? then Some(candidate.i) else None
  }

  function TitleOf(p: Proposal, text: string): (title: string)
    ensures 1 <= |title| <= MAX_TITLE
  {
    var raw := Field(Runtime(p), "title");
    var migrated := "Migrated proposal " + text;
    if raw.Str? && 1 <= |raw.s| <= MAX_TITLE then raw.s
    else if |migrated| <= MAX_TITLE then migrated
    else migrated[..MAX_TITLE]
  }

  /** What the V1 payload holds at a path of keys. */
  function PayloadAt(p: Proposal, path: seq<string>): Option<Json> {
    if p.decisionPayload.V1? then V1RichText.At(p.decisionPayload.json, path) else None
  }

  /** runtime.selected_operation_ids is a list that has this text. */
  predicate IsSelected(p: Proposal, id: string) {
    var selected := PayloadAt(p, ["runtime", "selected_operation_ids"]);
    && selected.Some? && selected.value.Arr?
    && exists k :: 0 <= k < |selected.value.items| && selected.value.items[k] == V1RichText.Str(id)
  }

  lemma PathOfOne(p: Proposal, key: string)
    ensures PayloadAt(p, [key])
         == if p.decisionPayload.V1? && p.decisionPayload.json.Obj? && key in p.decisionPayload.json.fields
            then Some(p.decisionPayload.json.fields[key]) else None
  {
    if p.decisionPayload.V1? {
      V1RichText.AtSnoc(p.decisionPayload.json, [], key);
      assert [] + [key] == [key];
    }
  }

  lemma PathOfTwo(p: Proposal, key: string, value: Json)
    ensures PayloadAt(p, ["runtime", key]) == Some(value) ==> Field(Runtime(p), key) == value
    ensures PayloadAt(p, ["runtime", key]).None? ==> Field(Runtime(p), key).Null?
  {
    if p.decisionPayload.V1? {
      PathOfOne(p, "runtime");
      V1RichText.AtSnoc(p.decisionPayload.json, ["runtime"], key);
      assert ["runtime"] + [key] == ["runtime", key];
    }
  }

  lemma SelectedIff(p: Proposal, id: string)
    ensures id in SelectedIds(p) <==> IsSelected(p, id)
  {
    var selected := PayloadAt(p, ["runtime", "selected_operation_ids"]);
    PathOfTwo(p, "selected_operation_ids", if selected.Some? then selected.value else V1RichText.Null);
  }

  /** The title of the runtime is kept if its length allows it; otherwise there is a default, cut to 300. */
  lemma TitleIsKept(p: Proposal, text: string)
    ensures var kept := PayloadAt(p, ["runtime", "title"]);
      if kept.Some? && kept.value.Str? && 1 <= |kept.value.s| <= 300 then TitleOf(p, text) == kept.value.s
      else TitleOf(p, text) <= "Migrated proposal " + text && |TitleOf(p, text)| == Min(18 + |text|, 300)
  {
    var kept := PayloadAt(p, ["runtime", "title"]);
    PathOfTwo(p, "title", if kept.Some? then kept.value else V1RichText.Null);
  }

  const RESULT: seq<string> := ["runtime", "application_result"]

  /** Which integer of the V1 payload proves the revision: new_revision of the application result; where the
      result lacks that key, its revision; where these are missing or null, new_revision of the payload. */
  lemma ProvenRevisionIff(p: Proposal, n: int)
    ensures var named, older := PayloadAt(p, RESULT + ["new_revision"]), PayloadAt(p, RESULT + ["revision"]);
      ProvenRevision(p) == Some(n) <==>
        || named == Some(V1RichText.Int(n))
        || (named == None && older == Some(V1RichText.Int(n)))
        || (&& (named == Some(V1RichText.Null) || (named == None && (older == None || older == Some(V1RichText.Null))))
            && PayloadAt(p, ["new_revision"]) == Some(V1RichText.Int(n)))
  {
    var result := PayloadAt(p, RESULT);
    PathOfTwo(p, "application_result", if result.Some? then result.value else V1RichText.Null);
    PathOfThree(p, "new_revision");
    PathOfThree(p, "revision");
    PathOfOne(p, "new_revision");
    hide V1RichText.At, Runtime;
  }

  lemma PathOfThree(p: Proposal, key: string)
    ensures PayloadAt(p, RESULT + [key])
         == if PayloadAt(p, RESULT).Some? && PayloadAt(p, RESULT).value.Obj? && key in PayloadAt(p, RESULT).value.fields
            then Some(PayloadAt(p, RESULT).value.fields[key]) else None
  {
    if p.decisionPayload.V1? {
      V1RichText.AtSnoc(p.decisionPayload.json, RESULT, key);
    }
  }

  // ---------------------------------------------------------------- the status of a proposal

  datatype Settled = Settled(status: string, decidedBy: Option<string>, decidedAt: Option<Time>, classification: string)

  predicate KnownStatus(status: string) {
    status in {"pending", "accepted", "partially_accepted", "rejected", "expired", "conflicted"}
  }

  predicate Applies(status: string) { status in {"accepted", "partially_accepted"} }

  predicate Decided(status: string) { Applies(status) || status == "rejected" }

  /** CHECK resume_proposals_status and resume_proposals_v2_decision */
  predicate Lifecycle(status: string, decidedBy: Option<string>, decidedAt: Option<Time>) {
    || (status == "pending" && decidedBy.None? && decidedAt.None?)
    || (status == "expired" && decidedBy.None? && decidedAt.Some?)
    || (Decided(status) && decidedBy.Some? && decidedAt.Some?)
  }

  /** A V1 proposal that V2 could not replay: conflicted, or pending with a lossy operation. */
  predicate Unreplayable(p: Proposal, lossy: bool) {
    p.status == "conflicted" || (p.status == "pending" && lossy)
  }

  /** The row itself tells who decided and when, as far as its status asks for it. */
  predicate Settles(p: Proposal, lossy: bool) {
    && KnownStatus(p.status)
    && (p.status == "pending" && !lossy ==> p.decidedBy.None? && p.decidedAt.None?)
    && (Decided(p.status) ==> p.decidedAt.Some? && p.decidedBy.Some? && IsOpaqueId(p.decidedBy.value))
  }

  /** What the proposal settles to. */
  function Settlement(p: Proposal, lossy: bool): Settled {
    if Unreplayable(p, lossy) then Settled("expired", None, Some(p.updatedAt), "terminal_unreplayable")
    else if p.status == "expired" then
      Settled("expired", None, Some(if p.decidedAt.Some? then p.decidedAt.value else p.updatedAt), "converted")
    else Settled(p.status, p.decidedBy, p.decidedAt, "converted")
  }

  /** The status walk of the loop, with its raises. */
  method Settle(p: Proposal, lossy: bool) returns (r: Result<Settled>)
    ensures r.Success? <==> Settles(p, lossy)
    ensures r.Success? ==> r.value == Settlement(p, lossy)
    ensures r.Success? ==> Lifecycle(r.value.status, r.value.decidedBy, r.value.decidedAt)
    ensures r.Success? ==> r.value.status == p.status || (r.value.status == "expired" && Unreplayable(p, lossy))
  {
    var status, decidedAt, decidedBy, classification := p.status, p.decidedAt, p.decidedBy, "converted";
    if !KnownStatus(status) {
      return Failure;
    }
    if status == "conflicted" || (status == "pending" && lossy) {
      status := "expired";
      decidedAt := Some(p.updatedAt);
      decidedBy := None;
      classification := "terminal_unreplayable";
    }
    if status == "pending" {
      if decidedAt.Some? || decidedBy.Some? {
        return Failure;
      }
    } else if status == "expired" {
      if decidedAt.None? {
        decidedAt := Some(p.updatedAt);
      }
      decidedBy := None;
    } else if decidedAt.None? || decidedBy.None? || !IsOpaqueId(decidedBy.value) {
      return Failure;
    }
    return Success(Settled(status, decidedBy, decidedAt, classification));
  }

  // ---------------------------------------------------------------- what the rows become

  function Members(operations: map<RowId, ProposalOperation>, proposal: RowId): set<RowId> {
    set o | o in operations && operations[o].proposal == proposal
  }

  function OrdinalOrder(operations: map<RowId, ProposalOperation>): RowId -> Key {
    o => if o in operations then Key(0, operations[o].ordinal, 0, o.position) else Key(0, 0, 0, o.position)
  }

  /** WHERE proposal_id = ... ORDER BY ordinal, id */
  function Listing(operations: map<RowId, ProposalOperation>, proposal: RowId): seq<RowId> {
    Ordered(Members(operations, proposal), OrdinalOrder(operations))
  }

  function Conversion(c: Converter, t: Tables, o: RowId): Result<Converted> {
    if o in t.operations && t.operations[o].proposal in t.proposals then
      c.convert(t.operations[o].payload, t.proposals[t.operations[o].proposal].resume, o)
    else Failure
  }

  ghost predicate Convertible(c: Converter, t: Tables, proposal: RowId) {
    && (forall o | o in Members(t.operations, proposal) :: Conversion(c, t, o).Success?)
    && (forall a, b | a in Members(t.operations, proposal) && b in Members(t.operations, proposal) && a != b ::
          Conversion(c, t, a).value.operationId != Conversion(c, t, b).value.operationId)
  }

  predicate Lossy(c: Converter, t: Tables, proposal: RowId) {
    exists o | o in Members(t.operations, proposal) :: Conversion(c, t, o).Success? && Conversion(c, t, o).value.lossy
  }

  /** How the operations of a proposal are to be written. */
  datatype Verdict = Verdict(settled: Settled, revision: Option<int>, selected: set<string>)

  function VerdictOf(p: Proposal, settled: Settled): Verdict {
    Verdict(settled, if Applies(settled.status) then ProvenRevision(p) else None, SelectedIds(p))
  }

  predicate Accepts(c: Converter, o: RowId, row: ProposalOperation, converted: Converted, v: Verdict) {
    || v.settled.status == "accepted"
    || (v.settled.status == "partially_accepted"
        && (row.decision == Some("accepted") || c.text(o) in v.selected || converted.operationId in v.selected))
  }

  function Written(c: Converter, o: RowId, row: ProposalOperation, converted: Converted, v: Verdict)
    : ProposalOperation
  {
    var accepted := Accepts(c, o, row, converted, v);
    row.(operationId := Some(converted.operationId),
         operationType := converted.op,
         payload := V1RichText.Obj(converted.body),
         fingerprint := Some(c.fingerprint(converted)),
         appliedRevision := if accepted then v.revision else None,
         decision := if accepted then Some("accepted")
                     else if Decided(v.settled.status) then Some("rejected")
                     else row.decision)
  }

  function Concluded(p: Proposal, text: string, settled: Settled, acceptedIds: seq<string>): Proposal {
    p.(title := Some(TitleOf(p, text)),
       evidenceRefs := Some([]),
       status := settled.status,
       decisionPayload := V2(acceptedIds, settled.classification),
       decidedBy := settled.decidedBy,
       decidedAt := settled.decidedAt)
  }

  /** The ids of the accepted operations among the rows, in their order. */
  function AcceptedIds(c: Converter, t: Tables, rows: seq<RowId>, v: Verdict): seq<string>
    requires forall o | o in rows :: Conversion(c, t, o).Success?
  {
    if rows == [] then []
    else
      var o := rows[|rows| - 1];
      assert o in rows && Conversion(c, t, o).Success?;
      var front := AcceptedIds(c, t, rows[..|rows| - 1], v);
      if Accepts(c, o, t.operations[o], Conversion(c, t, o).value, v)
      then front + [Conversion(c, t, o).value.operationId] else front
  }

  lemma AcceptedSnoc(c: Converter, t: Tables, rows: seq<RowId>, o: RowId, v: Verdict)
    requires (forall r | r in rows :: Conversion(c, t, r).Success?) && Conversion(c, t, o).Success?
    ensures forall r | r in rows + [o] :: Conversion(c, t, r).Success?
    ensures AcceptedIds(c, t, rows + [o], v)
         == if Accepts(c, o, t.operations[o], Conversion(c, t, o).value, v)
            then AcceptedIds(c, t, rows, v) + [Conversion(c, t, o).value.operationId] else AcceptedIds(c, t, rows, v)
  {
    hide Accepts;
    FrontOfSnoc(rows, o);
  }

  lemma NothingAccepted(c: Converter, t: Tables, v: Verdict)
    ensures AcceptedIds(c, t, [], v) == []
  {
  }

  /** The loop does not raise on this proposal. */
  ghost predicate ProposalAccepted(c: Converter, docs: Documents, t: Tables, id: RowId)
    requires id in t.proposals
  {
    var p, lossy := t.proposals[id], Lossy(c, t, id);
    && p.resume in docs.current
    && 1 <= |Members(t.operations, id)| <= MAX_OPERATIONS
    && Convertible(c, t, id)
    && Settles(p, lossy)
    && (Applies(Settlement(p, lossy).status) ==>
          Positive(ProvenRevision(p)) && HasRevision(docs, p.resume, ProvenRevision(p)))
  }

  ghost predicate Accepted(c: Converter, docs: Documents, t: Tables) {
    forall id | id in t.proposals :: ProposalAccepted(c, docs, t, id)
  }

  function VerdictFor(c: Converter, t: Tables, id: RowId): Verdict
    requires id in t.proposals
  {
    VerdictOf(t.proposals[id], Settlement(t.proposals[id], Lossy(c, t, id)))
  }

  lemma ListsMembers(operations: map<RowId, ProposalOperation>, proposal: RowId)
    ensures forall o :: o in Listing(operations, proposal) <==> o in Members(operations, proposal)
    ensures |Listing(operations, proposal)| == |Members(operations, proposal)|
    ensures forall i, j | 0 <= i < j < |Listing(operations, proposal)| ::
      Listing(operations, proposal)[i] != Listing(operations, proposal)[j]
  {
    OrderedLists(Members(operations, proposal), OrdinalOrder(operations));
    var rows := Listing(operations, proposal);
    forall i, j | 0 <= i < j < |rows| ensures rows[i] != rows[j] {
      assert Less(OrdinalOrder(operations)(rows[i]), OrdinalOrder(operations)(rows[j]));
    }
  }

  /** The operations of a proposal stand by ordinal, then by id. */
  lemma ListingAscends(operations: map<RowId, ProposalOperation>, proposal: RowId, i: nat, j: nat)
    requires i < j < |Listing(operations, proposal)|
    ensures var a, b := Listing(operations, proposal)[i], Listing(operations, proposal)[j];
      && a in operations && b in operations
      && (|| operations[a].ordinal < operations[b].ordinal
          || (operations[a].ordinal == operations[b].ordinal && a.position < b.position))
  {
    var rows := Listing(operations, proposal);
    OrderedLists(Members(operations, proposal), OrdinalOrder(operations));
    assert rows[i] in rows && rows[j] in rows;
    assert Less(OrdinalOrder(operations)(rows[i]), OrdinalOrder(operations)(rows[j]));
  }

  function ProposalAfter(c: Converter, docs: Documents, t: Tables, id: RowId): Proposal
    requires id in t.proposals && ProposalAccepted(c, docs, t, id)
  {
    ListsMembers(t.operations, id);
    Concluded(t.proposals[id], c.text(id), Settlement(t.proposals[id], Lossy(c, t, id)),
              AcceptedIds(c, t, Listing(t.operations, id), VerdictFor(c, t, id)))
  }

  function OperationAfter(c: Converter, t: Tables, o: RowId): ProposalOperation
    requires Conversion(c, t, o).Success?
  {
    Written(c, o, t.operations[o], Conversion(c, t, o).value, VerdictFor(c, t, t.operations[o].proposal))
  }

  /** The tables after the backfill, row by row. */
  ghost predicate Migrated(c: Converter, docs: Documents, t: Tables, t': Tables)
    requires ForeignKeys(t) && Accepted(c, docs, t)
  {
    && t'.proposals.Keys == t.proposals.Keys && t'.operations.Keys == t.operations.Keys
    && (forall id | id in t.proposals :: t'.proposals[id] == ProposalAfter(c, docs, t, id))
    && (forall o | o in t.operations :: Conversion(c, t, o).Success? && t'.operations[o] == OperationAfter(c, t, o))
  }

  // ---------------------------------------------------------------- one proposal at a time

  /** Every operation of the proposals `seen` is as the backfill leaves it; all others are untouched. */
  ghost predicate OperationsWritten(c: Converter, t: Tables, seen: seq<RowId>,
                                    operations: map<RowId, ProposalOperation>)
  {
    && operations.Keys == t.operations.Keys
    && (forall o | o in t.operations && t.operations[o].proposal in seen ::
          Conversion(c, t, o).Success? && operations[o] == OperationAfter(c, t, o))
    && (forall o | o in t.operations && t.operations[o].proposal !in seen :: operations[o] == t.operations[o])
  }

  ghost predicate ProposalsWritten(c: Converter, docs: Documents, t: Tables, seen: seq<RowId>,
                                   proposals: map<RowId, Proposal>)
  {
    && proposals.Keys == t.proposals.Keys
    && (forall id | id in seen ::
          id in t.proposals && ProposalAccepted(c, docs, t, id) && proposals[id] == ProposalAfter(c, docs, t, id))
    && (forall id | id in t.proposals && id !in seen :: proposals[id] == t.proposals[id])
  }

  lemma NothingWritten(c: Converter, docs: Documents, t: Tables)
    ensures OperationsWritten(c, t, [], t.operations) && ProposalsWritten(c, docs, t, [], t.proposals)
  {
  }

  lemma PendingProposal(c: Converter, docs: Documents, t: Tables, seen: seq<RowId>, proposals: map<RowId, Proposal>,
                        id: RowId)
    requires ProposalsWritten(c, docs, t, seen, proposals) && id in t.proposals && id !in seen
    ensures id in proposals && proposals[id] == t.proposals[id]
  {
    hide ProposalAccepted, ProposalAfter;
  }

  lemma ProposalStep(c: Converter, docs: Documents, t: Tables, seen: seq<RowId>, proposals: map<RowId, Proposal>,
                     id: RowId)
    requires ProposalsWritten(c, docs, t, seen, proposals) && id in t.proposals && ProposalAccepted(c, docs, t, id)
    ensures ProposalsWritten(c, docs, t, seen + [id], proposals[id := ProposalAfter(c, docs, t, id)])
  {
    hide ProposalAccepted, ProposalAfter;
  }

  lemma NotAccepted(c: Converter, docs: Documents, t: Tables, id: RowId)
    requires id in t.proposals && !ProposalAccepted(c, docs, t, id)
    ensures !Accepted(c, docs, t)
  {
    hide ProposalAccepted;
  }

  lemma AllWritten(c: Converter, docs: Documents, t: Tables, seen: seq<RowId>, t': Tables)
    requires ForeignKeys(t) && forall id :: id in seen <==> id in t.proposals
    requires OperationsWritten(c, t, seen, t'.operations) && ProposalsWritten(c, docs, t, seen, t'.proposals)
    ensures Accepted(c, docs, t) && Migrated(c, docs, t, t')
  {
    hide ProposalAccepted, ProposalAfter;
  }

  /** SELECT * FROM resume.proposals ORDER BY id */
  function ById(proposals: map<RowId, Proposal>): seq<RowId> {
    Ordered(proposals.Keys, (id: RowId) => Key(0, 0, 0, id.position))
  }

  lemma ListsProposals(proposals: map<RowId, Proposal>, rows: seq<RowId>)
    requires rows == ById(proposals)
    ensures forall i | 0 <= i < |rows| :: rows[i] in proposals
    ensures forall id :: id in rows <==> id in proposals
    ensures forall i, j | 0 <= i < j < |rows| :: rows[i] != rows[j]
  {
    var key := (id: RowId) => Key(0, 0, 0, id.position);
    OrderedLists(proposals.Keys, key);
    forall i, j | 0 <= i < j < |rows| ensures rows[i] != rows[j] {
      assert Less(key(rows[i]), key(rows[j]));
    }
  }

  /** The SELECT of a proposal's operations finds them as they were before the backfill. */
  lemma ListingIsUntouched(c: Converter, t: Tables, seen: seq<RowId>, operations: map<RowId, ProposalOperation>,
                           id: RowId)
    requires OperationsWritten(c, t, seen, operations) && id !in seen
    ensures Members(operations, id) == Members(t.operations, id)
    ensures Listing(operations, id) == Listing(t.operations, id)
    ensures forall o | o in Members(t.operations, id) :: operations[o] == t.operations[o]
  {
    forall o ensures o in Members(operations, id) <==> o in Members(t.operations, id) {
      if o in t.operations && t.operations[o].proposal in seen {
        assert operations[o].proposal == t.operations[o].proposal;
      }
    }
    OrderedCongruent(Members(t.operations, id), OrdinalOrder(t.operations), OrdinalOrder(operations));
  }

  /** The rows of one proposal, converted in their order. */
  ghost predicate ConvertedRows(c: Converter, t: Tables, rows: seq<RowId>, converted: seq<Converted>) {
    |converted| == |rows| && forall i | 0 <= i < |rows| :: Conversion(c, t, rows[i]) == Success(converted[i])
  }

  ghost predicate DistinctOperationIds(converted: seq<Converted>) {
    forall i, j | 0 <= i < j < |converted| :: converted[i].operationId != converted[j].operationId
  }

  lemma RowsAreConvertible(c: Converter, t: Tables, id: RowId, rows: seq<RowId>, converted: seq<Converted>)
    requires rows == Listing(t.operations, id)
    requires ConvertedRows(c, t, rows, converted) && DistinctOperationIds(converted)
    ensures Convertible(c, t, id)
    ensures Lossy(c, t, id) <==> exists i | 0 <= i < |converted| :: converted[i].lossy
  {
    ListsMembers(t.operations, id);
    forall a, b | a in Members(t.operations, id) && b in Members(t.operations, id) && a != b
      ensures Conversion(c, t, a).Success? && Conversion(c, t, b).Success?
      ensures Conversion(c, t, a).value.operationId != Conversion(c, t, b).value.operationId
    {
      assert a in rows && b in rows;
    }
    forall o | o in Members(t.operations, id) ensures Conversion(c, t, o).Success? {
      assert o in rows;
    }
    if i :| 0 <= i < |converted| && converted[i].lossy {
      assert rows[i] in rows && rows[i] in Members(t.operations, id);
    }
    if o :| o in Members(t.operations, id) && Conversion(c, t, o).value.lossy {
      assert o in rows;
    }
  }

  lemma RowsAreNotConvertible(c: Converter, t: Tables, id: RowId, rows: seq<RowId>, i: nat, j: nat)
    requires rows == Listing(t.operations, id) && i <= j < |rows|
    requires Conversion(c, t, rows[j]).Failure? || (i < j && Conversion(c, t, rows[i]).Success?
                                                    && Conversion(c, t, rows[i]).value.operationId
                                                       == Conversion(c, t, rows[j]).value.operationId)
    ensures !Convertible(c, t, id)
  {
    ListsMembers(t.operations, id);
    assert rows[i] in rows && rows[j] in rows;
    assert i < j ==> rows[i] != rows[j];
    assert rows[i] in Members(t.operations, id) && rows[j] in Members(t.operations, id);
  }

  lemma ProposalIsWritten(c: Converter, t: Tables, seen: seq<RowId>, before: map<RowId, ProposalOperation>,
                          after: map<RowId, ProposalOperation>, id: RowId, rows: seq<RowId>)
    requires OperationsWritten(c, t, seen, before) && id in t.proposals && id !in seen
    requires after.Keys == before.Keys && forall o :: o in rows <==> o in Members(t.operations, id)
    requires forall o | o in before && o !in rows :: after[o] == before[o]
    requires forall o | o in rows :: Conversion(c, t, o).Success?
    requires forall o | o in rows ::
      after[o] == Written(c, o, t.operations[o], Conversion(c, t, o).value, VerdictFor(c, t, id))
    ensures OperationsWritten(c, t, seen + [id], after)
  {
    forall o | o in t.operations
      ensures t.operations[o].proposal in seen + [id] ==>
        Conversion(c, t, o).Success? && after[o] == OperationAfter(c, t, o)
      ensures t.operations[o].proposal !in seen + [id] ==> after[o] == t.operations[o]
    {
      assert o in rows <==> t.operations[o].proposal == id;
    }
  }

  // ---------------------------------------------------------------- what the backfill establishes

  /** The resume.proposals clause of the guard finds this row. */
  predicate ProposalInvalid(p: Proposal) {
    || p.title.None? || !(1 <= |p.title.value| <= MAX_TITLE)
    || p.evidenceRefs.None?
    || !Lifecycle(p.status, p.decidedBy, p.decidedAt)
  }

  /** The resume.proposal_operations clause of the guard finds this row. */
  predicate OperationInvalid(o: ProposalOperation) {
    || o.operationId.None?
    || o.fingerprint.None? || !IsHex(o.fingerprint.value, 64)
    || !o.payload.Obj?
    || (o.appliedRevision.Some? && o.appliedRevision.value < 1)
  }

  /** UNIQUE (proposal_id, operation_id), which the last query of the guard tests. */
  ghost predicate UniqueOperationIds(operations: map<RowId, ProposalOperation>) {
    forall a, b | a in operations && b in operations && a != b && operations[a].proposal == operations[b].proposal ::
      operations[a].operationId != operations[b].operationId
  }

  lemma ProposalFacts(c: Converter, docs: Documents, t: Tables, id: RowId)
    requires id in t.proposals && ProposalAccepted(c, docs, t, id)
    ensures !ProposalInvalid(ProposalAfter(c, docs, t, id))
    ensures Applies(ProposalAfter(c, docs, t, id).status) <==> VerdictFor(c, t, id).revision.Some?
    ensures Applies(ProposalAfter(c, docs, t, id).status) ==>
      && Positive(VerdictFor(c, t, id).revision)
      && HasRevision(docs, t.proposals[id].resume, VerdictFor(c, t, id).revision)
  {
    hide Convertible, Lossy, AcceptedIds, TitleOf, ProvenRevision, IsOpaqueId;
  }

  lemma OwnerAccepted(c: Converter, docs: Documents, t: Tables, o: RowId)
    requires ForeignKeys(t) && Accepted(c, docs, t) && o in t.operations
    ensures t.operations[o].proposal in t.proposals && ProposalAccepted(c, docs, t, t.operations[o].proposal)
    ensures Conversion(c, t, o).Success?
  {
    assert o in Members(t.operations, t.operations[o].proposal);
  }

  lemma IdsDiffer(c: Converter, docs: Documents, t: Tables, a: RowId, b: RowId)
    requires ForeignKeys(t) && Accepted(c, docs, t) && a in t.operations && b in t.operations && a != b
    requires t.operations[a].proposal == t.operations[b].proposal
    requires Conversion(c, t, a).Success? && Conversion(c, t, b).Success?
    ensures Conversion(c, t, a).value.operationId != Conversion(c, t, b).value.operationId
  {
    OwnerAccepted(c, docs, t, a);
    assert a in Members(t.operations, t.operations[a].proposal) && b in Members(t.operations, t.operations[a].proposal);
  }

  /** Proposals that the backfill accepts pass every clause of the guard behind it. */
  lemma ProposalGuardIsRedundant(c: Converter, docs: Documents, t: Tables, t': Tables)
    requires ForeignKeys(t) && Accepted(c, docs, t) && Migrated(c, docs, t, t')
    ensures forall id | id in t'.proposals :: !ProposalInvalid(t'.proposals[id])
    ensures forall o | o in t'.operations :: !OperationInvalid(t'.operations[o])
    ensures UniqueOperationIds(t'.operations)
  {
    hide ProposalAccepted, ProposalAfter, ProposalInvalid, VerdictFor, Accepts;
    forall id | id in t'.proposals ensures !ProposalInvalid(t'.proposals[id]) {
      assert ProposalAccepted(c, docs, t, id);
      ProposalFacts(c, docs, t, id);
    }
    forall o | o in t'.operations ensures !OperationInvalid(t'.operations[o]) {
      OwnerAccepted(c, docs, t, o);
      ProposalFacts(c, docs, t, t.operations[o].proposal);
    }
    forall a, b | a in t'.operations && b in t'.operations && a != b
                  && t'.operations[a].proposal == t'.operations[b].proposal
      ensures t'.operations[a].operationId != t'.operations[b].operationId
    {
      OwnerAccepted(c, docs, t, a);
      OwnerAccepted(c, docs, t, b);
      IdsDiffer(c, docs, t, a, b);
    }
  }

  /** The ids of the rows that carry an applied revision, in their order. */
  function AppliedIds(operations: map<RowId, ProposalOperation>, rows: seq<RowId>): seq<string>
    requires forall o | o in rows :: o in operations && operations[o].operationId.Some?
  {
    if rows == [] then []
    else
      var row := operations[rows[|rows| - 1]];
      var front := AppliedIds(operations, rows[..|rows| - 1]);
      if row.appliedRevision.Some? then front + [row.operationId.value] else front
  }

  /** Row by row, the operations in the table after the backfill. */
  ghost predicate WrittenRows(c: Converter, t: Tables, operations: map<RowId, ProposalOperation>, rows: seq<RowId>,
                              v: Verdict)
  {
    forall o | o in rows ::
      && Conversion(c, t, o).Success? && o in operations
      && operations[o] == Written(c, o, t.operations[o], Conversion(c, t, o).value, v)
  }

  lemma {:induction false} AcceptedAreApplied(c: Converter, t: Tables, operations: map<RowId, ProposalOperation>,
                                              rows: seq<RowId>, v: Verdict)
    requires WrittenRows(c, t, operations, rows, v)
    requires Applies(v.settled.status) <==> v.revision.Some?
    ensures forall o | o in rows :: o in operations && operations[o].operationId.Some?
    ensures AcceptedIds(c, t, rows, v) == AppliedIds(operations, rows)
  {
    if rows != [] {
      AcceptedAreApplied(c, t, operations, rows[..|rows| - 1], v);
      assert rows[|rows| - 1] in rows;
    }
  }

  lemma RowsOf(c: Converter, docs: Documents, t: Tables, t': Tables, id: RowId)
    requires ForeignKeys(t) && Accepted(c, docs, t) && Migrated(c, docs, t, t') && id in t.proposals
    ensures Listing(t'.operations, id) == Listing(t.operations, id)
    ensures WrittenRows(c, t, t'.operations, Listing(t.operations, id), VerdictFor(c, t, id))
  {
    hide ProposalAccepted, ProposalAfter, VerdictFor;
    ListsMembers(t.operations, id);
    assert Members(t'.operations, id) == Members(t.operations, id);
    OrderedCongruent(Members(t.operations, id), OrdinalOrder(t.operations), OrdinalOrder(t'.operations));
  }

  /** What was decided is kept: the accepted_operation_ids of a proposal name those of its operations that
      carry an applied revision, in ordinal order; that revision is the proven one, of which a
      snapshot exists; and a decided proposal accepts or rejects each of its operations. */
  ghost predicate DecisionKept(docs: Documents, before: Proposal, after: Proposal,
                               operations: map<RowId, ProposalOperation>, rows: seq<RowId>)
  {
    && (forall o | o in rows :: o in operations && operations[o].operationId.Some?)
    && after.decisionPayload.V2?
    && after.decisionPayload.acceptedOperationIds == AppliedIds(operations, rows)
    && (forall o | o in rows && operations[o].appliedRevision.Some? ::
          && Applies(after.status)
          && operations[o].appliedRevision == ProvenRevision(before)
          && HasRevision(docs, before.resume, operations[o].appliedRevision)
          && operations[o].decision == Some("accepted"))
    && (forall o | o in rows && operations[o].appliedRevision.None? ::
          && after.status != "accepted"
          && (Decided(after.status) ==> operations[o].decision == Some("rejected")))
  }

  /** What one written row says of its decision. */
  lemma WrittenRow(c: Converter, o: RowId, row: ProposalOperation, converted: Converted, v: Verdict)
    requires Applies(v.settled.status) <==> v.revision.Some?
    ensures Written(c, o, row, converted, v).operationId.Some?
    ensures Written(c, o, row, converted, v).appliedRevision.Some? ==>
      && Applies(v.settled.status) && Written(c, o, row, converted, v).appliedRevision == v.revision
      && Written(c, o, row, converted, v).decision == Some("accepted")
    ensures Written(c, o, row, converted, v).appliedRevision.None? ==>
      && v.settled.status != "accepted"
      && (Decided(v.settled.status) ==> Written(c, o, row, converted, v).decision == Some("rejected"))
  {
  }

  lemma RowsKeepDecision(c: Converter, docs: Documents, t: Tables, id: RowId, operations: map<RowId, ProposalOperation>,
                         rows: seq<RowId>)
    requires id in t.proposals && ProposalAccepted(c, docs, t, id) && rows == Listing(t.operations, id)
    requires WrittenRows(c, t, operations, rows, VerdictFor(c, t, id))
    ensures DecisionKept(docs, t.proposals[id], ProposalAfter(c, docs, t, id), operations, rows)
  {
    ProposalFacts(c, docs, t, id);
    hide ProposalAccepted, Lossy, Settlement, TitleOf, ProvenRevision, SelectedIds, Listing, Conversion;
    hide AcceptedIds, AppliedIds;
    AcceptedAreApplied(c, t, operations, rows, VerdictFor(c, t, id));
    forall o | o in rows {
      WrittenRow(c, o, t.operations[o], Conversion(c, t, o).value, VerdictFor(c, t, id));
    }
    hide Written;
  }

  /** Which operations of a proposal count as accepted afterwards: all of an accepted one; of a partially
      accepted one those decided so, or selected by row id or by their new operation id; no others.
      Where nothing was decided, each keeps what it had. */
  ghost predicate RowDecisionKept(before: Proposal, text: string, row: ProposalOperation, after: ProposalOperation) {
    && (after.appliedRevision.Some? <==>
          || before.status == "accepted"
          || (&& before.status == "partially_accepted"
              && (|| row.decision == Some("accepted")
                  || IsSelected(before, text)
                  || (after.operationId.Some? && IsSelected(before, after.operationId.value)))))
    && (before.status != "accepted" && before.status != "partially_accepted" && before.status != "rejected" ==>
          after.decision == row.decision)
  }

  /** The operation holds what the converter made of its payload, and stays where it was. */
  ghost predicate RowConverted(c: Converter, resume: ResumeId, o: RowId, row: ProposalOperation,
                               after: ProposalOperation)
  {
    var v := c.convert(row.payload, resume, o);
    && v.Success?
    && after == ProposalOperation(row.proposal, row.ordinal, V1RichText.Obj(v.value.body), after.decision,
                                  Some(v.value.operationId), v.value.op, Some(c.fingerprint(v.value)),
                                  after.appliedRevision)
  }

  lemma WrittenRowDecision(c: Converter, o: RowId, row: ProposalOperation, converted: Converted, p: Proposal,
                           lossy: bool)
    requires Applies(Settlement(p, lossy).status) <==> VerdictOf(p, Settlement(p, lossy)).revision.Some?
    ensures RowDecisionKept(p, c.text(o), row, Written(c, o, row, converted, VerdictOf(p, Settlement(p, lossy))))
  {
    SelectedIff(p, c.text(o));
    SelectedIff(p, converted.operationId);
    hide SelectedIds, ProvenRevision, IsSelected;
  }

  lemma DecisionIsConserved(c: Converter, docs: Documents, t: Tables, t': Tables, id: RowId)
    requires ForeignKeys(t) && Accepted(c, docs, t) && Migrated(c, docs, t, t') && id in t.proposals
    ensures id in t'.proposals
    ensures DecisionKept(docs, t.proposals[id], t'.proposals[id], t'.operations, Listing(t'.operations, id))
    ensures forall o | o in t.operations && t.operations[o].proposal == id ::
      o in t'.operations && RowDecisionKept(t.proposals[id], c.text(o), t.operations[o], t'.operations[o])
  {
    hide ProposalAccepted, ProposalAfter, DecisionKept, Listing, VerdictFor, WrittenRows, RowDecisionKept;
    RowsOf(c, docs, t, t', id);
    RowsKeepDecision(c, docs, t, id, t'.operations, Listing(t.operations, id));
    forall o | o in t.operations && t.operations[o].proposal == id
      ensures o in t'.operations && RowDecisionKept(t.proposals[id], c.text(o), t.operations[o], t'.operations[o])
    {
      OwnerAccepted(c, docs, t, o);
      OneDecisionIsConserved(c, docs, t, o);
    }
  }

  lemma OneDecisionIsConserved(c: Converter, docs: Documents, t: Tables, o: RowId)
    requires o in t.operations && t.operations[o].proposal in t.proposals && Conversion(c, t, o).Success?
    requires ProposalAccepted(c, docs, t, t.operations[o].proposal)
    ensures RowDecisionKept(t.proposals[t.operations[o].proposal], c.text(o), t.operations[o], OperationAfter(c, t, o))
  {
    var id := t.operations[o].proposal;
    AppliedIsProven(c, docs, t, id);
    hide RowDecisionKept, Written, Settlement, VerdictOf, Conversion, Lossy, ProposalAccepted;
    WrittenRowDecision(c, o, t.operations[o], Conversion(c, t, o).value, t.proposals[id], Lossy(c, t, id));
  }

  lemma AppliedIsProven(c: Converter, docs: Documents, t: Tables, id: RowId)
    requires id in t.proposals && ProposalAccepted(c, docs, t, id)
    ensures var p, lossy := t.proposals[id], Lossy(c, t, id);
      Applies(Settlement(p, lossy).status) <==> VerdictOf(p, Settlement(p, lossy)).revision.Some?
  {
    hide Convertible, Lossy, ProvenRevision, IsOpaqueId, Settles, Settlement;
  }

  /** Every operation is converted where it stands. */
  lemma OperationsAreConverted(c: Converter, docs: Documents, t: Tables, t': Tables, o: RowId)
    requires ForeignKeys(t) && Accepted(c, docs, t) && Migrated(c, docs, t, t')
    ensures o in t.operations <==> o in t'.operations
    ensures o in t.operations ==>
      RowConverted(c, t.proposals[t.operations[o].proposal].resume, o, t.operations[o], t'.operations[o])
  {
    hide ProposalAccepted, ProposalAfter, Accepts, VerdictFor;
  }

  /** Which proposals go through, column by column. */
  lemma ProposalAcceptedIff(c: Converter, docs: Documents, t: Tables, id: RowId)
    requires id in t.proposals
    ensures var p, resume := t.proposals[id], t.proposals[id].resume;
      var ids := set o | o in t.operations && t.operations[o].proposal == id;
      ProposalAccepted(c, docs, t, id) <==>
        && resume in docs.current && 1 <= |ids| <= 200
        && (forall o | o in ids :: c.convert(t.operations[o].payload, resume, o).Success?)
        && (forall a, b | a in ids && b in ids && a != b ::
              c.convert(t.operations[a].payload, resume, a).value.operationId
              != c.convert(t.operations[b].payload, resume, b).value.operationId)
        && p.status in {"pending", "conflicted", "expired", "rejected", "accepted", "partially_accepted"}
        && (p.status == "pending" && !LosesSomething(c, t, id) ==> p.decidedBy.None? && p.decidedAt.None?)
        && (p.status in {"rejected", "accepted", "partially_accepted"} ==>
              p.decidedAt.Some? && p.decidedBy.Some? && IsOpaqueId(p.decidedBy.value))
        && (p.status in {"accepted", "partially_accepted"} ==>
              ProvenRevision(p).Some? && ProvenRevision(p).value >= 1
              && (resume, ProvenRevision(p).value) in docs.revisions)
  {
    LossyIff(c, t, id);
    assert Members(t.operations, id) == set o | o in t.operations && t.operations[o].proposal == id;
    forall o | o in Members(t.operations, id)
      ensures Conversion(c, t, o) == c.convert(t.operations[o].payload, t.proposals[id].resume, o)
    {
    }
    hide Lossy, LosesSomething, ProvenRevision, IsOpaqueId, Members, Conversion;
  }

  /** A proposal keeps its status and who decided it when, unless V2 could not replay it; then it expires
      undecided.  An expired one has an end, its own or else its last update.  It keeps its Resume. */
  ghost predicate StatusKept(before: Proposal, after: Proposal, lossy: bool) {
    var unreplayable := before.status == "conflicted" || (before.status == "pending" && lossy);
    && after.decisionPayload.V2?
    && after == before.(
         title := after.title,
         evidenceRefs := Some([]),
         status := if unreplayable then "expired" else before.status,
         decisionPayload := V2(after.decisionPayload.acceptedOperationIds,
                               if unreplayable then "terminal_unreplayable" else "converted"),
         decidedBy := if unreplayable || before.status == "expired" then None else before.decidedBy,
         decidedAt := if unreplayable || (before.status == "expired" && before.decidedAt.None?)
                      then Some(before.updatedAt) else before.decidedAt)
  }

  /** Some operation of the proposal converts with a loss. */
  ghost predicate LosesSomething(c: Converter, t: Tables, id: RowId)
    requires id in t.proposals
  {
    exists o :: o in t.operations && t.operations[o].proposal == id
      && c.convert(t.operations[o].payload, t.proposals[id].resume, o).Success?
      && c.convert(t.operations[o].payload, t.proposals[id].resume, o).value.lossy
  }

  lemma LossyIff(c: Converter, t: Tables, id: RowId)
    requires id in t.proposals
    ensures Lossy(c, t, id) <==> LosesSomething(c, t, id)
  {
    if o :| o in t.operations && t.operations[o].proposal == id
            && c.convert(t.operations[o].payload, t.proposals[id].resume, o).Success?
            && c.convert(t.operations[o].payload, t.proposals[id].resume, o).value.lossy {
      assert o in Members(t.operations, id) && Conversion(c, t, o).value.lossy;
    }
  }

  lemma SettlementKeepsStatus(p: Proposal, lossy: bool, text: string, ids: seq<string>)
    requires Settles(p, lossy)
    ensures StatusKept(p, Concluded(p, text, Settlement(p, lossy), ids), lossy)
    ensures Concluded(p, text, Settlement(p, lossy), ids).title == Some(TitleOf(p, text))
  {
    hide TitleOf;
  }

  lemma StatusIsKept(c: Converter, docs: Documents, t: Tables, t': Tables, id: RowId)
    requires ForeignKeys(t) && Accepted(c, docs, t) && Migrated(c, docs, t, t') && id in t.proposals
    ensures id in t'.proposals && StatusKept(t.proposals[id], t'.proposals[id], LosesSomething(c, t, id))
    ensures t'.proposals[id].title == Some(TitleOf(t.proposals[id], c.text(id)))
  {
    hide ProposalAccepted, ProposalAfter, StatusKept, LosesSomething, TitleOf, Conversion;
    ConcludedKeepsStatus(c, docs, t, id);
  }

  lemma ConcludedKeepsStatus(c: Converter, docs: Documents, t: Tables, id: RowId)
    requires id in t.proposals && ProposalAccepted(c, docs, t, id)
    ensures StatusKept(t.proposals[id], ProposalAfter(c, docs, t, id), LosesSomething(c, t, id))
    ensures ProposalAfter(c, docs, t, id).title == Some(TitleOf(t.proposals[id], c.text(id)))
  {
    LossyIff(c, t, id);
    ProposalSettles(c, docs, t, id);
    hide LosesSomething, ProposalAccepted, StatusKept, Concluded, AcceptedIds, Settles, Settlement, Lossy, TitleOf;
    SettlementKeepsStatus(t.proposals[id], Lossy(c, t, id), c.text(id),
                          AcceptedIds(c, t, Listing(t.operations, id), VerdictFor(c, t, id)));
  }

  lemma ProposalSettles(c: Converter, docs: Documents, t: Tables, id: RowId)
    requires id in t.proposals && ProposalAccepted(c, docs, t, id)
    ensures Settles(t.proposals[id], Lossy(c, t, id))
    ensures forall o | o in Listing(t.operations, id) :: Conversion(c, t, o).Success?
  {
    hide Settles;
    ListsMembers(t.operations, id);
  }

  // ---------------------------------------------------------------- the tables

  class ProposalStore {
    var proposals: map<RowId, Proposal>
    var operations: map<RowId, ProposalOperation>

    ghost function State(): Tables
      reads this
    {
      Tables(proposals, operations)
    }

    /** The conversion loop of one proposal, with its set of ids already used. */
    method ConvertOperations(c: Converter, ghost t: Tables, id: RowId, rows: seq<RowId>)
      returns (r: Result<seq<Converted>>)
      requires id in t.proposals && id in proposals && proposals[id].resume == t.proposals[id].resume
      requires rows == Listing(t.operations, id)
      requires forall o | o in rows ::
        o in operations && o in Members(t.operations, id) && operations[o] == t.operations[o]
      ensures r.Success? ==> ConvertedRows(c, t, rows, r.value) && DistinctOperationIds(r.value)
      ensures r.Failure? ==> !Convertible(c, t, id)
    {
      hide Convertible, Listing;
      var resume := proposals[id].resume;
      var converted, usedIds := [], {};
      var i := 0;
      while i < |rows|
        invariant 0 <= i == |converted| <= |rows|
        invariant forall k | 0 <= k < i :: Conversion(c, t, rows[k]) == Success(converted[k])
        invariant DistinctOperationIds(converted)
        invariant forall s :: s in usedIds <==> exists k :: 0 <= k < i && converted[k].operationId == s
      {
        var o := rows[i];
        assert o in rows;
        var next := c.convert(operations[o].payload, resume, o);
        if next.Failure? {
          RowsAreNotConvertible(c, t, id, rows, i, i);
          return Failure;
        }
        if next.value.operationId in usedIds {
          ghost var k :| 0 <= k < i && converted[k].operationId == next.value.operationId;
          RowsAreNotConvertible(c, t, id, rows, k, i);
          return Failure;
        }
        usedIds := usedIds + {next.value.operationId};
        converted := converted + [next.value];
        i := i + 1;
      }
      return Success(converted);
    }

    static method ConvertRow(c: Converter, o: RowId, row: ProposalOperation, converted: Converted, v: Verdict)
      returns (accepted: bool, row': ProposalOperation)
      ensures accepted == Accepts(c, o, row, converted, v)
      ensures row' == Written(c, o, row, converted, v)
    {
      accepted := false;
      if v.settled.status == "accepted" {
        accepted := true;
      } else if v.settled.status == "partially_accepted" {
        accepted := row.decision == Some("accepted") || c.text(o) in v.selected || converted.operationId in v.selected;
      }
      var decision := row.decision;
      if accepted {
        decision := Some("accepted");
      } else if Decided(v.settled.status) {
        decision := Some("rejected");
      }
      row' := row.(operationId := Some(converted.operationId),
                   operationType := converted.op,
                   payload := V1RichText.Obj(converted.body),
                   fingerprint := Some(c.fingerprint(converted)),
                   appliedRevision := if accepted then v.revision else None,
                   decision := decision);
    }

    /** The update loop of one proposal; `read` holds the rows as the query read them. */
    method WriteOperations(c: Converter, ghost t: Tables, read: map<RowId, ProposalOperation>, rows: seq<RowId>,
                           converted: seq<Converted>, v: Verdict)
      returns (acceptedIds: seq<string>)
      requires ConvertedRows(c, t, rows, converted)
      requires forall o | o in rows ::
        o in operations && o in read && o in t.operations && read[o] == t.operations[o] && Conversion(c, t, o).Success?
      modifies this`operations
      ensures operations.Keys == old(operations).Keys
      ensures forall o | o in operations && o !in rows :: operations[o] == old(operations)[o]
      ensures forall o | o in rows :: operations[o] == Written(c, o, t.operations[o], Conversion(c, t, o).value, v)
      ensures acceptedIds == AcceptedIds(c, t, rows, v)
    {
      hide Accepts, Written, Conversion, AcceptedIds;
      NothingAccepted(c, t, v);
      acceptedIds := [];
      var i := 0;
      ghost var done := [];
      while i < |rows|
        invariant 0 <= i == |done| <= |rows|
        invariant forall k | 0 <= k < i :: done[k] == rows[k]
        invariant operations.Keys == old(operations).Keys
        invariant forall o | o in operations && o !in rows :: operations[o] == old(operations)[o]
        invariant forall o | o in done :: o in rows
        invariant forall o | o in done :: operations[o] == Written(c, o, t.operations[o], Conversion(c, t, o).value, v)
        invariant acceptedIds == AcceptedIds(c, t, done, v)
      {
        var o := rows[i];
        assert o in rows;
        var accepted, row := ConvertRow(c, o, read[o], converted[i], v);
        if accepted {
          acceptedIds := acceptedIds + [converted[i].operationId];
        }
        operations := operations[o := row];
        AcceptedSnoc(c, t, done, o, v);
        done := done + [o];
        i := i + 1;
      }
      assert done == rows;
    }

    /** Everything that can raise: the operations convert, the status settles, the revision is proven. */
    method Prepare(c: Converter, docs: Documents, ghost t: Tables, id: RowId, p: Proposal, rows: seq<RowId>)
      returns (r: Result<(seq<Converted>, Settled)>)
      requires id in t.proposals && p == t.proposals[id] && id in proposals && proposals[id] == p
      requires rows == Listing(t.operations, id)
      requires forall o | o in rows ::
        o in operations && o in Members(t.operations, id) && operations[o] == t.operations[o]
      requires |rows| == |Members(t.operations, id)|
      ensures r.Success? <==> ProposalAccepted(c, docs, t, id)
      ensures r.Success? ==> ConvertedRows(c, t, rows, r.value.0)
      ensures r.Success? ==> r.value.1 == Settlement(p, Lossy(c, t, id))
    {
      hide Listing, Convertible, Settles, Settlement, ConvertedRows, DistinctOperationIds, Lossy;
      if p.resume !in docs.current || !(1 <= |rows| <= MAX_OPERATIONS) {
        return Failure;
      }
      var conversion := ConvertOperations(c, t, id, rows);
      if conversion.Failure? {
        return Failure;
      }
      var converted := conversion.value;
      RowsAreConvertible(c, t, id, rows, converted);
      var settled := Settle(p, exists i | 0 <= i < |converted| :: converted[i].lossy);
      if settled.Failure? {
        return Failure;
      }
      if Applies(settled.value.status)
         && (!Positive(ProvenRevision(p)) || !HasRevision(docs, p.resume, ProvenRevision(p)))
      {
        return Failure;
      }
      return Success((converted, settled.value));
    }

    /** One turn of the loop; `p` is the proposal as the query read it. */
    method ConvertProposal(c: Converter, docs: Documents, ghost t: Tables, id: RowId, p: Proposal,
                           ghost seen: seq<RowId>)
      returns (ok: bool)
      requires id in t.proposals && p == t.proposals[id] && id !in seen
      requires OperationsWritten(c, t, seen, operations)
      requires id in proposals && proposals[id] == p
      modifies this
      ensures ok <==> ProposalAccepted(c, docs, t, id)
      ensures ok ==> OperationsWritten(c, t, seen + [id], operations)
      ensures ok ==> proposals == old(proposals)[id := ProposalAfter(c, docs, t, id)]
    {
      hide ProposalAccepted, OperationsWritten, Listing, Settlement, Lossy, TitleOf, SelectedIds, ProvenRevision;
      hide Written;
      var rows := Listing(operations, id);
      ListingIsUntouched(c, t, seen, operations, id);
      ListsMembers(t.operations, id);
      var prepared := Prepare(c, docs, t, id, p, rows);
      if prepared.Failure? {
        return false;
      }
      var (converted, settled) := prepared.value;
      var before := operations;
      assert forall o | o in rows :: Conversion(c, t, o).Success?;
      hide Conversion;
      var acceptedIds := WriteOperations(c, t, before, rows, converted, VerdictOf(p, settled));
      ProposalIsWritten(c, t, seen, before, operations, id, rows);
      proposals := proposals[id := p.(title := Some(TitleOf(p, c.text(id))),
                                      evidenceRefs := Some([]),
                                      status := settled.status,
                                      decisionPayload := V2(acceptedIds, settled.classification),
                                      decidedBy := settled.decidedBy,
                                      decidedAt := settled.decidedAt)];
      return true;
    }

    /** `_backfill_proposals`: false is the exception, and rolls the tables back. */
    method Backfill(c: Converter, docs: Documents) returns (ok: bool)
      requires ForeignKeys(State())
      modifies this
      ensures ok <==> Accepted(c, docs, old(State()))
      ensures ok ==> Migrated(c, docs, old(State()), State())
      ensures !ok ==> State() == old(State())
    {
      hide OperationsWritten, ProposalsWritten, ProposalAccepted, ProposalAfter, ById, ForeignKeys, Accepted, Migrated;
      var before := Tables(proposals, operations);
      var rows := ById(proposals);
      ListsProposals(proposals, rows);
      var i := 0;
      ghost var seen := [];
      NothingWritten(c, docs, before);
      while i < |rows|
        invariant 0 <= i == |seen| <= |rows|
        invariant forall k | 0 <= k < i :: seen[k] == rows[k]
        invariant OperationsWritten(c, before, seen, operations) && ProposalsWritten(c, docs, before, seen, proposals)
      {
        assert rows[i] !in seen;
        PendingProposal(c, docs, before, seen, proposals, rows[i]);
        ghost var proposals' := proposals;
        ok := ConvertProposal(c, docs, before, rows[i], before.proposals[rows[i]], seen);
        if !ok {
          proposals, operations := before.proposals, before.operations;
          NotAccepted(c, docs, before, rows[i]);
          return;
        }
        ProposalStep(c, docs, before, seen, proposals', rows[i]);
        seen := seen + [rows[i]];
        i := i + 1;
      }
      assert seen == rows;
      AllWritten(c, docs, before, rows, State());
      return true;
    }
  }
}
