/** The lease protocol of the unified outbox: claim, renew, complete and retry.

    Each PL/pgSQL function is one atomic step on the table.  `at` is the
    statement_timestamp() of the step, in microseconds.  Event ids stand for their
    position in the id collation order; None for an id argument is NULL or ''. */
module Outbox {
  import opened Basics
  import opened RowOrder

  type EventId = int
  type Time = int

  const SECOND: int := 1_000_000
  const DAY: int := 86_400 * SECOND

  datatype Status = Pending | Processing | Published | Failed

  datatype Row = Row(
    status: Status,
    eventType: string,
    occurredAt: Time,
    attempts: int,
    token: Option<string>,
    leaseExpiresAt: Option<Time>,
    nextAttemptAt: Time,
    publishedAt: Option<Time>,
    lastError: Option<string>,
    updatedAt: Time)

  type Table = map<EventId, Row>

  datatype Call =
    | Insert(id: EventId, eventType: string, occurredAt: Time, nextAttemptAt: Time)
    | Claim(token: Option<string>, now: Option<Time>, leaseSeconds: Option<int>, batch: Option<int>,
            maximum: Option<int>, types: Option<seq<Option<string>>>, locked: set<EventId>)
    | Renew(event: Option<EventId>, token: Option<string>, now: Option<Time>, leaseSeconds: Option<int>)
    | Complete(event: Option<EventId>, token: Option<string>, completedAt: Option<Time>)
    | Retry(event: Option<EventId>, token: Option<string>, error: Option<string>, retryAt: Option<Time>,
            maximum: Option<int>)

  /** What the caller sees.  A claim returns its rows' new attempt_count and lease_expires_at too;
      those are columns of the table after the step. */
  datatype Outcome =
    | Raised
    | Inserted
    | Claimed(ids: seq<EventId>)
    | Found(ok: bool)

  // ---------------------------------------------------------------- constraints

  /** CHECK outbox_events_dispatch_lease */
  predicate LeaseShape(r: Row) {
    match r.status
    case Pending => r.token.None? && r.leaseExpiresAt.None? && r.publishedAt.None?
    case Processing => r.token.Some? && r.leaseExpiresAt.Some? && r.publishedAt.None?
    case Published => r.token.None? && r.leaseExpiresAt.None? && r.publishedAt.Some?
    case Failed => r.token.None? && r.leaseExpiresAt.None? && r.publishedAt.None?
  }

  /** CHECK outbox_events_dispatch_values */
  predicate DispatchValues(r: Row) {
    && r.attempts >= 0
    && (r.token.Some? ==> IsHex(r.token.value, 64))
    && (r.lastError.Some? ==> IsName(r.lastError.value, 2, 100))
  }

  predicate RowOk(r: Row) { LeaseShape(r) && DispatchValues(r) }

  predicate TableOk(t: Table) { forall id | id in t :: RowOk(t[id]) }

  // ---------------------------------------------------------------- claim

  predicate BadToken(token: Option<string>) {
    token.None? || !IsHex(token.value, 64)
  }

  predicate BadEventTypes(types: seq<Option<string>>) {
    || !(1 <= |types| <= 32)
    || (exists t | t in types :: t.None? || !(3 <= |t.value| <= 128) || !IsName(t.value, 2, 127))
    || (exists i, j | 0 <= i < j < |types| :: types[i] == types[j])
  }

  /** The guard of claim_outbox_events.  A NULL lease, batch or maximum passes it. */
  predicate ClaimRaises(c: Call)
    requires c.Claim?
  {
    || BadToken(c.token)
    || c.now.None?
    || NotBetween(c.leaseSeconds, 5, 900)
    || NotBetween(c.batch, 1, 100)
    || NotBetween(c.maximum, 1, 100)
    || (c.types.Some? && BadEventTypes(c.types.value))
  }

  predicate TypeMatches(r: Row, types: Option<seq<Option<string>>>) {
    types.None? || Some(r.eventType) in types.value
  }

  predicate Due(r: Row, now: Time) {
    || (r.status.Pending? && r.nextAttemptAt <= now)
    || (r.status.Processing? && r.leaseExpiresAt.Some? && r.leaseExpiresAt.value <= now)
  }

  /** The WHERE clause of the candidates query; comparing with a NULL maximum admits no row. */
  predicate Eligible(r: Row, now: Time, maximum: Option<int>, types: Option<seq<Option<string>>>) {
    && maximum.Some?
    && r.attempts < maximum.value
    && TypeMatches(r, types)
    && Due(r, now)
  }

  function ClaimKey(id: EventId, r: Row): Key {
    Key(if r.status.Processing? then 0 else 1,
        if r.leaseExpiresAt.Some? then r.leaseExpiresAt.value else r.nextAttemptAt,
        r.occurredAt,
        id)
  }

  /** `LEAST(candidate_now, statement_timestamp())` */
  function EffectiveNow(now: Time, at: Time): Time { Min(now, at) }

  function Candidates(t: Table, c: Call, at: Time): (ids: set<EventId>)
    requires c.Claim? && c.now.Some?
    ensures forall id :: id in ids <==>
      id in t && id !in c.locked && Eligible(t[id], EffectiveNow(c.now.value, at), c.maximum, c.types)
  {
    set id | id in t && id !in c.locked && Eligible(t[id], EffectiveNow(c.now.value, at), c.maximum, c.types)
  }

  function ClaimOrder(t: Table): EventId -> Key {
    id => if id in t then ClaimKey(id, t[id]) else Key(0, 0, 0, id)
  }

  /** How many rows a claim takes: min(batch, available), or all of them for a NULL batch. */
  function ClaimCount(c: Call, available: nat): nat
    requires c.Claim? && !ClaimRaises(c)
  {
    if c.batch.Some? && c.batch.value < available then c.batch.value else available
  }

  /** ORDER BY ... FOR UPDATE SKIP LOCKED LIMIT batch. */
  function Chosen(t: Table, c: Call, at: Time): seq<EventId>
    requires c.Claim? && !ClaimRaises(c)
  {
    var ids := Candidates(t, c, at);
    FirstN(ids, ClaimOrder(t), ClaimCount(c, |ids|))
  }

  function ClaimedRow(r: Row, token: string, lease: Time, at: Time): Row {
    r.(status := Processing, attempts := r.attempts + 1, token := Some(token),
       leaseExpiresAt := Some(lease), updatedAt := at)
  }

  function ClaimedTable(t: Table, chosen: set<EventId>, token: string, lease: Time, at: Time): Table {
    map id | id in t :: if id in chosen then ClaimedRow(t[id], token, lease, at) else t[id]
  }

  function DeliveryOrder(t: Table): EventId -> Key {
    id => Key(0, 0, if id in t then t[id].occurredAt else 0, id)
  }

  /** The result rows, in (occurred_at, id) order rather than in claim order. */
  function Deliveries(t: Table, chosen: set<EventId>): (ds: seq<EventId>) {
    Ordered(chosen, DeliveryOrder(t))
  }

  function ApplyClaim(t: Table, c: Call, at: Time): (Table, Outcome)
    requires c.Claim?
  {
    if ClaimRaises(c) then (t, Raised)
    else
      var chosen := Elements(Chosen(t, c, at));
      if chosen == {} then (t, Claimed([]))
      else if c.leaseSeconds.None? then (t, Raised)  // a NULL lease violates the lease CHECK
      else (ClaimedTable(t, chosen, c.token.value, at + c.leaseSeconds.value * SECOND, at),
            Claimed(Deliveries(t, chosen)))
  }

  // ---------------------------------------------------------------- renew, complete, retry

  /** The compare-and-set condition shared by the three holder operations. */
  predicate Holds(t: Table, id: EventId, token: string) {
    id in t && t[id].status.Processing? && t[id].token == Some(token)
  }

  function ApplyRenew(t: Table, c: Call, at: Time): (Table, Outcome)
    requires c.Renew?
  {
    if c.event.None? || BadToken(c.token) || c.now.None? || NotBetween(c.leaseSeconds, 5, 900) then
      (t, Raised)
    else if !Holds(t, c.event.value, c.token.value) then (t, Found(false))
    else if c.leaseSeconds.None? then (t, Raised)  // a NULL lease violates the lease CHECK
    else
      var r := t[c.event.value];
      (t[c.event.value := r.(leaseExpiresAt := Some(at + c.leaseSeconds.value * SECOND), updatedAt := at)],
       Found(true))
  }

  function ApplyComplete(t: Table, c: Call, at: Time): (Table, Outcome)
    requires c.Complete?
  {
    if c.event.None? || BadToken(c.token) || c.completedAt.None? then (t, Raised)
    else if !Holds(t, c.event.value, c.token.value) then (t, Found(false))
    else
      var r := t[c.event.value];
      (t[c.event.value := r.(status := Published,
                             publishedAt := Some(Max(r.occurredAt, Min(c.completedAt.value, at))),
                             token := None, leaseExpiresAt := None, lastError := None, updatedAt := at)],
       Found(true))
  }

  function ApplyRetry(t: Table, c: Call, at: Time): (Table, Outcome)
    requires c.Retry?
  {
    if c.event.None? || BadToken(c.token) || c.error.None? || !IsName(c.error.value, 2, 100)
       || c.retryAt.None? || NotBetween(c.maximum, 1, 100)
    then (t, Raised)
    else if !Holds(t, c.event.value, c.token.value) then (t, Found(false))
    else
      var r := t[c.event.value];
      (t[c.event.value := r.(status := if c.maximum.Some? && r.attempts >= c.maximum.value then Failed else Pending,
                             nextAttemptAt := Max(at, Min(c.retryAt.value, at + DAY)),
                             token := None, leaseExpiresAt := None,
                             lastError := c.error, updatedAt := at)],
       Found(true))
  }

  /** Column defaults give an inserted row: pending, never attempted. */
  function ApplyInsert(t: Table, c: Call, at: Time): (Table, Outcome)
    requires c.Insert?
  {
    if c.id in t then (t, Raised)
    else
      (t[c.id := Row(Pending, c.eventType, c.occurredAt, 0, None, None, c.nextAttemptAt, None, None, at)], Inserted)
  }

  /** One atomic step: the table after it, and what the caller sees. */
  function Apply(t: Table, c: Call, at: Time): (Table, Outcome) {
    match c
    case Insert(_, _, _, _) => ApplyInsert(t, c, at)
    case Claim(_, _, _, _, _, _, _) => ApplyClaim(t, c, at)
    case Renew(_, _, _, _) => ApplyRenew(t, c, at)
    case Complete(_, _, _) => ApplyComplete(t, c, at)
    case Retry(_, _, _, _, _) => ApplyRetry(t, c, at)
  }

  /** Among `all`, the rows of `picked` come first in claim order. */
  ghost predicate PicksFirst(t: Table, all: set<EventId>, picked: set<EventId>)
    requires all <= t.Keys && picked <= t.Keys
  {
    forall p, q | p in picked && q in all && q !in picked :: Less(ClaimKey(p, t[p]), ClaimKey(q, t[q]))
  }

  lemma ChosenAreCandidates(t: Table, c: Call, at: Time)
    requires c.Claim? && !ClaimRaises(c)
    ensures Elements(Chosen(t, c, at)) <= Candidates(t, c, at)
    ensures |Chosen(t, c, at)| == |Elements(Chosen(t, c, at))| == ClaimCount(c, |Candidates(t, c, at)|)
    ensures PicksFirst(t, Candidates(t, c, at), Elements(Chosen(t, c, at)))
  {
    var all := Candidates(t, c, at);
    FirstNIsLeast(all, ClaimOrder(t), ClaimCount(c, |all|));
    var chosen := Chosen(t, c, at);
    forall p, q | p in Elements(chosen) && q in all && q !in Elements(chosen)
      ensures Less(ClaimKey(p, t[p]), ClaimKey(q, t[q]))
    {
      assert Less(ClaimOrder(t)(p), ClaimOrder(t)(q));
    }
  }

  /** p occurred before q, or at the same time with a smaller id. */
  predicate OccursBefore(t: Table, p: EventId, q: EventId)
    requires p in t && q in t
  {
    t[p].occurredAt < t[q].occurredAt || (t[p].occurredAt == t[q].occurredAt && p < q)
  }

  /** When a row is there for a claim to take, column by column: it is not locked, it has attempts left,
      its type is asked for, and it is pending or leased until no later than both clocks. */
  lemma CandidateIff(t: Table, c: Call, at: Time, id: EventId)
    requires TableOk(t) && c.Claim? && c.now.Some? && id in t
    ensures id in Candidates(t, c, at) <==>
      && id !in c.locked
      && c.maximum.Some? && t[id].attempts < c.maximum.value
      && (c.types.None? || exists k :: 0 <= k < |c.types.value| && c.types.value[k] == Some(t[id].eventType))
      && (|| (t[id].status == Pending && t[id].nextAttemptAt <= c.now.value && t[id].nextAttemptAt <= at)
          || (&& t[id].status == Processing
              && t[id].leaseExpiresAt.value <= c.now.value && t[id].leaseExpiresAt.value <= at))
  {
    assert RowOk(t[id]);
  }

  /** A claim returns the first min(batch, available) eligible unlocked rows in claim order,
      listed by (occurred_at, id). */
  lemma ClaimPicksTheLeast(t: Table, c: Call, at: Time, t': Table, ids: seq<EventId>)
    requires c.Claim? && ApplyClaim(t, c, at) == (t', Claimed(ids))
    ensures !ClaimRaises(c) && Elements(ids) <= Candidates(t, c, at)
    ensures var available := |Candidates(t, c, at)|;
      |ids| == |Elements(ids)| == if c.batch.Some? then Min(c.batch.value, available) else available
    ensures PicksFirst(t, Candidates(t, c, at), Elements(ids))
    ensures forall i | 0 <= i < |ids| :: ids[i] in t
    ensures forall i, j | 0 <= i < j < |ids| :: OccursBefore(t, ids[i], ids[j])
  {
    ChosenAreCandidates(t, c, at);
    OrderedLists(Elements(Chosen(t, c, at)), DeliveryOrder(t));
    assert Elements(ids) == Elements(Chosen(t, c, at));
    ListedByOccurrence(t, ids);
  }

  lemma ListedByOccurrence(t: Table, ids: seq<EventId>)
    requires Elements(ids) <= t.Keys
    ensures forall i | 0 <= i < |ids| :: ids[i] in t
    ensures Ascending(ids, DeliveryOrder(t)) <==> forall i, j | 0 <= i < j < |ids| :: OccursBefore(t, ids[i], ids[j])
  {
    forall i | 0 <= i < |ids| ensures ids[i] in t {
      assert ids[i] in Elements(ids);
    }
    forall i, j | 0 <= i < j < |ids|
      ensures Less(DeliveryOrder(t)(ids[i]), DeliveryOrder(t)(ids[j])) <==> OccursBefore(t, ids[i], ids[j])
    {
    }
  }

  /** Those promises determine the answer: no other list of events keeps them all. */
  lemma ClaimIsDetermined(t: Table, c: Call, at: Time, t': Table, ids: seq<EventId>, other: seq<EventId>)
    requires c.Claim? && ApplyClaim(t, c, at) == (t', Claimed(ids)) && !ClaimRaises(c)
    requires Elements(other) <= Candidates(t, c, at)
    requires var available := |Candidates(t, c, at)|;
      |other| == |Elements(other)| == if c.batch.Some? then Min(c.batch.value, available) else available
    requires PicksFirst(t, Candidates(t, c, at), Elements(other))
    requires forall i | 0 <= i < |other| :: other[i] in t
    requires forall i, j | 0 <= i < j < |other| :: OccursBefore(t, other[i], other[j])
    ensures other == ids
  {
    ListedByOccurrence(t, other);
    var all, picked, key := Candidates(t, c, at), Elements(other), ClaimOrder(t);
    var listed := Ordered(picked, key);
    OrderedLists(picked, key);
    ElementsAre(listed, picked);
    forall p, q | p in listed && q in all && q !in listed ensures Less(key(p), key(q)) {
      assert p in picked && q !in picked;
    }
    hide ClaimRaises, Candidates, ApplyClaim, Eligible, PicksFirst, ClaimKey;
    FirstNIsUnique(all, key, ClaimCount(c, |all|), listed);
    DeliveredFromChosen(t, c, at, t', ids);
    assert forall id :: id in picked <==> id in other;
    OrderedIsUnique(picked, other, DeliveryOrder(t));
  }

  lemma DeliveredFromChosen(t: Table, c: Call, at: Time, t': Table, ids: seq<EventId>)
    requires c.Claim? && ApplyClaim(t, c, at) == (t', Claimed(ids)) && !ClaimRaises(c)
    ensures ids == Deliveries(t, Elements(Chosen(t, c, at)))
  {
    hide ClaimRaises, Chosen;
  }

  /** What a claim passes over waits behind what it takes: expired leases go before pending rows,
      then earlier due times, then earlier occurrences, then smaller ids. */
  lemma ClaimIsFair(t: Table, c: Call, at: Time, t': Table, ids: seq<EventId>, p: EventId, q: EventId)
    requires TableOk(t) && c.Claim? && ApplyClaim(t, c, at) == (t', Claimed(ids))
    requires p in ids && q in Candidates(t, c, at) && q !in ids
    ensures p in t && (t[p].status.Processing? || t[q].status.Pending?)
    ensures t[p].status.Processing? && t[q].status.Processing? ==>
      || t[p].leaseExpiresAt.value < t[q].leaseExpiresAt.value
      || (t[p].leaseExpiresAt == t[q].leaseExpiresAt && OccursBefore(t, p, q))
    ensures t[p].status.Pending? && t[q].status.Pending? ==>
      || t[p].nextAttemptAt < t[q].nextAttemptAt
      || (t[p].nextAttemptAt == t[q].nextAttemptAt && OccursBefore(t, p, q))
  {
    ClaimPicksTheLeast(t, c, at, t', ids);
    assert RowOk(t[p]) && RowOk(t[q]);
    assert p in Elements(ids) && q !in Elements(ids);
    assert Less(ClaimKey(p, t[p]), ClaimKey(q, t[q]));
  }

  lemma ClaimWrites(t: Table, c: Call, at: Time, t': Table, ids: seq<EventId>)
    requires c.Claim? && ApplyClaim(t, c, at) == (t', Claimed(ids))
    ensures !ClaimRaises(c) && Elements(ids) <= Candidates(t, c, at)
    ensures ids == [] ==> t' == t
    ensures ids != [] ==>
      && c.leaseSeconds.Some? && 5 <= c.leaseSeconds.value <= 900
      && t' == ClaimedTable(t, Elements(ids), c.token.value, at + c.leaseSeconds.value * SECOND, at)
  {
    ChosenAreCandidates(t, c, at);
    OrderedLists(Elements(Chosen(t, c, at)), DeliveryOrder(t));
    assert Elements(ids) == Elements(Chosen(t, c, at));
    hide Candidates, IsHex, BadEventTypes, DeliveryOrder;
    NothingListed(ids);
  }

  lemma NothingListed(ids: seq<EventId>)
    ensures ids == [] <==> Elements(ids) == {}
  {
    if ids != [] {
      assert ids[0] in Elements(ids);
    }
  }

  /** Exactly the delivered rows change: they are leased to the caller until at + lease. */
  lemma ClaimEffect(t: Table, c: Call, at: Time, t': Table, ids: seq<EventId>)
    requires c.Claim? && ApplyClaim(t, c, at) == (t', Claimed(ids))
    ensures !ClaimRaises(c) && Elements(ids) <= Candidates(t, c, at)
    ensures t'.Keys == t.Keys
    ensures forall id | id in t && id !in ids :: t'[id] == t[id]
    ensures ids != [] ==> c.leaseSeconds.Some? && 5 <= c.leaseSeconds.value <= 900
    ensures forall id | id in ids ::
      t'[id] == t[id].(status := Processing, attempts := t[id].attempts + 1, token := c.token,
                       leaseExpiresAt := Some(at + c.leaseSeconds.value * 1_000_000), updatedAt := at)
  {
    ClaimWrites(t, c, at, t', ids);
    hide ApplyClaim, ClaimRaises, Eligible, ClaimedTable;
    if ids != [] {
      LeasedRows(t, ids, c.token.value, at + c.leaseSeconds.value * SECOND, at);
      assert forall id | id in ids :: id in Elements(ids);
    }
  }

  lemma LeasedRows(t: Table, ids: seq<EventId>, token: string, lease: Time, at: Time)
    ensures var t' := ClaimedTable(t, Elements(ids), token, lease, at);
      && t'.Keys == t.Keys
      && (forall id | id in t && id !in ids :: t'[id] == t[id])
      && (forall id | id in t && id in ids ::
            t'[id] == t[id].(status := Processing, attempts := t[id].attempts + 1, token := Some(token),
                             leaseExpiresAt := Some(lease), updatedAt := at))
  {
  }

  lemma UpdateKeepsConstraints(t: Table, id: EventId, r: Row)
    requires TableOk(t) && RowOk(r)
    ensures TableOk(t[id := r])
  {
    hide RowOk;
  }

  lemma ClaimKeepsConstraints(t: Table, c: Call, at: Time, t': Table, ids: seq<EventId>)
    requires TableOk(t) && c.Claim? && ApplyClaim(t, c, at) == (t', Claimed(ids))
    ensures TableOk(t')
  {
    ClaimEffect(t, c, at, t', ids);
    assert IsHex(c.token.value, 64);
    hide ApplyClaim, Candidates, IsHex, IsName;
    forall id | id in t' ensures RowOk(t'[id]) {
      assert RowOk(t[id]);
      if id in ids {
        assert t'[id] == ClaimedRow(t[id], c.token.value, at + c.leaseSeconds.value * SECOND, at);
      }
    }
  }

  /** What a holder operation writes meets both CHECKs. */
  lemma HolderKeepsConstraints(t: Table, c: Call, at: Time)
    requires TableOk(t) && (c.Renew? || c.Complete? || c.Retry?)
    ensures TableOk(Apply(t, c, at).0)
  {
    hide IsHex, IsName;
    if c.event.Some? && c.token.Some? && Holds(t, c.event.value, c.token.value) {
      var id := c.event.value;
      assert RowOk(t[id]);
      var t' := Apply(t, c, at).0;
      assert t' == t || (t' == t[id := t'[id]] && RowOk(t'[id]));
      if t' != t {
        UpdateKeepsConstraints(t, id, t'[id]);
      }
    }
  }

  /** Every step keeps both CHECK constraints, so none of them can abort a step that went through. */
  lemma StepKeepsConstraints(t: Table, c: Call, at: Time)
    requires TableOk(t)
    ensures TableOk(Apply(t, c, at).0)
  {
    hide RowOk, ApplyClaim, ApplyRenew, ApplyComplete, ApplyRetry;
    if c.Claim? {
      ClaimChangesOrNot(t, c, at);
      var (t', out) := ApplyClaim(t, c, at);
      if out.Claimed? {
        ClaimKeepsConstraints(t, c, at, t', out.ids);
      }
    } else if c.Insert? {
      InsertKeepsConstraints(t, c, at);
    } else {
      HolderKeepsConstraints(t, c, at);
    }
  }

  lemma ClaimChangesOrNot(t: Table, c: Call, at: Time)
    requires c.Claim?
    ensures ApplyClaim(t, c, at).1.Claimed? || ApplyClaim(t, c, at) == (t, Raised)
  {
    hide ClaimRaises, Chosen, Deliveries;
  }

  lemma InsertKeepsConstraints(t: Table, c: Call, at: Time)
    requires TableOk(t) && c.Insert?
    ensures TableOk(ApplyInsert(t, c, at).0)
  {
    hide IsHex, IsName;
    UpdateKeepsConstraints(t, c.id,
                           Row(Pending, c.eventType, c.occurredAt, 0, None, None, c.nextAttemptAt, None, None, at));
  }

  /** When a claim goes through: its arguments are well formed or NULL, and a NULL lease meets no
      candidate. */
  lemma ClaimGoesThroughIff(t: Table, c: Call, at: Time)
    requires c.Claim?
    ensures ApplyClaim(t, c, at).1.Claimed? <==>
      && c.token.Some? && IsHex(c.token.value, 64) && c.now.Some?
      && (c.leaseSeconds.Some? ==> 5 <= c.leaseSeconds.value <= 900)
      && (c.batch.Some? ==> 1 <= c.batch.value <= 100)
      && (c.maximum.Some? ==> 1 <= c.maximum.value <= 100)
      && (c.types.Some? ==>
            && 1 <= |c.types.value| <= 32
            && (forall k | 0 <= k < |c.types.value| ::
                  c.types.value[k].Some? && IsName(c.types.value[k].value, 2, 127))
            && (forall i, j | 0 <= i < j < |c.types.value| :: c.types.value[i] != c.types.value[j]))
      && (c.leaseSeconds.None? ==> Candidates(t, c, at) == {})
    ensures ApplyClaim(t, c, at).1.Claimed? || ApplyClaim(t, c, at) == (t, Raised)
  {
    if !ClaimRaises(c) {
      ChosenAreCandidates(t, c, at);
      hide Candidates, Chosen, IsHex, IsName;
    }
  }

  /** v is the time wanted, moved into lo..hi; lo counts where the two cross. */
  predicate IsClamped(v: Time, wanted: Time, lo: Time, hi: Time) {
    && (lo <= wanted <= hi ==> v == wanted)
    && (wanted > hi >= lo ==> v == hi)
    && (wanted < lo || hi < lo ==> v == lo)
  }

  // ---------------------------------------------------------------- the table object

  /** agent.outbox_events behind its four SECURITY DEFINER functions. */
  class OutboxEvents {
    var rows: Table

    constructor ()
      ensures rows == map[]
    {
      rows := map[];
    }

    ghost predicate Valid()
      reads this
    {
      TableOk(rows)
    }

    method InsertEvent(id: EventId, eventType: string, occurredAt: Time, nextAttemptAt: Time, at: Time)
      returns (r: Outcome)
      requires Valid()
      modifies this
      ensures Valid()
      ensures (rows, r) == Apply(old(rows), Insert(id, eventType, occurredAt, nextAttemptAt), at)
      ensures r == Inserted <==> id !in old(rows)
      ensures r == Inserted ==>
        && rows.Keys == old(rows).Keys + {id}
        && rows[id] == Row(Pending, eventType, occurredAt, 0, None, None, nextAttemptAt, None, None, at)
      ensures forall x | x in old(rows) :: rows[x] == old(rows)[x]
      ensures r != Inserted ==> rows == old(rows)
    {
      if id in rows {
        return Raised;
      }
      rows := rows[id := Row(Pending, eventType, occurredAt, 0, None, None, nextAttemptAt, None, None, at)];
      return Inserted;
    }

    method ClaimEvents(token: Option<string>, now: Option<Time>, leaseSeconds: Option<int>, batch: Option<int>,
                       maximum: Option<int>, types: Option<seq<Option<string>>>,
                       locked: set<EventId>, at: Time)
      returns (r: Outcome)
      requires Valid()
      modifies this
      ensures Valid()
      ensures (rows, r) == Apply(old(rows), Claim(token, now, leaseSeconds, batch, maximum, types, locked), at)
      ensures r.Claimed? ==> forall id | id in r.ids ::
        id in rows && id !in locked && rows[id].status.Processing? && rows[id].token == token
      ensures r.Raised? ==> rows == old(rows)
    {
      var c := Claim(token, now, leaseSeconds, batch, maximum, types, locked);
      StepKeepsConstraints(rows, c, at);
      if ClaimRaises(c) {
        return Raised;
      }
      var chosen := Elements(Chosen(rows, c, at));
      if chosen == {} {
        return Claimed([]);
      }
      if leaseSeconds.None? {
        return Raised;
      }
      ghost var before := rows;
      r := Claimed(Deliveries(rows, chosen));
      rows := ClaimedTable(rows, chosen, token.value, at + leaseSeconds.value * SECOND, at);
      ClaimEffect(before, c, at, rows, r.ids);
    }

    method RenewLease(event: Option<EventId>, token: Option<string>, now: Option<Time>,
                      leaseSeconds: Option<int>, at: Time)
      returns (r: Outcome)
      requires Valid()
      modifies this
      ensures Valid()
      ensures (rows, r) == Apply(old(rows), Renew(event, token, now, leaseSeconds), at)
      ensures r == Raised <==>
        || event.None? || token.None? || !IsHex(token.value, 64) || now.None?
        || (leaseSeconds.Some? && !(5 <= leaseSeconds.value <= 900))
        || (leaseSeconds.None? && Holds(old(rows), event.value, token.value))
      ensures r == Found(true) ==>
        && Holds(old(rows), event.value, token.value)
        && rows == old(rows)[event.value := old(rows)[event.value].(
                               leaseExpiresAt := Some(at + leaseSeconds.value * 1_000_000), updatedAt := at)]
      ensures r != Found(true) ==> rows == old(rows)
    {
      if event.None? || BadToken(token) || now.None? || NotBetween(leaseSeconds, 5, 900) {
        return Raised;
      }
      if !Holds(rows, event.value, token.value) {
        return Found(false);
      }
      if leaseSeconds.None? {
        return Raised;
      }
      var row := rows[event.value];
      rows := rows[event.value := row.(leaseExpiresAt := Some(at + leaseSeconds.value * SECOND), updatedAt := at)];
      return Found(true);
    }

    method CompleteEvent(event: Option<EventId>, token: Option<string>, completedAt: Option<Time>, at: Time)
      returns (r: Outcome)
      requires Valid()
      modifies this
      ensures Valid()
      ensures (rows, r) == Apply(old(rows), Complete(event, token, completedAt), at)
      ensures r == Raised <==> event.None? || token.None? || !IsHex(token.value, 64) || completedAt.None?
      ensures r == Found(true) ==>
        && Holds(old(rows), event.value, token.value)
        && rows[event.value].publishedAt.Some?
        && rows == old(rows)[event.value := old(rows)[event.value].(
                               status := Published, publishedAt := rows[event.value].publishedAt, token := None,
                               leaseExpiresAt := None, lastError := None, updatedAt := at)]
        && IsClamped(rows[event.value].publishedAt.value, completedAt.value, rows[event.value].occurredAt, at)
      ensures r != Found(true) ==> rows == old(rows)
    {
      if event.None? || BadToken(token) || completedAt.None? {
        return Raised;
      }
      if !Holds(rows, event.value, token.value) {
        return Found(false);
      }
      var row := rows[event.value];
      rows := rows[event.value := row.(status := Published,
                                       publishedAt := Some(Max(row.occurredAt, Min(completedAt.value, at))),
                                       token := None, leaseExpiresAt := None, lastError := None,
                                       updatedAt := at)];
      return Found(true);
    }

    method RetryEvent(event: Option<EventId>, token: Option<string>, error: Option<string>,
                      retryAt: Option<Time>, maximum: Option<int>, at: Time)
      returns (r: Outcome)
      requires Valid()
      modifies this
      ensures Valid()
      ensures (rows, r) == Apply(old(rows), Retry(event, token, error, retryAt, maximum), at)
      ensures r == Raised <==>
        || event.None? || token.None? || !IsHex(token.value, 64) || error.None? || !IsName(error.value, 2, 100)
        || retryAt.None? || (maximum.Some? && !(1 <= maximum.value <= 100))
      ensures r == Found(true) ==>
        && Holds(old(rows), event.value, token.value)
        && rows[event.value].status in {Pending, Failed}
        && (rows[event.value].status == Failed <==>
              maximum.Some? && old(rows)[event.value].attempts >= maximum.value)
        && rows == old(rows)[event.value := old(rows)[event.value].(
                               status := rows[event.value].status, nextAttemptAt := rows[event.value].nextAttemptAt,
                               token := None, leaseExpiresAt := None, lastError := error, updatedAt := at)]
        && IsClamped(rows[event.value].nextAttemptAt, retryAt.value, at, at + 86_400_000_000)
      ensures r != Found(true) ==> rows == old(rows)
    {
      if event.None? || BadToken(token) || error.None? || !IsName(error.value, 2, 100)
         || retryAt.None? || NotBetween(maximum, 1, 100)
      {
        return Raised;
      }
      if !Holds(rows, event.value, token.value) {
        return Found(false);
      }
      var row := rows[event.value];
      var exhausted := maximum.Some? && row.attempts >= maximum.value;
      rows := rows[event.value := row.(status := if exhausted then Failed else Pending,
                                       nextAttemptAt := Max(at, Min(retryAt.value, at + DAY)),
                                       token := None, leaseExpiresAt := None, lastError := error,
                                       updatedAt := at)];
      return Found(true);
    }
  }
}
