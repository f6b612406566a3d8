/** Bounded maintenance: expiring due invitations, purging completed receipts, and reporting the
    receipts that are stuck. */
module Maintenance {
  import opened Basics
  import opened RowOrder

  type Time = int

  const MAX_BATCH: int := 1000

  /** `LEAST(candidate_now, statement_timestamp())`: a caller can delay the work, never advance it. */
  function EffectiveNow(now: Time, at: Time): Time { Min(now, at) }

  // ---------------------------------------------------------------- invitations

  datatype InvitationStatus = Pending | Accepted | Revoked | Expired

  datatype Invitation = Invitation(status: InvitationStatus, expiresAt: Time, updatedAt: Time, revision: int,
                                   resolvedAt: Option<Time>, acceptedBy: Option<string>)

  type Invitations = map<RowId, Invitation>

  /** CHECK workspace_invitations_state */
  predicate StateOk(i: Invitation) {
    match i.status
    case Pending => i.resolvedAt.None? && i.acceptedBy.None?
    case Accepted => i.resolvedAt.Some? && i.acceptedBy.Some?
    case _ => i.resolvedAt.Some? && i.acceptedBy.None?
  }

  ghost predicate InvitationsOk(t: Invitations) { forall id | id in t :: StateOk(t[id]) }

  predicate IsDue(i: Invitation, now: Time) {
    i.status.Pending? && i.expiresAt <= now && i.updatedAt <= now
  }

  function Due(t: Invitations, now: Time): (ids: set<RowId>)
    ensures forall id :: id in ids <==> id in t && IsDue(t[id], now)
  {
    set id | id in t && IsDue(t[id], now)
  }

  /** A due invitation is still pending, and neither its expiry nor its last update lies ahead. */
  lemma DueIff(t: Invitations, now: Time, id: RowId)
    requires id in t
    ensures id in Due(t, now) <==> t[id].status == Pending && t[id].expiresAt <= now && t[id].updatedAt <= now
  {
  }

  function ExpiryOrder(t: Invitations): RowId -> Key {
    id => Key(0, if id in t then t[id].expiresAt else 0, 0, id.position)
  }

  function ExpiredAt(i: Invitation, now: Time): Invitation {
    i.(status := Expired, revision := i.revision + 1, updatedAt := now, resolvedAt := Some(now))
  }

  /** The invitations of `chosen` expire, all others stay as they are. */
  function ExpireAll(t: Invitations, chosen: set<RowId>, now: Time): Invitations {
    map id | id in t :: if id in chosen then ExpiredAt(t[id], now) else t[id]
  }

  /** What one call picks: the first unlocked due invitations by expiry. */
  function Picked(t: Invitations, locked: set<RowId>, limit: nat, now: Time): seq<RowId> {
    FirstN(Due(t, now) - locked, ExpiryOrder(t), limit)
  }

  /** One call of expire_due_workspace_invitations with valid arguments. */
  ghost predicate ExpireStep(t: Invitations, locked: set<RowId>, limit: nat, now: Time, t': Invitations,
                             affected: nat)
  {
    && t' == ExpireAll(t, Elements(Picked(t, locked, limit, now)), now)
    && affected == |Picked(t, locked, limit, now)|
  }

  class WorkspaceInvitations {
    var rows: Invitations

    /** expire_due_workspace_invitations; Failure is the exception. */
    method ExpireDue(now: Option<Time>, limit: Option<int>, locked: set<RowId>, at: Time) returns (r: Result<nat>)
      requires InvitationsOk(rows)
      modifies this
      ensures InvitationsOk(rows)
      ensures r.Success? <==> now.Some? && limit.Some? && 1 <= limit.value <= 1000
      ensures r.Failure? ==> rows == old(rows)
      ensures r.Success? ==>
        ExpireStep(old(rows), locked, limit.value, if now.value < at then now.value else at, rows, r.value)
    {
      if now.None? || limit.None? || limit.value < 1 || limit.value > MAX_BATCH {
        return Failure;
      }
      var effectiveNow := EffectiveNow(now.value, at);
      var candidates := Picked(rows, locked, limit.value, effectiveNow);
      PickedAreDue(rows, locked, limit.value, effectiveNow);
      rows := ExpireAll(rows, Elements(candidates), effectiveNow);
      return Success(|candidates|);
    }
  }

  /** p expires before q, or at the same time with a smaller id. */
  predicate ExpiresBefore(t: Invitations, p: RowId, q: RowId)
    requires p in t && q in t
  {
    t[p].expiresAt < t[q].expiresAt || (t[p].expiresAt == t[q].expiresAt && p.position < q.position)
  }

  /** The row expired at `now`, as its next revision. */
  predicate IsExpired(before: Invitation, after: Invitation, now: Time) {
    after == Invitation(Expired, before.expiresAt, now, before.revision + 1, Some(now), before.acceptedBy)
  }

  lemma PickedAreDue(t: Invitations, locked: set<RowId>, limit: nat, now: Time)
    ensures var ids := Picked(t, locked, limit, now);
      && Elements(ids) <= Due(t, now) - locked
      && |ids| == |Elements(ids)| == (if limit < |Due(t, now) - locked| then limit else |Due(t, now) - locked|)
      && forall p, q | p in ids && p in t && q in Due(t, now) - locked && q !in ids :: ExpiresBefore(t, p, q)
  {
    var ids, all := Picked(t, locked, limit, now), Due(t, now) - locked;
    FirstNIsLeast(all, ExpiryOrder(t), limit);
    forall p, q | p in ids && q in all && q !in ids ensures p in t && ExpiresBefore(t, p, q) {
      assert p in Elements(ids) && Less(ExpiryOrder(t)(p), ExpiryOrder(t)(q));
    }
  }

  /** One call expires the earliest due invitations it can lock, each once, and touches nothing else.
      A result below the limit means that only locked ones are left. */
  lemma ExpiryIsExact(t: Invitations, locked: set<RowId>, limit: nat, now: Time, t': Invitations, affected: nat)
    requires ExpireStep(t, locked, limit, now, t', affected)
    ensures t'.Keys == t.Keys && Due(t', now) <= Due(t, now)
    ensures |Due(t, now)| == |Due(t', now)| + affected
    ensures forall id | id in t ::
      if id in Due(t, now) && id !in Due(t', now) then IsExpired(t[id], t'[id], now) else t'[id] == t[id]
    ensures affected == Min(limit, |Due(t, now) - locked|)
    ensures forall p, q | p in Due(t, now) && p !in Due(t', now) && q in Due(t', now) && q !in locked ::
      ExpiresBefore(t, p, q)
    ensures Due(t, now) * locked <= Due(t', now)
    ensures affected < limit ==> Due(t', now) <= locked
  {
    PickedAreDue(t, locked, limit, now);
    var picked := Elements(Picked(t, locked, limit, now));
    assert forall id :: id in picked <==> id in Picked(t, locked, limit, now);
    hide Picked;
    ExpiringLeaves(t, picked, now);
    hide ExpireAll, IsDue, Due;
    if affected < limit {
      SubsetOfSameSize(picked, Due(t, now) - locked);
    }
  }

  /** Expiring due invitations takes just these off the due ones. */
  lemma ExpiringLeaves(t: Invitations, picked: set<RowId>, now: Time)
    requires picked <= Due(t, now)
    ensures var t' := ExpireAll(t, picked, now);
      && t'.Keys == t.Keys && Due(t', now) == Due(t, now) - picked
      && |Due(t, now)| == |Due(t', now)| + |picked|
      && forall id | id in t :: if id in picked then IsExpired(t[id], t'[id], now) else t'[id] == t[id]
  {
    var t' := ExpireAll(t, picked, now);
    assert Due(t', now) == Due(t, now) - picked;
    assert |Due(t, now) - picked| == |Due(t, now)| - |picked|;
  }

  lemma SubsetOfSameSize<T>(a: set<T>, b: set<T>)
    requires a <= b && |a| == |b|
    ensures a == b
  {
    assert |b - a| == |b| - |a|;
    assert b == a + (b - a);
  }

  // ---------------------------------------------------------------- draining

  /** Call k takes tables[k] to tables[k + 1] with result results[k], skipping locked[k]. */
  datatype Drain = Drain(tables: seq<Invitations>, locked: seq<set<RowId>>, results: seq<nat>)

  ghost predicate DrainAt(d: Drain, limit: nat, now: Time, k: nat)
    requires k < |d.results| == |d.locked| && |d.tables| == |d.results| + 1
  {
    ExpireStep(d.tables[k], d.locked[k], limit, now, d.tables[k + 1], d.results[k])
  }

  /** Calls with one limit and one effective time. */
  ghost predicate IsDrain(d: Drain, limit: nat, now: Time) {
    && |d.results| == |d.locked| && |d.tables| == |d.results| + 1
    && forall k {:trigger DrainAt(d, limit, now, k)} | 0 <= k < |d.results| :: DrainAt(d, limit, now, k)
  }

  function SumTo(results: seq<nat>, n: nat): nat
    requires n <= |results|
  {
    if n == 0 then 0 else SumTo(results, n - 1) + results[n - 1]
  }

  /** After n calls: the results add up to the invitations that are no longer due; each of these
      expired once, at its next revision; every other row is as it was. */
  lemma {:induction false} DrainIsExact(d: Drain, limit: nat, now: Time, n: nat)
    requires IsDrain(d, limit, now) && n <= |d.results|
    ensures d.tables[n].Keys == d.tables[0].Keys && Due(d.tables[n], now) <= Due(d.tables[0], now)
    ensures SumTo(d.results, n) == |Due(d.tables[0], now)| - |Due(d.tables[n], now)|
    ensures forall id | id in d.tables[0] ::
      if id in Due(d.tables[0], now) && id !in Due(d.tables[n], now)
      then IsExpired(d.tables[0][id], d.tables[n][id], now) else d.tables[n][id] == d.tables[0][id]
  {
    if n > 0 {
      hide IsExpired, ExpiresBefore, IsDue, ExpireStep;
      DrainIsExact(d, limit, now, n - 1);
      assert DrainAt(d, limit, now, n - 1);
      ExpiryIsExact(d.tables[n - 1], d.locked[n - 1], limit, now, d.tables[n], d.results[n - 1]);
    }
  }

  /** A drain that ends with an unlocked call below the limit has expired every due invitation once. */
  lemma DrainEndsEmpty(d: Drain, limit: nat, now: Time)
    requires IsDrain(d, limit, now) && d.results != []
    requires d.locked[|d.results| - 1] == {} && d.results[|d.results| - 1] < limit
    ensures Due(d.tables[|d.results|], now) == {} && d.tables[|d.results|].Keys == d.tables[0].Keys
    ensures SumTo(d.results, |d.results|) == |Due(d.tables[0], now)|
    ensures forall id | id in d.tables[0] ::
      if id in Due(d.tables[0], now) then IsExpired(d.tables[0][id], d.tables[|d.results|][id], now)
      else d.tables[|d.results|][id] == d.tables[0][id]
  {
    hide Picked, ExpireAll, ExpiryOrder, IsExpired, ExpiresBefore, IsDue, ExpireStep;
    var n := |d.results|;
    DrainIsExact(d, limit, now, n);
    assert DrainAt(d, limit, now, n - 1);
    ExpiryIsExact(d.tables[n - 1], d.locked[n - 1], limit, now, d.tables[n], d.results[n - 1]);
  }

  /** The position that k full batches reach among n. */
  function Reached(k: nat, limit: nat, n: nat): nat { Min(k * limit, n) }

  lemma NextReached(k: nat, limit: nat, n: nat)
    ensures Reached(k + 1, limit, n) == Reached(k, limit, n) + Min(limit, n - Reached(k, limit, n))
  {
    assert (k + 1) * limit == k * limit + limit;
  }

  lemma DrainStep(d: Drain, limit: nat, now: Time, k: nat)
    requires IsDrain(d, limit, now) && k < |d.results| && d.locked[k] == {}
    ensures d.results[k] == Min(limit, |Due(d.tables[k], now)|)
    ensures |Due(d.tables[k + 1], now)| == |Due(d.tables[k], now)| - d.results[k]
  {
    assert DrainAt(d, limit, now, k);
    ExpiryIsExact(d.tables[k], {}, limit, now, d.tables[k + 1], d.results[k]);
    UnlockedCount(d.tables[k], limit, now, d.tables[k + 1], d.results[k]);
  }

  /** With nothing locked, call k expires the next min(limit, left) of the n due invitations. */
  lemma {:induction false} DrainAdvances(d: Drain, limit: nat, now: Time, k: nat)
    requires IsDrain(d, limit, now) && k <= |d.results| && forall i | 0 <= i < |d.results| :: d.locked[i] == {}
    ensures var n := |Due(d.tables[0], now)|;
      && |Due(d.tables[k], now)| == n - Reached(k, limit, n)
      && (k < |d.results| ==> d.results[k] == Min(limit, n - Reached(k, limit, n)))
  {
    hide Due, DrainAt;
    var n := |Due(d.tables[0], now)|;
    if k > 0 {
      DrainAdvances(d, limit, now, k - 1);
      DrainStep(d, limit, now, k - 1);
      NextReached(k - 1, limit, n);
    }
    if k < |d.results| {
      DrainStep(d, limit, now, k);
    }
  }

  lemma UnlockedCount(t: Invitations, limit: nat, now: Time, t': Invitations, affected: nat)
    requires ExpireStep(t, {}, limit, now, t', affected)
    ensures affected == Min(limit, |Due(t, now)|)
  {
    PickedAreDue(t, {}, limit, now);
    assert Due(t, now) - {} == Due(t, now);
  }

  /** So a drain ends: the result falls below the limit at call floor(n / limit) + 1 and not before. */
  lemma DrainEndsWhen(d: Drain, limit: nat, now: Time, k: nat)
    requires IsDrain(d, limit, now) && k < |d.results| && forall i | 0 <= i < |d.results| :: d.locked[i] == {}
    requires limit >= 1
    ensures d.results[k] < limit <==> k >= |Due(d.tables[0], now)| / limit
  {
    var n := |Due(d.tables[0], now)|;
    DrainAdvances(d, limit, now, k);
    hide Due, IsDrain;
    QuotientBound(k, limit, n);
  }

  lemma QuotientBound(k: nat, limit: nat, n: nat)
    requires limit >= 1
    ensures Min(limit, n - Reached(k, limit, n)) < limit <==> k >= n / limit
  {
    var q, r := n / limit, n % limit;
    assert n == q * limit + r;
    if k >= q {
      assert k * limit >= q * limit;
    } else {
      assert (k + 1) * limit <= q * limit;
      assert (k + 1) * limit == k * limit + limit;
    }
  }

  // ---------------------------------------------------------------- receipts

  datatype ReceiptStatus = Waiting | Completed

  datatype Receipt = Receipt(status: ReceiptStatus, expiresAt: Time)

  type Receipts = map<RowId, Receipt>

  function WithStatus(t: Receipts, status: ReceiptStatus, now: Time): (ids: set<RowId>)
    ensures forall id :: id in ids <==> id in t && t[id].status == status && t[id].expiresAt <= now
  {
    set id | id in t && t[id].status == status && t[id].expiresAt <= now
  }

  function ReceiptOrder(t: Receipts): RowId -> Key {
    id => Key(0, if id in t then t[id].expiresAt else 0, 0, id.position)
  }

  datatype Report = Report(purged: nat, stranded: nat, hasMore: bool, oldest: Option<Time>)

  /** The earliest expiry among rows, None for no rows. */
  ghost predicate IsOldest(t: Receipts, ids: set<RowId>, oldest: Option<Time>)
    requires ids <= t.Keys
  {
    && (oldest.None? <==> ids == {})
    && (oldest.Some? ==>
          && (exists id | id in ids :: t[id].expiresAt == oldest.value)
          && (forall id | id in ids :: oldest.value <= t[id].expiresAt))
  }

  lemma NothingRead(read: seq<RowId>)
    ensures Elements(read) == {} <==> read == []
  {
    if read != [] {
      assert read[0] in Elements(read);
    }
  }

  /** The rows that a bounded read of limit + 1 leaves unread are no earlier than those it reads. */
  lemma BoundedReadIsExact(t: Receipts, ids: set<RowId>, limit: nat, read: seq<RowId>, oldest: Option<Time>)
    requires ids <= t.Keys && read == FirstN(ids, ReceiptOrder(t), limit + 1)
    requires Elements(read) <= t.Keys && IsOldest(t, Elements(read), oldest)
    ensures Min(|read|, limit) == Min(|ids|, limit) && (|read| > limit <==> |ids| > limit)
    ensures IsOldest(t, ids, oldest)
  {
    FirstNIsLeast(ids, ReceiptOrder(t), limit + 1);
    if oldest.None? {
      NothingRead(read);
    } else {
      var m :| m in Elements(read) && t[m].expiresAt == oldest.value;
      forall id | id in ids ensures oldest.value <= t[id].expiresAt {
        if id !in read {
          assert Less(ReceiptOrder(t)(m), ReceiptOrder(t)(id));
        }
      }
    }
  }

  /** These are the first `limit` of the given receipts by expiry, then by id. */
  ghost predicate TakesFirst(t: Receipts, ids: set<RowId>, limit: nat, taken: set<RowId>)
    requires ids <= t.Keys
  {
    && taken <= ids && |taken| == Min(|ids|, limit)
    && forall p, q | p in taken && q in ids && q !in taken ::
         t[p].expiresAt < t[q].expiresAt || (t[p].expiresAt == t[q].expiresAt && p.position < q.position)
  }

  lemma LimitTakesFirst(t: Receipts, ids: set<RowId>, limit: nat)
    requires ids <= t.Keys
    ensures TakesFirst(t, ids, limit, Elements(FirstN(ids, ReceiptOrder(t), limit)))
    ensures |FirstN(ids, ReceiptOrder(t), limit)| == Min(|ids|, limit)
  {
    var first := FirstN(ids, ReceiptOrder(t), limit);
    FirstNIsLeast(ids, ReceiptOrder(t), limit);
    hide FirstN;
    forall p, q | p in Elements(first) && q in ids && q !in Elements(first)
      ensures t[p].expiresAt < t[q].expiresAt || (t[p].expiresAt == t[q].expiresAt && p.position < q.position)
    {
      assert Less(ReceiptOrder(t)(p), ReceiptOrder(t)(q));
    }
  }

  class IdempotencyReceipts {
    var rows: Receipts

    /** min(expires_at) over the rows read. */
    static method Oldest(t: Receipts, read: seq<RowId>) returns (oldest: Option<Time>)
      requires Elements(read) <= t.Keys
      ensures IsOldest(t, Elements(read), oldest)
    {
      oldest := None;
      var i := 0;
      while i < |read|
        invariant 0 <= i <= |read|
        invariant oldest.None? <==> i == 0
        invariant oldest.Some? ==> exists k :: 0 <= k < i && read[k] in t && t[read[k]].expiresAt == oldest.value
        invariant oldest.Some? ==> forall k | 0 <= k < i :: read[k] in t && oldest.value <= t[read[k]].expiresAt
      {
        assert read[i] in Elements(read);
        if oldest.None? || t[read[i]].expiresAt < oldest.value {
          oldest := Some(t[read[i]].expiresAt);
        }
        i := i + 1;
      }
      if |read| > 0 {
        assert read[0] in Elements(read);
        var k :| 0 <= k < |read| && read[k] in t && t[read[k]].expiresAt == oldest.value;
        assert read[k] in Elements(read);
      }
    }

    /** maintain_api_v2_idempotency_receipts: purge the first unlocked completed receipts, then report
        the stranded ones, exactly although at most limit + 1 of them are read. */
    method Maintain(now: Option<Time>, limit: Option<int>, locked: set<RowId>, at: Time) returns (r: Result<Report>)
      modifies this
      ensures r.Success? <==> now.Some? && limit.Some? && 1 <= limit.value <= 1000
      ensures r.Failure? ==> rows == old(rows)
      ensures r.Success? ==>
        var eff := if now.value < at then now.value else at;
        var purgeable, stuck := WithStatus(old(rows), Completed, eff) - locked, WithStatus(old(rows), Waiting, eff);
        && (exists purged :: TakesFirst(old(rows), purgeable, limit.value, purged) && rows == old(rows) - purged)
        && r.value.purged == Min(|purgeable|, limit.value)
        && r.value.stranded == Min(|stuck|, limit.value)
        && (r.value.hasMore <==> |stuck| > limit.value)
        && IsOldest(old(rows), stuck, r.value.oldest)
    {
      if now.None? || limit.None? || limit.value < 1 || limit.value > MAX_BATCH {
        return Failure;
      }
      ghost var before := rows;
      var eff := EffectiveNow(now.value, at);
      var candidates := FirstN(WithStatus(rows, Completed, eff) - locked, ReceiptOrder(rows), limit.value);
      LimitTakesFirst(rows, WithStatus(rows, Completed, eff) - locked, limit.value);
      rows := rows - Elements(candidates);
      PurgeLeavesWaiting(before, Elements(candidates), eff);
      var waiting := WithStatus(rows, Waiting, eff);
      var stranded := FirstN(waiting, ReceiptOrder(rows), limit.value + 1);
      FirstNIsLeast(waiting, ReceiptOrder(rows), limit.value + 1);
      var oldest := Oldest(rows, stranded);
      BoundedReadIsExact(rows, waiting, limit.value, stranded, oldest);
      return Success(Report(|candidates|, Min(|stranded|, limit.value), |stranded| > limit.value, oldest));
    }
  }

  lemma PurgeLeavesWaiting(t: Receipts, purged: set<RowId>, now: Time)
    requires purged <= WithStatus(t, Completed, now)
    ensures WithStatus(t - purged, Waiting, now) == WithStatus(t, Waiting, now)
    ensures forall id | id in WithStatus(t, Waiting, now) :: id in t - purged && (t - purged)[id] == t[id]
  {
  }
}
