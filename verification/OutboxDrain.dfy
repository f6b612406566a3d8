/** Claiming repeatedly at one database clock with no row locked drains the eligible events
    in order, in as few calls as the batch size allows. */
module OutboxDrain {
  import opened Basics
  import opened RowOrder
  import opened Outbox

  /** A claim that leases rows: valid arguments, a lease length, a batch, nothing locked. */
  ghost predicate DrainCall(c: Call) {
    c.Claim? && !ClaimRaises(c) && c.leaseSeconds.Some? && c.batch.Some? && c.locked == {}
  }

  /** The eligible events in claim order. */
  ghost function Queue(t: Table, c: Call, at: Time): seq<EventId>
    requires DrainCall(c)
  {
    Ordered(Candidates(t, c, at), ClaimOrder(t))
  }

  /** Call k of the drain takes tables[k] to tables[k + 1] and returns batches[k]. */
  ghost predicate DrainAt(tables: seq<Table>, batches: seq<seq<EventId>>, c: Call, at: Time, k: nat)
    requires DrainCall(c) && |tables| == |batches| + 1 && k < |batches|
  {
    ApplyClaim(tables[k], c, at) == (tables[k + 1], Claimed(batches[k]))
  }

  ghost predicate IsDrain(tables: seq<Table>, batches: seq<seq<EventId>>, c: Call, at: Time) {
    && DrainCall(c)
    && |tables| == |batches| + 1
    && forall k {:trigger DrainAt(tables, batches, c, at, k)} | 0 <= k < |batches| :: DrainAt(tables, batches, c, at, k)
  }

  /** r is q without its first m members. */
  ghost predicate IsRest<T>(r: seq<T>, q: seq<T>, m: nat) {
    m <= |q| && |r| == |q| - m && forall i | 0 <= i < |r| :: r[i] == q[m + i]
  }

  /** The members of ids are exactly those of q at the positions lo..hi. */
  ghost predicate IsPart<T>(ids: seq<T>, q: seq<T>, lo: nat, hi: nat) {
    && lo <= hi <= |q| && |ids| == hi - lo
    && (forall i | lo <= i < hi :: q[i] in ids)
    && (forall j | 0 <= j < |ids| :: exists i :: lo <= i < hi && q[i] == ids[j])
  }

  lemma Split<T>(q: seq<T>, n: nat) returns (head: seq<T>, tail: seq<T>)
    requires n <= |q|
    ensures q == head + tail && |head| == n
    ensures head == (if n < |q| then q[..n] else q)
  {
    head, tail := q[..n], q[n..];
  }

  lemma DeliveredAreChosen(t: Table, c: Call, at: Time, t': Table, ids: seq<EventId>)
    requires c.Claim? && ApplyClaim(t, c, at) == (t', Claimed(ids))
    ensures !ClaimRaises(c) && Elements(ids) == Elements(Chosen(t, c, at)) && |ids| == |Chosen(t, c, at)|
  {
    ChosenAreCandidates(t, c, at);
    OrderedLists(Elements(Chosen(t, c, at)), DeliveryOrder(t));
  }

  lemma ChosenIsFront(t: Table, c: Call, at: Time) returns (head: seq<EventId>, tail: seq<EventId>)
    requires DrainCall(c)
    ensures Queue(t, c, at) == head + tail && |head| == Min(c.batch.value, |Queue(t, c, at)|)
    ensures Chosen(t, c, at) == head
  {
    var q := Queue(t, c, at);
    OrderedLists(Candidates(t, c, at), ClaimOrder(t));
    head, tail := Split(q, Min(c.batch.value, |q|));
  }

  /** What was claimed is leased into the future, so it is no longer eligible; the rest still is. */
  lemma RemainingCandidates(t: Table, c: Call, at: Time, t': Table, ids: seq<EventId>)
    requires DrainCall(c) && ApplyClaim(t, c, at) == (t', Claimed(ids))
    ensures Candidates(t', c, at) == Candidates(t, c, at) - Elements(ids)
    ensures forall id | id in Candidates(t', c, at) :: id in t && id in t' && t'[id] == t[id]
  {
    ClaimEffect(t, c, at, t', ids);
    forall id ensures id in Candidates(t', c, at) <==> id in Candidates(t, c, at) - Elements(ids) {
      if id in t && id in ids {
        assert t'[id].leaseExpiresAt.value > at;
      }
    }
  }

  /** One claim takes the front of the queue and leaves the rest of it, in order. */
  lemma ClaimTakesTheFront(t: Table, c: Call, at: Time, t': Table, ids: seq<EventId>)
    requires DrainCall(c) && ApplyClaim(t, c, at) == (t', Claimed(ids))
    ensures var q := Queue(t, c, at);
      var n := Min(c.batch.value, |q|);
      IsPart(ids, q, 0, n) && IsRest(Queue(t', c, at), q, n)
  {
    var head, tail := ChosenIsFront(t, c, at);
    DeliveredAreChosen(t, c, at, t', ids);
    RemainingCandidates(t, c, at, t', ids);
    OrderedWithoutPrefix(Candidates(t, c, at), ClaimOrder(t), head, tail);
    OrderedCongruent(Candidates(t', c, at), ClaimOrder(t), ClaimOrder(t'));
    var q := Queue(t, c, at);
    forall i | 0 <= i < |head| ensures q[i] in ids {
      assert q[i] in Elements(head);
    }
    forall j | 0 <= j < |ids| ensures exists i :: 0 <= i < |head| && q[i] == ids[j] {
      assert ids[j] in Elements(ids) && ids[j] in Elements(head);
      var i :| 0 <= i < |head| && head[i] == ids[j];
      assert q[i] == ids[j];
    }
  }

  /** The position in the queue that k calls reach. */
  function Reached(k: nat, batch: nat, n: nat): nat {
    Min(k * batch, n)
  }

  lemma NextReached(k: nat, batch: nat, n: nat)
    ensures Reached(k + 1, batch, n) == Reached(k, batch, n) + Min(batch, n - Reached(k, batch, n))
  {
    assert (k + 1) * batch == k * batch + batch;
  }

  lemma RestOfRest<T>(r: seq<T>, s: seq<T>, q: seq<T>, m: nat, n: nat)
    requires IsRest(s, q, m) && IsRest(r, s, n)
    ensures IsRest(r, q, m + n)
  {
    forall i | 0 <= i < |r| ensures r[i] == q[m + n + i] {
      assert r[i] == s[n + i];
    }
  }

  lemma PartOfRest<T>(ids: seq<T>, s: seq<T>, q: seq<T>, m: nat, n: nat)
    requires IsRest(s, q, m) && IsPart(ids, s, 0, n)
    ensures IsPart(ids, q, m, m + n)
  {
    forall i | m <= i < m + n ensures q[i] in ids {
      var k := i - m;
      assert 0 <= k < n && s[k] in ids && s[k] == q[m + k];
    }
    forall j | 0 <= j < |ids| ensures exists i :: m <= i < m + n && q[i] == ids[j] {
      var i :| 0 <= i < n && s[i] == ids[j];
      assert q[m + i] == ids[j];
    }
  }

  /** From position m of the original queue, a claim takes the next min(batch, left) events. */
  lemma NextBatch(t: Table, c: Call, at: Time, t': Table, ids: seq<EventId>, q: seq<EventId>, m: nat)
    requires DrainCall(c) && ApplyClaim(t, c, at) == (t', Claimed(ids)) && IsRest(Queue(t, c, at), q, m)
    ensures var next := m + Min(c.batch.value, |q| - m);
      IsPart(ids, q, m, next) && IsRest(Queue(t', c, at), q, next)
  {
    var s := Queue(t, c, at);
    ClaimTakesTheFront(t, c, at, t', ids);
    PartOfRest(ids, s, q, m, Min(c.batch.value, |s|));
    RestOfRest(Queue(t', c, at), s, q, m, Min(c.batch.value, |s|));
  }

  lemma DrainStep(tables: seq<Table>, batches: seq<seq<EventId>>, c: Call, at: Time, k: nat, q: seq<EventId>, m: nat)
    requires IsDrain(tables, batches, c, at) && k < |batches| && IsRest(Queue(tables[k], c, at), q, m)
    ensures var next := m + Min(c.batch.value, |q| - m);
      IsPart(batches[k], q, m, next) && IsRest(Queue(tables[k + 1], c, at), q, next)
  {
    assert DrainAt(tables, batches, c, at, k);
    NextBatch(tables[k], c, at, tables[k + 1], batches[k], q, m);
  }

  lemma RestFromStart<T>(q: seq<T>, batch: nat)
    ensures Reached(0, batch, |q|) == 0 && IsRest(q, q, 0)
  {
  }

  /** After k calls the queue has lost its first min(k * batch, n) events. */
  lemma {:induction false} DrainProgress(tables: seq<Table>, batches: seq<seq<EventId>>, c: Call, at: Time, k: nat)
    requires IsDrain(tables, batches, c, at) && k <= |batches|
    ensures IsRest(Queue(tables[k], c, at), Queue(tables[0], c, at),
                   Reached(k, c.batch.value, |Queue(tables[0], c, at)|))
  {
    hide Queue, Candidates, IsRest, IsPart, Reached;
    RestFromStart(Queue(tables[0], c, at), c.batch.value);
    if k > 0 {
      var q := Queue(tables[0], c, at);
      var m := Reached(k - 1, c.batch.value, |q|);
      DrainProgress(tables, batches, c, at, k - 1);
      DrainStep(tables, batches, c, at, k - 1, q, m);
      NextReached(k - 1, c.batch.value, |q|);
    }
  }

  /** Call k returns exactly the next min(batch, left) events of the queue. */
  lemma DrainBatch(tables: seq<Table>, batches: seq<seq<EventId>>, c: Call, at: Time, k: nat)
    requires IsDrain(tables, batches, c, at) && k < |batches|
    ensures var q, b := Queue(tables[0], c, at), c.batch.value;
      IsPart(batches[k], q, Reached(k, b, |q|), Reached(k + 1, b, |q|))
  {
    var q := Queue(tables[0], c, at);
    var m := Reached(k, c.batch.value, |q|);
    DrainProgress(tables, batches, c, at, k);
    DrainStep(tables, batches, c, at, k, q, m);
    NextReached(k, c.batch.value, |q|);
  }

  /** n eligible events leave in exactly ceil(n / batch) non-empty batches, and once that many
      calls were made nothing is eligible. */
  lemma DrainExhausts(tables: seq<Table>, batches: seq<seq<EventId>>, c: Call, at: Time, k: nat)
    requires IsDrain(tables, batches, c, at) && k <= |batches|
    ensures var n, b := |Candidates(tables[0], c, at)|, c.batch.value;
      && (k < |batches| ==> (batches[k] != [] <==> k * b < n))
      && (k * b >= n <==> Candidates(tables[k], c, at) == {})
  {
    var q, b := Queue(tables[0], c, at), c.batch.value;
    OrderedLists(Candidates(tables[0], c, at), ClaimOrder(tables[0]));
    OrderedLists(Candidates(tables[k], c, at), ClaimOrder(tables[k]));
    DrainProgress(tables, batches, c, at, k);
    if k < |batches| {
      DrainBatch(tables, batches, c, at, k);
      NextReached(k, b, |q|);
    }
  }

  lemma QueueAscends(t: Table, c: Call, at: Time)
    requires DrainCall(c)
    ensures Ascending(Queue(t, c, at), ClaimOrder(t))
  {
    OrderedLists(Candidates(t, c, at), ClaimOrder(t));
  }

  /** No event is in two batches. */
  lemma BatchesDisjoint(tables: seq<Table>, batches: seq<seq<EventId>>, c: Call, at: Time, j: nat, k: nat, id: EventId)
    requires IsDrain(tables, batches, c, at) && j < k < |batches| && id in batches[j]
    ensures id !in batches[k]
  {
    var q, b := Queue(tables[0], c, at), c.batch.value;
    QueueAscends(tables[0], c, at);
    DrainBatch(tables, batches, c, at, j);
    DrainBatch(tables, batches, c, at, k);
    ReachedMonotone(j + 1, k, b, |q|);
    PartsDisjoint(batches[j], batches[k], q, ClaimOrder(tables[0]), Reached(j, b, |q|), Reached(j + 1, b, |q|),
                  Reached(k, b, |q|), Reached(k + 1, b, |q|), id);
  }

  lemma PartsDisjoint<T(!new)>(xs: seq<T>, ys: seq<T>, q: seq<T>, key: T -> Key,
                      lo: nat, hi: nat, lo': nat, hi': nat, id: T)
    requires Ascending(q, key)
    requires IsPart(xs, q, lo, hi) && IsPart(ys, q, lo', hi') && hi <= lo'
    requires id in xs
    ensures id !in ys
  {
    var x :| lo <= x < hi && q[x] == id;
    forall y | lo' <= y < hi' ensures q[y] != id {
      assert Less(key(q[x]), key(q[y]));
    }
  }

  lemma ReachedMonotone(j: nat, k: nat, batch: nat, n: nat)
    requires j <= k
    ensures Reached(j, batch, n) <= Reached(k, batch, n)
  {
    assert j * batch <= k * batch;
  }
}
