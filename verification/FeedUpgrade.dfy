/** The upgrade that starts the committed feed: renumber the historical events of every
    Workspace, seed the counters, then let the trigger allocate. */
module FeedUpgrade {
  import opened Basics
  import opened RowOrder
  import opened EventFeed

  datatype LegacyEvent = LegacyEvent(workspace: Workspace, occurredAt: int, sequence: int)

  type LegacyTable = map<EventId, LegacyEvent>

  /** ORDER BY occurred_at, id */
  function HistoryKey(id: EventId, e: LegacyEvent): Key { Key(0, 0, e.occurredAt, id) }

  function HistoryOrder(t: LegacyTable): EventId -> Key {
    id => if id in t then HistoryKey(id, t[id]) else Key(0, 0, 0, id)
  }

  /** PARTITION BY workspace_id */
  function Partition(t: LegacyTable, workspace: Workspace): set<EventId> {
    set id | id in t && t[id].workspace == workspace
  }

  /** The events of the same Workspace that come before. */
  function Earlier(t: LegacyTable, id: EventId): set<EventId>
    requires id in t
  {
    set x | x in Partition(t, t[id].workspace) && Less(HistoryOrder(t)(x), HistoryOrder(t)(id))
  }

  /** row_number() OVER (PARTITION BY workspace_id ORDER BY occurred_at, id) */
  function RowNumber(t: LegacyTable, id: EventId): int
    requires id in t
  {
    1 + |Earlier(t, id)|
  }

  function Renumbered(t: LegacyTable): map<EventId, Event> {
    map id | id in t :: Event(t[id].workspace, RowNumber(t, id))
  }

  /** Every event is there, in its Workspace, and numbers follow the time of occurrence, then the id. */
  ghost predicate InHistoryOrder(t: LegacyTable, events: map<EventId, Event>) {
    && events.Keys == t.Keys
    && (forall id | id in t :: events[id].workspace == t[id].workspace)
    && (forall a, b | a in t && b in t && a != b && t[a].workspace == t[b].workspace ::
          events[a].sequence < events[b].sequence <==>
          t[a].occurredAt < t[b].occurredAt || (t[a].occurredAt == t[b].occurredAt && a < b))
  }

  predicate IsMax(m: int, s: set<int>) { m in s && forall x | x in s :: x <= m }

  lemma MaxExists(s: set<int>)
    requires s != {}
    ensures exists m :: IsMax(m, s)
    decreases |s|
  {
    var x := Member(s);
    if s == {x} {
      assert IsMax(x, s);
    } else {
      MaxExists(s - {x});
      var m :| IsMax(m, s - {x});
      var top := if m < x then x else m;
      assert forall y | y in s :: y == x || y in s - {x};
      assert IsMax(top, s);
    }
  }

  function MaxOf(s: set<int>): (m: int)
    requires s != {}
    ensures IsMax(m, s)
  {
    MaxExists(s);
    var m :| m in s && IsMax(m, s);
    m
  }

  function Sequences(events: map<EventId, Event>, workspace: Workspace): set<int> {
    set id | id in events && events[id].workspace == workspace :: events[id].sequence
  }

  /** SELECT workspace_id, max(sequence) ... GROUP BY workspace_id */
  function Seeded(events: map<EventId, Event>): map<Workspace, int> {
    map w | w in (set id | id in events :: events[id].workspace) ::
      assert exists id :: id in events && events[id].workspace == w && events[id].sequence in Sequences(events, w);
      MaxOf(Sequences(events, w))
  }

  // ---------------------------------------------------------------- row numbers

  /** In an ascending listing, position i is preceded by exactly i rows. */
  lemma EarlierIsPrefix(t: LegacyTable, workspace: Workspace, r: seq<EventId>, i: nat)
    requires r == Ordered(Partition(t, workspace), HistoryOrder(t)) && i < |r|
    ensures r[i] in t && t[r[i]].workspace == workspace
    ensures RowNumber(t, r[i]) == i + 1
  {
    var ids, key := Partition(t, workspace), HistoryOrder(t);
    OrderedLists(ids, key);
    assert r[i] in r && r[i] in ids;
    var before := r[..i];
    forall a, b | 0 <= a < b < |before| ensures Less(key(before[a]), key(before[b])) {
      assert before[a] == r[a] && before[b] == r[b];
    }
    CountListed(before, key);
    forall x ensures x in Elements(before) <==> x in Earlier(t, r[i]) {
      PrefixMember(ids, key, r, i, x);
    }
    assert Elements(before) == Earlier(t, r[i]);
  }

  lemma PrefixMember<T(!new)>(ids: set<T>, key: T -> Key, r: seq<T>, i: nat, x: T)
    requires Ascending(r, key) && i < |r| && forall id :: id in ids <==> id in r
    ensures x in r[..i] <==> x in ids && Less(key(x), key(r[i]))
  {
    if x in ids && Less(key(x), key(r[i])) {
      assert x in r;
      var j :| 0 <= j < |r| && r[j] == x;
      assert j < i;
      assert r[..i][j] == x;
    }
    if x in r[..i] {
      var j :| 0 <= j < i && r[..i][j] == x;
      assert r[j] == x && x in r;
    }
  }

  /** Within a Workspace the numbers are 1..n, oldest first, without repetition. */
  lemma RenumberingFills(t: LegacyTable, workspace: Workspace)
    ensures Filled(Renumbered(t), workspace, 0, |Partition(t, workspace)|)
    ensures InHistoryOrder(t, Renumbered(t))
  {
    var ids, key := Partition(t, workspace), HistoryOrder(t);
    var r := Ordered(ids, key);
    OrderedLists(ids, key);
    var events := Renumbered(t);
    forall n ensures 0 < n <= |ids| <==> HasNumber(events, workspace, n) {
      if 0 < n <= |ids| {
        EarlierIsPrefix(t, workspace, r, n - 1);
        assert events[r[n - 1]] == Event(workspace, n);
      }
      if HasNumber(events, workspace, n) {
        var id :| id in events && events[id] == Event(workspace, n);
        var i := PositionOf(t, workspace, id);
      }
    }
    forall a, b | a in t && b in t && a != b && t[a].workspace == t[b].workspace
      ensures events[a].sequence < events[b].sequence <==>
        t[a].occurredAt < t[b].occurredAt || (t[a].occurredAt == t[b].occurredAt && a < b)
    {
      OrderFollowsKey(t, t[a].workspace, a, b);
    }
  }

  lemma PositionOf(t: LegacyTable, workspace: Workspace, id: EventId) returns (i: nat)
    requires id in t && t[id].workspace == workspace
    ensures i < |Partition(t, workspace)| && RowNumber(t, id) == i + 1
    ensures i < |Ordered(Partition(t, workspace), HistoryOrder(t))|
    ensures Ordered(Partition(t, workspace), HistoryOrder(t))[i] == id
  {
    var ids, key := Partition(t, workspace), HistoryOrder(t);
    var r := Ordered(ids, key);
    OrderedLists(ids, key);
    assert id in ids;
    assert id in r;
    i :| 0 <= i < |r| && r[i] == id;
    EarlierIsPrefix(t, workspace, r, i);
  }

  lemma OrderFollowsKey(t: LegacyTable, workspace: Workspace, a: EventId, b: EventId)
    requires a in Partition(t, workspace) && b in Partition(t, workspace) && a != b
    ensures RowNumber(t, a) < RowNumber(t, b) <==> Less(HistoryKey(a, t[a]), HistoryKey(b, t[b]))
    ensures RowNumber(t, a) != RowNumber(t, b)
  {
    OrderedLists(Partition(t, workspace), HistoryOrder(t));
    var i := PositionOf(t, workspace, a);
    var j := PositionOf(t, workspace, b);
    var r := Ordered(Partition(t, workspace), HistoryOrder(t));
    if i < j {
      assert Less(HistoryOrder(t)(r[i]), HistoryOrder(t)(r[j]));
    } else {
      assert Less(HistoryOrder(t)(r[j]), HistoryOrder(t)(r[i]));
    }
  }

  lemma NumberedIsSeeded(events: map<EventId, Event>, workspace: Workspace, n: int)
    requires HasNumber(events, workspace, n)
    ensures workspace in Seeded(events)
  {
    var e :| e in events && events[e] == Event(workspace, n);
    assert events[e].workspace in Seeded(events);
  }

  lemma SequencesAreNumbers(events: map<EventId, Event>, workspace: Workspace, n: int)
    ensures n in Sequences(events, workspace) <==> HasNumber(events, workspace, n)
  {
    if n in Sequences(events, workspace) {
      var e :| e in events && events[e].workspace == workspace && events[e].sequence == n;
      assert events[e] == Event(workspace, n);
    }
  }

  lemma SeedIsCount(t: LegacyTable, workspace: Workspace)
    ensures var db := Db(Seeded(Renumbered(t)), Renumbered(t), map[]);
      Committed(db, workspace) == |Partition(t, workspace)|
  {
    var events := Renumbered(t);
    var seeds := Seeded(events);
    RenumberingFills(t, workspace);
    var n := |Partition(t, workspace)|;
    if HasNumber(events, workspace, n) {
      NumberedIsSeeded(events, workspace, n);
    }
    if workspace in seeds {
      var s := Sequences(events, workspace);
      forall x ensures x in s <==> HasNumber(events, workspace, x) {
        SequencesAreNumbers(events, workspace, x);
      }
      var id :| id in events && events[id].workspace == workspace;
      assert events[id].sequence in s;
      assert HasNumber(events, workspace, events[id].sequence);
      assert HasNumber(events, workspace, n);
      assert n in s && IsMax(seeds[workspace], s);
      assert seeds[workspace] in s;
    }
  }

  /** Whatever the historical numbers were, the upgrade establishes the feed invariant, so every run
      of transactions after it keeps a feed without holes. */
  lemma UpgradeStartsTheFeed(t: LegacyTable)
    ensures Inv(Db(Seeded(Renumbered(t)), Renumbered(t), map[]))
  {
    var db := Db(Seeded(Renumbered(t)), Renumbered(t), map[]);
    forall w ensures Committed(db, w) >= 0 && Filled(db.events, w, 0, Committed(db, w)) {
      SeedIsCount(t, w);
      RenumberingFills(t, w);
    }
    forall a, b | a in db.events && b in db.events && db.events[a] == db.events[b] ensures a == b {
      if a != b {
        OrderFollowsKey(t, t[a].workspace, a, b);
      }
    }
  }

  // ---------------------------------------------------------------- the table objects

  /** agent.outbox_events and agent.workspace_event_sequences with their open transactions. */
  class EventStore {
    var counters: map<Workspace, int>
    var events: map<EventId, Event>
    var open: map<TxId, Tx>

    ghost function State(): Db
      reads this
    {
      Db(counters, events, open)
    }

    ghost predicate Valid()
      reads this
    {
      Inv(State())
    }

    /** `_evolve_outbox_events` and the counter seed, on the historical rows. */
    constructor Upgrade(history: LegacyTable)
      ensures Valid()
      ensures State() == Db(Seeded(Renumbered(history)), Renumbered(history), map[])
      ensures InHistoryOrder(history, events)
    {
      events := Renumbered(history);
      counters := Seeded(Renumbered(history));
      open := map[];
      new;
      UpgradeStartsTheFeed(history);
      RenumberingFills(history, "");
    }

    method BeginTransaction(tx: TxId)
      requires Valid() && Enabled(State(), Begin(tx))
      modifies this
      ensures Valid() && State() == Apply(old(State()), Begin(tx))
    {
      StepKeepsInvariant(State(), Begin(tx));
      open := open[tx := Tx(map[], map[])];
    }

    /** An insert that goes through, trigger included; it runs once the locks it needs are free. */
    method InsertEvent(tx: TxId, scope: Option<Workspace>, workspace: Workspace, id: EventId)
      returns (sequence: Option<int>)
      requires Valid() && Enabled(State(), Insert(tx, scope, workspace, id))
      modifies this
      ensures Valid() && State() == Apply(old(State()), Insert(tx, scope, workspace, id))
      ensures sequence.Some? <==>
        && scope == Some(workspace) && workspace != "" && id !in old(events) && id !in old(open)[tx].events
      ensures sequence.Some? ==>
        && tx in open && id in open[tx].events && open[tx].events[id] == Event(workspace, sequence.value)
        && sequence.value == Visible(old(State()), tx, workspace) + 1
      ensures sequence.None? ==> tx !in open
      ensures events == old(events) && counters == old(counters)
    {
      StepKeepsInvariant(State(), Insert(tx, scope, workspace, id));
      if ScopeMismatch(scope, workspace) {
        open := open - {tx};
        return None;
      }
      AssignedNumberIsNew(State(), tx, workspace);
      var t := open[tx];
      var n := if workspace in t.counters then t.counters[workspace] + 1
               else if workspace in counters then counters[workspace] + 1 else 1;
      if id in events || id in t.events {
        open := open - {tx};
        return None;
      }
      open := open[tx := Tx(t.counters[workspace := n], t.events[id := Event(workspace, n)])];
      return Some(n);
    }

    method CommitTransaction(tx: TxId)
      requires Valid() && tx in open
      modifies this
      ensures Valid() && State() == Apply(old(State()), Commit(tx))
      ensures events.Keys == old(events).Keys + old(open)[tx].events.Keys && open == old(open) - {tx}
      ensures forall id | id in old(open)[tx].events :: events[id] == old(open)[tx].events[id]
    {
      StepKeepsInvariant(State(), Commit(tx));
      var t := open[tx];
      counters := counters + t.counters;
      events := events + t.events;
      open := open - {tx};
    }

    method AbortTransaction(tx: TxId)
      requires Valid() && tx in open
      modifies this
      ensures Valid() && State() == Apply(old(State()), Abort(tx))
    {
      StepKeepsInvariant(State(), Abort(tx));
      open := open - {tx};
    }
  }
}
