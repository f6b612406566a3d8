/** The Workspace event sequence: a counter row per Workspace, advanced by the insert trigger.

    Transactions interleave under Read Committed.  An insert takes the counter row's lock and
    keeps it until its transaction ends; an insert that meets the lock of another transaction
    waits, so it is not a step.  The interleavings are all sequences of enabled steps. */
module EventFeed {
  import opened Basics

  type Workspace = string
  type EventId = int
  type TxId = int

  datatype Event = Event(workspace: Workspace, sequence: int)

  /** An open transaction: its uncommitted counter rows, whose locks it holds, and its inserts. */
  datatype Tx = Tx(counters: map<Workspace, int>, events: map<EventId, Event>)

  datatype Db = Db(counters: map<Workspace, int>, events: map<EventId, Event>, open: map<TxId, Tx>)

  datatype Action =
    | Begin(tx: TxId)
    | Insert(tx: TxId, scope: Option<Workspace>, workspace: Workspace, id: EventId)
    | Commit(tx: TxId)
    | Abort(tx: TxId)

  /** Another open transaction holds the counter row of the Workspace. */
  predicate LockedByOther(db: Db, tx: TxId, workspace: Workspace) {
    exists t | t in db.open :: t != tx && workspace in db.open[t].counters
  }

  /** Another open transaction is inserting the same primary key. */
  predicate IdPendingElsewhere(db: Db, tx: TxId, id: EventId) {
    exists t | t in db.open :: t != tx && id in db.open[t].events
  }

  /** The trigger raises unless the row's Workspace is the transaction scope. */
  predicate ScopeMismatch(scope: Option<Workspace>, workspace: Workspace) {
    scope.None? || scope.value == "" || workspace != scope.value
  }

  predicate Enabled(db: Db, a: Action) {
    match a
    case Begin(tx) => tx !in db.open
    case Insert(tx, scope, workspace, id) =>
      && tx in db.open
      && (ScopeMismatch(scope, workspace)
          || (!LockedByOther(db, tx, workspace) && !IdPendingElsewhere(db, tx, id)))
    case Commit(tx) => tx in db.open
    case Abort(tx) => tx in db.open
  }

  /** last_sequence as the transaction sees it: its own update, else the committed row, else none. */
  function Visible(db: Db, tx: TxId, workspace: Workspace): int
    requires tx in db.open
  {
    if workspace in db.open[tx].counters then db.open[tx].counters[workspace]
    else Committed(db, workspace)
  }

  function Committed(db: Db, workspace: Workspace): int {
    if workspace in db.counters then db.counters[workspace] else 0
  }

  /** INSERT ... VALUES 1 ON CONFLICT DO UPDATE SET last_sequence + 1 RETURNING last_sequence */
  function NextSequence(db: Db, tx: TxId, workspace: Workspace): int
    requires tx in db.open
  {
    if workspace in db.open[tx].counters || workspace in db.counters
    then Visible(db, tx, workspace) + 1 else 1
  }

  /** A statement that raises aborts its transaction. */
  function Rollback(db: Db, tx: TxId): Db {
    db.(open := db.open - {tx})
  }

  function Apply(db: Db, a: Action): Db
    requires Enabled(db, a)
  {
    match a
    case Begin(tx) => db.(open := db.open[tx := Tx(map[], map[])])
    case Insert(tx, scope, workspace, id) =>
      if ScopeMismatch(scope, workspace) || id in db.events || id in db.open[tx].events then Rollback(db, tx)
      else
        var n := NextSequence(db, tx, workspace);
        var t := db.open[tx];
        db.(open := db.open[tx := Tx(t.counters[workspace := n], t.events[id := Event(workspace, n)])])
    case Commit(tx) =>
      Db(db.counters + db.open[tx].counters, db.events + db.open[tx].events, db.open - {tx})
    case Abort(tx) => Rollback(db, tx)
  }

  // ---------------------------------------------------------------- the invariant

  ghost predicate HasNumber(events: map<EventId, Event>, workspace: Workspace, n: int) {
    exists id | id in events :: events[id] == Event(workspace, n)
  }

  /** The events of a Workspace carry exactly the numbers lo+1..hi. */
  ghost predicate Filled(events: map<EventId, Event>, workspace: Workspace, lo: int, hi: int) {
    forall n {:trigger HasNumber(events, workspace, n)} :: lo < n <= hi <==> HasNumber(events, workspace, n)
  }

  /** No two events share Workspace and number (the unique constraint). */
  ghost predicate Distinct(events: map<EventId, Event>) {
    forall a, b | a in events && b in events && events[a] == events[b] :: a == b
  }

  ghost predicate CommittedOk(db: Db) {
    && Distinct(db.events)
    && (forall w {:trigger Committed(db, w)} :: Committed(db, w) >= 0 && Filled(db.events, w, 0, Committed(db, w)))
  }

  /** An open transaction continues the committed numbers of every Workspace it has locked. */
  ghost predicate TxOk(db: Db, t: Tx) {
    && Distinct(t.events)
    && (forall id | id in t.events :: id !in db.events && t.events[id].workspace in t.counters)
    && (forall w | w in t.counters :: Committed(db, w) < t.counters[w]
                                      && Filled(t.events, w, Committed(db, w), t.counters[w]))
  }

  ghost predicate LocksExclusive(db: Db) {
    forall s, t | s in db.open && t in db.open && s != t ::
      && db.open[s].counters.Keys !! db.open[t].counters.Keys
      && db.open[s].events.Keys !! db.open[t].events.Keys
  }

  ghost predicate Inv(db: Db) {
    && CommittedOk(db)
    && LocksExclusive(db)
    && forall t | t in db.open :: TxOk(db, db.open[t])
  }

  lemma FilledExtend(events: map<EventId, Event>, id: EventId, workspace: Workspace, lo: int, hi: int)
    requires id !in events && Filled(events, workspace, lo, hi) && lo <= hi
    ensures Filled(events[id := Event(workspace, hi + 1)], workspace, lo, hi + 1)
  {
    var more := events[id := Event(workspace, hi + 1)];
    forall n ensures lo < n <= hi + 1 <==> HasNumber(more, workspace, n) {
      assert lo < n <= hi <==> HasNumber(events, workspace, n);
      if HasNumber(events, workspace, n) {
        var e :| e in events && events[e] == Event(workspace, n);
        assert more[e] == Event(workspace, n);
      }
      if n == hi + 1 {
        assert more[id] == Event(workspace, n);
      }
      if HasNumber(more, workspace, n) {
        var e :| e in more && more[e] == Event(workspace, n);
        assert e == id || events[e] == Event(workspace, n);
      }
    }
  }

  lemma FilledElsewhere(events: map<EventId, Event>, id: EventId, e: Event, workspace: Workspace, lo: int, hi: int)
    requires id !in events && e.workspace != workspace && Filled(events, workspace, lo, hi)
    ensures Filled(events[id := e], workspace, lo, hi)
  {
    var more := events[id := e];
    forall n ensures lo < n <= hi <==> HasNumber(more, workspace, n) {
      assert lo < n <= hi <==> HasNumber(events, workspace, n);
      if HasNumber(events, workspace, n) {
        var x :| x in events && events[x] == Event(workspace, n);
        assert more[x] == Event(workspace, n);
      }
      if HasNumber(more, workspace, n) {
        var x :| x in more && more[x] == Event(workspace, n);
        assert events[x] == Event(workspace, n);
      }
    }
  }

  /** Two adjacent runs of numbers, in disjoint tables, join into one. */
  lemma FilledJoin(a: map<EventId, Event>, b: map<EventId, Event>, workspace: Workspace, lo: int, mid: int, hi: int)
    requires (forall id | id in b :: id !in a) && lo <= mid <= hi
    requires Filled(a, workspace, lo, mid) && Filled(b, workspace, mid, hi)
    ensures Filled(a + b, workspace, lo, hi)
  {
    forall n ensures lo < n <= hi <==> HasNumber(a + b, workspace, n) {
      assert lo < n <= mid <==> HasNumber(a, workspace, n);
      assert mid < n <= hi <==> HasNumber(b, workspace, n);
      if HasNumber(a, workspace, n) {
        var x :| x in a && a[x] == Event(workspace, n);
        assert (a + b)[x] == Event(workspace, n);
      }
      if HasNumber(b, workspace, n) {
        var x :| x in b && b[x] == Event(workspace, n);
        assert (a + b)[x] == Event(workspace, n);
      }
      if HasNumber(a + b, workspace, n) {
        var x :| x in a + b && (a + b)[x] == Event(workspace, n);
        assert (x in b && b[x] == Event(workspace, n)) || (x in a && a[x] == Event(workspace, n));
      }
    }
  }

  /** A transaction has no numbers in Workspaces whose counter row it has not locked. */
  lemma NoForeignNumbers(db: Db, t: Tx, workspace: Workspace)
    requires TxOk(db, t) && workspace !in t.counters
    ensures forall n :: !HasNumber(t.events, workspace, n)
    ensures forall n: int :: Filled(t.events, workspace, n, n)
  {
  }

  lemma Unnumbered(events: map<EventId, Event>, workspace: Workspace, n: int, id: EventId)
    requires !HasNumber(events, workspace, n) && id in events
    ensures events[id] != Event(workspace, n)
  {
  }

  /** The number the trigger assigns is new to the Workspace, so the unique constraint cannot fire. */
  lemma AssignedNumberIsNew(db: Db, tx: TxId, workspace: Workspace)
    requires Inv(db) && tx in db.open && !LockedByOther(db, tx, workspace)
    ensures NextSequence(db, tx, workspace) == Visible(db, tx, workspace) + 1
    ensures Visible(db, tx, workspace) >= Committed(db, workspace) >= 0
    ensures !HasNumber(db.events, workspace, NextSequence(db, tx, workspace))
    ensures forall t | t in db.open :: !HasNumber(db.open[t].events, workspace, NextSequence(db, tx, workspace))
  {
    var n := NextSequence(db, tx, workspace);
    assert Filled(db.events, workspace, 0, Committed(db, workspace));
    forall t | t in db.open ensures !HasNumber(db.open[t].events, workspace, n) {
      assert TxOk(db, db.open[t]);
      if workspace in db.open[t].counters {
        assert t == tx;
      } else {
        NoForeignNumbers(db, db.open[t], workspace);
      }
    }
  }

  lemma InsertKeepsTx(db: Db, tx: TxId, workspace: Workspace, id: EventId)
    requires Inv(db) && tx in db.open && !LockedByOther(db, tx, workspace)
    requires id !in db.events && id !in db.open[tx].events
    ensures var t, n := db.open[tx], NextSequence(db, tx, workspace);
      TxOk(db, Tx(t.counters[workspace := n], t.events[id := Event(workspace, n)]))
  {
    var t, n := db.open[tx], NextSequence(db, tx, workspace);
    AssignedNumberIsNew(db, tx, workspace);
    assert TxOk(db, t);
    var t' := Tx(t.counters[workspace := n], t.events[id := Event(workspace, n)]);
    var before := Visible(db, tx, workspace);
    assert Filled(t.events, workspace, Committed(db, workspace), before) by {
      if workspace !in t.counters {
        NoForeignNumbers(db, t, workspace);
      }
    }
    FilledExtend(t.events, id, workspace, Committed(db, workspace), before);
    forall w | w in t'.counters && w != workspace ensures Filled(t'.events, w, Committed(db, w), t'.counters[w]) {
      FilledElsewhere(t.events, id, Event(workspace, n), w, Committed(db, w), t.counters[w]);
    }
    forall a, b | a in t'.events && b in t'.events && t'.events[a] == t'.events[b] ensures a == b {
      if a in t.events && b == id {
        Unnumbered(t.events, workspace, n, a);
      }
      if b in t.events && a == id {
        Unnumbered(t.events, workspace, n, b);
      }
    }
  }

  lemma CommitKeepsCommitted(db: Db, tx: TxId)
    requires Inv(db) && tx in db.open
    ensures CommittedOk(Apply(db, Commit(tx)))
  {
    var db', t := Apply(db, Commit(tx)), db.open[tx];
    assert TxOk(db, t);
    forall w ensures Committed(db', w) >= 0 && Filled(db'.events, w, 0, Committed(db', w)) {
      assert Filled(db.events, w, 0, Committed(db, w));
      if w in t.counters {
        FilledJoin(db.events, t.events, w, 0, Committed(db, w), t.counters[w]);
      } else {
        NoForeignNumbers(db, t, w);
        FilledJoin(db.events, t.events, w, 0, Committed(db, w), Committed(db, w));
      }
    }
    forall a, b | a in db'.events && b in db'.events && db'.events[a] == db'.events[b] ensures a == b {
      CommitKeepsDistinct(db, tx, a, b);
    }
  }

  lemma CommitKeepsDistinct(db: Db, tx: TxId, a: EventId, b: EventId)
    requires Inv(db) && tx in db.open
    requires var es := Apply(db, Commit(tx)).events; a in es && b in es && es[a] == es[b]
    ensures a == b
  {
    var t := db.open[tx];
    assert TxOk(db, t);
    if a in t.events && b !in t.events {
      NumbersApart(db, t, b, a);
    } else if b in t.events && a !in t.events {
      NumbersApart(db, t, a, b);
    }
  }

  lemma NumbersApart(db: Db, t: Tx, committed: EventId, pending: EventId)
    requires CommittedOk(db) && TxOk(db, t) && committed in db.events && pending in t.events
    ensures db.events[committed] != t.events[pending]
  {
    var w, n := t.events[pending].workspace, t.events[pending].sequence;
    assert Filled(db.events, w, 0, Committed(db, w));
    assert HasNumber(t.events, w, n);
    if db.events[committed] == t.events[pending] {
      assert HasNumber(db.events, w, n);
    }
  }

  lemma CommitKeepsTx(db: Db, tx: TxId, other: TxId)
    requires Inv(db) && tx in db.open && other in db.open && other != tx
    ensures TxOk(Apply(db, Commit(tx)), db.open[other])
  {
    assert TxOk(db, db.open[other]);
    var db' := Apply(db, Commit(tx));
    assert db.open[tx].counters.Keys !! db.open[other].counters.Keys;
    assert db.open[tx].events.Keys !! db.open[other].events.Keys;
    forall w | w in db.open[other].counters ensures Committed(db', w) == Committed(db, w) {
    }
  }

  /** Every step keeps the invariant, however transactions interleave. */
  lemma StepKeepsInvariant(db: Db, a: Action)
    requires Inv(db) && Enabled(db, a)
    ensures Inv(Apply(db, a))
  {
    var db' := Apply(db, a);
    match a {
      case Begin(tx) =>
        SameCommitted(db, db');
      case Insert(tx, scope, workspace, id) =>
        SameCommitted(db, db');
        if !(ScopeMismatch(scope, workspace) || id in db.events || id in db.open[tx].events) {
          InsertKeepsTx(db, tx, workspace, id);
          InsertKeepsLocks(db, tx, workspace, id);
        }
      case Commit(tx) =>
        CommitKeepsCommitted(db, tx);
        forall t | t in db'.open ensures TxOk(db', db'.open[t]) {
          CommitKeepsTx(db, tx, t);
        }
      case Abort(tx) =>
        SameCommitted(db, db');
    }
  }

  lemma SameCommitted(db: Db, db': Db)
    requires CommittedOk(db) && db'.counters == db.counters && db'.events == db.events
    ensures CommittedOk(db') && forall t: Tx | TxOk(db, t) :: TxOk(db', t)
  {
    assert forall w :: Committed(db', w) == Committed(db, w);
  }

  lemma InsertKeepsLocks(db: Db, tx: TxId, workspace: Workspace, id: EventId)
    requires LocksExclusive(db) && tx in db.open
    requires !LockedByOther(db, tx, workspace) && !IdPendingElsewhere(db, tx, id)
    ensures var t, n := db.open[tx], NextSequence(db, tx, workspace);
      LocksExclusive(db.(open := db.open[tx := Tx(t.counters[workspace := n], t.events[id := Event(workspace, n)])]))
  {
  }

  // ---------------------------------------------------------------- what inserts and commits do

  /** When an insert has nothing to wait for, and when it then goes through: the row's Workspace is the
      transaction scope and the id is new.  It gets the next number of its Workspace; any other insert
      ends its transaction.  Nobody else notices. */
  lemma InsertGoesThroughIff(db: Db, tx: TxId, scope: Option<Workspace>, workspace: Workspace, id: EventId)
    ensures Enabled(db, Insert(tx, scope, workspace, id)) <==>
      && tx in db.open
      && (scope == Some(workspace) && workspace != "" ==>
            forall t | t in db.open && t != tx :: workspace !in db.open[t].counters && id !in db.open[t].events)
    ensures Inv(db) && Enabled(db, Insert(tx, scope, workspace, id)) ==>
      var db', mine, n := Apply(db, Insert(tx, scope, workspace, id)), db.open[tx], Visible(db, tx, workspace) + 1;
      && db'.events == db.events && db'.counters == db.counters
      && (forall t | t != tx :: t in db'.open <==> t in db.open)
      && (forall t | t in db.open && t != tx :: db'.open[t] == db.open[t])
      && (tx in db'.open <==>
            scope == Some(workspace) && workspace != "" && id !in db.events && id !in mine.events)
      && (tx in db'.open ==>
            db'.open[tx] == Tx(mine.counters[workspace := n], mine.events[id := Event(workspace, n)]))
  {
    if Inv(db) && Enabled(db, Insert(tx, scope, workspace, id)) && !ScopeMismatch(scope, workspace) {
      AssignedNumberIsNew(db, tx, workspace);
    }
    hide Inv;
  }

  /** A commit publishes exactly the events and counters of its transaction. */
  lemma CommitPublishes(db: Db, tx: TxId)
    requires Inv(db) && tx in db.open
    ensures var db', mine := Apply(db, Commit(tx)), db.open[tx];
      && (forall t :: t in db'.open <==> t in db.open && t != tx)
      && (forall t | t in db'.open :: db'.open[t] == db.open[t])
      && db'.events.Keys == db.events.Keys + mine.events.Keys
      && (forall id | id in db.events :: db'.events[id] == db.events[id])
      && (forall id | id in mine.events :: db'.events[id] == mine.events[id])
      && (forall w :: Committed(db', w) == if w in mine.counters then mine.counters[w] else Committed(db, w))
  {
    assert TxOk(db, db.open[tx]);
    hide Filled, Distinct;
  }

  // ---------------------------------------------------------------- runs

  datatype Step = Step(action: Action, db: Db)

  /** A starting state and the log of an interleaving. */
  datatype Run = Run(start: Db, steps: seq<Step>)

  /** The state after the first n steps. */
  function After(r: Run, n: nat): Db
    requires n <= |r.steps|
  {
    if n == 0 then r.start else r.steps[n - 1].db
  }

  ghost predicate StepAt(r: Run, i: nat)
    requires i < |r.steps|
  {
    Enabled(After(r, i), r.steps[i].action) && r.steps[i].db == Apply(After(r, i), r.steps[i].action)
  }

  ghost predicate IsRun(r: Run) {
    Inv(r.start) && forall i {:trigger StepAt(r, i)} | 0 <= i < |r.steps| :: StepAt(r, i)
  }

  lemma {:induction false} InvariantHolds(r: Run, n: nat)
    requires IsRun(r) && n <= |r.steps|
    ensures Inv(After(r, n))
  {
    if n > 0 {
      InvariantHolds(r, n - 1);
      assert StepAt(r, n - 1);
      StepKeepsInvariant(After(r, n - 1), r.steps[n - 1].action);
    }
  }

  /** At every moment the committed numbers of a Workspace are exactly 1..n, each used once. */
  lemma FeedHasNoHoles(r: Run, n: nat, workspace: Workspace, k: int)
    requires IsRun(r) && n <= |r.steps|
    ensures HasNumber(After(r, n).events, workspace, k) <==> 1 <= k <= Committed(After(r, n), workspace)
    ensures Distinct(After(r, n).events)
  {
    InvariantHolds(r, n);
    assert Filled(After(r, n).events, workspace, 0, Committed(After(r, n), workspace));
  }

  /** What one step can add to the committed feed: numbers above all committed ones. */
  lemma StepOnlyAppends(db: Db, a: Action, id: EventId)
    requires Inv(db) && Enabled(db, a)
    ensures var db' := Apply(db, a);
      && (id in db.events ==> id in db'.events && db'.events[id] == db.events[id])
      && (id !in db.events && id in db'.events ==>
            db'.events[id].sequence > Committed(db, db'.events[id].workspace))
      && (forall w :: Committed(db', w) >= Committed(db, w))
  {
    if a.Commit? {
      var t := db.open[a.tx];
      assert TxOk(db, t);
      if id in t.events {
        var w, n := t.events[id].workspace, t.events[id].sequence;
        assert HasNumber(t.events, w, n);
        assert Filled(t.events, w, Committed(db, w), t.counters[w]);
      }
    }
  }

  /** The committed feed only grows: events keep their numbers, and what appears later stands
      above everything a reader could already see.  So a reader that has seen k never later meets
      a new number below k. */
  lemma {:induction false} ReaderNeverMisses(r: Run, i: nat, j: nat, id: EventId)
    requires IsRun(r) && i <= j <= |r.steps|
    ensures id in After(r, i).events ==>
      id in After(r, j).events && After(r, j).events[id] == After(r, i).events[id]
    ensures id !in After(r, i).events && id in After(r, j).events ==>
      After(r, j).events[id].sequence > Committed(After(r, i), After(r, j).events[id].workspace)
    ensures forall w :: Committed(After(r, j), w) >= Committed(After(r, i), w)
  {
    if i < j {
      ReaderNeverMisses(r, i, j - 1, id);
      InvariantHolds(r, j - 1);
      assert StepAt(r, j - 1);
      StepOnlyAppends(After(r, j - 1), r.steps[j - 1].action, id);
    }
  }

  /** Aborted work leaves no gap: abort restores the committed state and frees every lock held. */
  lemma AbortLeavesNoTrace(db: Db, tx: TxId, workspace: Workspace)
    requires Inv(db) && tx in db.open
    ensures var db' := Apply(db, Abort(tx));
      && db'.events == db.events && db'.counters == db.counters && tx !in db'.open
      && (workspace in db.open[tx].counters ==> forall t | t in db'.open :: !LockedByOther(db', t, workspace))
  {
    var db' := Apply(db, Abort(tx));
    if workspace in db.open[tx].counters {
      forall s | s in db'.open ensures workspace !in db'.open[s].counters {
        assert db.open[s].counters.Keys !! db.open[tx].counters.Keys;
      }
    }
  }

  // ---------------------------------------------------------------- an insert on its own

  lemma LoneInsert(db: Db, tx: TxId, workspace: Workspace, id: EventId)
    requires Inv(db) && tx !in db.open && workspace != "" && id !in db.events
    requires forall t | t in db.open :: workspace !in db.open[t].counters && id !in db.open[t].events
    ensures Enabled(db, Begin(tx))
    ensures Enabled(Apply(db, Begin(tx)), Insert(tx, Some(workspace), workspace, id))
    ensures var n := Committed(db, workspace) + 1;
      && Inv(Apply(Apply(db, Begin(tx)), Insert(tx, Some(workspace), workspace, id)))
      && Apply(Apply(db, Begin(tx)), Insert(tx, Some(workspace), workspace, id))
         == db.(open := db.open[tx := Tx(map[workspace := n], map[id := Event(workspace, n)])])
  {
    var begun := Apply(db, Begin(tx));
    StepKeepsInvariant(db, Begin(tx));
    InsertGoesThroughIff(begun, tx, Some(workspace), workspace, id);
    StepKeepsInvariant(begun, Insert(tx, Some(workspace), workspace, id));
    hide Inv;
    var n := Committed(db, workspace) + 1;
    assert begun.open[tx] == Tx(map[], map[]) && Visible(begun, tx, workspace) == n - 1;
    var inserted := Apply(begun, Insert(tx, Some(workspace), workspace, id));
    hide Apply, Enabled;
    assert inserted.open == db.open[tx := Tx(map[workspace := n], map[id := Event(workspace, n)])];
  }

  lemma LoneCommit(db: Db, tx: TxId, workspace: Workspace, id: EventId, n: int)
    requires tx !in db.open
    ensures var inserted := db.(open := db.open[tx := Tx(map[workspace := n], map[id := Event(workspace, n)])]);
      && Enabled(inserted, Commit(tx))
      && Apply(inserted, Commit(tx)) == Db(db.counters[workspace := n], db.events[id := Event(workspace, n)], db.open)
  {
    assert db.open[tx := Tx(map[workspace := n], map[id := Event(workspace, n)])] - {tx} == db.open;
  }

  /** An event that meets no other open transaction is committed, in a run of three steps, under the next
      number of its Workspace. */
  lemma LoneInsertIsPublished(db: Db, tx: TxId, workspace: Workspace, id: EventId) returns (r: Run)
    requires Inv(db) && tx !in db.open && workspace != "" && id !in db.events
    requires forall t | t in db.open :: workspace !in db.open[t].counters && id !in db.open[t].events
    ensures IsRun(r) && r.start == db && |r.steps| == 3
    ensures r.steps[0].action == Begin(tx) && r.steps[2].action == Commit(tx)
    ensures r.steps[1].action == Insert(tx, Some(workspace), workspace, id)
    ensures var n := Committed(db, workspace) + 1;
      After(r, 3) == Db(db.counters[workspace := n], db.events[id := Event(workspace, n)], db.open)
  {
    hide Inv, Apply, Enabled;
    LoneInsert(db, tx, workspace, id);
    var n := Committed(db, workspace) + 1;
    LoneCommit(db, tx, workspace, id, n);
    var begun := Apply(db, Begin(tx));
    var inserted := Apply(begun, Insert(tx, Some(workspace), workspace, id));
    r := Run(db, [Step(Begin(tx), begun), Step(Insert(tx, Some(workspace), workspace, id), inserted),
                  Step(Commit(tx), Apply(inserted, Commit(tx)))]);
    assert StepAt(r, 0) && StepAt(r, 1) && StepAt(r, 2);
  }
}
