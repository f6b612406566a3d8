/** The upload quota of a Workspace: reservations under an advisory lock, committed or aborted with
    the transaction that made them.

    Transactions interleave under Read Committed.  The lock is taken on a hash of the Workspace id
    and kept until the transaction ends; a call that meets the lock of another transaction waits.
    So does an INSERT that meets another transaction's uncommitted upload id.  A call is a step once
    it has nothing to wait for. */
module UploadQuota {
  import opened Basics
  import opened Sums

  type Workspace = string
  type TxId = int

  const MAX_SIZE: int := 1_073_741_824

  /** The primary key of a reservation. */
  datatype Slot = Slot(workspace: Workspace, operation: string)

  datatype Reservation = Reservation(upload: string, size: int)

  type Ledger = map<Slot, Reservation>

  /** An open transaction: the hashes it has locked and its uncommitted reservations. */
  datatype Tx = Tx(locks: set<int>, rows: Ledger)

  datatype Db = Db(rows: Ledger, open: map<TxId, Tx>)

  /** The arguments of reserve_upload_quota. */
  datatype Args = Args(workspace: Option<Workspace>, upload: Option<string>, operation: Option<string>,
                       size: Option<int>, maximum: Option<int>)

  datatype Action =
    | Begin(tx: TxId)
    | Reserve(tx: TxId, args: Args)
    | Commit(tx: TxId)
    | Abort(tx: TxId)

  datatype Outcome = Done | Raised | Answer(granted: bool)

  /** The hash of a Workspace id, and the Workspaces that exist. */
  datatype Env = Env(hash: Workspace -> int, workspaces: set<Workspace>)

  // ---------------------------------------------------------------- the function

  /** The guard; a NULL size or a NULL maximum passes it. */
  predicate BadArguments(a: Args) {
    || a.workspace.None? || a.workspace.value == ""
    || a.upload.None? || !IsOpaqueId(a.upload.value)
    || a.operation.None? || !(1 <= |a.operation.value| <= 160) || !Trimmed(a.operation.value)
    || NotBetween(a.size, 1, MAX_SIZE)
    || (a.size.Some? && a.maximum.Some? && a.maximum.value < a.size.value)
  }

  function SlotOf(a: Args): Slot
    requires !BadArguments(a)
  {
    Slot(a.workspace.value, a.operation.value)
  }

  predicate LockedByOther(db: Db, tx: TxId, hash: int) {
    exists t | t in db.open :: t != tx && hash in db.open[t].locks
  }

  predicate UsesUpload(rows: Ledger, upload: string) {
    exists k | k in rows :: rows[k].upload == upload
  }

  predicate UploadPendingElsewhere(db: Db, tx: TxId, upload: string) {
    exists t | t in db.open :: t != tx && UsesUpload(db.open[t].rows, upload)
  }

  /** What the transaction sees: the committed reservations and its own. */
  function Visible(db: Db, tx: TxId): Ledger
    requires tx in db.open
  {
    db.rows + db.open[tx].rows
  }

  function SlotsOf(rows: Ledger, workspace: Workspace): set<Slot> {
    set k | k in rows && k.workspace == workspace
  }

  ghost function SizeIn(rows: Ledger): Slot -> int {
    k => if k in rows then rows[k].size else 0
  }

  /** COALESCE(sum(size_bytes), 0) of a Workspace. */
  ghost function Total(rows: Ledger, workspace: Workspace): int {
    Sum(SlotsOf(rows, workspace), SizeIn(rows))
  }

  /** The operation is reserved already, and with another input. */
  predicate Reused(r: Reservation, a: Args)
    requires !BadArguments(a)
  {
    r.upload != a.upload.value || (a.size.Some? && r.size != a.size.value)
  }

  /** `current_bytes + size > maximum`; a NULL on either side does not exceed. */
  ghost predicate Exceeds(db: Db, tx: TxId, a: Args)
    requires tx in db.open && !BadArguments(a)
  {
    a.size.Some? && a.maximum.Some? && Total(Visible(db, tx), a.workspace.value) + a.size.value > a.maximum.value
  }

  /** The INSERT violates NOT NULL, the foreign key or UNIQUE (upload_id). */
  predicate InsertFails(e: Env, db: Db, tx: TxId, a: Args)
    requires tx in db.open && !BadArguments(a)
  {
    || a.size.None? || a.workspace.value !in e.workspaces
    || UsesUpload(db.rows, a.upload.value) || UsesUpload(db.open[tx].rows, a.upload.value)
  }

  /** The call comes to the INSERT, with no NULL that fails it at once, and another transaction is
      inserting the same upload id. */
  ghost predicate WaitsForUpload(db: Db, tx: TxId, a: Args)
    requires tx in db.open && !BadArguments(a)
  {
    && SlotOf(a) !in Visible(db, tx) && !Exceeds(db, tx, a) && a.size.Some?
    && UploadPendingElsewhere(db, tx, a.upload.value)
  }

  ghost predicate Enabled(e: Env, db: Db, act: Action) {
    match act
    case Begin(tx) => tx !in db.open
    case Reserve(tx, a) =>
      && tx in db.open
      && (BadArguments(a)
          || (!LockedByOther(db, tx, e.hash(a.workspace.value)) && !WaitsForUpload(db, tx, a)))
    case Commit(tx) => tx in db.open
    case Abort(tx) => tx in db.open
  }

  function Rollback(db: Db, tx: TxId): Db { db.(open := db.open - {tx}) }

  /** The transaction after it took the lock. */
  function Locked(e: Env, db: Db, tx: TxId, a: Args): Tx
    requires tx in db.open && !BadArguments(a)
  {
    Tx(db.open[tx].locks + {e.hash(a.workspace.value)}, db.open[tx].rows)
  }

  ghost function ApplyReserve(e: Env, db: Db, tx: TxId, a: Args): (Db, Outcome)
    requires tx in db.open
  {
    if BadArguments(a) then (Rollback(db, tx), Raised)
    else
      var k, t := SlotOf(a), Locked(e, db, tx, a);
      if k in Visible(db, tx) then
        if Reused(Visible(db, tx)[k], a) then (Rollback(db, tx), Raised)
        else (db.(open := db.open[tx := t]), Answer(true))
      else if Exceeds(db, tx, a) then (db.(open := db.open[tx := t]), Answer(false))
      else if InsertFails(e, db, tx, a) then (Rollback(db, tx), Raised)
      else
        var r := Reservation(a.upload.value, a.size.value);
        (db.(open := db.open[tx := Tx(t.locks, t.rows[k := r])]), Answer(true))
  }

  ghost function Apply(e: Env, db: Db, act: Action): (Db, Outcome)
    requires Enabled(e, db, act)
  {
    match act
    case Begin(tx) => (db.(open := db.open[tx := Tx({}, map[])]), Done)
    case Reserve(tx, a) => ApplyReserve(e, db, tx, a)
    case Commit(tx) => (Db(db.rows + db.open[tx].rows, db.open - {tx}), Done)
    case Abort(tx) => (Rollback(db, tx), Done)
  }

  // ---------------------------------------------------------------- what a call answers

  /** The arguments are well formed: ids and operation present, the size within 1 GiB and the maximum, where
      these are not NULL. */
  lemma GoodArgumentsIff(a: Args)
    ensures !BadArguments(a) <==>
      && a.workspace.Some? && a.workspace.value != ""
      && a.upload.Some? && IsOpaqueId(a.upload.value)
      && a.operation.Some? && 1 <= |a.operation.value| <= 160
      && a.operation.value[0] != ' ' && a.operation.value[|a.operation.value| - 1] != ' '
      && (a.size.Some? ==> 1 <= a.size.value <= 1_073_741_824)
      && (a.size.Some? && a.maximum.Some? ==> a.size.value <= a.maximum.value)
  {
  }

  /** What is reserved under the Workspace and operation of the call, if anything. */
  function Reserved(db: Db, tx: TxId, a: Args): Option<Reservation>
    requires tx in db.open && !BadArguments(a)
  {
    var slot := Slot(a.workspace.value, a.operation.value);
    if slot in db.open[tx].rows then Some(db.open[tx].rows[slot])
    else if slot in db.rows then Some(db.rows[slot])
    else None
  }

  /** Every answer of a call.  A replay is granted if upload and size are the same, as far as a size is given;
      a fresh call is refused if it would exceed the maximum, raises if it cannot be stored, and is granted
      otherwise.  Whoever raises loses its transaction; any answer keeps the lock. */
  lemma AnswersAre(e: Env, db: Db, tx: TxId, a: Args)
    requires tx in db.open && !BadArguments(a)
    ensures var (db', out) := ApplyReserve(e, db, tx, a);
      var earlier, w, total := Reserved(db, tx, a), a.workspace.value, Total(Visible(db, tx), a.workspace.value);
      && (if earlier.Some? then
            out == if earlier.value.upload == a.upload.value && (a.size == None || a.size == Some(earlier.value.size))
                   then Answer(true) else Raised
          else if a.size.Some? && a.maximum.Some? && total + a.size.value > a.maximum.value then out == Answer(false)
          else out == if a.size.None? || w !in e.workspaces || UsesUpload(db.rows, a.upload.value)
                         || UsesUpload(db.open[tx].rows, a.upload.value)
                      then Raised else Answer(true))
      && (tx in db'.open <==> out.Answer?)
      && (tx in db'.open ==> db'.open[tx].locks == db.open[tx].locks + {e.hash(w)})
      && db'.rows == db.rows && db'.open - {tx} == db.open - {tx}
  {
    var (db', out) := ApplyReserve(e, db, tx, a);
    assert (Reserved(db, tx, a).Some? <==> SlotOf(a) in Visible(db, tx))
        && (Reserved(db, tx, a).Some? ==> Visible(db, tx)[SlotOf(a)] == Reserved(db, tx, a).value);
    hide BadArguments, UsesUpload, Total, Visible;
    assert db'.open - {tx} == db.open - {tx};
  }

  /** What a call waits for: another transaction that holds its lock, or that inserts its upload id while the
      call itself comes to insert. */
  lemma WaitsIff(e: Env, db: Db, tx: TxId, a: Args)
    ensures Enabled(e, db, Reserve(tx, a)) <==>
      && tx in db.open
      && (!BadArguments(a) ==>
            && (forall t | t in db.open && t != tx :: e.hash(a.workspace.value) !in db.open[t].locks)
            && (&& Reserved(db, tx, a).None? && a.size.Some?
                && (a.maximum.Some? ==>
                      Total(Visible(db, tx), a.workspace.value) + a.size.value <= a.maximum.value) ==>
                  forall t, k | t in db.open && t != tx && k in db.open[t].rows ::
                    db.open[t].rows[k].upload != a.upload.value))
  {
    if tx in db.open && !BadArguments(a) {
      assert Reserved(db, tx, a).Some? <==> SlotOf(a) in Visible(db, tx);
    }
    hide BadArguments, Total, Visible, Reserved;
  }

  // ---------------------------------------------------------------- totals

  lemma TotalInsert(rows: Ledger, k: Slot, r: Reservation, workspace: Workspace)
    requires k !in rows
    ensures Total(rows[k := r], workspace) == Total(rows, workspace) + if k.workspace == workspace then r.size else 0
  {
    var more := rows[k := r];
    SumCongruent(SlotsOf(rows, workspace), SizeIn(rows), SizeIn(more));
    if k.workspace == workspace {
      SumRemove(SlotsOf(more, workspace), k, SizeIn(more));
      assert SlotsOf(more, workspace) - {k} == SlotsOf(rows, workspace);
    } else {
      assert SlotsOf(more, workspace) == SlotsOf(rows, workspace);
    }
  }

  ghost predicate HasRows(rows: Ledger, workspace: Workspace) {
    exists k | k in rows :: k.workspace == workspace
  }

  lemma TotalWithout(a: Ledger, b: Ledger, workspace: Workspace)
    requires !HasRows(b, workspace)
    ensures Total(a + b, workspace) == Total(a, workspace)
  {
    assert SlotsOf(a + b, workspace) == SlotsOf(a, workspace);
    SumCongruent(SlotsOf(a, workspace), SizeIn(a), SizeIn(a + b));
  }

  // ---------------------------------------------------------------- the invariant

  /** An open transaction keeps every Workspace it reserved in within the limit, and holds its lock. */
  ghost predicate TxOk(e: Env, limit: Workspace -> int, db: Db, t: Tx) {
    && (forall k | k in t.rows :: k !in db.rows && e.hash(k.workspace) in t.locks)
    && (forall w {:trigger HasRows(t.rows, w)} | HasRows(t.rows, w) :: Total(db.rows + t.rows, w) <= limit(w))
  }

  ghost predicate LocksExclusive(db: Db) {
    forall s, t | s in db.open && t in db.open && s != t :: db.open[s].locks !! db.open[t].locks
  }

  ghost predicate Inv(e: Env, limit: Workspace -> int, db: Db) {
    && (forall w {:trigger Total(db.rows, w)} :: Total(db.rows, w) <= limit(w))
    && (forall t | t in db.open :: TxOk(e, limit, db, db.open[t]))
    && LocksExclusive(db)
  }

  /** Calls pass a maximum, and for each Workspace never more than its limit. */
  predicate Bounded(limit: Workspace -> int, act: Action) {
    act.Reserve? && !BadArguments(act.args) ==>
      act.args.maximum.Some? && act.args.maximum.value <= limit(act.args.workspace.value)
  }

  /** What a fresh grant adds: its size, once, and only within the maximum that the call passes. */
  lemma FreshGrantAddsSize(e: Env, db: Db, tx: TxId, a: Args, db': Db)
    requires tx in db.open && !BadArguments(a) && SlotOf(a) !in Visible(db, tx)
    requires ApplyReserve(e, db, tx, a) == (db', Answer(true))
    ensures a.size.Some? && tx in db'.open && db'.rows == db.rows
    ensures Visible(db', tx) == Visible(db, tx)[SlotOf(a) := Reservation(a.upload.value, a.size.value)]
    ensures forall w :: Total(Visible(db', tx), w)
                        == Total(Visible(db, tx), w) + if w == a.workspace.value then a.size.value else 0
    ensures a.maximum.Some? ==> Total(Visible(db', tx), a.workspace.value) <= a.maximum.value
  {
    var r := Reservation(a.upload.value, a.size.value);
    assert Visible(db', tx) == Visible(db, tx)[SlotOf(a) := r];
    forall w ensures Total(Visible(db', tx), w)
                     == Total(Visible(db, tx), w) + if w == a.workspace.value then a.size.value else 0 {
      TotalInsert(Visible(db, tx), SlotOf(a), r, w);
    }
  }

  /** An answer that is not a fresh grant changes no reservation; it only takes the lock. */
  lemma OtherAnswersAddNothing(e: Env, db: Db, tx: TxId, a: Args, db': Db, granted: bool)
    requires tx in db.open && ApplyReserve(e, db, tx, a) == (db', Answer(granted))
    requires !granted || SlotOf(a) in Visible(db, tx)
    ensures db'.rows == db.rows && db'.open.Keys == db.open.Keys
    ensures forall t | t in db.open :: db'.open[t].rows == db.open[t].rows
    ensures !granted ==>
      && a.size.Some? && a.maximum.Some? && SlotOf(a) !in Visible(db, tx)
      && Total(Visible(db, tx), a.workspace.value) + a.size.value > a.maximum.value
  {
  }

  lemma ReserveKeepsTx(e: Env, limit: Workspace -> int, db: Db, tx: TxId, a: Args)
    requires Inv(e, limit, db) && tx in db.open
    requires Bounded(limit, Reserve(tx, a)) && ApplyReserve(e, db, tx, a).1.Answer?
    ensures tx in ApplyReserve(e, db, tx, a).0.open
    ensures TxOk(e, limit, db, ApplyReserve(e, db, tx, a).0.open[tx])
  {
    var (db', out) := ApplyReserve(e, db, tx, a);
    var t, t' := db.open[tx], db'.open[tx];
    assert TxOk(e, limit, db, t);
    if t'.rows != t.rows {
      FreshGrantAddsSize(e, db, tx, a, db');
      forall w | HasRows(t'.rows, w) ensures Total(db.rows + t'.rows, w) <= limit(w) {
        if w != a.workspace.value {
          var k :| k in t'.rows && k.workspace == w;
          assert k in t.rows && HasRows(t.rows, w);
        }
      }
    }
  }

  lemma ReserveKeepsInv(e: Env, limit: Workspace -> int, db: Db, tx: TxId, a: Args)
    requires Inv(e, limit, db) && Enabled(e, db, Reserve(tx, a)) && Bounded(limit, Reserve(tx, a))
    ensures Inv(e, limit, Apply(e, db, Reserve(tx, a)).0)
  {
    hide Total, Exceeds, InsertFails, BadArguments, Reused;
    var (db', out) := Apply(e, db, Reserve(tx, a));
    assert forall w :: Total(db'.rows, w) == Total(db.rows, w);
    if out.Answer? {
      ReserveKeepsTx(e, limit, db, tx, a);
    }
    forall t | t in db'.open ensures TxOk(e, limit, db', db'.open[t]) {
      if t != tx {
        assert TxOk(e, limit, db, db.open[t]);
      }
      SameCommitted(e, limit, db, db', db'.open[t]);
    }
    forall s, t | s in db'.open && t in db'.open && s != t ensures db'.open[s].locks !! db'.open[t].locks {
      assert db.open[s].locks !! db.open[t].locks;
    }
  }

  lemma SameCommitted(e: Env, limit: Workspace -> int, db: Db, db': Db, t: Tx)
    requires db'.rows == db.rows && TxOk(e, limit, db, t)
    ensures TxOk(e, limit, db', t)
  {
  }

  lemma HoldsLock(e: Env, limit: Workspace -> int, db: Db, t: Tx, w: Workspace)
    requires TxOk(e, limit, db, t) && HasRows(t.rows, w)
    ensures e.hash(w) in t.locks
  {
    var k :| k in t.rows && k.workspace == w;
  }

  /** The lock keeps two open transactions out of one Workspace. */
  lemma NotBoth(e: Env, limit: Workspace -> int, db: Db, tx: TxId, other: TxId, w: Workspace)
    requires Inv(e, limit, db) && tx in db.open && other in db.open && other != tx
    ensures !(HasRows(db.open[tx].rows, w) && HasRows(db.open[other].rows, w))
  {
    var a, b := db.open[tx], db.open[other];
    assert TxOk(e, limit, db, a) && TxOk(e, limit, db, b) && a.locks !! b.locks;
    if HasRows(a.rows, w) {
      HoldsLock(e, limit, db, a, w);
    }
    if HasRows(b.rows, w) {
      HoldsLock(e, limit, db, b, w);
    }
  }

  lemma CommitKeepsTx(e: Env, limit: Workspace -> int, db: Db, tx: TxId, other: TxId)
    requires Inv(e, limit, db) && tx in db.open && other in db.open && other != tx
    ensures TxOk(e, limit, Apply(e, db, Commit(tx)).0, db.open[other])
  {
    var mine, t, db' := db.open[tx].rows, db.open[other], Apply(e, db, Commit(tx)).0;
    assert TxOk(e, limit, db, t);
    forall k | k in t.rows ensures k !in db'.rows {
      NotBoth(e, limit, db, tx, other, k.workspace);
      assert HasRows(t.rows, k.workspace);
    }
    forall w | HasRows(t.rows, w) ensures Total(db'.rows + t.rows, w) <= limit(w) {
      NotBoth(e, limit, db, tx, other, w);
      assert !HasRows(mine, w);
      TotalWithout(db.rows + t.rows, mine, w);
      assert db'.rows + t.rows == db.rows + t.rows + mine;
    }
  }

  lemma CommitKeepsInv(e: Env, limit: Workspace -> int, db: Db, tx: TxId)
    requires Inv(e, limit, db) && tx in db.open
    ensures Inv(e, limit, Apply(e, db, Commit(tx)).0)
  {
    var db', mine := Apply(e, db, Commit(tx)).0, db.open[tx].rows;
    assert TxOk(e, limit, db, db.open[tx]);
    forall w ensures Total(db'.rows, w) <= limit(w) {
      if !HasRows(mine, w) {
        TotalWithout(db.rows, mine, w);
        assert Total(db.rows, w) <= limit(w);
      }
    }
    forall t | t in db'.open ensures TxOk(e, limit, db', db'.open[t]) {
      CommitKeepsTx(e, limit, db, tx, t);
    }
  }

  /** Every step keeps the quota, however transactions interleave and even if Workspaces share a hash. */
  lemma StepKeepsQuota(e: Env, limit: Workspace -> int, db: Db, act: Action)
    requires Inv(e, limit, db) && Enabled(e, db, act) && Bounded(limit, act)
    ensures Inv(e, limit, Apply(e, db, act).0)
  {
    match act {
      case Begin(tx) =>
        var db' := Apply(e, db, act).0;
        forall t | t in db'.open ensures TxOk(e, limit, db', db'.open[t]) {
        }
      case Reserve(tx, a) => ReserveKeepsInv(e, limit, db, tx, a);
      case Commit(tx) => CommitKeepsInv(e, limit, db, tx);
      case Abort(tx) =>
    }
  }

  // ---------------------------------------------------------------- upload ids

  ghost predicate UploadsApart(a: Ledger, b: Ledger) {
    forall k, l | k in a && l in b :: a[k].upload != b[l].upload
  }

  ghost predicate UploadsDistinct(a: Ledger) {
    forall k, l | k in a && l in a && k != l :: a[k].upload != a[l].upload
  }

  /** UNIQUE (upload_id), over committed and pending reservations together. */
  ghost predicate UploadsUnique(db: Db) {
    && UploadsDistinct(db.rows)
    && (forall t | t in db.open :: UploadsDistinct(db.open[t].rows) && UploadsApart(db.rows, db.open[t].rows))
    && (forall s, t | s in db.open && t in db.open && s != t :: UploadsApart(db.open[s].rows, db.open[t].rows))
  }

  lemma DistinctJoin(a: Ledger, b: Ledger)
    requires UploadsDistinct(a) && UploadsDistinct(b) && UploadsApart(a, b)
    ensures UploadsDistinct(a + b)
  {
  }

  lemma DistinctInsert(a: Ledger, k: Slot, r: Reservation)
    requires UploadsDistinct(a) && !UsesUpload(a, r.upload)
    ensures UploadsDistinct(a[k := r])
  {
  }

  lemma ApartInsert(a: Ledger, b: Ledger, k: Slot, r: Reservation)
    requires UploadsApart(a, b) && !UsesUpload(a, r.upload)
    ensures UploadsApart(a, b[k := r]) && UploadsApart(b[k := r], a)
  {
  }

  lemma ApartJoin(a: Ledger, b: Ledger, c: Ledger)
    requires UploadsApart(a, c) && UploadsApart(b, c)
    ensures UploadsApart(a + b, c)
  {
  }

  /** All open transactions but one are untouched, and that one keeps its rows or adds this one. */
  lemma InsertKeepsUploadsUnique(db: Db, db': Db, tx: TxId, k: Slot, r: Reservation)
    requires UploadsUnique(db) && tx in db.open && db'.rows == db.rows && db'.open.Keys == db.open.Keys
    requires !UsesUpload(db.rows, r.upload) && !UsesUpload(db.open[tx].rows, r.upload)
    requires !UploadPendingElsewhere(db, tx, r.upload)
    requires forall t | t in db.open && t != tx :: db'.open[t] == db.open[t]
    requires db'.open[tx].rows == db.open[tx].rows[k := r]
    ensures UploadsUnique(db')
  {
    var mine := db.open[tx].rows;
    DistinctInsert(mine, k, r);
    ApartInsert(db.rows, mine, k, r);
    forall t | t in db.open && t != tx
      ensures UploadsApart(db'.open[tx].rows, db.open[t].rows) && UploadsApart(db.open[t].rows, db'.open[tx].rows)
    {
      assert UploadsApart(db.open[t].rows, mine);
      assert !UsesUpload(db.open[t].rows, r.upload);
      ApartInsert(db.open[t].rows, mine, k, r);
    }
    hide UploadsApart, UploadsDistinct;
  }

  lemma CommitKeepsUploadsUnique(e: Env, db: Db, tx: TxId)
    requires UploadsUnique(db) && tx in db.open
    ensures UploadsUnique(Apply(e, db, Commit(tx)).0)
  {
    var db', mine := Apply(e, db, Commit(tx)).0, db.open[tx].rows;
    DistinctJoin(db.rows, mine);
    forall t | t in db'.open ensures UploadsApart(db'.rows, db'.open[t].rows) {
      assert UploadsApart(mine, db.open[t].rows) && UploadsApart(db.rows, db.open[t].rows);
      ApartJoin(db.rows, mine, db.open[t].rows);
    }
    hide UploadsApart, UploadsDistinct;
  }

  lemma SameRowsStayUnique(db: Db, db': Db)
    requires UploadsUnique(db) && db'.rows == db.rows && db'.open.Keys <= db.open.Keys
    requires forall t | t in db'.open :: db'.open[t].rows == db.open[t].rows
    ensures UploadsUnique(db')
  {
    hide UploadsApart, UploadsDistinct;
  }

  lemma ReserveKeepsUploadsUnique(e: Env, db: Db, tx: TxId, a: Args)
    requires UploadsUnique(db) && Enabled(e, db, Reserve(tx, a))
    ensures UploadsUnique(ApplyReserve(e, db, tx, a).0)
  {
    hide UploadsUnique, Total, IsOpaqueId, Reused;
    var db' := ApplyReserve(e, db, tx, a).0;
    if tx in db'.open && db'.open[tx].rows != db.open[tx].rows {
      InsertKeepsUploadsUnique(db, db', tx, SlotOf(a), Reservation(a.upload.value, a.size.value));
    } else {
      SameRowsStayUnique(db, db');
    }
  }

  /** Because inserts wait for each other, no two reservations ever share an upload id. */
  lemma StepKeepsUploadsUnique(e: Env, db: Db, act: Action)
    requires UploadsUnique(db) && Enabled(e, db, act)
    ensures UploadsUnique(Apply(e, db, act).0)
  {
    match act {
      case Begin(tx) =>
      case Reserve(tx, a) => ReserveKeepsUploadsUnique(e, db, tx, a);
      case Commit(tx) => CommitKeepsUploadsUnique(e, db, tx);
      case Abort(tx) => SameRowsStayUnique(db, Rollback(db, tx));
    }
  }

  // ---------------------------------------------------------------- runs

  datatype Step = Step(action: Action, db: Db)

  /** A starting state and the log of an interleaving. */
  datatype Run = Run(start: Db, steps: seq<Step>)

  function After(r: Run, n: nat): Db
    requires n <= |r.steps|
  {
    if n == 0 then r.start else r.steps[n - 1].db
  }

  ghost predicate StepAt(e: Env, r: Run, i: nat)
    requires i < |r.steps|
  {
    && Enabled(e, After(r, i), r.steps[i].action)
    && r.steps[i].db == Apply(e, After(r, i), r.steps[i].action).0
  }

  ghost predicate IsRun(e: Env, r: Run) {
    forall i {:trigger StepAt(e, r, i)} | 0 <= i < |r.steps| :: StepAt(e, r, i)
  }

  ghost predicate AllBounded(limit: Workspace -> int, r: Run) {
    forall i | 0 <= i < |r.steps| :: Bounded(limit, r.steps[i].action)
  }

  lemma {:induction false} QuotaHolds(e: Env, limit: Workspace -> int, r: Run, n: nat)
    requires IsRun(e, r) && AllBounded(limit, r) && Inv(e, limit, r.start) && n <= |r.steps|
    ensures Inv(e, limit, After(r, n))
  {
    if n > 0 {
      QuotaHolds(e, limit, r, n - 1);
      assert StepAt(e, r, n - 1);
      StepKeepsQuota(e, limit, After(r, n - 1), r.steps[n - 1].action);
    }
  }

  /** The committed reservations of a Workspace never exceed its maximum. */
  lemma CommittedWithinMaximum(e: Env, limit: Workspace -> int, r: Run, n: nat, workspace: Workspace)
    requires IsRun(e, r) && AllBounded(limit, r) && n <= |r.steps|
    requires r.start.open == map[] && forall w :: Total(r.start.rows, w) <= limit(w)
    ensures Total(After(r, n).rows, workspace) <= limit(workspace)
  {
    QuotaHolds(e, limit, r, n);
  }

  /** UNIQUE (upload_id) holds after every prefix of every run, whatever maxima the calls pass. */
  lemma {:induction false} UploadIdsStayUnique(e: Env, r: Run, n: nat)
    requires IsRun(e, r) && UploadsUnique(r.start) && n <= |r.steps|
    ensures UploadsUnique(After(r, n))
  {
    if n > 0 {
      UploadIdsStayUnique(e, r, n - 1);
      assert StepAt(e, r, n - 1);
      StepKeepsUploadsUnique(e, After(r, n - 1), r.steps[n - 1].action);
    }
  }

  /** Committed reservations stay as they are. */
  lemma {:induction false} ReservationsPersist(e: Env, limit: Workspace -> int, r: Run, i: nat, j: nat, k: Slot)
    requires IsRun(e, r) && AllBounded(limit, r) && Inv(e, limit, r.start) && i <= j <= |r.steps|
    requires k in After(r, i).rows
    ensures k in After(r, j).rows && After(r, j).rows[k] == After(r, i).rows[k]
  {
    if i < j {
      ReservationsPersist(e, limit, r, i, j - 1, k);
      QuotaHolds(e, limit, r, j - 1);
      assert StepAt(e, r, j - 1);
      StepKeepsCommitted(e, limit, After(r, j - 1), r.steps[j - 1].action, k);
    }
  }

  lemma StepKeepsCommitted(e: Env, limit: Workspace -> int, db: Db, act: Action, k: Slot)
    requires Inv(e, limit, db) && Enabled(e, db, act) && k in db.rows
    ensures k in Apply(e, db, act).0.rows && Apply(e, db, act).0.rows[k] == db.rows[k]
  {
    if act.Commit? {
      assert TxOk(e, limit, db, db.open[act.tx]);
    }
  }

  /** The upload is the same, and so is the size, if the call gives one. */
  predicate SameInput(r: Reservation, a: Args) {
    a.upload == Some(r.upload) && (a.size == None || a.size == Some(r.size))
  }

  /** Once committed, an operation answers true to the same input for ever after and reserves nothing
      more; a different input raises. */
  lemma ReplayIsIdempotent(e: Env, limit: Workspace -> int, r: Run, i: nat, j: nat, tx: TxId, a: Args)
    requires IsRun(e, r) && AllBounded(limit, r) && Inv(e, limit, r.start) && i <= j <= |r.steps|
    requires !BadArguments(a) && SlotOf(a) in After(r, i).rows && tx in After(r, j).open
    ensures var (db', out) := ApplyReserve(e, After(r, j), tx, a);
      && db'.rows == After(r, j).rows
      && (!SameInput(After(r, i).rows[Slot(a.workspace.value, a.operation.value)], a) ==>
            out == Raised && tx !in db'.open)
      && (SameInput(After(r, i).rows[Slot(a.workspace.value, a.operation.value)], a) ==>
            && out == Answer(true) && db'.open.Keys == After(r, j).open.Keys
            && forall t | t in db'.open :: db'.open[t].rows == After(r, j).open[t].rows)
  {
    ReservationsPersist(e, limit, r, i, j, SlotOf(a));
    QuotaHolds(e, limit, r, j);
    assert TxOk(e, limit, After(r, j), After(r, j).open[tx]);
  }

  /** A fresh call that can insert is granted exactly when its maximum allows it or is NULL. */
  lemma GrantedIff(e: Env, db: Db, tx: TxId, a: Args)
    requires tx in db.open && !BadArguments(a) && SlotOf(a) !in Visible(db, tx) && !InsertFails(e, db, tx, a)
    ensures ApplyReserve(e, db, tx, a).1.Answer?
    ensures ApplyReserve(e, db, tx, a).1 == Answer(true) <==>
      a.maximum.None? || Total(Visible(db, tx), a.workspace.value) + a.size.value <= a.maximum.value
  {
  }

  // ---------------------------------------------------------------- the ledger object

  class QuotaLedger {
    var rows: Ledger
    var open: map<TxId, Tx>

    ghost function State(): Db
      reads this
    {
      Db(rows, open)
    }

    static method SumSizes(rows: Ledger, workspace: Workspace) returns (total: int)
      ensures total == Total(rows, workspace)
    {
      var todo := SlotsOf(rows, workspace);
      total := 0;
      while todo != {}
        invariant todo <= SlotsOf(rows, workspace)
        invariant total + Sum(todo, SizeIn(rows)) == Total(rows, workspace)
        decreases |todo|
      {
        var k :| k in todo;
        SumRemove(todo, k, SizeIn(rows));
        total := total + rows[k].size;
        todo := todo - {k};
      }
    }

    /** reserve_upload_quota, once the locks it needs are free. */
    method ReserveUploadQuota(e: Env, tx: TxId, a: Args) returns (r: Outcome)
      requires Enabled(e, State(), Reserve(tx, a))
      modifies this
      ensures (State(), r) == Apply(e, old(State()), Reserve(tx, a))
      ensures rows == old(rows)
    {
      if BadArguments(a) {
        open := open - {tx};
        return Raised;
      }
      var mine := open[tx];
      var seen := rows + mine.rows;
      var k := Slot(a.workspace.value, a.operation.value);
      var locks := mine.locks + {e.hash(a.workspace.value)};
      if k in seen {
        if seen[k].upload != a.upload.value || (a.size.Some? && seen[k].size != a.size.value) {
          open := open - {tx};
          return Raised;
        }
        open := open[tx := Tx(locks, mine.rows)];
        return Answer(true);
      }
      var current := SumSizes(seen, a.workspace.value);
      if a.size.Some? && a.maximum.Some? && current + a.size.value > a.maximum.value {
        open := open[tx := Tx(locks, mine.rows)];
        return Answer(false);
      }
      if a.size.None? || a.workspace.value !in e.workspaces
         || UsesUpload(rows, a.upload.value) || UsesUpload(mine.rows, a.upload.value)
      {
        open := open - {tx};
        return Raised;
      }
      open := open[tx := Tx(locks, mine.rows[k := Reservation(a.upload.value, a.size.value)])];
      return Answer(true);
    }

    method CommitTransaction(e: Env, tx: TxId)
      requires tx in open
      modifies this
      ensures State() == Apply(e, old(State()), Commit(tx)).0
      ensures rows == old(rows) + old(open)[tx].rows && open == old(open) - {tx}
    {
      rows, open := rows + open[tx].rows, open - {tx};
    }
  }
}
