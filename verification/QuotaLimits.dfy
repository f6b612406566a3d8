/** When a call of reserve_upload_quota keeps a Workspace within a limit, and how far calls without
    a maximum can take it. */
module QuotaLimits {
  import opened Basics
  import opened Sums
  import opened UploadQuota

  /** The limit is a bigint, as the column and the argument are. */
  const BIGINT: int := 0x8000_0000_0000_0000

  // ---------------------------------------------------------------- as many names as needed

  function Pow2(k: nat): nat { if k == 0 then 1 else 2 * Pow2(k - 1) }

  /** k letters that spell n in binary. */
  function Binary(n: nat, k: nat): (s: string)
    ensures |s| == k && forall i | 0 <= i < k :: s[i] in "ab"
  {
    if k == 0 then "" else Binary(n / 2, k - 1) + (if n % 2 == 0 then "a" else "b")
  }

  lemma {:induction false} BinaryDiffer(m: nat, n: nat, k: nat)
    requires m < Pow2(k) && n < Pow2(k) && Binary(m, k) == Binary(n, k)
    ensures m == n
  {
    if k > 0 {
      var s, t := Binary(m, k), Binary(n, k);
      assert s[..k - 1] == Binary(m / 2, k - 1) && t[..k - 1] == Binary(n / 2, k - 1);
      assert s[k - 1] == t[k - 1];
      BinaryDiffer(m / 2, n / 2, k - 1);
    }
  }

  /** What the names of filler reservations begin with. */
  datatype Tags = Tags(operation: string, upload: string)

  predicate IsTag(tag: string) { tag in {"a", "ab"} }

  predicate TagsOk(tags: Tags) { IsTag(tags.operation) && IsTag(tags.upload) }

  function SlotAt(workspace: Workspace, tags: Tags, i: nat): Slot {
    Slot(workspace, tags.operation + Binary(i, 64))
  }

  function UploadAt(tags: Tags, i: nat): string {
    tags.upload + Binary(i, 64)
  }

  lemma NamesAreValid(tags: Tags, i: nat, workspace: Workspace)
    requires TagsOk(tags)
    ensures IsOpaqueId(UploadAt(tags, i))
    ensures var operation := SlotAt(workspace, tags, i).operation; 65 <= |operation| <= 66 && Trimmed(operation)
  {
    var upload, operation := UploadAt(tags, i), SlotAt(workspace, tags, i).operation;
    forall j | 0 <= j < |upload| ensures Lower(upload[j]) {
      assert upload[j] in "ab" by {
        if j >= |tags.upload| {
          assert upload[j] == Binary(i, 64)[j - |tags.upload|];
        } else {
          assert upload[j] == tags.upload[j];
        }
      }
    }
    assert operation[0] == tags.operation[0] && operation[|operation| - 1] == Binary(i, 64)[63];
  }

  lemma SameName(tags: Tags, i: nat, j: nat, workspace: Workspace)
    requires i < Pow2(64) && j < Pow2(64)
    requires SlotAt(workspace, tags, i) == SlotAt(workspace, tags, j) || UploadAt(tags, i) == UploadAt(tags, j)
    ensures i == j
  {
    if SlotAt(workspace, tags, i) == SlotAt(workspace, tags, j) {
      SameTail(tags.operation, Binary(i, 64), Binary(j, 64));
    }
    if UploadAt(tags, i) == UploadAt(tags, j) {
      SameTail(tags.upload, Binary(i, 64), Binary(j, 64));
    }
    BinaryDiffer(i, j, 64);
  }

  // ---------------------------------------------------------------- ledgers of any total

  /** n reservations of the largest size. */
  function Full(workspace: Workspace, tags: Tags, n: nat): Ledger {
    if n == 0 then map[]
    else Full(workspace, tags, n - 1)[SlotAt(workspace, tags, n - 1) := Reservation(UploadAt(tags, n - 1), MAX_SIZE)]
  }

  lemma {:induction false} FullRows(workspace: Workspace, tags: Tags, n: nat, k: Slot) returns (i: nat)
    requires k in Full(workspace, tags, n)
    ensures i < n && k == SlotAt(workspace, tags, i)
    ensures Full(workspace, tags, n)[k] == Reservation(UploadAt(tags, i), MAX_SIZE)
  {
    i := n - 1;
    if k != SlotAt(workspace, tags, n - 1) {
      i := FullRows(workspace, tags, n - 1, k);
    }
  }

  lemma FreshInFull(workspace: Workspace, tags: Tags, n: nat, i: nat)
    requires n <= i < Pow2(64)
    ensures SlotAt(workspace, tags, i) !in Full(workspace, tags, n)
    ensures !UsesUpload(Full(workspace, tags, n), UploadAt(tags, i))
  {
    forall k | k in Full(workspace, tags, n)
      ensures k != SlotAt(workspace, tags, i) && Full(workspace, tags, n)[k].upload != UploadAt(tags, i)
    {
      var j := FullRows(workspace, tags, n, k);
      if k == SlotAt(workspace, tags, i) || UploadAt(tags, j) == UploadAt(tags, i) {
        SameName(tags, j, i, workspace);
      }
    }
  }

  lemma EmptyTotal(workspace: Workspace)
    ensures Total(map[], workspace) == 0
  {
    assert SlotsOf(map[], workspace) == {};
  }

  lemma {:induction false} FullTotal(workspace: Workspace, tags: Tags, n: nat)
    requires n <= Pow2(64)
    ensures Total(Full(workspace, tags, n), workspace) == n * MAX_SIZE
  {
    hide UploadAt, Total, UsesUpload, Binary;
    if n == 0 {
      EmptyTotal(workspace);
    } else {
      FullTotal(workspace, tags, n - 1);
      FreshInFull(workspace, tags, n - 1, n - 1);
      TotalInsert(Full(workspace, tags, n - 1), SlotAt(workspace, tags, n - 1),
                  Reservation(UploadAt(tags, n - 1), MAX_SIZE), workspace);
    }
  }

  /** Reservations that add up to `total`. */
  function WithTotal(workspace: Workspace, tags: Tags, total: nat): Ledger {
    var n, rest := total / MAX_SIZE, total % MAX_SIZE;
    if rest == 0 then Full(workspace, tags, n)
    else Full(workspace, tags, n)[SlotAt(workspace, tags, n) := Reservation(UploadAt(tags, n), rest)]
  }

  lemma Pow2Plus4(k: nat)
    ensures Pow2(k + 4) == 16 * Pow2(k)
  {
    assert Pow2(k + 4) == 2 * Pow2(k + 3) && Pow2(k + 3) == 2 * Pow2(k + 2);
    assert Pow2(k + 2) == 2 * Pow2(k + 1) && Pow2(k + 1) == 2 * Pow2(k);
  }

  lemma Pow2Plus16(k: nat)
    ensures Pow2(k + 16) == 0x1_0000 * Pow2(k)
  {
    Pow2Plus4(k);
    Pow2Plus4(k + 4);
    Pow2Plus4(k + 8);
    Pow2Plus4(k + 12);
  }

  lemma Pow2Of64()
    ensures Pow2(64) == 2 * BIGINT
  {
    Pow2Plus16(0);
    Pow2Plus16(16);
    Pow2Plus16(32);
    Pow2Plus16(48);
  }

  lemma WithTotalSum(workspace: Workspace, tags: Tags, total: nat)
    requires total < BIGINT
    ensures Total(WithTotal(workspace, tags, total), workspace) == total
  {
    Pow2Of64();
    var n, rest := total / MAX_SIZE, total % MAX_SIZE;
    FullTotal(workspace, tags, n);
    if rest != 0 {
      FreshInFull(workspace, tags, n, n);
      TotalInsert(Full(workspace, tags, n), SlotAt(workspace, tags, n), Reservation(UploadAt(tags, n), rest),
                  workspace);
    }
  }

  lemma WithTotalRows(workspace: Workspace, tags: Tags, total: nat, k: Slot) returns (i: nat)
    requires k in WithTotal(workspace, tags, total)
    ensures i <= total / MAX_SIZE && k == SlotAt(workspace, tags, i)
    ensures WithTotal(workspace, tags, total)[k].upload == UploadAt(tags, i)
    ensures 1 <= WithTotal(workspace, tags, total)[k].size <= MAX_SIZE
  {
    i := total / MAX_SIZE;
    if total % MAX_SIZE == 0 || k != SlotAt(workspace, tags, i) {
      i := FullRows(workspace, tags, i, k);
    }
  }

  // ---------------------------------------------------------------- one call

  /** CHECK knowledge_upload_quota_values, the foreign key and UNIQUE (upload_id). */
  ghost predicate Stored(e: Env, rows: Ledger) {
    && UploadsDistinct(rows)
    && forall k | k in rows ::
         && k.workspace in e.workspaces
         && 1 <= |k.operation| <= 160 && Trimmed(k.operation)
         && IsOpaqueId(rows[k].upload) && 1 <= rows[k].size <= MAX_SIZE
  }

  /** A fresh call that this state, within the limit, grants leaves the Workspace within the limit. */
  ghost predicate StaysWithin(e: Env, db: Db, tx: TxId, a: Args, limit: int)
    requires !BadArguments(a)
  {
    var w := a.workspace.value;
    (&& tx in db.open && Stored(e, Visible(db, tx)) && Enabled(e, db, Reserve(tx, a))
     && SlotOf(a) !in Visible(db, tx) && Total(Visible(db, tx), w) <= limit
     && ApplyReserve(e, db, tx, a).1 == Answer(true)) ==>
      var db' := ApplyReserve(e, db, tx, a).0;
      tx in db'.open && Total(Visible(db', tx), w) <= limit
  }

  lemma WithTotalIsStored(e: Env, workspace: Workspace, tags: Tags, total: nat)
    requires workspace in e.workspaces && TagsOk(tags) && total < BIGINT
    ensures Stored(e, WithTotal(workspace, tags, total))
  {
    var rows := WithTotal(workspace, tags, total);
    Pow2Of64();
    forall k | k in rows
      ensures k.workspace == workspace && 1 <= |k.operation| <= 160 && Trimmed(k.operation)
      ensures IsOpaqueId(rows[k].upload) && 1 <= rows[k].size <= MAX_SIZE
    {
      var i := WithTotalRows(workspace, tags, total, k);
      NamesAreValid(tags, i, workspace);
    }
    forall k, l | k in rows && l in rows && k != l ensures rows[k].upload != rows[l].upload {
      var i := WithTotalRows(workspace, tags, total, k);
      var j := WithTotalRows(workspace, tags, total, l);
      if UploadAt(tags, i) == UploadAt(tags, j) {
        SameName(tags, i, j, workspace);
      }
    }
  }

  /** Tags under which no name has the length of these. */
  function TagsBeside(operation: string, upload: string): (tags: Tags)
    ensures TagsOk(tags)
  {
    Tags(if |operation| == 65 then "ab" else "a", if |upload| == 65 then "ab" else "a")
  }

  lemma BesideWithTotal(workspace: Workspace, operation: string, upload: string, total: nat)
    ensures var rows := WithTotal(workspace, TagsBeside(operation, upload), total);
      Slot(workspace, operation) !in rows && !UsesUpload(rows, upload)
  {
    var tags := TagsBeside(operation, upload);
    var rows := WithTotal(workspace, tags, total);
    forall k | k in rows ensures k != Slot(workspace, operation) && rows[k].upload != upload {
      var i := WithTotalRows(workspace, tags, total, k);
      assert |k.operation| != |operation| && |rows[k].upload| != |upload|;
    }
  }

  /** A Workspace that holds as much as the limit allows, or just too much for this call. */
  function Brim(a: Args, limit: int): Db
    requires !BadArguments(a) && a.size.Some?
  {
    var total := if limit - a.size.value + 1 > 0 then limit - a.size.value + 1 else 0;
    Db(WithTotal(a.workspace.value, TagsBeside(a.operation.value, a.upload.value), total), map[0 := Tx({}, map[])])
  }

  lemma BrimOverflows(e: Env, a: Args, limit: int)
    requires !BadArguments(a) && a.size.Some? && a.workspace.value in e.workspaces && 0 <= limit < BIGINT
    requires a.maximum.None? || a.maximum.value > limit
    ensures !StaysWithin(e, Brim(a, limit), 0, a, limit)
  {
    hide Total, IsOpaqueId, Trimmed, WithTotal, TagsBeside, Stored;
    var w, db := a.workspace.value, Brim(a, limit);
    var tags := TagsBeside(a.operation.value, a.upload.value);
    var total := if limit - a.size.value + 1 > 0 then limit - a.size.value + 1 else 0;
    WithTotalSum(w, tags, total);
    WithTotalIsStored(e, w, tags, total);
    BesideWithTotal(w, a.operation.value, a.upload.value, total);
    assert Visible(db, 0) == db.rows;
    assert !Exceeds(db, 0, a) && !InsertFails(e, db, 0, a);
    GrantedIff(e, db, 0, a);
    FreshGrantAddsSize(e, db, 0, a, ApplyReserve(e, db, 0, a).0);
  }

  /** Exactly which calls respect a limit: a fresh call keeps a Workspace within it, in every state that
      is within it and grants the call, if and only if it passes a maximum no greater than the limit. */
  lemma WithinLimitIff(e: Env, a: Args, limit: int)
    requires !BadArguments(a) && a.size.Some? && a.workspace.value in e.workspaces && 0 <= limit < BIGINT
    ensures (forall db: Db, tx: TxId :: StaysWithin(e, db, tx, a, limit))
       <==> a.maximum.Some? && a.maximum.value <= limit
  {
    if a.maximum.Some? && a.maximum.value <= limit {
      forall db: Db, tx: TxId ensures StaysWithin(e, db, tx, a, limit) {
        if tx in db.open && SlotOf(a) !in Visible(db, tx) && ApplyReserve(e, db, tx, a).1 == Answer(true) {
          FreshGrantAddsSize(e, db, tx, a, ApplyReserve(e, db, tx, a).0);
        }
      }
    } else {
      BrimOverflows(e, a, limit);
    }
  }

  // ---------------------------------------------------------------- calls without a maximum

  const TAGS: Tags := Tags("a", "a")

  /** The i-th call: the largest size, a new operation, no maximum. */
  function NullCall(workspace: Workspace, i: nat): Args {
    Args(Some(workspace), Some(UploadAt(TAGS, i)), Some(SlotAt(workspace, TAGS, i).operation), Some(MAX_SIZE), None)
  }

  /** One open transaction after i such calls. */
  function NullState(e: Env, workspace: Workspace, i: nat): Db {
    Db(map[], map[0 := Tx(if i == 0 then {} else {e.hash(workspace)}, Full(workspace, TAGS, i))])
  }

  lemma NullCallIsValid(workspace: Workspace, i: nat)
    requires workspace != ""
    ensures !BadArguments(NullCall(workspace, i)) && SlotOf(NullCall(workspace, i)) == SlotAt(workspace, TAGS, i)
  {
    NamesAreValid(TAGS, i, workspace);
    hide IsOpaqueId, Trimmed, Binary;
  }

  /** A transaction on its own: with nothing to wait for, a fresh call without a maximum is granted. */
  lemma AloneIsGranted(e: Env, t: Tx, a: Args)
    requires !BadArguments(a) && a.size.Some? && a.maximum.None? && a.workspace.value in e.workspaces
    requires SlotOf(a) !in t.rows && !UsesUpload(t.rows, a.upload.value)
    ensures var db := Db(map[], map[0 := t]);
      && Enabled(e, db, Reserve(0, a))
      && ApplyReserve(e, db, 0, a)
         == (Db(map[], map[0 := Tx(t.locks + {e.hash(a.workspace.value)},
                                   t.rows[SlotOf(a) := Reservation(a.upload.value, a.size.value)])]), Answer(true))
  {
    hide IsOpaqueId, Trimmed, Total;
    var db := Db(map[], map[0 := t]);
    assert Visible(db, 0) == t.rows;
    var locked := Tx(t.locks + {e.hash(a.workspace.value)},
                     t.rows[SlotOf(a) := Reservation(a.upload.value, a.size.value)]);
    assert db.open[0 := locked] == map[0 := locked];
  }

  lemma NullCallIsGranted(e: Env, workspace: Workspace, i: nat)
    requires workspace in e.workspaces && workspace != "" && i < BIGINT
    ensures !BadArguments(NullCall(workspace, i))
    ensures Enabled(e, NullState(e, workspace, i), Reserve(0, NullCall(workspace, i)))
    ensures ApplyReserve(e, NullState(e, workspace, i), 0, NullCall(workspace, i))
         == (NullState(e, workspace, i + 1), Answer(true))
  {
    Pow2Of64();
    NullCallIsValid(workspace, i);
    FreshInFull(workspace, TAGS, i, i);
    hide BadArguments, ApplyReserve, Enabled, UsesUpload, SlotOf, SlotAt, UploadAt, Pow2;
    var t := NullState(e, workspace, i).open[0];
    AloneIsGranted(e, t, NullCall(workspace, i));
    assert NullState(e, workspace, i) == Db(map[], map[0 := t]);
    assert t.locks + {e.hash(workspace)} == {e.hash(workspace)};
  }

  /** Begin, n calls, and a commit. */
  function NullRun(e: Env, workspace: Workspace, n: nat): Run {
    Run(Db(map[], map[]), seq(n + 2, i requires 0 <= i < n + 2 =>
      if i == 0 then Step(Begin(0), NullState(e, workspace, 0))
      else if i <= n then Step(Reserve(0, NullCall(workspace, i - 1)), NullState(e, workspace, i))
      else Step(Commit(0), Db(Full(workspace, TAGS, n), map[]))))
  }

  lemma NullRunIsRun(e: Env, workspace: Workspace, n: nat)
    requires workspace in e.workspaces && workspace != "" && n < BIGINT
    ensures IsRun(e, NullRun(e, workspace, n))
  {
    hide IsRun;
    var r := NullRun(e, workspace, n);
    forall i | 0 <= i < |r.steps| ensures StepAt(e, r, i) {
      NullStepAt(e, workspace, n, i);
    }
    LoggedRun(e, r);
  }

  lemma LoggedRun(e: Env, r: Run)
    requires forall i {:trigger StepAt(e, r, i)} | 0 <= i < |r.steps| :: StepAt(e, r, i)
    ensures IsRun(e, r)
  {
  }

  lemma NullStepAt(e: Env, workspace: Workspace, n: nat, i: nat)
    requires workspace in e.workspaces && workspace != "" && n < BIGINT && i < n + 2
    ensures StepAt(e, NullRun(e, workspace, n), i)
  {
    if i == 0 {
      NullBegins(e, workspace, n);
    } else if i <= n {
      NullReserves(e, workspace, n, i);
    } else {
      NullCommits(e, workspace, n);
    }
  }

  lemma NullBegins(e: Env, workspace: Workspace, n: nat)
    ensures StepAt(e, NullRun(e, workspace, n), 0)
  {
    hide NullCall, ApplyReserve;
  }

  lemma NullRunAt(e: Env, workspace: Workspace, n: nat, i: nat)
    requires 1 <= i <= n
    ensures |NullRun(e, workspace, n).steps| == n + 2
    ensures After(NullRun(e, workspace, n), i) == NullState(e, workspace, i - 1)
    ensures NullRun(e, workspace, n).steps[i]
         == Step(Reserve(0, NullCall(workspace, i - 1)), NullState(e, workspace, i))
  {
    hide NullState, NullCall;
  }

  lemma NullReserves(e: Env, workspace: Workspace, n: nat, i: nat)
    requires workspace in e.workspaces && workspace != "" && 1 <= i <= n < BIGINT
    ensures StepAt(e, NullRun(e, workspace, n), i)
  {
    hide NullRun, NullState, Enabled, ApplyReserve, NullCall, BadArguments, After;
    NullRunAt(e, workspace, n, i);
    NullCallIsGranted(e, workspace, i - 1);
  }

  lemma NullCommits(e: Env, workspace: Workspace, n: nat)
    ensures StepAt(e, NullRun(e, workspace, n), n + 1)
  {
    hide ApplyReserve, Full, NullCall;
    var r := NullRun(e, workspace, n);
    assert After(r, n + 1) == NullState(e, workspace, n);
    CommitAlone(e, NullState(e, workspace, n).open[0]);
  }

  lemma CommitAlone(e: Env, t: Tx)
    ensures Apply(e, Db(map[], map[0 := t]), Commit(0)).0 == Db(t.rows, map[])
  {
    assert map[] + t.rows == t.rows;
    assert map[0 := t] - {0} == map[];
  }

  /** A NULL maximum lifts the quota altogether: for every limit there is a run from the empty ledger,
      whose calls all pass no maximum, that commits more than the limit. */
  lemma NullMaximumLiftsQuota(e: Env, workspace: Workspace, limit: int) returns (r: Run)
    requires workspace in e.workspaces && workspace != "" && limit < BIGINT
    ensures IsRun(e, r) && r.start == Db(map[], map[])
    ensures forall i | 0 <= i < |r.steps| && r.steps[i].action.Reserve? ::
      r.steps[i].action.args.maximum.None? && !BadArguments(r.steps[i].action.args)
    ensures Total(After(r, |r.steps|).rows, workspace) > limit
  {
    hide IsRun, BadArguments, Full, Total, Pow2;
    var n: nat := if limit < 0 then 1 else limit / MAX_SIZE + 1;
    r := NullRun(e, workspace, n);
    NullRunIsRun(e, workspace, n);
    Pow2Of64();
    FullTotal(workspace, TAGS, n);
    forall i | 0 <= i < |r.steps| && r.steps[i].action.Reserve?
      ensures r.steps[i].action.args.maximum.None? && !BadArguments(r.steps[i].action.args)
    {
      NullCallIsValid(workspace, i - 1);
    }
  }
}
