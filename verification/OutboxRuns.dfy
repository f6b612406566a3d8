/** Safety of the lease protocol over whole runs.

    A run is any interleaving of inserts and calls, starting from an empty table.
    What a run promises about an event is stated from the run's own history: who
    claimed it last, and which later calls succeeded. */
module OutboxRuns {
  import opened Basics
  import opened RowOrder
  import opened Outbox
  import opened Sums

  /** One entry of the log: the call, its statement time, what its caller saw, the table it left. */
  datatype Step = Step(call: Call, at: Time, outcome: Outcome, table: Table)

  type Run = seq<Step>

  /** The table after the first n steps. */
  function After(run: Run, n: nat): Table
    requires n <= |run|
  {
    if n == 0 then map[] else run[n - 1].table
  }

  /** Step i is what the called function does to the table it finds. */
  ghost predicate StepAt(run: Run, i: nat)
    requires i < |run|
  {
    (run[i].table, run[i].outcome) == Apply(After(run, i), run[i].call, run[i].at)
  }

  ghost predicate IsRun(run: Run) {
    forall i {:trigger StepAt(run, i)} | 0 <= i < |run| :: StepAt(run, i)
  }

  /** The database clock never goes back. */
  ghost predicate Clocked(run: Run) {
    forall i, j | 0 <= i <= j < |run| :: run[i].at <= run[j].at
  }

  /** Every claim and retry passes the same maximum. */
  ghost predicate FixedMaximum(run: Run, maximum: int) {
    1 <= maximum && forall i | 0 <= i < |run| :: PassesMaximum(run[i].call, maximum)
  }

  predicate PassesMaximum(c: Call, maximum: int) {
    (c.Claim? ==> c.maximum == Some(maximum)) && (c.Retry? ==> c.maximum == Some(maximum))
  }

  // ---------------------------------------------------------------- events of the history

  predicate ClaimsEvent(c: Call, o: Outcome, e: EventId) {
    c.Claim? && o.Claimed? && e in o.ids
  }

  predicate RenewsEvent(c: Call, o: Outcome, e: EventId) {
    c.Renew? && c.event == Some(e) && o == Found(true)
  }

  predicate CompletesEvent(c: Call, o: Outcome, e: EventId) {
    c.Complete? && c.event == Some(e) && o == Found(true)
  }

  predicate RetriesEvent(c: Call, o: Outcome, e: EventId) {
    c.Retry? && c.event == Some(e) && o == Found(true)
  }

  predicate Untouched(c: Call, o: Outcome, e: EventId) {
    !ClaimsEvent(c, o, e) && !RenewsEvent(c, o, e) && !CompletesEvent(c, o, e) && !RetriesEvent(c, o, e)
  }

  /** The token of the most recent claim of e, unless that claim was completed or retried since. */
  ghost function Holder(run: Run, n: nat, e: EventId): Option<string>
    requires n <= |run|
  {
    if n == 0 then None
    else
      var c, o := run[n - 1].call, run[n - 1].outcome;
      if ClaimsEvent(c, o, e) then c.token
      else if CompletesEvent(c, o, e) || RetriesEvent(c, o, e) then None
      else Holder(run, n - 1, e)
  }

  datatype Kind = ClaimStep | ReclaimStep | RetryStep | CompleteStep

  /** Step i of the run is a successful one of the given kind on e.
      A reclaim is a claim that takes e away from a holder whose lease expired. */
  ghost predicate Happens(run: Run, i: nat, e: EventId, kind: Kind)
    requires i < |run|
  {
    var c, o := run[i].call, run[i].outcome;
    match kind
    case ClaimStep => ClaimsEvent(c, o, e)
    case ReclaimStep => ClaimsEvent(c, o, e) && Holder(run, i, e).Some?
    case RetryStep => RetriesEvent(c, o, e)
    case CompleteStep => CompletesEvent(c, o, e)
  }

  ghost function Count(run: Run, n: nat, e: EventId, kind: Kind): nat
    requires n <= |run|
  {
    if n == 0 then 0 else Count(run, n - 1, e, kind) + if Happens(run, n - 1, e, kind) then 1 else 0
  }

  // ---------------------------------------------------------------- one step, one event

  /** The time asked for, but not before the call and at most a day after it. */
  function RetryTime(c: Call, at: Time): Time
    requires c.Retry? && c.retryAt.Some?
  {
    Max(at, Min(c.retryAt.value, at + 86_400_000_000))
  }

  /** The only ways in which one step can change the row of one event. */
  ghost predicate ChangesEvent(t: Table, c: Call, at: Time, t': Table, o: Outcome, e: EventId) {
    && (e in t ==> e in t')
    && (e !in t && e in t' ==>
          && c.Insert? && c.id == e && t'[e].status.Pending? && t'[e].attempts == 0
          && t'[e].nextAttemptAt == c.nextAttemptAt)
    && (e !in t ==> Untouched(c, o, e))
    && (ClaimsEvent(c, o, e) ==>
          && c.now.Some? && c.leaseSeconds.Some? && c.leaseSeconds.value >= 5 && c.token.Some? && e !in c.locked
          && Eligible(t[e], EffectiveNow(c.now.value, at), c.maximum, c.types)
          && t'[e] == t[e].(status := Processing, attempts := t[e].attempts + 1, token := c.token,
                            leaseExpiresAt := Some(at + c.leaseSeconds.value * SECOND), updatedAt := at))
    && (RenewsEvent(c, o, e) ==>
          && c.leaseSeconds.Some? && c.token.Some? && Holds(t, e, c.token.value)
          && t'[e] == t[e].(leaseExpiresAt := Some(at + c.leaseSeconds.value * SECOND), updatedAt := at))
    && (CompletesEvent(c, o, e) ==>
          && c.token.Some? && Holds(t, e, c.token.value)
          && t'[e].status.Published? && t'[e].attempts == t[e].attempts)
    && (RetriesEvent(c, o, e) ==>
          && c.token.Some? && Holds(t, e, c.token.value) && c.retryAt.Some?
          && t'[e].attempts == t[e].attempts && t'[e].nextAttemptAt == RetryTime(c, at)
          && t'[e].status == if c.maximum.Some? && t[e].attempts >= c.maximum.value then Failed else Pending)
    && (e in t && Untouched(c, o, e) ==> t'[e] == t[e])
  }

  lemma LeaseOnEvent(t: Table, c: Call, at: Time, t': Table, ids: seq<EventId>, e: EventId)
    requires c.Claim? && !ClaimRaises(c) && t'.Keys == t.Keys
    requires e in t && e !in ids ==> t'[e] == t[e]
    requires e in ids ==>
      && e in Candidates(t, c, at) && c.leaseSeconds.Some?
      && t'[e] == t[e].(status := Processing, attempts := t[e].attempts + 1, token := c.token,
                        leaseExpiresAt := Some(at + c.leaseSeconds.value * SECOND), updatedAt := at)
    ensures ChangesEvent(t, c, at, t', Claimed(ids), e)
  {
  }

  lemma ClaimOnEvent(t: Table, c: Call, at: Time, t': Table, o: Outcome, e: EventId)
    requires c.Claim? && (t', o) == ApplyClaim(t, c, at)
    ensures ChangesEvent(t, c, at, t', o, e)
  {
    if o.Claimed? {
      ClaimEffect(t, c, at, t', o.ids);
      assert e in o.ids ==> e in Elements(o.ids);
      LeaseOnEvent(t, c, at, t', o.ids, e);
    }
  }

  lemma StepOnEvent(t: Table, c: Call, at: Time, t': Table, o: Outcome, e: EventId)
    requires (t', o) == Apply(t, c, at)
    ensures ChangesEvent(t, c, at, t', o, e)
  {
    if c.Claim? {
      ClaimOnEvent(t, c, at, t', o, e);
    }
  }

  lemma LogStep(run: Run, i: nat, e: EventId)
    requires IsRun(run) && i < |run|
    ensures ChangesEvent(After(run, i), run[i].call, run[i].at, After(run, i + 1), run[i].outcome, e)
  {
    assert StepAt(run, i);
    StepOnEvent(After(run, i), run[i].call, run[i].at, run[i].table, run[i].outcome, e);
  }

  lemma {:induction false} AlwaysValid(run: Run, n: nat)
    requires IsRun(run) && n <= |run|
    ensures TableOk(After(run, n))
  {
    if n > 0 {
      AlwaysValid(run, n - 1);
      assert StepAt(run, n - 1);
      StepKeepsConstraints(After(run, n - 1), run[n - 1].call, run[n - 1].at);
    }
  }

  // ---------------------------------------------------------------- fencing

  /** An event is processing exactly while the history gives it a holder, under that holder's token. */
  lemma {:induction false} HolderMatchesRow(run: Run, n: nat, e: EventId)
    requires IsRun(run) && n <= |run|
    ensures Holder(run, n, e).Some? <==> e in After(run, n) && After(run, n)[e].status.Processing?
    ensures Holder(run, n, e).Some? ==> After(run, n)[e].token == Holder(run, n, e)
  {
    if n > 0 {
      HolderMatchesRow(run, n - 1, e);
      LogStep(run, n - 1, e);
    }
  }

  /** The call is a renew, complete or retry of e under token, with well-formed arguments. */
  predicate HolderCall(c: Call, e: EventId, token: string) {
    && (c.Renew? || c.Complete? || c.Retry?)
    && c.event == Some(e) && c.token == Some(token) && IsHex(token, 64)
    && match c
       case Renew(_, _, now, seconds) => now.Some? && seconds.Some? && 5 <= seconds.value <= 900
       case Complete(_, _, completedAt) => completedAt.Some?
       case Retry(_, _, error, retryAt, maximum) =>
         error.Some? && IsName(error.value, 2, 100) && retryAt.Some? && !NotBetween(maximum, 1, 100)
       case _ => false
  }

  /** Renew, complete and retry succeed exactly for the most recent claimant, expired or not;
      every other such call leaves the whole table as it was. */
  lemma Fencing(run: Run, i: nat, e: EventId, token: string)
    requires IsRun(run) && i < |run| && HolderCall(run[i].call, e, token)
    ensures run[i].outcome == Found(Holder(run, i, e) == Some(token))
    ensures Holder(run, i, e) != Some(token) ==> After(run, i + 1) == After(run, i)
    ensures After(run, i + 1).Keys == After(run, i).Keys
    ensures forall x | x in After(run, i) && x != e :: After(run, i + 1)[x] == After(run, i)[x]
  {
    HolderMatchesRow(run, i, e);
    assert StepAt(run, i);
  }

  /** A call that raises or finds nothing changes nothing, whatever its arguments. */
  lemma UnsuccessfulIsInert(run: Run, i: nat)
    requires IsRun(run) && i < |run|
    requires run[i].outcome in {Raised, Found(false), Claimed([])}
    ensures After(run, i + 1) == After(run, i)
  {
    assert StepAt(run, i);
    var t, c := After(run, i), run[i].call;
    if c.Claim? && run[i].outcome.Claimed? {
      ClaimEffect(t, c, run[i].at, run[i].table, []);
    }
  }

  /** Published and failed are final: no later step touches such a row. */
  lemma {:induction false} TerminalIsAbsorbing(run: Run, i: nat, j: nat, e: EventId)
    requires IsRun(run) && i <= j <= |run|
    requires e in After(run, i) && After(run, i)[e].status in {Published, Failed}
    ensures e in After(run, j) && After(run, j)[e] == After(run, i)[e]
  {
    if i < j {
      TerminalIsAbsorbing(run, i, j - 1, e);
      LogStep(run, j - 1, e);
    }
  }

  /** No event is completed twice. */
  lemma AtMostOneComplete(run: Run, i: nat, j: nat, e: EventId)
    requires IsRun(run) && i < j < |run|
    requires CompletesEvent(run[i].call, run[i].outcome, e)
    ensures !CompletesEvent(run[j].call, run[j].outcome, e)
  {
    LogStep(run, i, e);
    TerminalIsAbsorbing(run, i + 1, j, e);
    LogStep(run, j, e);
  }

  // ---------------------------------------------------------------- lease exclusion

  /** Step i leases e until `until`, under `token`. */
  ghost predicate Grants(run: Run, i: nat, e: EventId, token: string, until: Time)
    requires i < |run|
  {
    var c := run[i].call;
    && (ClaimsEvent(c, run[i].outcome, e) || RenewsEvent(c, run[i].outcome, e))
    && c.token == Some(token)
    && c.leaseSeconds.Some?
    && until == run[i].at + c.leaseSeconds.value * SECOND
  }

  /** Step k ends or moves the lease held under `token`. */
  ghost predicate EndsLease(run: Run, k: nat, e: EventId, token: string)
    requires k < |run|
  {
    var c, o := run[k].call, run[k].outcome;
    (RenewsEvent(c, o, e) || CompletesEvent(c, o, e) || RetriesEvent(c, o, e)) && c.token == Some(token)
  }

  /** Until someone claims e or its holder acts, the granted lease stays in the row. */
  lemma {:induction false} LeaseStays(run: Run, i: nat, j: nat, e: EventId, token: string, until: Time)
    requires IsRun(run) && i < j <= |run|
    requires Grants(run, i, e, token, until)
    requires forall k | i < k < j :: !EndsLease(run, k, e, token) && !ClaimsEvent(run[k].call, run[k].outcome, e)
    ensures e in After(run, j) && Holds(After(run, j), e, token) && After(run, j)[e].leaseExpiresAt == Some(until)
  {
    LogStep(run, j - 1, e);
    if j > i + 1 {
      LeaseStays(run, i, j - 1, e, token, until);
    }
  }

  /** A granted lease excludes every other claim of the event until it runs out in database time,
      whatever clock the claimants pass, unless its own holder completed, retried or renewed it. */
  lemma {:induction false} LeaseExclusion(run: Run, i: nat, j: nat, e: EventId, token: string, until: Time)
    requires IsRun(run) && Clocked(run) && i < j < |run|
    requires Grants(run, i, e, token, until)
    requires ClaimsEvent(run[j].call, run[j].outcome, e)
    ensures run[j].at >= until || exists k | i < k < j :: EndsLease(run, k, e, token)
    decreases j
  {
    if k :| i < k < j && ClaimsEvent(run[k].call, run[k].outcome, e) {
      LeaseExclusion(run, i, k, e, token, until);
    } else if forall k | i < k < j :: !EndsLease(run, k, e, token) {
      LeaseStays(run, i, j, e, token, until);
      LogStep(run, j, e);
    }
  }

  // ---------------------------------------------------------------- due times

  /** Step i puts e off until `due`: it inserts e with that time, or is a retry that asks for it. */
  ghost predicate Schedules(run: Run, i: nat, e: EventId, due: Time)
    requires i < |run|
  {
    var c, o, at := run[i].call, run[i].outcome, run[i].at;
    || (c.Insert? && o == Inserted && c.id == e && due == c.nextAttemptAt)
    || (RetriesEvent(c, o, e) && c.retryAt.Some? && due == RetryTime(c, at))
  }

  /** Until someone claims e, it stays put off, and nobody holds it. */
  lemma {:induction false} DueStays(run: Run, i: nat, j: nat, e: EventId, due: Time)
    requires IsRun(run) && i < j <= |run| && Schedules(run, i, e, due)
    requires forall k | i < k < j :: !ClaimsEvent(run[k].call, run[k].outcome, e)
    ensures e in After(run, j) && !After(run, j)[e].status.Processing? && After(run, j)[e].nextAttemptAt == due
  {
    LogStep(run, j - 1, e);
    if j > i + 1 {
      DueStays(run, i, j - 1, e, due);
    } else {
      assert StepAt(run, i);
    }
  }

  /** An event that was put off is not claimed early, in database time nor by the clock of the first
      claimant, however many others claim it first. */
  lemma {:induction false} NotClaimedEarly(run: Run, i: nat, j: nat, e: EventId, due: Time)
    requires IsRun(run) && Clocked(run) && i < j < |run|
    requires Schedules(run, i, e, due) && ClaimsEvent(run[j].call, run[j].outcome, e)
    ensures run[j].at >= due
    ensures (forall k | i < k < j :: !ClaimsEvent(run[k].call, run[k].outcome, e)) ==>
      run[j].call.now.Some? && run[j].call.now.value >= due
    decreases j
  {
    if k :| i < k < j && ClaimsEvent(run[k].call, run[k].outcome, e) {
      NotClaimedEarly(run, i, k, e, due);
    } else {
      DueStays(run, i, j, e, due);
      LogStep(run, j, e);
    }
  }

  // ---------------------------------------------------------------- conservation

  ghost function Live(t: Table, e: EventId): int {
    if e in t && (t[e].status.Processing? || t[e].status.Published?) then 1 else 0
  }

  lemma {:induction false} AttemptsAreClaims(run: Run, n: nat, e: EventId)
    requires IsRun(run) && n <= |run|
    ensures Count(run, n, e, ClaimStep) == if e in After(run, n) then After(run, n)[e].attempts else 0
  {
    if n > 0 {
      AttemptsAreClaims(run, n - 1, e);
      LogStep(run, n - 1, e);
    }
  }

  lemma {:induction false} CompletesArePublished(run: Run, n: nat, e: EventId)
    requires IsRun(run) && n <= |run|
    ensures Count(run, n, e, CompleteStep) == if e in After(run, n) && After(run, n)[e].status.Published? then 1 else 0
  {
    if n > 0 {
      CompletesArePublished(run, n - 1, e);
      LogStep(run, n - 1, e);
    }
  }

  /** Every claim ended in a retry, was taken over after its lease expired, or is the one that
      is still held or was completed. */
  lemma {:induction false} ClaimsBalance(run: Run, n: nat, e: EventId)
    requires IsRun(run) && n <= |run|
    ensures Count(run, n, e, ClaimStep)
         == Count(run, n, e, RetryStep) + Count(run, n, e, ReclaimStep) + Live(After(run, n), e)
  {
    if n > 0 {
      ClaimsBalance(run, n - 1, e);
      HolderMatchesRow(run, n - 1, e);
      LogStep(run, n - 1, e);
    }
  }

  /** attempt_count counts the claims, and each claim has one fate. */
  lemma AttemptConservation(run: Run, n: nat, e: EventId)
    requires IsRun(run) && n <= |run| && e in After(run, n)
    ensures After(run, n)[e].attempts == Count(run, n, e, ClaimStep)
         == Count(run, n, e, RetryStep) + Count(run, n, e, ReclaimStep) + Live(After(run, n), e)
    ensures Count(run, n, e, CompleteStep) == if After(run, n)[e].status.Published? then 1 else 0
  {
    AttemptsAreClaims(run, n, e);
    ClaimsBalance(run, n, e);
    CompletesArePublished(run, n, e);
  }

  /** With one maximum M: no row is attempted more than M times, a pending row has attempts left,
      and a failed row has used them all. */
  lemma {:induction false} AttemptBounds(run: Run, n: nat, e: EventId, maximum: int)
    requires IsRun(run) && n <= |run| && FixedMaximum(run, maximum) && e in After(run, n)
    ensures var r := After(run, n)[e];
      && 0 <= r.attempts <= maximum
      && (r.status.Pending? ==> r.attempts < maximum)
      && (r.status.Failed? ==> r.attempts == maximum)
  {
    if n > 0 {
      LogStep(run, n - 1, e);
      if e in After(run, n - 1) {
        AttemptBounds(run, n - 1, e, maximum);
      }
    }
  }

  // ---------------------------------------------------------------- bounded work

  function Potential(r: Row, maximum: int): int {
    2 * (maximum - r.attempts) + if r.status.Processing? then 1 else 0
  }

  ghost function PotentialOf(t: Table, maximum: int): EventId -> int {
    e => if e in t then Potential(t[e], maximum) else 0
  }

  ghost function TotalPotential(t: Table, maximum: int): int {
    Sum(t.Keys, PotentialOf(t, maximum))
  }

  /** Per event the books balance exactly: work done, work left and leases lost make 2M. */
  lemma WorkBalance(run: Run, n: nat, e: EventId, maximum: int)
    requires IsRun(run) && n <= |run| && FixedMaximum(run, maximum) && e in After(run, n)
    ensures Count(run, n, e, ClaimStep) + Count(run, n, e, CompleteStep) + Count(run, n, e, RetryStep)
          + Count(run, n, e, ReclaimStep) + Potential(After(run, n)[e], maximum) == 2 * maximum
    ensures Potential(After(run, n)[e], maximum) >= 0
  {
    AttemptConservation(run, n, e);
    AttemptBounds(run, n, e, maximum);
  }

  /** The step claims at least one event, or completes or retries one. */
  predicate IsProductive(c: Call, o: Outcome) {
    (c.Claim? && o.Claimed? && o.ids != []) || ((c.Complete? || c.Retry?) && o == Found(true))
  }

  ghost function ProductiveSteps(run: Run, n: nat): nat
    requires n <= |run|
  {
    if n == 0 then 0
    else ProductiveSteps(run, n - 1) + if IsProductive(run[n - 1].call, run[n - 1].outcome) then 1 else 0
  }

  lemma InsertPotential(t: Table, id: EventId, r: Row, maximum: int)
    requires id !in t && r.status.Pending? && r.attempts == 0
    ensures |t[id := r]| == |t| + 1
    ensures TotalPotential(t[id := r], maximum) == TotalPotential(t, maximum) + 2 * maximum
  {
    var t' := t[id := r];
    var f, g := PotentialOf(t', maximum), PotentialOf(t, maximum);
    assert t'.Keys == t.Keys + {id} && t'.Keys - {id} == t.Keys;
    SumRemove(t'.Keys, id, f);
    SumCongruent(t.Keys, f, g);
  }

  lemma PotentialNeverRises(t: Table, c: Call, at: Time, e: EventId, maximum: int)
    requires e in t && !c.Insert?
    requires c.Claim? || c.Retry? ==> c.maximum == Some(maximum)
    ensures var (t', o) := Apply(t, c, at);
      && e in t'
      && Potential(t'[e], maximum) <= Potential(t[e], maximum)
      && (ClaimsEvent(c, o, e) || CompletesEvent(c, o, e) || RetriesEvent(c, o, e) ==>
            Potential(t'[e], maximum) < Potential(t[e], maximum))
  {
    var (t', o) := Apply(t, c, at);
    StepOnEvent(t, c, at, t', o, e);
  }

  lemma CallPotential(t: Table, c: Call, at: Time, maximum: int)
    requires !c.Insert?
    requires c.Claim? || c.Retry? ==> c.maximum == Some(maximum)
    ensures var (t', o) := Apply(t, c, at);
      && |t'| == |t|
      && TotalPotential(t', maximum) <= TotalPotential(t, maximum) - if IsProductive(c, o) then 1 else 0
  {
    var (t', o) := Apply(t, c, at);
    var f, g := PotentialOf(t', maximum), PotentialOf(t, maximum);
    forall e ensures (e in t <==> e in t') && (e in t ==> f(e) <= g(e)) {
      StepOnEvent(t, c, at, t', o, e);
      if e in t {
        PotentialNeverRises(t, c, at, e, maximum);
      }
    }
    assert t'.Keys == t.Keys;
    SumMonotone(t.Keys, f, g);
    if IsProductive(c, o) {
      var e := if c.Claim? then o.ids[0] else c.event.value;
      StepOnEvent(t, c, at, t', o, e);
      PotentialNeverRises(t, c, at, e, maximum);
      SumStrict(t.Keys, f, g, e);
    }
  }

  /** The potential that n fresh events start with. */
  function Budget(n: nat, maximum: int): int {
    if n == 0 then 0 else Budget(n - 1, maximum) + 2 * maximum
  }

  lemma {:induction false} BudgetIsProduct(n: nat, maximum: int)
    ensures Budget(n, maximum) == 2 * maximum * n
  {
    if n > 0 {
      BudgetIsProduct(n - 1, maximum);
      assert 2 * maximum * (n - 1) + 2 * maximum == 2 * maximum * n;
    }
  }

  /** One log entry: a productive step lowers the total potential, any other call does not raise
      it, an insert adds 2M. */
  lemma LogPotential(run: Run, i: nat, maximum: int)
    requires IsRun(run) && i < |run| && FixedMaximum(run, maximum)
    ensures var t, t' := After(run, i), After(run, i + 1);
      TotalPotential(t', maximum) - Budget(|t'|, maximum) + (if IsProductive(run[i].call, run[i].outcome) then 1 else 0)
      <= TotalPotential(t, maximum) - Budget(|t|, maximum)
  {
    var t, t', c, at := After(run, i), After(run, i + 1), run[i].call, run[i].at;
    assert StepAt(run, i) && PassesMaximum(c, maximum);
    if !c.Insert? {
      CallPotential(t, c, at, maximum);
    } else if c.id !in t {
      InsertPotential(t, c.id, t'[c.id], maximum);
    }
  }

  lemma NothingTotal(maximum: int)
    ensures TotalPotential(map[], maximum) == 0
  {
  }

  lemma {:induction false} WorkWithinBudget(run: Run, n: nat, maximum: int)
    requires IsRun(run) && n <= |run| && FixedMaximum(run, maximum)
    ensures ProductiveSteps(run, n) + TotalPotential(After(run, n), maximum) <= Budget(|After(run, n)|, maximum)
  {
    hide TotalPotential, IsProductive, StepAt;
    if n == 0 {
      NothingTotal(maximum);
    } else {
      WorkWithinBudget(run, n - 1, maximum);
      LogPotential(run, n - 1, maximum);
    }
  }

  /** N events allow at most 2*M*N productive steps in any run. */
  lemma BoundedWork(run: Run, n: nat, maximum: int)
    requires IsRun(run) && n <= |run| && FixedMaximum(run, maximum)
    ensures ProductiveSteps(run, n) + TotalPotential(After(run, n), maximum) <= 2 * maximum * |After(run, n)|
    ensures ProductiveSteps(run, n) <= 2 * maximum * |After(run, n)|
  {
    WorkWithinBudget(run, n, maximum);
    BudgetIsProduct(|After(run, n)|, maximum);
    PotentialRemains(run, n, maximum);
  }

  lemma PotentialRemains(run: Run, n: nat, maximum: int)
    requires IsRun(run) && n <= |run| && FixedMaximum(run, maximum)
    ensures TotalPotential(After(run, n), maximum) >= 0
  {
    var t := After(run, n);
    forall e | e in t ensures PotentialOf(t, maximum)(e) >= 0 {
      AttemptBounds(run, n, e, maximum);
    }
    SumNonnegative(t.Keys, PotentialOf(t, maximum));
  }

  // ---------------------------------------------------------------- stranded rows

  /** A valid claim with one candidate returns it. */
  lemma OnlyCandidate(t: Table, e: EventId, c: Call, at: Time)
    requires c.Claim? && !ClaimRaises(c) && c.leaseSeconds.Some? && c.batch == Some(1)
    requires Candidates(t, c, at) == {e}
    ensures ClaimsEvent(c, Apply(t, c, at).1, e)
    ensures Elements(Chosen(t, c, at)) == {e}
  {
    hide ClaimRaises, Candidates, Chosen;
    ChosenAreCandidates(t, c, at);
    SameSingleton(Elements(Chosen(t, c, at)), {e});
    OrderedLists({e}, DeliveryOrder(t));
  }

  lemma SameSingleton<T>(a: set<T>, b: set<T>)
    requires a <= b && |a| == |b| == 1
    ensures a == b
  {
    var x := Member(a);
    assert a - {x} == {} && |b - {x}| == 0;
    assert a == {x} && b == {x};
  }

  /** Whether a leased row can ever be claimed again is decided by its attempts alone. */
  lemma ReclaimableIff(t: Table, e: EventId, maximum: int)
    requires TableOk(t) && e in t && t[e].status.Processing? && 1 <= maximum <= 100
    ensures (exists c: Call, at: Time | c.Claim? && c.maximum == Some(maximum) ::
               ClaimsEvent(c, Apply(t, c, at).1, e))
       <==> t[e].attempts < maximum
  {
    if t[e].attempts < maximum {
      var at := t[e].leaseExpiresAt.value;
      var c := Claim(t[e].token, Some(at), Some(5), Some(1), Some(maximum), None, t.Keys - {e});
      OnlyCandidate(t, e, c, at);
      assert ClaimsEvent(c, Apply(t, c, at).1, e);
    } else {
      forall c: Call, at: Time | c.Claim? && c.maximum == Some(maximum)
        ensures !ClaimsEvent(c, Apply(t, c, at).1, e)
      {
        var (t', o) := Apply(t, c, at);
        StepOnEvent(t, c, at, t', o, e);
      }
    }
  }

  /** A row whose M-th holder vanishes stays processing under that holder's token for ever. */
  lemma {:induction false} ExhaustedHolderStrands(run: Run, i: nat, j: nat, e: EventId, maximum: int)
    requires IsRun(run) && i <= j <= |run| && FixedMaximum(run, maximum)
    requires e in After(run, i) && After(run, i)[e].status.Processing? && After(run, i)[e].attempts == maximum
    requires forall k | i <= k < j ::
      !CompletesEvent(run[k].call, run[k].outcome, e) && !RetriesEvent(run[k].call, run[k].outcome, e)
    ensures e in After(run, j) && After(run, j)[e].status.Processing?
    ensures After(run, j)[e].attempts == maximum && After(run, j)[e].token == After(run, i)[e].token
    ensures forall k | i <= k < j :: !ClaimsEvent(run[k].call, run[k].outcome, e)
  {
    if i < j {
      ExhaustedHolderStrands(run, i, j - 1, e, maximum);
      LogStep(run, j - 1, e);
    }
  }

  function Token(): string { seq(64, _ => 'a') }

  /** Claim n of the only event, long after the lease before it ran out; its holder then vanishes. */
  function LoneClaim(maximum: int, at: Time): Call {
    Claim(Some(Token()), Some(at), Some(5), Some(1), Some(maximum), None, {})
  }

  function LoneRow(n: nat): Row {
    if n == 0 then Row(Pending, "event", 0, 0, None, None, 0, None, None, 0)
    else Row(Processing, "event", 0, n, Some(Token()), Some((10 * n + 5) * SECOND), 0, None, None, 10 * n * SECOND)
  }

  lemma LoneClaimIsValid(maximum: int, at: Time)
    requires 1 <= maximum <= 100
    ensures !ClaimRaises(LoneClaim(maximum, at))
  {
  }

  lemma LoneCandidate(maximum: int, n: nat)
    requires n < maximum <= 100
    ensures Candidates(map[0 := LoneRow(n)], LoneClaim(maximum, 10 * (n + 1) * SECOND), 10 * (n + 1) * SECOND) == {0}
  {
    var at := 10 * (n + 1) * SECOND;
    var t: Table := map[0 := LoneRow(n)];
    assert Eligible(t[0], at, Some(maximum), None);
  }

  lemma LoneClaimTakes(maximum: int, n: nat)
    requires n < maximum <= 100
    ensures Apply(map[0 := LoneRow(n)], LoneClaim(maximum, 10 * (n + 1) * SECOND), 10 * (n + 1) * SECOND)
         == (map[0 := LoneRow(n + 1)], Claimed([0]))
  {
    var at := 10 * (n + 1) * SECOND;
    var t: Table, c := map[0 := LoneRow(n)], LoneClaim(maximum, at);
    LoneCandidate(maximum, n);
    LoneClaimIsValid(maximum, at);
    hide ClaimRaises, Candidates, Chosen, Deliveries, Token, BadToken, IsHex;
    OnlyCandidate(t, 0, c, at);
    LoneDelivery(t);
    assert ClaimedTable(t, {0}, Token(), at + 5 * SECOND, at) == map[0 := LoneRow(n + 1)];
  }

  lemma LoneDelivery(t: Table)
    ensures Deliveries(t, {0}) == [0]
  {
    OrderedIsUnique({0}, [0], DeliveryOrder(t));
  }

  lemma RunSnoc(front: Run, step: Step, maximum: int)
    requires IsRun(front) && Clocked(front) && FixedMaximum(front, maximum)
    requires (step.table, step.outcome) == Apply(After(front, |front|), step.call, step.at)
    requires PassesMaximum(step.call, maximum) && forall i | 0 <= i < |front| :: front[i].at <= step.at
    ensures var run := front + [step]; IsRun(run) && Clocked(run) && FixedMaximum(run, maximum)
  {
    hide Apply;
    var run := front + [step];
    forall i | 0 <= i < |run| ensures StepAt(run, i) {
      assert After(run, i) == After(front, i);
      if i < |front| {
        assert StepAt(front, i) && run[i] == front[i];
      }
    }
  }

  /** Stranded rows are reachable, for every maximum: an insert and that many claims, each of which lets
      its lease run out, leave the row processing with all its attempts used up. */
  lemma {:induction false} StrandedRowIsReachable(maximum: int, n: nat) returns (run: Run)
    requires 1 <= maximum <= 100 && n <= maximum
    ensures |run| == n + 1 && IsRun(run) && Clocked(run) && FixedMaximum(run, maximum)
    ensures After(run, n + 1) == map[0 := LoneRow(n)]
    ensures forall i | 0 <= i < |run| :: run[i].at <= 10 * n * SECOND
    ensures n == maximum ==> LoneRow(n).status.Processing? && LoneRow(n).attempts == maximum
  {
    hide Apply, IsRun, Clocked, Token, FixedMaximum, LoneClaim;
    if n == 0 {
      run := LoneStart(maximum);
    } else {
      var at := 10 * n * SECOND;
      var front := StrandedRowIsReachable(maximum, n - 1);
      LoneClaimTakes(maximum, n - 1);
      var claim := Step(LoneClaim(maximum, at), at, Claimed([0]), map[0 := LoneRow(n)]);
      LoneClaimPasses(maximum, at);
      RunSnoc(front, claim, maximum);
      run := front + [claim];
    }
  }

  lemma LoneClaimPasses(maximum: int, at: Time)
    ensures PassesMaximum(LoneClaim(maximum, at), maximum)
  {
  }

  lemma LoneStart(maximum: int) returns (run: Run)
    requires 1 <= maximum
    ensures |run| == 1 && IsRun(run) && Clocked(run) && FixedMaximum(run, maximum)
    ensures run[0].table == map[0 := LoneRow(0)] && run[0].at == 0
  {
    run := [Step(Insert(0, "event", 0, 0), 0, Inserted, map[0 := LoneRow(0)])];
    assert StepAt(run, 0);
  }
}
