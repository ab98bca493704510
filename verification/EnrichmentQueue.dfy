/**
 The enrichment queue of internal/enrichment/pipeline.go as a state machine: rows are
 claimed, finish or fail, and a restart puts claimed rows back.

 `interrupts` counts the restarts that hit a row while it was claimed. It has no
 column; it exists to bound the attempts.
 */
module EnrichmentQueue {
  datatype Lane = NewMail | Backfill
  datatype Status = Pending | Processing | Done | Error
  datatype Row = Row(lane: Lane, status: Status, attempts: nat, queuedAt: int, interrupts: nat)
  type Rows = map<nat, Row>

  datatype Event =
    | Add(row: nat, lane: Lane, now: int)
    | Start(row: nat)
    | Succeed(row: nat)
    | Fail(row: nat)
    | Restart
    | Remove(rows: set<nat>)

  function Started(r: Row): Row { r.(status := Processing, attempts := r.attempts + 1) }

  /** Back to the queue, or an error once the attempts are used up. */
  function FailedRow(r: Row, maxAttempts: nat): Row {
    r.(status := if r.attempts >= maxAttempts then Error else Pending)
  }

  function Requeued(r: Row): Row {
    if r.status == Processing then r.(status := Pending, interrupts := r.interrupts + 1) else r
  }

  /** One event; events that do not apply change nothing. */
  function Step(rows: Rows, maxAttempts: nat, e: Event): Rows {
    match e
    case Add(r, lane, now) => if r in rows then rows else rows[r := Row(lane, Pending, 0, now, 0)]
    case Start(r) => if r in rows && rows[r].status == Pending then rows[r := Started(rows[r])] else rows
    case Succeed(r) => if r in rows && rows[r].status == Processing then rows[r := rows[r].(status := Done)] else rows
    case Fail(r) =>
      if r in rows && rows[r].status == Processing then rows[r := FailedRow(rows[r], maxAttempts)] else rows
    case Restart => map r | r in rows :: Requeued(rows[r])
    case Remove(gone) => rows - gone
  }

  function Run(rows: Rows, maxAttempts: nat, es: seq<Event>): Rows {
    if es == [] then rows else Step(Run(rows, maxAttempts, es[..|es| - 1]), maxAttempts, es[|es| - 1])
  }

  lemma RunSnoc(rows: Rows, maxAttempts: nat, es: seq<Event>, e: Event)
    ensures Run(rows, maxAttempts, es + [e]) == Step(Run(rows, maxAttempts, es), maxAttempts, e)
  {
    assert (es + [e])[..|es|] == es;
  }

  lemma {:induction false} RunConcat(rows: Rows, maxAttempts: nat, es: seq<Event>, more: seq<Event>)
    ensures Run(rows, maxAttempts, es + more) == Run(Run(rows, maxAttempts, es), maxAttempts, more)
  {
    if more == [] {
      assert es + more == es;
    } else {
      var init, e := more[..|more| - 1], more[|more| - 1];
      RunConcat(rows, maxAttempts, es, init);
      RunSnoc(rows, maxAttempts, es + init, e);
      assert es + more == es + init + [e];
    }
  }

  /******* The attempts cap *******/

  ghost predicate RowInv(r: Row, maxAttempts: nat) {
    match r.status
    case Pending => r.attempts <= maxAttempts - 1 + r.interrupts
    case Processing => 1 <= r.attempts <= maxAttempts + r.interrupts
    case Done => 1 <= r.attempts <= maxAttempts + r.interrupts
    case Error => maxAttempts <= r.attempts <= maxAttempts + r.interrupts
  }

  ghost predicate Inv(rows: Rows, maxAttempts: nat) {
    forall r :: r in rows ==> RowInv(rows[r], maxAttempts)
  }

  function Restarts(es: seq<Event>): nat {
    if es == [] then 0 else Restarts(es[..|es| - 1]) + (if es[|es| - 1].Restart? then 1 else 0)
  }

  lemma StepKeepsInv(rows: Rows, maxAttempts: nat, e: Event)
    requires maxAttempts >= 1 && Inv(rows, maxAttempts)
    ensures Inv(Step(rows, maxAttempts, e), maxAttempts)
  {
  }

  /**
   Over any run: a row is in error only after max_attempts tries, its attempts never
   exceed max_attempts plus the interrupted runs, and those are at most the restarts.
   */
  lemma {:induction false} AttemptsCapped(maxAttempts: nat, es: seq<Event>)
    requires maxAttempts >= 1
    ensures
      var rows := Run(map[], maxAttempts, es);
      && Inv(rows, maxAttempts)
      && forall r :: r in rows ==> rows[r].interrupts <= Restarts(es)
  {
    if es != [] {
      AttemptsCapped(maxAttempts, es[..|es| - 1]);
      StepKeepsInv(Run(map[], maxAttempts, es[..|es| - 1]), maxAttempts, es[|es| - 1]);
    }
  }

  /** How often a row was claimed since it was last added. */
  function Tries(maxAttempts: nat, es: seq<Event>, r: nat): nat {
    if es == [] then 0
    else
      var before, e := Run(map[], maxAttempts, es[..|es| - 1]), es[|es| - 1];
      if r !in Step(before, maxAttempts, e) || r !in before then 0
      else Tries(maxAttempts, es[..|es| - 1], r) + (if e == Start(r) && before[r].status == Pending then 1 else 0)
  }

  /** The attempts column is the number of tries. */
  lemma {:induction false} AttemptsAreTries(maxAttempts: nat, es: seq<Event>, r: nat)
    requires r in Run(map[], maxAttempts, es)
    ensures Run(map[], maxAttempts, es)[r].attempts == Tries(maxAttempts, es, r)
  {
    if es != [] && r in Run(map[], maxAttempts, es[..|es| - 1]) {
      AttemptsAreTries(maxAttempts, es[..|es| - 1], r);
    }
  }

  /** A restart leaves nothing claimed and touches nothing else. */
  lemma RestartRequeues(rows: Rows, maxAttempts: nat)
    ensures
      var after := Step(rows, maxAttempts, Restart);
      && after.Keys == rows.Keys
      && (forall r :: r in after ==> after[r].status != Processing)
      && (forall r :: r in rows && rows[r].status == Processing ==>
            after[r].status == Pending && after[r].attempts == rows[r].attempts && after[r].lane == rows[r].lane)
      && (forall r :: r in rows && rows[r].status != Processing ==> after[r] == rows[r])
  {
  }
}
