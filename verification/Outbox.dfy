/**
 The durable webhook outbox: the delivery policy of internal/webhook/dispatch.go over
 the tables of internal/db/webhooks.go. Each statement or transaction is one atomic
 event; times are unix seconds.

 `firstTry` records when a delivery was first attempted. It has no column; it exists to
 say how long a delivery was retried before the dispatcher gave up.
 */
module Outbox {
  import opened Collections

  const MAX_ATTEMPTS := 12
  const BASE_BACKOFF := 30
  const MAX_BACKOFF := 3600
  const DISABLE_AFTER := 100
  const BATCH_SIZE := 50

  datatype Status = Pending | Delivered | Failed

  datatype Delivery = Delivery(
    hook: nat, status: Status, attempts: nat, nextAttempt: int, doneAt: int, firstTry: Option<int>)

  datatype Webhook = Webhook(active: bool, failCount: nat)

  /** Row ids grow and are never reused. */
  datatype State = State(hooks: map<nat, Webhook>, rows: map<nat, Delivery>, nextHook: nat, nextRow: nat)

  const EMPTY := State(map[], map[], 0, 0)

  /******* Backoff *******/

  function Pow2(n: nat): nat { if n == 0 then 1 else 2 * Pow2(n - 1) }

  function BackoffOf(attempt: int): int {
    if attempt < 1 then BASE_BACKOFF else Min(BASE_BACKOFF * Pow2(attempt - 1), MAX_BACKOFF)
  }

  lemma {:induction false} Pow2Grows(n: nat, m: nat)
    requires n <= m
    ensures 0 < Pow2(n) <= Pow2(m)
  {
    if n < m {
      Pow2Grows(n, m - 1);
    } else if n > 0 {
      Pow2Grows(n - 1, n - 1);
    }
  }

  /** The doubling loop, which stops at the cap, computes min(30 * 2^(n-1), 3600). */
  method Backoff(attempt: int) returns (d: int)
    ensures d == BackoffOf(attempt)
  {
    d := BASE_BACKOFF;
    var i := 1;
    while i < attempt && d < MAX_BACKOFF
      invariant 1 <= i && (i == 1 || i <= attempt) && d == BASE_BACKOFF * Pow2(i - 1)
      decreases attempt - i
    {
      d := d * 2;
      i := i + 1;
    }
    if attempt >= 1 {
      Pow2Grows(i - 1, attempt - 1);
    }
    d := Min(d, MAX_BACKOFF);
  }

  /** The waits before retries 1..n. */
  function TotalWait(n: nat): int { if n == 0 then 0 else TotalWait(n - 1) + BackoffOf(n) }

  lemma BackoffPositive(n: int)
    ensures 0 < BackoffOf(n) <= MAX_BACKOFF
  {
    if n >= 1 {
      Pow2Grows(0, n - 1);
    }
  }

  lemma FullWait()
    ensures TotalWait(MAX_ATTEMPTS - 1) == 18210
  {
    assert Pow2(3) == 8 && Pow2(6) == 8 * Pow2(3);
    Pow2Grows(7, 8);
    Pow2Grows(7, 9);
    Pow2Grows(7, 10);
    assert TotalWait(3) == 210 && TotalWait(6) == 1890 && TotalWait(7) == 3810;
    assert TotalWait(9) == 11010;
  }

  /******* Events *******/

  datatype Event =
    | Create
    | Enqueue(hook: nat, now: int)
    | Attempt(row: nat, now: int, ok: bool)
    | SetActive(hook: nat, on: bool)
    | Prune(deliveredBefore: int, failedBefore: int)
    | DeleteHook(hook: nat)

  predicate Retryable(s: State, r: nat, now: int) {
    r in s.rows && s.rows[r].hook in s.hooks && s.rows[r].status == Pending && s.rows[r].nextAttempt <= now
  }

  function Tried(d: Delivery, now: int): Delivery {
    d.(attempts := d.attempts + 1, firstTry := if d.firstTry.None? then Some(now) else d.firstTry)
  }

  function DeliveredRow(d: Delivery, now: int): Delivery {
    Tried(d, now).(status := Delivered, doneAt := now)
  }

  /** Retried after a backoff, or given up on the last attempt. */
  function FailedRow(d: Delivery, now: int): Delivery {
    if d.attempts + 1 < MAX_ATTEMPTS
    then Tried(d, now).(nextAttempt := now + BackoffOf(d.attempts + 1))
    else Tried(d, now).(status := Failed, doneAt := now)
  }

  function FailedHook(w: Webhook): Webhook {
    Webhook(w.active && w.failCount + 1 < DISABLE_AFTER, w.failCount + 1)
  }

  predicate Prunable(d: Delivery, e: Event)
    requires e.Prune?
  {
    (d.status == Delivered && d.doneAt < e.deliveredBefore) || (d.status == Failed && d.doneAt < e.failedBefore)
  }

  function Step(s: State, e: Event): State {
    match e
    case Create => s.(hooks := s.hooks[s.nextHook := Webhook(true, 0)], nextHook := s.nextHook + 1)
    case Enqueue(h, now) =>
      if h !in s.hooks then s
      else s.(rows := s.rows[s.nextRow := Delivery(h, Pending, 0, now, 0, None)], nextRow := s.nextRow + 1)
    case Attempt(r, now, ok) =>
      if !Retryable(s, r, now) then s
      else
        var d := s.rows[r];
        var w := s.hooks[d.hook];
        if ok then s.(rows := s.rows[r := DeliveredRow(d, now)], hooks := s.hooks[d.hook := w.(failCount := 0)])
        else s.(rows := s.rows[r := FailedRow(d, now)], hooks := s.hooks[d.hook := FailedHook(w)])
    case SetActive(h, on) =>
      if h !in s.hooks then s
      else s.(hooks := s.hooks[h := if on then Webhook(true, 0) else s.hooks[h].(active := false)])
    case Prune(_, _) => s.(rows := map r | r in s.rows && !Prunable(s.rows[r], e) :: s.rows[r])
    case DeleteHook(h) =>
      s.(hooks := s.hooks - {h}, rows := map r | r in s.rows && s.rows[r].hook != h :: s.rows[r])
  }

  function Run(s: State, es: seq<Event>): State {
    if es == [] then s else Step(Run(s, es[..|es| - 1]), es[|es| - 1])
  }

  /******* What every run keeps *******/

  /** A row's status, its attempts and the time spent on it fit together. */
  ghost predicate RowInv(d: Delivery) {
    && (d.attempts == 0 <==> d.firstTry.None?)
    && (d.status == Pending ==> d.attempts <= MAX_ATTEMPTS - 1)
    && (d.status == Failed ==> d.attempts == MAX_ATTEMPTS)
    && (d.status == Delivered ==> 1 <= d.attempts <= MAX_ATTEMPTS)
    && (d.status == Pending && d.attempts > 0 ==> d.nextAttempt >= d.firstTry.value + TotalWait(d.attempts))
    && (d.status == Failed ==> d.doneAt >= d.firstTry.value + TotalWait(MAX_ATTEMPTS - 1))
  }

  ghost predicate Inv(s: State) {
    && (forall h :: h in s.hooks ==> h < s.nextHook && (s.hooks[h].active ==> s.hooks[h].failCount < DISABLE_AFTER))
    && (forall r :: r in s.rows ==> r < s.nextRow && s.rows[r].hook in s.hooks && RowInv(s.rows[r]))
  }

  lemma AttemptKeepsRow(d: Delivery, now: int)
    requires RowInv(d) && d.status == Pending && d.nextAttempt <= now
    ensures RowInv(DeliveredRow(d, now)) && RowInv(FailedRow(d, now))
  {
    assert TotalWait(d.attempts + 1) == TotalWait(d.attempts) + BackoffOf(d.attempts + 1);
  }

  lemma StepKeepsInv(s: State, e: Event)
    requires Inv(s)
    ensures Inv(Step(s, e))
  {
    if e.Attempt? && Retryable(s, e.row, e.now) {
      AttemptKeepsRow(s.rows[e.row], e.now);
    }
  }

  lemma {:induction false} RunKeepsInv(s: State, es: seq<Event>)
    requires Inv(s)
    ensures Inv(Run(s, es))
  {
    if es != [] {
      RunKeepsInv(s, es[..|es| - 1]);
      StepKeepsInv(Run(s, es[..|es| - 1]), es[|es| - 1]);
    }
  }

  /** A delivery given up on was first tried at least 18210 seconds earlier. */
  lemma GiveUpTakesHours(es: seq<Event>, r: nat)
    requires r in Run(EMPTY, es).rows && Run(EMPTY, es).rows[r].status == Failed
    ensures
      var d := Run(EMPTY, es).rows[r];
      d.attempts == 12 && d.firstTry.Some? && d.doneAt - d.firstTry.value >= 18210
  {
    RunKeepsInv(EMPTY, es);
    FullWait();
  }

  /** A row leaves a state through one event only if that event removes it. */
  predicate Removes(s: State, e: Event, r: nat)
    requires r in s.rows
  {
    || (e.DeleteHook? && e.hook == s.rows[r].hook)
    || (e.Prune? && Prunable(s.rows[r], e))
  }

  /** Terminal rows never change; rows keep their webhook; only a removal takes a row away. */
  lemma StepKeepsRow(s: State, e: Event, r: nat)
    requires Inv(s) && r in s.rows
    ensures r in Step(s, e).rows <==> !Removes(s, e, r)
    ensures r in Step(s, e).rows ==> Step(s, e).rows[r].hook == s.rows[r].hook
    ensures r in Step(s, e).rows && s.rows[r].status != Pending ==> Step(s, e).rows[r] == s.rows[r]
  {
  }

  /**
   No enqueued event is lost: after any further run its row is still there, or its
   webhook was deleted, or it was delivered or given up before it was pruned.
   */
  lemma {:induction false} NothingLost(s: State, es: seq<Event>, r: nat)
    requires Inv(s) && r in s.rows
    ensures
      || (r in Run(s, es).rows && Run(s, es).rows[r].hook == s.rows[r].hook)
      || DeleteHook(s.rows[r].hook) in es
      || (exists k :: 0 <= k < |es| && PrunedAt(s, es, r, k))
  {
    if es != [] {
      var init, e := es[..|es| - 1], es[|es| - 1];
      NothingLost(s, init, r);
      RunKeepsInv(s, init);
      if r in Run(s, init).rows && Run(s, init).rows[r].hook == s.rows[r].hook {
        StepKeepsRow(Run(s, init), e, r);
        if e.Prune? && Prunable(Run(s, init).rows[r], e) {
          assert PrunedAt(s, es, r, |es| - 1);
        }
      } else if exists k :: 0 <= k < |init| && PrunedAt(s, init, r, k) {
        var k :| 0 <= k < |init| && PrunedAt(s, init, r, k);
        assert es[..k] == init[..k] && es[k] == init[k];
        assert PrunedAt(s, es, r, k);
      }
    }
  }

  ghost predicate PrunedAt(s: State, es: seq<Event>, r: nat, k: nat)
    requires k < |es|
  {
    es[k].Prune? && r in Run(s, es[..k]).rows && Run(s, es[..k]).rows[r].status != Pending
  }

  /******* fail_count *******/

  /** The event recorded a failed attempt of webhook `h`. */
  predicate FailsFor(s: State, e: Event, h: nat) {
    e.Attempt? && !e.ok && Retryable(s, e.row, e.now) && s.rows[e.row].hook == h
  }

  /** The event created or enabled webhook `h`, or recorded a success of it. */
  predicate ClearsFor(s: State, e: Event, h: nat) {
    || (e.Create? && s.nextHook == h)
    || (e.SetActive? && e.on && e.hook == h)
    || (e.Attempt? && e.ok && Retryable(s, e.row, e.now) && s.rows[e.row].hook == h)
  }

  /** The failures of `h` in a run since its last success or enabling. */
  function FailuresSince(s: State, es: seq<Event>, h: nat): nat {
    if es == [] then (if h in s.hooks then s.hooks[h].failCount else 0)
    else
      var before, e := Run(s, es[..|es| - 1]), es[|es| - 1];
      if ClearsFor(before, e, h) then 0
      else FailuresSince(s, es[..|es| - 1], h) + (if FailsFor(before, e, h) then 1 else 0)
  }

  /** fail_count counts exactly those, and an active webhook has fewer than a hundred. */
  lemma {:induction false} FailCountMeaning(es: seq<Event>, h: nat)
    requires h in Run(EMPTY, es).hooks
    ensures Run(EMPTY, es).hooks[h].failCount == FailuresSince(EMPTY, es, h)
    ensures Run(EMPTY, es).hooks[h].active ==> FailuresSince(EMPTY, es, h) < 100
  {
    RunKeepsInv(EMPTY, es);
    if es != [] {
      var init, e := es[..|es| - 1], es[|es| - 1];
      RunKeepsInv(EMPTY, init);
      if h in Run(EMPTY, init).hooks {
        FailCountMeaning(init, h);
      }
    }
  }
}
