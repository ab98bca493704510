/**
 The tables of the webhook outbox as mutable state, and the dispatcher that works
 through them (internal/webhook/dispatch.go, internal/db/webhooks.go). Every statement
 is shown to be one event of `Outbox`, and a dispatch pass to be a run of attempts.
 */
module Dispatcher {
  import opened Collections
  import opened Outbox

  /** Pending rows of active webhooks whose time has come. */
  predicate IsDue(s: State, r: nat, now: int) {
    Retryable(s, r, now) && s.hooks[s.rows[r].hook].active
  }

  function DueRows(s: State, now: int): set<nat> {
    set r | r in s.rows && IsDue(s, r, now)
  }

  /** Nothing due, said of the columns: a pending row whose time has come belongs to an inactive webhook. */
  lemma NoneDue(s: State, now: int)
    requires Inv(s) && DueRows(s, now) == {}
    ensures forall r :: r in s.rows && s.rows[r].status == Pending && s.rows[r].nextAttempt <= now ==>
      !s.hooks[s.rows[r].hook].active
  {
    forall r | r in s.rows && s.rows[r].status == Pending && s.rows[r].nextAttempt <= now
      ensures !s.hooks[s.rows[r].hook].active
    {
      assert r !in DueRows(s, now);
    }
  }

  /** `ids` are the lowest members of `from`, in ascending order, at most `limit` of them. */
  ghost predicate Lowest(ids: seq<nat>, from: set<nat>, limit: nat) {
    && (forall i, j :: 0 <= i < j < |ids| ==> ids[i] < ids[j])
    && Elements(ids) <= from
    && |ids| <= limit
    && (|ids| < limit ==> Elements(ids) == from)
    && (forall i, r :: 0 <= i < |ids| && r in from - Elements(ids) ==> ids[i] < r)
  }

  /** ORDER BY id LIMIT limit. */
  method TakeLowest(from: set<nat>, limit: nat) returns (ids: seq<nat>)
    ensures Lowest(ids, from, limit)
  {
    ids := [];
    var left := from;
    while |ids| < limit && left != {}
      invariant |ids| <= limit && left <= from && forall r :: r in from ==> (r in left <==> r !in ids)
      invariant forall i :: 0 <= i < |ids| ==> ids[i] in from
      invariant forall i, j :: 0 <= i < j < |ids| ==> ids[i] < ids[j]
      invariant forall i, r :: 0 <= i < |ids| && r in left ==> ids[i] < r
      decreases left
    {
      var m := LowestOf(left);
      ids := ids + [m];
      left := left - {m};
    }
  }

  method LowestOf(from: set<nat>) returns (m: nat)
    requires from != {}
    ensures m in from && forall r :: r in from ==> m <= r
  {
    m :| m in from;
    var rest := from - {m};
    while rest != {}
      invariant rest <= from && m in from
      invariant forall r :: r in from && r !in rest ==> m <= r
    {
      var r :| r in rest;
      m := Min(m, r);
      rest := rest - {r};
    }
  }

  /** A failed or successful attempt takes its row out of the due set and brings none in. */
  lemma AttemptShrinksDue(s: State, r: nat, now: int, ok: bool)
    requires Inv(s)
    ensures DueRows(Step(s, Attempt(r, now, ok)), now) <= DueRows(s, now) - {r}
  {
    if Retryable(s, r, now) {
      BackoffPositive(s.rows[r].attempts + 1);
    }
  }

  /** The attempts of a pass: all at `now` with the endpoint's answer, each of a different row. */
  ghost predicate AttemptsOnce(es: seq<Event>, now: int, answer: nat -> bool) {
    && (forall i :: 0 <= i < |es| ==> es[i].Attempt? && es[i].now == now && es[i].ok == answer(es[i].row))
    && (forall i, j :: 0 <= i < j < |es| ==> es[i].row != es[j].row)
  }

  lemma RunSnoc(s: State, es: seq<Event>, e: Event)
    ensures Run(s, es + [e]) == Step(Run(s, es), e)
  {
    assert (es + [e])[..|es|] == es;
  }

  /** The first `i` rows of a batch have been dealt with, by the attempts `es`. */
  ghost predicate BatchInv(s0: State, s: State, due: seq<nat>, i: nat, now: int, es: seq<Event>, answer: nat -> bool)
    requires i <= |due|
  {
    && Inv(s) && s == Run(s0, es)
    && DueRows(s, now) <= DueRows(s0, now) - Elements(due[..i])
    && (forall k :: i <= k < |due| ==> Retryable(s, due[k], now))
    && AttemptsOnce(es, now, answer)
    && (forall k :: 0 <= k < |es| ==> es[k].row in due[..i])
  }

  lemma BatchStart(s: State, due: seq<nat>, now: int, answer: nat -> bool)
    requires Inv(s) && Lowest(due, DueRows(s, now), BATCH_SIZE)
    ensures BatchInv(s, s, due, 0, now, [], answer)
  {
    assert forall k :: 0 <= k < |due| ==> due[k] in Elements(due);
  }

  lemma AttemptLeaves(s: State, r: nat, q: nat, now: int, ok: bool)
    requires q != r && Retryable(s, q, now)
    ensures Retryable(Step(s, Attempt(r, now, ok)), q, now)
  {
  }

  lemma OnceSnoc(es: seq<Event>, now: int, r: nat, answer: nat -> bool, done: seq<nat>)
    requires AttemptsOnce(es, now, answer) && r !in done && forall k :: 0 <= k < |es| ==> es[k].row in done
    ensures AttemptsOnce(es + [Attempt(r, now, answer(r))], now, answer)
    ensures forall k :: 0 <= k < |es| + 1 ==> (es + [Attempt(r, now, answer(r))])[k].row in done + [r]
  {
  }

  lemma BatchAttempt(s0: State, s: State, due: seq<nat>, i: nat, now: int, es: seq<Event>, answer: nat -> bool)
    requires i < |due| && BatchInv(s0, s, due, i, now, es, answer)
    requires forall i, j :: 0 <= i < j < |due| ==> due[i] < due[j]
    ensures
      var e := Attempt(due[i], now, answer(due[i]));
      BatchInv(s0, Step(s, e), due, i + 1, now, es + [e], answer)
  {
    var e := Attempt(due[i], now, answer(due[i]));
    assert due[..i + 1] == due[..i] + [due[i]];
    StepKeepsInv(s, e);
    AttemptShrinksDue(s, due[i], now, answer(due[i]));
    RunSnoc(s0, es, e);
    assert due[i] !in due[..i] by {
      assert forall k :: 0 <= k < i ==> due[..i][k] < due[i];
    }
    OnceSnoc(es, now, due[i], answer, due[..i]);
    forall k | i < k < |due| ensures Retryable(Step(s, e), due[k], now) {
      AttemptLeaves(s, due[i], due[k], now, answer(due[i]));
    }
  }

  /** The dispatcher's copies of the webhooks are up to date. */
  ghost predicate Cached(active: map<nat, bool>, hooks: map<nat, Webhook>) {
    forall h :: h in active ==> h in hooks && active[h] == hooks[h].active
  }

  lemma BatchEnd(s0: State, s: State, due: seq<nat>, now: int, es: seq<Event>, answer: nat -> bool)
    requires BatchInv(s0, s, due, |due|, now, es, answer)
    ensures DueRows(s, now) <= DueRows(s0, now) - Elements(due)
    ensures forall k :: 0 <= k < |es| ==> es[k].row in due
  {
    assert due[..|due|] == due;
  }

  lemma BatchSkip(
    s0: State, s: State, due: seq<nat>, i: nat, now: int, es: seq<Event>, answer: nat -> bool)
    requires i < |due| && BatchInv(s0, s, due, i, now, es, answer) && !IsDue(s, due[i], now)
    ensures BatchInv(s0, s, due, i + 1, now, es, answer)
  {
    assert due[..i + 1] == due[..i] + [due[i]];
  }

  /** A failed attempt: tried again at `next`, or given up. */
  function Retried(d: Delivery, next: Option<int>, now: int): Delivery {
    if next.None? then Tried(d, now).(status := Failed, doneAt := now)
    else Tried(d, now).(nextAttempt := next.value)
  }

  class Repo {
    var hooks: map<nat, Webhook>
    var rows: map<nat, Delivery>
    var nextHook: nat
    var nextRow: nat

    constructor ()
      ensures Tables() == EMPTY
    {
      hooks, rows, nextHook, nextRow := map[], map[], 0, 0;
    }

    function Tables(): State
      reads this
    {
      State(hooks, rows, nextHook, nextRow)
    }

    method CreateHook() returns (id: nat)
      modifies this
      ensures id == old(nextHook) && Tables() == Step(old(Tables()), Create)
    {
      id := nextHook;
      hooks := hooks[id := Webhook(true, 0)];
      nextHook := nextHook + 1;
    }

    /** Enabling resets the failure count. */
    method SetActive(id: nat, on: bool) returns (ok: bool)
      modifies this`hooks
      ensures ok <==> id in old(hooks)
      ensures Tables() == Step(old(Tables()), Event.SetActive(id, on))
    {
      ok := id in hooks;
      if ok {
        hooks := hooks[id := if on then Webhook(true, 0) else hooks[id].(active := false)];
      }
    }

    /** The foreign key refuses a delivery for an unknown webhook. */
    method Enqueue(id: nat, now: int) returns (ok: bool)
      modifies this`rows, this`nextRow
      ensures ok <==> id in hooks
      ensures Tables() == Step(old(Tables()), Event.Enqueue(id, now))
    {
      ok := id in hooks;
      if ok {
        rows := rows[nextRow := Delivery(id, Pending, 0, now, 0, None)];
        nextRow := nextRow + 1;
      }
    }

    method Due(now: int, limit: nat) returns (ids: seq<nat>)
      ensures Lowest(ids, DueRows(Tables(), now), limit)
    {
      var due := set r | r in rows && rows[r].status == Pending && rows[r].nextAttempt <= now
                         && rows[r].hook in hooks && hooks[rows[r].hook].active;
      assert due == DueRows(Tables(), now);
      ids := TakeLowest(due, limit);
    }

    /** Marks a delivery done and resets the webhook's failure count. */
    method RecordDelivered(r: nat, now: int)
      requires Retryable(Tables(), r, now)
      modifies this`rows, this`hooks
      ensures Tables() == Step(old(Tables()), Attempt(r, now, true))
    {
      var d := rows[r];
      rows := rows[r := d.(status := Delivered, attempts := d.attempts + 1, doneAt := now,
                           firstTry := if d.firstTry.None? then Some(now) else d.firstTry)];
      hooks := hooks[d.hook := hooks[d.hook].(failCount := 0)];
    }

    /** Records a failed attempt; no `next` means giving up. Disables the webhook at the limit. */
    method RecordFailed(r: nat, next: Option<int>, now: int) returns (disabled: bool)
      requires Retryable(Tables(), r, now)
      modifies this`rows, this`hooks
      ensures rows == old(rows)[r := Retried(old(rows)[r], next, now)]
      ensures hooks == old(hooks)[rows[r].hook := FailedHook(old(hooks)[rows[r].hook])]
      ensures disabled <==> hooks[rows[r].hook].failCount >= DISABLE_AFTER
    {
      var d := rows[r];
      rows := rows[r := Retried(d, next, now)];
      var w := hooks[d.hook].(failCount := hooks[d.hook].failCount + 1);
      disabled := w.failCount >= DISABLE_AFTER;
      if disabled {
        w := w.(active := false);
      }
      hooks := hooks[d.hook := w];
    }

    method PruneRows(deliveredBefore: int, failedBefore: int)
      modifies this`rows
      ensures Tables() == Step(old(Tables()), Prune(deliveredBefore, failedBefore))
    {
      rows := map r | r in rows
        && !(rows[r].status == Delivered && rows[r].doneAt < deliveredBefore)
        && !(rows[r].status == Failed && rows[r].doneAt < failedBefore) :: rows[r];
    }

    /** The outbox rows go by cascade. */
    method DeleteHook(id: nat) returns (ok: bool)
      modifies this`hooks, this`rows
      ensures ok <==> id in old(hooks)
      ensures Tables() == Step(old(Tables()), Event.DeleteHook(id))
    {
      ok := id in hooks;
      rows := map r | r in rows && rows[r].hook != id :: rows[r];
      hooks := hooks - {id};
    }

    /** One attempt: post, then record the outcome. `delivered` is the endpoint's answer. */
    method Deliver(r: nat, now: int, delivered: bool) returns (disabled: bool)
      requires Inv(Tables()) && Retryable(Tables(), r, now)
      modifies this`rows, this`hooks
      ensures Tables() == Step(old(Tables()), Attempt(r, now, delivered))
      ensures Inv(Tables()) && rows[r].hook == old(rows)[r].hook && hooks.Keys == old(hooks).Keys
      ensures forall h :: h in hooks && h != rows[r].hook ==> hooks[h] == old(hooks)[h]
      ensures old(hooks)[rows[r].hook].active ==> (disabled <==> !hooks[rows[r].hook].active)
    {
      StepKeepsInv(Tables(), Attempt(r, now, delivered));
      disabled := false;
      if delivered {
        RecordDelivered(r, now);
      } else {
        var next := None;
        if rows[r].attempts + 1 < MAX_ATTEMPTS {
          var wait := Backoff(rows[r].attempts + 1);
          next := Some(now + wait);
        }
        disabled := RecordFailed(r, next, now);
      }
    }

    /** Sends one batch of due rows; `answer` says what the endpoint of each row replies. */
    method RunBatch(due: seq<nat>, now: int, answer: nat -> bool) returns (sent: nat, ghost es: seq<Event>)
      requires Inv(Tables()) && due != [] && Lowest(due, DueRows(Tables(), now), BATCH_SIZE)
      modifies this`rows, this`hooks
      ensures Inv(Tables()) && Tables() == Run(old(Tables()), es)
      ensures DueRows(Tables(), now) <= DueRows(old(Tables()), now) - Elements(due)
      ensures sent == |es| && AttemptsOnce(es, now, answer) && forall i :: 0 <= i < |es| ==> es[i].row in due
    {
      ghost var s0 := Tables();
      sent, es := 0, [];
      var active: map<nat, bool> := map[];
      BatchStart(s0, due, now, answer);
      for i := 0 to |due|
        invariant BatchInv(s0, Tables(), due, i, now, es, answer) && sent == |es|
        invariant Cached(active, hooks)
      {
        var tried: bool;
        tried, active := TryRow(due[i], now, answer, active, s0, due, i, es);
        if tried {
          sent := sent + 1;
          es := es + [Attempt(due[i], now, answer(due[i]))];
        }
      }
      BatchEnd(s0, Tables(), due, now, es, answer);
    }

    /** One row of a batch: skipped when its webhook was disabled earlier in the batch. */
    method TryRow(
      r: nat, now: int, answer: nat -> bool, known: map<nat, bool>,
      ghost s0: State, ghost due: seq<nat>, ghost i: nat, ghost es: seq<Event>)
      returns (tried: bool, active: map<nat, bool>)
      requires i < |due| && r == due[i] && forall i, j :: 0 <= i < j < |due| ==> due[i] < due[j]
      requires BatchInv(s0, Tables(), due, i, now, es, answer) && Cached(known, hooks)
      modifies this`rows, this`hooks
      ensures BatchInv(s0, Tables(), due, i + 1, now, if tried then es + [Attempt(r, now, answer(r))] else es, answer)
      ensures Cached(active, hooks)
    {
      active := known;
      var h := rows[r].hook;
      if h !in active {
        active := active[h := hooks[h].active];
      }
      tried := active[h];
      if tried {
        BatchAttempt(s0, Tables(), due, i, now, es, answer);
        var disabled := Deliver(r, now, answer(r));
        if disabled {
          active := active[h := false];
        }
      } else {
        BatchSkip(s0, Tables(), due, i, now, es, answer);
      }
    }

    /**
     Sends everything due, in batches. With the clock standing still it terminates,
     tries no row twice and leaves no due delivery of an active webhook.
     */
    method RunOnce(now: int, answer: nat -> bool) returns (total: nat, ghost es: seq<Event>)
      requires Inv(Tables())
      modifies this`rows, this`hooks
      ensures Inv(Tables()) && Tables() == Run(old(Tables()), es)
      ensures forall r :: r in rows && rows[r].status == Pending && rows[r].nextAttempt <= now ==>
                !hooks[rows[r].hook].active
      ensures total == |es| && AttemptsOnce(es, now, answer)
    {
      total, es := 0, [];
      var more := true;
      while more
        invariant Inv(Tables()) && Tables() == Run(old(Tables()), es)
        invariant total == |es| && AttemptsOnce(es, now, answer)
        invariant forall k :: 0 <= k < |es| ==> es[k].row !in DueRows(Tables(), now)
        invariant !more ==> DueRows(Tables(), now) == {}
        decreases DueRows(Tables(), now), more
      {
        var due := Due(now, BATCH_SIZE);
        if due == [] {
          more := false;
        } else {
          ghost var before := DueRows(Tables(), now);
          var sent;
          ghost var batch;
          sent, batch := RunBatch(due, now, answer);
          RunConcat(old(Tables()), es, batch);
          assert due[0] in before;
          total := total + sent;
          es := es + batch;
          more := |due| == BATCH_SIZE;
        }
      }
      NoneDue(Tables(), now);
    }
  }

  lemma {:induction false} RunConcat(s: State, es: seq<Event>, more: seq<Event>)
    ensures Run(s, es + more) == Run(Run(s, es), more)
  {
    if more == [] {
      assert es + more == es;
    } else {
      var init, e := more[..|more| - 1], more[|more| - 1];
      RunConcat(s, es, init);
      RunSnoc(s, es + init, e);
      assert es + more == es + init + [e];
    }
  }
}
