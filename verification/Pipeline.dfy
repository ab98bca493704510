/**
 One batch of the enrichment pipeline (internal/enrichment/pipeline.go): the choice of
 rows from the two lanes, the gates and the rate limit on backfill, and the concurrent
 processing of each lane. Times are unix seconds.
 */
module Pipeline {
  import opened Collections
  import opened EnrichmentQueue
  import opened RateLimiter

  datatype Outcome = Enriched | Transient | Permanent

  /** Pending rows of a lane. */
  function Waiting(rows: Rows, lane: Lane): set<nat> {
    set r | r in rows && rows[r].status == Pending && rows[r].lane == lane
  }

  /** ORDER BY queued_at, id. */
  predicate Before(rows: Rows, a: nat, b: nat)
    requires a in rows && b in rows
  {
    rows[a].queuedAt < rows[b].queuedAt || (rows[a].queuedAt == rows[b].queuedAt && a < b)
  }

  /** `items` are the first of `from` in queue order, at most `limit` of them. */
  ghost predicate Oldest(rows: Rows, items: seq<nat>, from: set<nat>, limit: nat) {
    && from <= rows.Keys
    && (forall i :: 0 <= i < |items| ==> items[i] in from)
    && (forall i, j :: 0 <= i < j < |items| ==> Before(rows, items[i], items[j]))
    && |items| <= limit
    && (|items| < limit ==> from <= Elements(items))
    && (forall i, r :: 0 <= i < |items| && r in from && r !in items ==> Before(rows, items[i], r))
  }

  method OldestOf(rows: Rows, from: set<nat>) returns (m: nat)
    requires from != {} && from <= rows.Keys
    ensures m in from && forall r :: r in from && r != m ==> Before(rows, m, r)
  {
    m :| m in from;
    var rest := from - {m};
    while rest != {}
      invariant rest <= from && m in from && m !in rest
      invariant forall r :: r in from && r !in rest && r != m ==> Before(rows, m, r)
    {
      var r :| r in rest;
      rest := rest - {r};
      if rows[r].queuedAt < rows[m].queuedAt || (rows[r].queuedAt == rows[m].queuedAt && r < m) {
        m := r;
      }
    }
  }

  method SelectLane(rows: Rows, lane: Lane, limit: nat) returns (items: seq<nat>)
    ensures Oldest(rows, items, Waiting(rows, lane), limit)
  {
    items := [];
    var left := set r | r in rows && rows[r].status == Pending && rows[r].lane == lane;
    while |items| < limit && left != {}
      invariant |items| <= limit && left <= Waiting(rows, lane)
      invariant forall i :: 0 <= i < |items| ==> items[i] in Waiting(rows, lane) && items[i] !in left
      invariant forall r :: r in Waiting(rows, lane) && r !in left ==> r in items
      invariant forall i, j :: 0 <= i < j < |items| ==> Before(rows, items[i], items[j])
      invariant forall i, r :: 0 <= i < |items| && r in left ==> Before(rows, items[i], r)
      decreases left
    {
      var m := OldestOf(rows, left);
      items := items + [m];
      left := left - {m};
    }
  }

  /** 5 s doubled per consecutive failure, capped. */
  function BackoffFor(failures: nat, limit: nat): nat
    requires failures >= 1
  {
    Min(Shifted(Min(failures - 1, 16)) * 5, limit)
  }

  function Shifted(n: nat): nat { if n == 0 then 1 else 2 * Shifted(n - 1) }

  /** The backoff starts at 5 s and doubles with each failure up to the 17th, within the limit. */
  lemma BackoffDoubles(failures: nat, limit: nat)
    requires failures >= 1
    ensures BackoffFor(1, limit) == Min(5, limit)
    ensures BackoffFor(failures + 1, limit)
         == if failures <= 16 then Min(2 * BackoffFor(failures, limit), limit) else BackoffFor(failures, limit)
  {
    assert Shifted(0) == 1;
  }

  /** What one run does to a claimed row: one more attempt, and the status its outcome calls for. */
  predicate Settled(before: Row, after: Row, outcome: Outcome, maxAttempts: nat) {
    && after.attempts == before.attempts + 1
    && after.status == (if outcome == Enriched then Done
                        else if before.attempts + 1 >= maxAttempts then Error else Pending)
    && after.lane == before.lane && after.queuedAt == before.queuedAt && after.interrupts == before.interrupts
  }

  /** The items that were enriched. */
  function Winners(items: set<nat>, outcome: nat -> Outcome): set<nat> {
    set r | r in items && outcome(r) == Enriched
  }

  lemma WinnersMore(items: set<nat>, r: nat, outcome: nat -> Outcome)
    requires r !in items
    ensures |Winners(items + {r}, outcome)| == |Winners(items, outcome)| + (if outcome(r) == Enriched then 1 else 0)
  {
    var won := if outcome(r) == Enriched then {r} else {};
    assert Winners(items + {r}, outcome) == Winners(items, outcome) + won;
  }

  /** The claimed items are as their claim or their outcome left them. */
  ghost predicate Outcomes(
    rows0: Rows, rows: Rows, maxAttempts: nat, items: seq<nat>, next: nat, running: set<nat>, outcome: nat -> Outcome)
  {
    && next <= |items| && rows.Keys == rows0.Keys
    && (forall k :: 0 <= k < |items| ==> items[k] in rows0)
    && (forall k :: next <= k < |items| ==> rows[items[k]] == rows0[items[k]])
    && (forall k :: 0 <= k < next ==>
          if items[k] in running then rows[items[k]] == Started(rows0[items[k]])
          else Settled(rows0[items[k]], rows[items[k]], outcome(items[k]), maxAttempts))
  }

  /** The items that are done: claimed and no longer running. */
  function Finished(items: seq<nat>, next: nat, running: set<nat>): set<nat>
    requires next <= |items|
  {
    Elements(items[..next]) - running
  }

  lemma OutcomesStart(
    rows0: Rows, rows: Rows, maxAttempts: nat, items: seq<nat>, next: nat, running: set<nat>, outcome: nat -> Outcome)
    requires Distinct(items) && next < |items| && items[next] !in running
    requires Outcomes(rows0, rows, maxAttempts, items, next, running, outcome)
    ensures Outcomes(rows0, rows[items[next] := Started(rows[items[next]])], maxAttempts, items, next + 1,
                     running + {items[next]}, outcome)
    ensures Finished(items, next + 1, running + {items[next]}) == Finished(items, next, running)
  {
    assert items[..next + 1] == items[..next] + [items[next]];
  }

  lemma OutcomesFinish(
    rows0: Rows, rows: Rows, after: Rows, maxAttempts: nat, items: seq<nat>, next: nat, running: set<nat>, r: nat,
    outcome: nat -> Outcome)
    requires Distinct(items) && r in running && r in items && r in rows && rows[r].status == Processing
    requires Outcomes(rows0, rows, maxAttempts, items, next, running, outcome)
    requires forall k :: next <= k < |items| ==> items[k] !in running
    requires after == Step(rows, maxAttempts, if outcome(r) == Enriched then Succeed(r) else Fail(r))
    ensures Outcomes(rows0, after, maxAttempts, items, next, running - {r}, outcome)
    ensures Finished(items, next, running - {r}) == Finished(items, next, running) + {r}
    ensures r !in Finished(items, next, running)
  {
    var i :| 0 <= i < |items| && items[i] == r;
    assert i < next && items[..next][i] == r;
  }

  /** Every event of a group concerns one of its items. */
  ghost predicate About(es: seq<Event>, items: seq<nat>) {
    forall i :: 0 <= i < |es| ==> (es[i].Start? || es[i].Succeed? || es[i].Fail?) && es[i].row in items
  }

  /** Where a group stands: the first `next` items were claimed and `running` are still in flight. */
  ghost predicate GroupInv(
    rows0: Rows, rows: Rows, maxAttempts: nat, items: seq<nat>, next: nat, running: set<nat>, es: seq<Event>)
  {
    && next <= |items|
    && rows == Run(rows0, maxAttempts, es) && rows.Keys == rows0.Keys
    && About(es, items)
    && (forall k :: 0 <= k < |items| ==> items[k] in rows)
    && (forall k :: next <= k < |items| ==> rows[items[k]].status == Pending && items[k] !in running)
    && (forall k :: 0 <= k < next ==> (rows[items[k]].status == Processing <==> items[k] in running))
    && (forall r :: r in running ==> r in rows && r in items && rows[r].status == Processing)
    && (forall r :: r in rows && r !in items ==> rows[r] == rows0[r])
  }

  lemma GroupStart(
    rows0: Rows, rows: Rows, maxAttempts: nat, items: seq<nat>, next: nat, running: set<nat>, es: seq<Event>)
    requires Distinct(items) && next < |items| && GroupInv(rows0, rows, maxAttempts, items, next, running, es)
    ensures GroupInv(rows0, rows[items[next] := Started(rows[items[next]])], maxAttempts, items, next + 1,
                     running + {items[next]}, es + [Start(items[next])])
  {
    RunSnoc(rows0, maxAttempts, es, Start(items[next]));
  }

  lemma GroupFinish(
    rows0: Rows, rows: Rows, maxAttempts: nat, items: seq<nat>, next: nat, running: set<nat>, es: seq<Event>,
    r: nat, ok: bool)
    requires Distinct(items) && r in running && GroupInv(rows0, rows, maxAttempts, items, next, running, es)
    ensures
      var e := if ok then Succeed(r) else Fail(r);
      GroupInv(rows0, Step(rows, maxAttempts, e), maxAttempts, items, next, running - {r}, es + [e])
  {
    RunSnoc(rows0, maxAttempts, es, if ok then Succeed(r) else Fail(r));
  }

  /** A group under way, with its outcomes so far and their count. */
  ghost predicate Going(
    rows0: Rows, rows: Rows, maxAttempts: nat, items: seq<nat>, next: nat, running: set<nat>, es: seq<Event>,
    outcome: nat -> Outcome, ok: nat)
  {
    && GroupInv(rows0, rows, maxAttempts, items, next, running, es)
    && Outcomes(rows0, rows, maxAttempts, items, next, running, outcome)
    && ok == |Winners(Finished(items, next, running), outcome)|
  }

  lemma GoingStart(rows: Rows, maxAttempts: nat, items: seq<nat>, outcome: nat -> Outcome)
    requires forall k :: 0 <= k < |items| ==> items[k] in rows && rows[items[k]].status == Pending
    ensures Going(rows, rows, maxAttempts, items, 0, {}, [], outcome, 0)
  {
    assert Winners(Finished(items, 0, {}), outcome) == {};
  }

  lemma GoingClaim(
    rows0: Rows, rows: Rows, maxAttempts: nat, items: seq<nat>, next: nat, running: set<nat>, es: seq<Event>,
    outcome: nat -> Outcome, ok: nat)
    requires Distinct(items) && next < |items|
    requires Going(rows0, rows, maxAttempts, items, next, running, es, outcome, ok)
    ensures Going(rows0, rows[items[next] := Started(rows[items[next]])], maxAttempts, items, next + 1,
                  running + {items[next]}, es + [Start(items[next])], outcome, ok)
  {
    OutcomesStart(rows0, rows, maxAttempts, items, next, running, outcome);
    GroupStart(rows0, rows, maxAttempts, items, next, running, es);
  }

  lemma GoingDone(
    rows0: Rows, rows: Rows, maxAttempts: nat, items: seq<nat>, next: nat, running: set<nat>, es: seq<Event>,
    outcome: nat -> Outcome, ok: nat, r: nat)
    requires Distinct(items) && r in running
    requires Going(rows0, rows, maxAttempts, items, next, running, es, outcome, ok)
    ensures
      var e := if outcome(r) == Enriched then Succeed(r) else Fail(r);
      Going(rows0, Step(rows, maxAttempts, e), maxAttempts, items, next, running - {r}, es + [e], outcome,
            ok + if outcome(r) == Enriched then 1 else 0)
  {
    var e := if outcome(r) == Enriched then Succeed(r) else Fail(r);
    OutcomesFinish(rows0, rows, Step(rows, maxAttempts, e), maxAttempts, items, next, running, r, outcome);
    WinnersMore(Finished(items, next, running), r, outcome);
    GroupFinish(rows0, rows, maxAttempts, items, next, running, es, r, outcome(r) == Enriched);
  }

  /** What a group leaves: each item settled, the others as they were. */
  ghost predicate GroupResult(
    rows0: Rows, rows: Rows, maxAttempts: nat, items: seq<nat>, es: seq<Event>, outcome: nat -> Outcome, ok: nat)
  {
    && rows == Run(rows0, maxAttempts, es) && About(es, items) && rows.Keys == rows0.Keys
    && (forall k :: 0 <= k < |items| ==>
          items[k] in rows0 && Settled(rows0[items[k]], rows[items[k]], outcome(items[k]), maxAttempts))
    && ok == |Winners(Elements(items), outcome)|
    && (forall r :: r in rows && r !in items ==> rows[r] == rows0[r])
  }

  lemma GoingEnd(
    rows0: Rows, rows: Rows, maxAttempts: nat, items: seq<nat>, es: seq<Event>, outcome: nat -> Outcome, ok: nat)
    requires Going(rows0, rows, maxAttempts, items, |items|, {}, es, outcome, ok)
    ensures GroupResult(rows0, rows, maxAttempts, items, es, outcome, ok)
  {
    assert items[..|items|] == items && Elements(items) - {} == Elements(items);
  }

  /** Both groups of a batch together. */
  ghost predicate BatchResult(
    rows0: Rows, rows: Rows, maxAttempts: nat, recent: seq<nat>, older: seq<nat>, outcome: nat -> Outcome, ok: nat)
  {
    && rows.Keys == rows0.Keys
    && (forall r :: (r in recent || r in older) ==> r in rows0 && Settled(rows0[r], rows[r], outcome(r), maxAttempts))
    && (forall r :: r in rows0 && r !in recent && r !in older ==> rows[r] == rows0[r])
    && ok == |Winners(Elements(recent), outcome)| + |Winners(Elements(older), outcome)|
  }

  lemma TwoGroups(
    rows0: Rows, mid: Rows, rows: Rows, maxAttempts: nat, recent: seq<nat>, older: seq<nat>, first: seq<Event>,
    second: seq<Event>, outcome: nat -> Outcome, ok: nat, more: nat)
    requires forall i :: 0 <= i < |older| ==> older[i] !in recent
    requires GroupResult(rows0, mid, maxAttempts, recent, first, outcome, ok)
    requires GroupResult(mid, rows, maxAttempts, older, second, outcome, more)
    ensures BatchResult(rows0, rows, maxAttempts, recent, older, outcome, ok + more)
    ensures rows == Run(rows0, maxAttempts, first + second)
  {
    RunConcat(rows0, maxAttempts, first, second);
    forall r | r in recent || r in older ensures r in rows0 && Settled(rows0[r], rows[r], outcome(r), maxAttempts) {
      if r in recent {
        var k :| 0 <= k < |recent| && recent[k] == r;
        assert r !in older;
      } else {
        var k :| 0 <= k < |older| && older[k] == r;
      }
    }
  }

  lemma NoBatch(rows: Rows, maxAttempts: nat, outcome: nat -> Outcome)
    ensures BatchResult(rows, rows, maxAttempts, [], [], outcome, 0)
  {
    assert Winners(Elements([]), outcome) == {};
  }

  class Worker {
    const batchSize: int
    const maxAttempts: nat
    const backoffMax: nat
    const limiter: Limiter
    var rows: Rows
    var failures: nat
    var backoffUntil: int
    var paused: Option<string>

    constructor (batch: int, attempts: int, backoff: int, l: Limiter)
      ensures limiter == l && batchSize == Max(batch, 1) && maxAttempts == Max(attempts, 1)
      ensures backoffMax == Max(backoff, 1) && rows == map[] && failures == 0 && backoffUntil == 0 && paused == None
    {
      batchSize, maxAttempts, backoffMax, limiter := Max(batch, 1), Max(attempts, 1), Max(backoff, 1), l;
      rows, failures, backoffUntil, paused := map[], 0, 0, None;
    }

    /** Startup: what a crash left claimed goes back to the queue. */
    method RequeueInterrupted()
      modifies this`rows
      ensures rows == Step(old(rows), maxAttempts, Restart)
    {
      rows := map r | r in rows ::
        if rows[r].status == Processing then rows[r].(status := Pending, interrupts := rows[r].interrupts + 1)
        else rows[r];
    }

    /** Asks the gates in order; the first refusal pauses backfill. */
    method BackfillAllowed(gates: seq<Option<string>>) returns (allowed: bool)
      modifies this`paused
      ensures allowed <==> forall i :: 0 <= i < |gates| ==> gates[i] == None
      ensures allowed <==> paused == None
      ensures paused.Some? ==> exists i :: 0 <= i < |gates| && gates[i] == paused
    {
      paused := None;
      for i := 0 to |gates|
        invariant paused == None && forall k :: 0 <= k < i ==> gates[k] == None
      {
        if gates[i] != None {
          paused := gates[i];
          return false;
        }
      }
      allowed := true;
    }

    method ClaimRow(r: nat)
      requires r in rows
      modifies this`rows
      ensures rows == old(rows)[r := Started(old(rows)[r])]
    {
      rows := rows[r := rows[r].(status := Processing, attempts := rows[r].attempts + 1)];
    }

    /** Records the outcome of one claimed row. */
    method Finish(r: nat, outcome: Outcome, now: int)
      requires r in rows && rows[r].status == Processing
      modifies this`rows, this`failures, this`backoffUntil
      ensures rows == Step(old(rows), maxAttempts, if outcome == Enriched then Succeed(r) else Fail(r))
      ensures outcome == Enriched ==> failures == 0 && backoffUntil == 0
      ensures outcome == Transient ==>
                failures == old(failures) + 1
                && backoffUntil == Max(old(backoffUntil), now + BackoffFor(failures, backoffMax))
      ensures outcome == Permanent ==> failures == old(failures) && backoffUntil == old(backoffUntil)
    {
      if outcome == Enriched {
        failures, backoffUntil := 0, 0;
        rows := rows[r := rows[r].(status := Done)];
      } else {
        if rows[r].attempts >= maxAttempts {
          rows := rows[r := rows[r].(status := Error)];
        } else {
          rows := rows[r := rows[r].(status := Pending)];
        }
        if outcome == Transient {
          failures := failures + 1;
          var until := now + BackoffFor(failures, backoffMax);
          if until > backoffUntil {
            backoffUntil := until;
          }
        }
      }
    }

    /** Claims the next item of a group. */
    method ClaimNext(
      items: seq<nat>, next: nat, running: set<nat>, outcome: nat -> Outcome, ok: nat,
      ghost rows0: Rows, ghost es: seq<Event>)
      returns (next': nat, running': set<nat>, ghost es': seq<Event>)
      requires Distinct(items) && next < |items|
      requires Going(rows0, rows, maxAttempts, items, next, running, es, outcome, ok)
      modifies this`rows
      ensures Going(rows0, rows, maxAttempts, items, next', running', es', outcome, ok) && next' == next + 1
    {
      GoingClaim(rows0, rows, maxAttempts, items, next, running, es, outcome, ok);
      ClaimRow(items[next]);
      next', running', es' := next + 1, running + {items[next]}, es + [Start(items[next])];
    }

    /** Handles one claimed item of a group. */
    method Handle(
      r: nat, now: int, items: seq<nat>, next: nat, running: set<nat>, outcome: nat -> Outcome, ok: nat,
      ghost rows0: Rows, ghost es: seq<Event>)
      returns (running': set<nat>, ok': nat, ghost es': seq<Event>)
      requires Distinct(items) && r in running
      requires Going(rows0, rows, maxAttempts, items, next, running, es, outcome, ok)
      modifies this`rows, this`failures, this`backoffUntil
      ensures Going(rows0, rows, maxAttempts, items, next, running', es', outcome, ok') && running' == running - {r}
    {
      GoingDone(rows0, rows, maxAttempts, items, next, running, es, outcome, ok, r);
      Finish(r, outcome(r), now);
      running', es' := running - {r}, es + [if outcome(r) == Enriched then Succeed(r) else Fail(r)];
      ok' := if outcome(r) == Enriched then ok + 1 else ok;
    }

    /** Claims the items in order while earlier ones finish in any order. */
    method ProcessGroup(items: seq<nat>, now: int, outcome: nat -> Outcome) returns (ok: nat, ghost es: seq<Event>)
      requires Distinct(items) && forall k :: 0 <= k < |items| ==> items[k] in rows && rows[items[k]].status == Pending
      modifies this`rows, this`failures, this`backoffUntil
      ensures GroupResult(old(rows), rows, maxAttempts, items, es, outcome, ok)
    {
      ghost var rows0 := rows;
      ok, es := 0, [];
      var next := 0;
      var running: set<nat> := {};
      GoingStart(rows, maxAttempts, items, outcome);
      while next < |items| || running != {}
        invariant Going(rows0, rows, maxAttempts, items, next, running, es, outcome, ok)
        decreases |items| - next, running
      {
        var claim: bool := *;
        if next < |items| && (claim || running == {}) {
          next, running, es := ClaimNext(items, next, running, outcome, ok, rows0, es);
        } else {
          var r :| r in running;
          running, ok, es := Handle(r, now, items, next, running, outcome, ok, rows0, es);
        }
      }
      GoingEnd(rows0, rows, maxAttempts, items, es, outcome, ok);
    }

    function BatchFor(forced: nat): nat { if forced > 0 then forced else Max(batchSize, 1) }

    /** Picks a batch: new mail first, backfill only in the room left and only if it may run. */
    method Choose(now: real, forced: nat, gates: seq<Option<string>>) returns (recent: seq<nat>, older: seq<nat>)
      requires Within(limiter.State()) && NotBefore(limiter.State(), now)
      modifies this`paused, limiter
      ensures Within(limiter.State()) && NotBefore(limiter.State(), now)
      ensures ChoiceOk(rows, recent, older, BatchFor(forced),
                       Quota(old(limiter.State()), now, forced, gates, BatchFor(forced) - |recent|))
    {
      var batch := Max(batchSize, 1);
      if forced > 0 {
        batch := forced;
      }
      older := [];
      recent := SelectLane(rows, NewMail, batch);
      var room := batch - |recent|;
      if room > 0 {
        var allowed := forced > 0;
        if !allowed {
          allowed := BackfillAllowed(gates);
        }
        if allowed {
          var n := room;
          if forced == 0 {
            TakeWithin(limiter.State(), Call(now, room));
            n := limiter.Take(now, room);
          }
          if n > 0 {
            older := SelectLane(rows, Backfill, n);
          }
        }
      }
    }

    /**
     One run. The new-mail rows all finish before the first backfill row is claimed, a
     backfill row runs only when every waiting new-mail row is in the batch, and nothing
     runs during a backoff, forced or not. Every row of the batch gets one attempt and the
     status its outcome calls for; the result counts the enriched ones.
     */
    method RunOnce(now: int, forced: nat, gates: seq<Option<string>>, outcome: nat -> Outcome)
      returns (
        ok: nat, ghost recent: seq<nat>, ghost older: seq<nat>, ghost first: seq<Event>, ghost second: seq<Event>)
      requires Within(limiter.State()) && NotBefore(limiter.State(), Minutes(now))
      modifies this`rows, this`failures, this`backoffUntil, this`paused, limiter
      ensures Within(limiter.State()) && NotBefore(limiter.State(), Minutes(now))
      ensures rows == Run(old(rows), maxAttempts, first + second) && About(first, recent) && About(second, older)
      ensures old(backoffUntil) > now ==> recent == [] && older == [] && rows == old(rows)
      ensures old(backoffUntil) <= now ==>
                ChoiceOk(old(rows), recent, older, BatchFor(forced),
                         Quota(old(limiter.State()), Minutes(now), forced, gates, BatchFor(forced) - |recent|))
      ensures forced == 0 && older != [] ==> forall i :: 0 <= i < |gates| ==> gates[i] == None
      ensures BatchResult(old(rows), rows, maxAttempts, recent, older, outcome, ok)
      ensures (forall r :: r in old(rows) ==> old(rows)[r].status != Processing)
          ==> forall r :: r in rows ==> rows[r].status != Processing
    {
      ok, recent, older, first, second := 0, [], [], [], [];
      NoBatch(rows, maxAttempts, outcome);
      if backoffUntil > now {
        return;
      }
      var a, b := Choose(Minutes(now), forced, gates);
      recent, older := a, b;
      ghost var rows0 := rows;
      ghost var quota := Quota(old(limiter.State()), Minutes(now), forced, gates, BatchFor(forced) - |a|);
      ChoiceApart(rows, a, b, BatchFor(forced), quota);
      ok, first := ProcessGroup(a, now, outcome);
      ghost var mid := rows;
      var more;
      more, second := ProcessGroup(b, now, outcome);
      TwoGroups(rows0, mid, rows, maxAttempts, a, b, first, second, outcome, ok, more);
      ok := ok + more;
    }
  }

  function Minutes(seconds: int): real { seconds as real / 60.0 }

  /** How much backfill a batch with `room` left may take: all of it when forced, else what gates and limiter allow. */
  ghost function Quota(b: Bucket, now: real, forced: nat, gates: seq<Option<string>>, room: int): int {
    if room <= 0 then 0
    else if forced > 0 then room
    else if exists i :: 0 <= i < |gates| && gates[i] != None then 0
    else Granted(b, Call(now, room))
  }

  /** The batch: the oldest new mail, and the oldest backfill up to the quota once no new mail is left out. */
  ghost predicate ChoiceOk(rows: Rows, recent: seq<nat>, older: seq<nat>, batch: nat, quota: int) {
    && Oldest(rows, recent, Waiting(rows, NewMail), batch)
    && (older != [] ==> Waiting(rows, NewMail) <= Elements(recent))
    && |recent| + |older| <= batch
    && quota >= 0 && Oldest(rows, older, Waiting(rows, Backfill), quota)
  }

  lemma OldestDistinct(rows: Rows, items: seq<nat>, from: set<nat>, limit: nat)
    requires Oldest(rows, items, from, limit)
    ensures Distinct(items)
  {
  }

  lemma ChoiceApart(rows: Rows, recent: seq<nat>, older: seq<nat>, batch: nat, quota: nat)
    requires ChoiceOk(rows, recent, older, batch, quota)
    ensures Distinct(recent) && Distinct(older)
    ensures forall i :: 0 <= i < |recent| ==> recent[i] in rows && rows[recent[i]].status == Pending
    ensures forall i :: 0 <= i < |older| ==>
      older[i] in rows && rows[older[i]].status == Pending && older[i] !in recent
  {
    OldestDistinct(rows, recent, Waiting(rows, NewMail), batch);
    OldestDistinct(rows, older, Waiting(rows, Backfill), quota);
    assert forall i :: 0 <= i < |recent| ==> rows[recent[i]].lane == NewMail;
  }

  /******* Gates *******/

  const DAY := 1440

  /** Minute `m` of the day is inside the window, which may wrap midnight. */
  predicate WindowAllows(start: nat, end: nat, m: nat) {
    if start > end then m >= start || m < end else m >= start && m < end
  }

  /** Inside means: fewer minutes after the start than the window is long, around the clock. */
  lemma WindowMeaning(start: nat, end: nat, m: nat)
    requires start < DAY && end < DAY && m < DAY
    ensures WindowAllows(start, end, m) <==> (m - start) % DAY < (end - start) % DAY
  {
    assert (m - start) % DAY == if m >= start then m - start else m - start + DAY;
    assert (end - start) % DAY == if end >= start then end - start else end - start + DAY;
  }

  /** A gate whose verdict is kept for `ttl` seconds. `asked` is when the inner gate last answered. */
  class CachedGate {
    const ttl: int
    var asked: Option<int>
    var verdict: Option<string>

    constructor (seconds: int)
      ensures ttl == seconds && asked == None
    {
      ttl, asked, verdict := seconds, None, None;
    }

    /** `current` is what the inner gate would say now; it is asked only when the kept verdict is too old. */
    method Allow(now: int, current: Option<string>) returns (r: Option<string>)
      modifies this
      ensures r == verdict && asked.Some?
      ensures if old(asked).Some? && now - old(asked).value < ttl
              then asked == old(asked) && verdict == old(verdict)
              else asked == Some(now) && verdict == current
    {
      if asked.None? || now - asked.value >= ttl {
        verdict := current;
        asked := Some(now);
      }
      r := verdict;
    }
  }
}
