/**
 The token bucket that paces backfill enrichment (internal/enrichment/gates.go).
 Time is in minutes; tokens and time are reals, so floating-point rounding is not
 modelled.
 */
module RateLimiter {
  import opened Collections

  /** `last` is None before the first call. */
  datatype Bucket = Bucket(perMinute: int, tokens: real, last: Option<real>)

  datatype Call = Call(now: real, want: nat)

  function New(perMinute: int): Bucket { Bucket(perMinute, perMinute as real, None) }

  ghost predicate Within(b: Bucket) { b.perMinute > 0 ==> 0.0 <= b.tokens <= b.perMinute as real }

  /** minutes * rate, by repeated addition; `RefillIsProduct` says so. */
  function Refill(rate: int, minutes: real): real {
    if rate <= 0 then 0.0 else Refill(rate - 1, minutes) + minutes
  }

  lemma {:induction false} RefillIsProduct(rate: int, minutes: real)
    requires rate >= 0
    ensures Refill(rate, minutes) == minutes * rate as real
  {
    if rate > 0 {
      RefillIsProduct(rate - 1, minutes);
      assert minutes * rate as real == minutes * (rate - 1) as real + minutes;
    }
  }

  lemma {:induction false} RefillAdds(rate: int, x: real, y: real)
    ensures Refill(rate, x) + Refill(rate, y) == Refill(rate, x + y)
    ensures x >= 0.0 ==> Refill(rate, x) >= 0.0
  {
    if rate > 0 {
      RefillAdds(rate - 1, x, y);
    }
  }

  /** The tokens on hand at `now`, before any are handed out. */
  function Refilled(b: Bucket, now: real): real {
    if b.last.None? then b.tokens
    else
      var t := b.tokens + Refill(b.perMinute, now - b.last.value);
      if t > b.perMinute as real then b.perMinute as real else t
  }

  predicate NotBefore(b: Bucket, now: real) { b.last.Some? ==> b.last.value <= now }

  function Granted(b: Bucket, c: Call): int {
    if b.perMinute <= 0 then c.want else Min(c.want, Refilled(b, c.now).Floor)
  }

  function Taken(b: Bucket, c: Call): Bucket {
    if b.perMinute <= 0 then b
    else b.(tokens := Refilled(b, c.now) - Granted(b, c) as real, last := Some(c.now))
  }

  class Limiter {
    const perMinute: int
    var tokens: real
    var last: Option<real>

    constructor (rate: int)
      ensures perMinute == rate && State() == New(rate)
    {
      perMinute, tokens, last := rate, rate as real, None;
    }

    function State(): Bucket
      reads this
    {
      Bucket(perMinute, tokens, last)
    }

    /** How many of `want` may proceed now. int() truncates, which is Floor here: tokens are never negative. */
    method Take(now: real, want: nat) returns (n: int)
      requires Within(State()) && NotBefore(State(), now)
      modifies this
      ensures n == Granted(old(State()), Call(now, want)) && 0 <= n <= want
      ensures State() == Taken(old(State()), Call(now, want))
      ensures Within(State())
    {
      if perMinute <= 0 {
        return want;
      }
      ghost var b := State();
      TakeWithin(b, Call(now, want));
      if last.Some? {
        tokens := tokens + Refill(perMinute, now - last.value);
        if tokens > perMinute as real {
          tokens := perMinute as real;
        }
      }
      last := Some(now);
      n := Min(want, tokens.Floor);
      tokens := tokens - n as real;
    }
  }

  lemma RefilledWithin(b: Bucket, now: real)
    requires b.perMinute > 0 && Within(b) && NotBefore(b, now)
    ensures 0.0 <= Refilled(b, now) <= b.perMinute as real
  {
    if b.last.Some? {
      RefillAdds(b.perMinute, now - b.last.value, 0.0);
    }
  }

  /** The bucket never goes below zero or above one minute's worth. */
  lemma TakeWithin(b: Bucket, c: Call)
    requires Within(b) && NotBefore(b, c.now)
    ensures Within(Taken(b, c)) && NotBefore(Taken(b, c), c.now)
    ensures 0 <= Granted(b, c) <= c.want
  {
    if b.perMinute > 0 {
      RefilledWithin(b, c.now);
    }
  }

  /******* Runs of calls *******/

  ghost predicate Ordered(calls: seq<Call>) {
    forall i, j :: 0 <= i < j < |calls| ==> calls[i].now <= calls[j].now
  }

  function After(b: Bucket, calls: seq<Call>): Bucket {
    if calls == [] then b else Taken(After(b, calls[..|calls| - 1]), calls[|calls| - 1])
  }

  function TotalGranted(b: Bucket, calls: seq<Call>): int {
    if calls == [] then 0
    else TotalGranted(b, calls[..|calls| - 1]) + Granted(After(b, calls[..|calls| - 1]), calls[|calls| - 1])
  }

  /** Every call of a run finds the bucket within its bounds. */
  lemma {:induction false} RunWithin(b: Bucket, calls: seq<Call>)
    requires b.perMinute > 0 && Within(b) && Ordered(calls) && (calls != [] ==> NotBefore(b, calls[0].now))
    ensures Within(After(b, calls)) && After(b, calls).perMinute == b.perMinute
    ensures calls != [] ==> After(b, calls).last == Some(calls[|calls| - 1].now)
  {
    if calls != [] {
      var init, c := calls[..|calls| - 1], calls[|calls| - 1];
      assert forall i :: 0 <= i < |init| ==> init[i] == calls[i];
      RunWithin(b, init);
      assert NotBefore(After(b, init), c.now);
      TakeWithin(After(b, init), c);
    }
  }

  lemma TakeSpends(b: Bucket, c: Call)
    requires b.perMinute > 0 && b.last.Some?
    ensures Granted(b, c) as real + Taken(b, c).tokens <= b.tokens + Refill(b.perMinute, c.now - b.last.value)
  {
  }

  /**
   The grants of a run, plus what is left, never exceed the tokens its first call
   found plus the refill since then.
   */
  lemma {:induction false} Budget(b: Bucket, calls: seq<Call>)
    requires b.perMinute > 0 && Within(b) && Ordered(calls)
    requires calls != [] && NotBefore(b, calls[0].now)
    ensures TotalGranted(b, calls) as real + After(b, calls).tokens
         <= Refilled(b, calls[0].now) + Refill(b.perMinute, calls[|calls| - 1].now - calls[0].now)
  {
    var init, c := calls[..|calls| - 1], calls[|calls| - 1];
    if |calls| == 1 {
      assert init == [];
      assert After(b, init) == b && TotalGranted(b, init) == 0;
      assert After(b, calls) == Taken(b, c);
      assert TotalGranted(b, calls) == Granted(b, c);
      RefillAdds(b.perMinute, 0.0, 0.0);
    } else {
      assert forall i :: 0 <= i < |init| ==> init[i] == calls[i];
      Budget(b, init);
      RunWithin(b, init);
      TakeSpends(After(b, init), c);
      RefillAdds(b.perMinute, init[|init| - 1].now - calls[0].now, c.now - init[|init| - 1].now);
    }
  }

  lemma WindowBudget(b: Bucket, calls: seq<Call>)
    requires b.perMinute > 0 && Within(b) && Ordered(calls)
    requires calls != [] && NotBefore(b, calls[0].now)
    ensures TotalGranted(b, calls) as real
         <= b.perMinute as real + Refill(b.perMinute, calls[|calls| - 1].now - calls[0].now)
  {
    Budget(b, calls);
    RunWithin(b, calls);
    RefilledWithin(b, calls[0].now);
  }

  lemma Scale(granted: int, rate: int, minutes: real)
    requires rate >= 0 && granted as real <= rate as real + Refill(rate, minutes)
    ensures granted as real <= rate as real * (1.0 + minutes)
  {
    RefillIsProduct(rate, minutes);
    assert rate as real * (1.0 + minutes) == rate as real + minutes * rate as real;
  }

  /**
   Over any calls i..j of any run that starts from a new bucket, at most perMinute
   grants plus perMinute for each minute that passed.
   */
  lemma RateHolds(perMinute: int, calls: seq<Call>, i: nat, j: nat, minutes: real)
    requires perMinute > 0 && Ordered(calls) && i <= j < |calls|
    requires minutes == calls[j].now - calls[i].now
    ensures TotalGranted(After(New(perMinute), calls[..i]), calls[i..j + 1]) as real
         <= perMinute as real * (1.0 + minutes)
  {
    var b := After(New(perMinute), calls[..i]);
    var part := calls[i..j + 1];
    RunWithin(New(perMinute), calls[..i]);
    WindowBudget(b, part);
    Scale(TotalGranted(b, part), perMinute, minutes);
  }
}
