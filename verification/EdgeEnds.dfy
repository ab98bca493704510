/**
 The two dates of one graph edge that staleness is about: last_seen, which evidence
 moves forward, and valid_to, which internal/intel/kg.go: markStale sets and clears.
 */
module EdgeEnds {
  import opened Collections

  /** What happens to an edge: evidence of some date, a mark with its cutoff, or nothing. */
  datatype Tick = Brought(date: int) | Mark(cutoff: int) | Other

  function DateOf(t: Tick): Option<int> { if t.Brought? then Some(t.date) else None }

  /** last_seen: the latest evidence brought. */
  function LastSeen(h: seq<Tick>): Option<int> {
    if h == [] then None else Later(LastSeen(h[..|h| - 1]), DateOf(h[|h| - 1]))
  }

  /** There is evidence, and all of it is older than the cutoff. */
  predicate Before(last: Option<int>, cutoff: int) { last.Some? && last.value < cutoff }

  /** The update of markStale: set from last_seen, kept, or cleared. */
  function Marked(end: Option<int>, last: Option<int>, cutoff: int): Option<int> {
    if !Before(last, cutoff) then None else if end.Some? then end else last
  }

  /** valid_to. */
  function EndOf(h: seq<Tick>): Option<int> {
    if h == [] then None
    else
      var before, t := h[..|h| - 1], h[|h| - 1];
      if t.Mark? then Marked(EndOf(before), LastSeen(before), t.cutoff) else EndOf(before)
  }

  lemma Snoc(h: seq<Tick>, t: Tick)
    ensures LastSeen(h + [t]) == Later(LastSeen(h), DateOf(t))
    ensures EndOf(h + [t]) == if t.Mark? then Marked(EndOf(h), LastSeen(h), t.cutoff) else EndOf(h)
  {
    assert (h + [t])[..|h|] == h;
  }

  /******* The value of valid_to *******/

  /** Tick `i` marked the edge as ended. */
  predicate MarkedAt(h: seq<Tick>, i: nat)
    requires i < |h|
  {
    h[i].Mark? && EndOf(h[..i]).None? && Before(LastSeen(h[..i]), h[i].cutoff)
  }

  /** Tick `j` is no mark that found newer evidence and cleared the end. */
  predicate Keeps(h: seq<Tick>, j: nat)
    requires j < |h|
  {
    h[j].Mark? ==> Before(LastSeen(h[..j]), h[j].cutoff)
  }

  ghost predicate EndedSince(h: seq<Tick>, i: nat)
    requires i < |h|
  {
    MarkedAt(h, i) && forall j :: i < j < |h| ==> Keeps(h, j)
  }

  ghost predicate Ended(h: seq<Tick>) { exists i :: 0 <= i < |h| && EndedSince(h, i) }

  lemma EndedLonger(h: seq<Tick>, i: nat)
    requires i < |h| - 1
    ensures EndedSince(h, i) <==> EndedSince(h[..|h| - 1], i) && Keeps(h, |h| - 1)
  {
    var before := h[..|h| - 1];
    forall j | i <= j < |before|
      ensures (MarkedAt(before, j) <==> MarkedAt(h, j)) && (Keeps(before, j) <==> Keeps(h, j))
    {
      assert before[..j] == h[..j];
    }
  }

  /** valid_to is set exactly while the first mark has not been cleared. */
  lemma {:induction false} EndExactly(h: seq<Tick>)
    ensures EndOf(h).Some? <==> Ended(h)
  {
    if h != [] {
      var before, n := h[..|h| - 1], |h| - 1;
      EndExactly(before);
      if Ended(h) {
        var i :| 0 <= i < |h| && EndedSince(h, i);
        if i < n {
          EndedLonger(h, i);
        }
      }
      if Ended(before) && Keeps(h, n) {
        var i :| 0 <= i < |before| && EndedSince(before, i);
        EndedLonger(h, i);
      }
      assert MarkedAt(h, n) ==> EndedSince(h, n);
    }
  }

  /** It is the last_seen of the moment of that mark. */
  lemma {:induction false} EndValue(h: seq<Tick>, i: nat)
    requires i < |h| && EndedSince(h, i)
    ensures EndOf(h) == LastSeen(h[..i])
    decreases |h|
  {
    var before := h[..|h| - 1];
    if i < |before| {
      EndedLonger(h, i);
      EndValue(before, i);
      assert before[..i] == h[..i];
    }
  }

  /******* When it lags behind last_seen *******/

  predicate Newer(d: Option<int>, start: Option<int>) { d.Some? && (start.None? || d.value > start.value) }

  /** From tick `i` on, evidence newer than all before it was brought. */
  ghost predicate NewerSince(h: seq<Tick>, i: nat)
    requires i <= |h|
  {
    exists j :: i <= j < |h| && Newer(DateOf(h[j]), LastSeen(h[..i]))
  }

  lemma LaterMoves(start: Option<int>, mid: Option<int>, d: Option<int>)
    requires mid == Later(start, mid)
    ensures Later(mid, d) == Later(start, Later(mid, d))
    ensures Later(mid, d) != start <==> mid != start || Newer(d, start)
  {
  }

  /** last_seen moves forward only, and only by newer evidence. */
  lemma {:induction false} NewerExactly(h: seq<Tick>, i: nat)
    requires i <= |h|
    ensures LastSeen(h) == Later(LastSeen(h[..i]), LastSeen(h))
    ensures LastSeen(h) != LastSeen(h[..i]) <==> NewerSince(h, i)
    decreases |h|
  {
    if i == |h| {
      assert h[..i] == h;
    } else {
      var before, n := h[..|h| - 1], |h| - 1;
      assert before[..i] == h[..i];
      NewerExactly(before, i);
      LaterMoves(LastSeen(h[..i]), LastSeen(before), DateOf(h[n]));
      assert forall j :: i <= j < n ==> before[j] == h[j];
      assert NewerSince(h, i) <==> NewerSince(before, i) || Newer(DateOf(h[n]), LastSeen(h[..i])) by {
        if NewerSince(before, i) {
          var j :| i <= j < n && Newer(DateOf(before[j]), LastSeen(h[..i]));
          assert Newer(DateOf(h[j]), LastSeen(h[..i]));
        }
      }
    }
  }

  /** valid_to is set, but not to last_seen. */
  predicate Lags(h: seq<Tick>) { EndOf(h).Some? && EndOf(h) != LastSeen(h) }

  /** Newer evidence came after the mark that still stands. */
  ghost predicate NewerThanMark(h: seq<Tick>) {
    exists i :: 0 <= i < |h| && EndedSince(h, i) && NewerSince(h, i)
  }

  /** Exactly when valid_to lags: newer evidence came after the first mark, and no later mark cleared the end. */
  lemma LagsExactly(h: seq<Tick>)
    ensures Lags(h) <==> NewerThanMark(h)
  {
    EndExactly(h);
    forall i | 0 <= i < |h| && EndedSince(h, i) ensures Lags(h) <==> NewerSince(h, i) {
      EndValue(h, i);
      NewerExactly(h, i);
    }
  }
}
