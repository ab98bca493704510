/**
 Reply times (internal/intel/store.go: pairReplies). A pass reads the unpaired replies
 outside any transaction, then writes them in one, re-checking `paired`; passes of
 different processes overlap, so a pass may write what it read long ago.

 `log` lists the pairings in the order they were made. It has no table; it exists to
 say what the counters are totals of.
 */
module Replies {
  import opened Collections
  import opened Folds
  import opened Headers

  /** The columns of intel_messages that pairing uses. */
  datatype Row = Row(date: int, outgoing: bool, reply: Option<Key>, sender: Option<string>, paired: bool)

  /** reply_count, reply_total_secs and avg_reply_time of a sender. */
  datatype Stat = Stat(count: nat, total: int, avg: Option<int>)

  datatype Pair = Pair(hash: Key, gap: int, sender: string)

  type Rows = map<Key, Row>

  /******* Which gaps are reply times *******/

  const NANO: int := 1_000_000_000
  const TWO63: int := 0x8000_0000_0000_0000
  const TWO64: int := 0x1_0000_0000_0000_0000

  /** maxReplyGap: 30 days. */
  const MAX_GAP: int := 30 * 24 * 3600

  /** The longest gap whose nanoseconds fit a time.Duration: 292 years. */
  const LONGEST: int := 9_223_372_036

  /** int64 arithmetic. */
  function Wrap64(n: int): int { (n + TWO63) % TWO64 - TWO63 }

  /** The guard as written: time.Duration(gap) * time.Second > maxReplyGap wraps around. */
  predicate Accepted(gap: int) { gap >= 0 && Wrap64(gap * NANO) <= MAX_GAP * NANO }

  /** Below 292 years the guard means what it says. */
  lemma AcceptedMeaning(gap: int)
    requires gap <= LONGEST
    ensures Accepted(gap) <==> 0 <= gap <= MAX_GAP
  {
    if gap >= 0 {
      WrapShort(gap * NANO);
    }
  }

  lemma WrapShort(n: int)
    requires 0 <= n < TWO63
    ensures Wrap64(n) == n
  {
  }

  lemma WrapLong(n: int)
    requires 0 <= n
    ensures Wrap64(n) == if n % TWO64 < TWO63 then n % TWO64 else n % TWO64 - TWO64
  {
    var q, m := n / TWO64, n % TWO64;
    assert n == q * TWO64 + m;
    if m < TWO63 {
      Remainder(n + TWO63, q, m + TWO63);
    } else {
      assert n + TWO63 == (q + 1) * TWO64 + (m - TWO63);
      Remainder(n + TWO63, q + 1, m - TWO63);
    }
  }

  lemma Remainder(n: int, q: int, m: int)
    requires n == q * TWO64 + m && 0 <= m < TWO64
    ensures n % TWO64 == m
  {
    assert n / TWO64 == q;
  }

  /** The gap in nanoseconds wraps to a duration the guard lets through: at most 30 days, or negative. */
  predicate Wrapped(gap: int) {
    gap > LONGEST && !(MAX_GAP * NANO < gap * NANO % TWO64 < TWO63)
  }

  /** The guard keeps longer gaps out exactly when the product does not wrap to a short or negative duration. */
  lemma AcceptedExactly(gap: int)
    ensures (Accepted(gap) ==> 0 <= gap <= MAX_GAP) <==> !Wrapped(gap)
  {
    if gap <= LONGEST {
      AcceptedMeaning(gap);
    } else {
      WrapLong(gap * NANO);
    }
  }

  /** A reply 585 years late wraps to a third of a second, and is counted. */
  lemma WrappedGapAccepted()
    ensures Accepted(18_446_744_074) && 18_446_744_074 > MAX_GAP
  {
  }

  /******* Pairs *******/

  /** An outgoing row and the incoming one it answers, with a known sender. */
  predicate Matched(rows: Rows, k: Key) {
    && k in rows && rows[k].outgoing && rows[k].reply.Some? && rows[k].reply.value in rows
    && !rows[rows[k].reply.value].outgoing && rows[rows[k].reply.value].sender.Some?
  }

  function PairOf(rows: Rows, k: Key): Pair
    requires Matched(rows, k)
  {
    var i := rows[rows[k].reply.value];
    Pair(k, rows[k].date - i.date, i.sender.value)
  }

  /** Rows are added and marked paired; nothing else about them changes. */
  ghost predicate Follows(a: Rows, b: Rows) {
    forall k :: k in a ==> k in b && b[k] == a[k].(paired := b[k].paired) && (a[k].paired ==> b[k].paired)
  }

  lemma MatchedStays(a: Rows, b: Rows, k: Key)
    requires Follows(a, b) && Matched(a, k)
    ensures Matched(b, k) && PairOf(b, k) == PairOf(a, k)
  {
    assert k in b && a[k].reply.value in b;
  }

  /** What a pass holds between its read and its write. */
  ghost predicate Snapshot(pairs: seq<Pair>, rows: Rows) {
    forall i :: 0 <= i < |pairs| ==> Matched(rows, pairs[i].hash) && pairs[i] == PairOf(rows, pairs[i].hash)
  }

  lemma SnapshotStays(pairs: seq<Pair>, a: Rows, b: Rows)
    requires Snapshot(pairs, a) && Follows(a, b)
    ensures Snapshot(pairs, b)
  {
    forall i | 0 <= i < |pairs| ensures Matched(b, pairs[i].hash) && pairs[i] == PairOf(b, pairs[i].hash) {
      MatchedStays(a, b, pairs[i].hash);
    }
  }

  /******* Totals *******/

  datatype Tally = Tally(count: nat, total: int)

  function Add(a: Tally, b: Tally): Tally { Tally(a.count + b.count, a.total + b.total) }

  /** What one pairing adds to a sender. */
  function Contribution(item: (Key, Pair), sender: string): Tally {
    Share(item.1, Accepted(item.1.gap), sender)
  }

  function Share(p: Pair, accepted: bool, sender: string): Tally {
    if accepted && p.sender == sender then Tally(1, p.gap) else Tally(0, 0)
  }

  /** The number and the sum of the accepted gaps of a sender. */
  function Total(log: seq<(Key, Pair)>, sender: string): Tally {
    Fold(log, sender, Contribution, Add, Tally(0, 0))
  }

  /** The average is the floor of total over count. */
  function StatOf(t: Tally): Stat {
    Stat(t.count, t.total, if t.count == 0 then None else Some(t.total / t.count))
  }

  function StatAt(senders: map<string, Stat>, x: string): Stat {
    if x in senders then senders[x] else Stat(0, 0, None)
  }

  /** The log lists each paired row once, as the pair it is. */
  ghost predicate Recorded(rows: Rows, log: seq<(Key, Pair)>) {
    && Once(log)
    && (forall i :: 0 <= i < |log| ==> Listed(rows, log[i]))
    && (forall k :: k in rows && rows[k].paired ==> exists i :: 0 <= i < |log| && log[i].0 == k)
  }

  predicate Listed(rows: Rows, item: (Key, Pair)) {
    Matched(rows, item.0) && rows[item.0].paired && item.1 == PairOf(rows, item.0)
  }

  ghost predicate StatsAreTotals(senders: map<string, Stat>, log: seq<(Key, Pair)>) {
    forall x :: StatAt(senders, x) == StatOf(Total(log, x))
  }

  /** Every row's sender has a profile. */
  ghost predicate SendersKnown(rows: Rows, senders: map<string, Stat>) {
    forall k :: k in rows && rows[k].sender.Some? ==> rows[k].sender.value in senders
  }

  ghost predicate Inv(rows: Rows, senders: map<string, Stat>, log: seq<(Key, Pair)>) {
    Recorded(rows, log) && StatsAreTotals(senders, log) && SendersKnown(rows, senders)
  }

  lemma ArriveKeepsInv(rows: Rows, senders: map<string, Stat>, log: seq<(Key, Pair)>, k: Key, row: Row)
    requires Inv(rows, senders, log) && k !in rows && !row.paired
    ensures Inv(rows[k := row], Welcome(senders, row.sender), log) && Follows(rows, rows[k := row])
  {
    var next := rows[k := row];
    forall i | 0 <= i < |log| ensures Listed(next, log[i]) {
      MatchedStays(rows, next, log[i].0);
    }
  }

  /** The profile upsert that goes with a new row. */
  function Welcome(senders: map<string, Stat>, sender: Option<string>): map<string, Stat> {
    if sender.None? || sender.value in senders then senders else senders[sender.value := Stat(0, 0, None)]
  }

  function Mark(rows: Rows, k: Key): Rows
    requires k in rows
  {
    rows[k := rows[k].(paired := true)]
  }

  lemma MarkFollows(rows: Rows, k: Key)
    requires k in rows
    ensures Follows(rows, Mark(rows, k))
  {
  }

  lemma MarkRecorded(rows: Rows, log: seq<(Key, Pair)>, k: Key)
    requires Recorded(rows, log) && Matched(rows, k) && !rows[k].paired
    ensures Recorded(Mark(rows, k), log + [(k, PairOf(rows, k))])
  {
    var next, more := Mark(rows, k), log + [(k, PairOf(rows, k))];
    MarkFollows(rows, k);
    MatchedStays(rows, next, k);
    assert more[|log|] == (k, PairOf(rows, k)) && Listed(next, more[|log|]);
    forall i | 0 <= i < |log| ensures Listed(next, log[i]) && log[i].0 != k {
      assert Listed(rows, log[i]);
      MatchedStays(rows, next, log[i].0);
    }
    forall q | q in next && next[q].paired ensures exists i :: 0 <= i < |more| && more[i].0 == q {
      if q != k {
        var i :| 0 <= i < |log| && log[i].0 == q;
        assert more[i].0 == q;
      }
    }
  }

  /** One accepted gap, as the UPDATE writes it. */
  function Bumped(s: Stat, gap: int): Stat {
    Stat(s.count + 1, s.total + gap, Some((s.total + gap) / (s.count + 1)))
  }

  lemma BumpedStat(t: Tally, gap: int)
    ensures Bumped(StatOf(t), gap) == StatOf(Add(t, Tally(1, gap)))
  {
  }

  function Update(senders: map<string, Stat>, accepted: bool, p: Pair): map<string, Stat> {
    if accepted && p.sender in senders then senders[p.sender := Bumped(senders[p.sender], p.gap)] else senders
  }

  function Credit(senders: map<string, Stat>, p: Pair): map<string, Stat> {
    Update(senders, Accepted(p.gap), p)
  }

  lemma CreditTotals(senders: map<string, Stat>, log: seq<(Key, Pair)>, k: Key, p: Pair)
    requires StatsAreTotals(senders, log) && p.sender in senders
    ensures StatsAreTotals(Credit(senders, p), log + [(k, p)])
  {
    forall x ensures StatAt(Credit(senders, p), x) == StatOf(Total(log + [(k, p)], x)) {
      FoldSnoc(log, (k, p), x, Contribution, Add, Tally(0, 0));
      UpdateAt(senders, Total(log, x), Accepted(p.gap), p, x);
    }
  }

  lemma UpdateAt(senders: map<string, Stat>, t: Tally, accepted: bool, p: Pair, x: string)
    requires StatAt(senders, x) == StatOf(t) && p.sender in senders
    ensures StatAt(Update(senders, accepted, p), x) == StatOf(Add(t, Share(p, accepted, x)))
  {
    if accepted && p.sender == x {
      BumpedStat(t, p.gap);
    } else {
      assert Add(t, Tally(0, 0)) == t;
    }
  }

  /******* The tables *******/

  class Index {
    var rows: Rows
    var senders: map<string, Stat>
    ghost var log: seq<(Key, Pair)>

    ghost predicate Valid() reads this { Inv(rows, senders, log) }

    constructor ()
      ensures Valid() && rows == map[] && log == []
    {
      rows, senders, log := map[], map[], [];
    }

    /** apply indexes a message it has not seen. */
    method Arrive(k: Key, row: Row)
      requires Valid()
      modifies this
      ensures Valid() && log == old(log) && Follows(old(rows), rows)
      ensures rows == if k in old(rows) then old(rows) else old(rows)[k := row.(paired := false)]
    {
      if k !in rows {
        ArriveKeepsInv(rows, senders, log, k, row.(paired := false));
        rows, senders := rows[k := row.(paired := false)], Welcome(senders, row.sender);
      }
    }

    /** The read: every unpaired reply with the message it answers, in any order. */
    method Read() returns (pairs: seq<Pair>)
      ensures Snapshot(pairs, rows)
      ensures forall k :: Matched(rows, k) && !rows[k].paired <==> exists i :: 0 <= i < |pairs| && pairs[i].hash == k
    {
      pairs := [];
      var todo := rows.Keys;
      while todo != {}
        invariant todo <= rows.Keys
        invariant Snapshot(pairs, rows)
        invariant forall i :: 0 <= i < |pairs| ==> !rows[pairs[i].hash].paired
        invariant forall k :: k in rows.Keys - todo && Matched(rows, k) && !rows[k].paired ==> Holds(pairs, k)
        decreases todo
      {
        var k :| k in todo;
        todo := todo - {k};
        var o := rows[k];
        if o.outgoing && !o.paired && o.reply.Some? && o.reply.value in rows {
          var i := rows[o.reply.value];
          if !i.outgoing && i.sender.Some? {
            var p := Pair(k, o.date - i.date, i.sender.value);
            HoldsSnoc(pairs, p);
            pairs := pairs + [p];
          }
        }
      }
      assert forall k :: Holds(pairs, k) <==> exists i :: 0 <= i < |pairs| && pairs[i].hash == k;
    }

    /** The write transaction: each pair not paired meanwhile is marked, counted, and credited if it is a reply time. */
    method Write(pairs: seq<Pair>) returns (done: nat)
      requires Valid() && Snapshot(pairs, rows)
      modifies this
      ensures Valid() && Follows(old(rows), rows) && rows.Keys == old(rows).Keys
      ensures forall k :: k in rows ==> (rows[k].paired <==> old(rows)[k].paired || Holds(pairs, k))
      ensures |log| == |old(log)| + done
    {
      done := 0;
      ghost var start := rows;
      for n := 0 to |pairs|
        invariant WriteInv(start, rows, senders, log, pairs, n) && |log| == |old(log)| + done
      {
        var p := pairs[n];
        PairHandled(start, rows, senders, log, pairs, n);
        if !rows[p.hash].paired {
          done := done + 1;
          log := log + [(p.hash, p)];
          rows := Mark(rows, p.hash);
          senders := Credit(senders, p);
        }
      }
      assert pairs[..|pairs|] == pairs;
    }

    /** pairReplies, with nothing in between: no reply that could be paired is left. */
    method PairReplies() returns (done: nat)
      requires Valid()
      modifies this
      ensures Valid() && Follows(old(rows), rows) && |log| == |old(log)| + done && rows.Keys == old(rows).Keys
      ensures forall k :: Matched(rows, k) ==> rows[k].paired
      ensures Exact(rows, senders)
    {
      var pairs := Read();
      done := Write(pairs);
      forall k | Matched(rows, k) ensures rows[k].paired {
        assert Matched(old(rows), k);
        assert old(rows)[k].paired || exists i :: 0 <= i < |pairs| && pairs[i].hash == k;
      }
      BooksExact(rows, senders, log);
    }
  }

  ghost predicate Holds(pairs: seq<Pair>, k: Key) { exists i :: 0 <= i < |pairs| && pairs[i].hash == k }

  lemma HoldsSnoc(pairs: seq<Pair>, p: Pair)
    ensures forall k :: Holds(pairs + [p], k) <==> Holds(pairs, k) || k == p.hash
  {
    var more := pairs + [p];
    assert more[|pairs|] == p && forall i :: 0 <= i < |pairs| ==> more[i] == pairs[i];
  }

  /** The rows marked so far are those of the pairs written so far. */
  ghost predicate Written(start: Rows, rows: Rows, pairs: seq<Pair>) {
    && Follows(start, rows) && rows.Keys == start.Keys
    && forall k :: k in rows ==> (rows[k].paired <==> start[k].paired || Holds(pairs, k))
  }

  lemma WrittenSnoc(start: Rows, rows: Rows, pairs: seq<Pair>, p: Pair)
    requires Written(start, rows, pairs) && p.hash in rows
    ensures Written(start, Mark(rows, p.hash), pairs + [p])
    ensures rows[p.hash].paired ==> Mark(rows, p.hash) == rows
  {
    HoldsSnoc(pairs, p);
  }

  /** The write transaction after its first `n` pairs. */
  ghost predicate WriteInv(
    start: Rows, rows: Rows, senders: map<string, Stat>, log: seq<(Key, Pair)>, pairs: seq<Pair>, n: nat)
  {
    n <= |pairs| && Inv(rows, senders, log) && Snapshot(pairs, rows) && Written(start, rows, pairs[..n])
  }

  lemma PairHandled(
    start: Rows, rows: Rows, senders: map<string, Stat>, log: seq<(Key, Pair)>, pairs: seq<Pair>, n: nat)
    requires n < |pairs| && WriteInv(start, rows, senders, log, pairs, n)
    ensures pairs[n].hash in rows
    ensures
      var p := pairs[n];
      if rows[p.hash].paired then WriteInv(start, rows, senders, log, pairs, n + 1)
      else WriteInv(start, Mark(rows, p.hash), Credit(senders, p), log + [(p.hash, p)], pairs, n + 1)
  {
    var p := pairs[n];
    assert Matched(rows, p.hash) && p == PairOf(rows, p.hash);
    WrittenSnoc(start, rows, pairs[..n], p);
    assert pairs[..n + 1] == pairs[..n] + [p];
    if !rows[p.hash].paired {
      MarkFollows(rows, p.hash);
      SnapshotStays(pairs, rows, Mark(rows, p.hash));
      MarkRecorded(rows, log, p.hash);
      CreditTotals(senders, log, p.hash, p);
      CreditKnown(Mark(rows, p.hash), senders, p);
    }
  }

  lemma CreditKnown(rows: Rows, senders: map<string, Stat>, p: Pair)
    requires SendersKnown(rows, senders)
    ensures SendersKnown(rows, Credit(senders, p))
  {
  }

  /******* Any interleaving *******/

  /** A message arrives, a pass reads, or a pass writes what it last read. */
  datatype Step = Arrives(hash: Key, row: Row) | Reads(pass: nat) | Writes(pass: nat)

  /**
   Any number of passes, their reads and writes interleaved in any way: each reply is paired
   at most once, the passes report exactly the replies paired, and every sender's
   counters are the number, sum and floored average of the accepted gaps.
   */
  method AnyInterleaving(steps: seq<Step>)
    returns (rows: Rows, senders: map<string, Stat>, reported: nat, ghost log: seq<(Key, Pair)>)
    ensures Inv(rows, senders, log)
    ensures reported == |PairedRows(rows)|
    ensures Exact(rows, senders)
  {
    var t := new Index();
    var held: map<nat, seq<Pair>> := map[];
    reported := 0;
    for n := 0 to |steps|
      invariant t.Valid() && reported == |t.log| && AllSnapshots(held, t.rows)
    {
      ghost var was := t.rows;
      match steps[n] {
        case Arrives(k, row) =>
          t.Arrive(k, row);
          AllSnapshotsStay(held, was, t.rows);
        case Reads(pass) =>
          var pairs := t.Read();
          held := held[pass := pairs];
        case Writes(pass) =>
          if pass in held {
            var done := t.Write(held[pass]);
            reported := reported + done;
            AllSnapshotsStay(held, was, t.rows);
          }
      }
    }
    rows, senders, log := t.rows, t.senders, t.log;
    PairedCount(rows, log);
    BooksExact(rows, senders, log);
  }

  ghost predicate AllSnapshots(held: map<nat, seq<Pair>>, rows: Rows) {
    forall pass :: pass in held ==> Snapshot(held[pass], rows)
  }

  lemma AllSnapshotsStay(held: map<nat, seq<Pair>>, a: Rows, b: Rows)
    requires AllSnapshots(held, a) && Follows(a, b)
    ensures AllSnapshots(held, b)
  {
    forall pass | pass in held ensures Snapshot(held[pass], b) {
      SnapshotStays(held[pass], a, b);
    }
  }

  function PairedRows(rows: Rows): set<Key> { set k | k in rows && rows[k].paired }

  function Hashes(log: seq<(Key, Pair)>): seq<Key> {
    if log == [] then [] else Hashes(log[..|log| - 1]) + [log[|log| - 1].0]
  }

  lemma {:induction false} HashesAt(log: seq<(Key, Pair)>)
    ensures |Hashes(log)| == |log| && forall i :: 0 <= i < |log| ==> Hashes(log)[i] == log[i].0
  {
    if log != [] {
      HashesAt(log[..|log| - 1]);
    }
  }

  lemma PairedCount(rows: Rows, log: seq<(Key, Pair)>)
    requires Recorded(rows, log)
    ensures |PairedRows(rows)| == |log|
  {
    var hs := Hashes(log);
    HashesAt(log);
    assert Distinct(hs);
    DistinctSize(hs);
    assert Elements(hs) == PairedRows(rows) by {
      forall k ensures k in Elements(hs) <==> k in PairedRows(rows) {
        if k in PairedRows(rows) {
          var i :| 0 <= i < |log| && log[i].0 == k;
          assert hs[i] == k;
        }
        if k in hs {
          var i :| 0 <= i < |hs| && hs[i] == k;
          assert Listed(rows, log[i]);
        }
      }
    }
  }

  /******* What the counters say *******/

  /** How long after the message it answers a reply is dated. */
  function Delay(rows: Rows, k: Key): int {
    if k in rows && rows[k].reply.Some? && rows[k].reply.value in rows
    then rows[k].date - rows[rows[k].reply.value].date else 0
  }

  /** The paired replies to a sender that count as reply times. */
  function Credited(rows: Rows, x: string): set<Key> {
    set k | k in rows && rows[k].paired && rows[k].outgoing && rows[k].reply.Some? && rows[k].reply.value in rows
            && !rows[rows[k].reply.value].outgoing && rows[rows[k].reply.value].sender == Some(x)
            && Accepted(rows[k].date - rows[rows[k].reply.value].date)
  }

  /** Said of the columns alone: the number, the sum and the floored average of the delays. */
  ghost predicate Exact(rows: Rows, senders: map<string, Stat>) {
    var delay := k => Delay(rows, k);
    forall x :: StatAt(senders, x) == StatOf(Tally(|Credited(rows, x)|, SumOver(Credited(rows, x), delay)))
  }

  /** The logged pairs that count for a sender. */
  function LoggedFor(log: seq<(Key, Pair)>, x: string): set<Key> {
    if log == [] then {} else LoggedFor(log[..|log| - 1], x) + HitKeys(log[|log| - 1], x)
  }

  function HitKeys(item: (Key, Pair), x: string): set<Key> {
    if item.1.sender == x && Accepted(item.1.gap) then {item.0} else {}
  }

  ghost predicate SomeHit(log: seq<(Key, Pair)>, k: Key, x: string) {
    exists i :: 0 <= i < |log| && k in HitKeys(log[i], x)
  }

  lemma SomeHitSnoc(log: seq<(Key, Pair)>, k: Key, x: string)
    requires log != []
    ensures SomeHit(log, k, x) <==> SomeHit(log[..|log| - 1], k, x) || k in HitKeys(log[|log| - 1], x)
  {
    var init := log[..|log| - 1];
    if i :| 0 <= i < |init| && k in HitKeys(init[i], x) {
      assert k in HitKeys(log[i], x);
    }
    if i :| 0 <= i < |log| && k in HitKeys(log[i], x) {
      assert i < |init| ==> k in HitKeys(init[i], x);
    }
  }

  lemma {:induction false} LoggedKeys(log: seq<(Key, Pair)>, x: string, k: Key)
    ensures k in LoggedFor(log, x) <==> SomeHit(log, k, x)
  {
    if log != [] {
      LoggedKeys(log[..|log| - 1], x, k);
      SomeHitSnoc(log, k, x);
    }
  }

  lemma HitMeaning(item: (Key, Pair), k: Key, x: string)
    ensures k in HitKeys(item, x) <==> k == item.0 && item.1.sender == x && Accepted(item.1.gap)
  {
  }

  lemma TallyStep(t: Tally, s: set<Key>, k: Key, hit: bool, f: Key -> int)
    requires k !in s && t.count == |s| && t.total == SumOver(s, f)
    ensures
      var more := s + if hit then {k} else {};
      Add(t, if hit then Tally(1, f(k)) else Tally(0, 0)) == Tally(|more|, SumOver(more, f))
  {
    if hit {
      SumWith(s, k, f);
    } else {
      assert s + {} == s;
    }
  }

  /** The totals of a log over distinct keys are the size of the set and the sum over it. */
  lemma {:induction false} TotalIsSum(log: seq<(Key, Pair)>, x: string, f: Key -> int)
    requires Once(log) && forall i :: 0 <= i < |log| ==> log[i].1.gap == f(log[i].0)
    ensures Total(log, x) == Tally(|LoggedFor(log, x)|, SumOver(LoggedFor(log, x), f))
  {
    if log != [] {
      var init, item := log[..|log| - 1], log[|log| - 1];
      assert forall i :: 0 <= i < |init| ==> init[i] == log[i];
      TotalIsSum(init, x, f);
      NotLogged(log, x);
      TallyStep(Total(init, x), LoggedFor(init, x), item.0, item.1.sender == x && Accepted(item.1.gap), f);
    }
  }

  lemma NotLogged(log: seq<(Key, Pair)>, x: string)
    requires log != [] && Once(log)
    ensures log[|log| - 1].0 !in LoggedFor(log[..|log| - 1], x)
  {
    var init, k := log[..|log| - 1], log[|log| - 1].0;
    LoggedKeys(init, x, k);
    forall i | 0 <= i < |init| ensures k !in HitKeys(init[i], x) {
      HitMeaning(init[i], k, x);
      assert init[i] == log[i];
    }
  }

  /** The row of an accepted pairing with the sender. */
  predicate CreditedRow(rows: Rows, k: Key, x: string, accepted: bool) {
    && k in rows && rows[k].paired && rows[k].outgoing && rows[k].reply.Some? && rows[k].reply.value in rows
    && !rows[rows[k].reply.value].outgoing && rows[rows[k].reply.value].sender == Some(x) && accepted
  }

  lemma LoggedIsCredited(rows: Rows, log: seq<(Key, Pair)>, x: string)
    requires Recorded(rows, log)
    ensures LoggedFor(log, x) == Credited(rows, x)
  {
    forall k ensures k in LoggedFor(log, x) <==> k in Credited(rows, x) {
      LoggedKeys(log, x, k);
      CreditedMeaning(rows, k, x);
      if i :| 0 <= i < |log| && k in HitKeys(log[i], x) {
        HitMeaning(log[i], k, x);
        assert Listed(rows, log[i]);
      }
      if k in Credited(rows, x) {
        var i :| 0 <= i < |log| && log[i].0 == k;
        assert Listed(rows, log[i]);
        HitMeaning(log[i], k, x);
      }
    }
  }

  lemma CreditedMeaning(rows: Rows, k: Key, x: string)
    ensures k in Credited(rows, x) <==> CreditedRow(rows, k, x, Accepted(Delay(rows, k)))
  {
  }

  lemma BooksExact(rows: Rows, senders: map<string, Stat>, log: seq<(Key, Pair)>)
    requires Inv(rows, senders, log)
    ensures Exact(rows, senders)
  {
    var delay := k => Delay(rows, k);
    forall i | 0 <= i < |log| ensures log[i].1.gap == delay(log[i].0) {
      assert Listed(rows, log[i]);
    }
    forall x ensures StatAt(senders, x) == StatOf(Tally(|Credited(rows, x)|, SumOver(Credited(rows, x), delay))) {
      TotalIsSum(log, x, delay);
      LoggedIsCredited(rows, log, x);
    }
  }

  /** The pairings of the index, as a function of its rows. */
  function Pairings(rows: Rows): map<Key, Pair> {
    map k | k in rows && Matched(rows, k) && rows[k].paired :: PairOf(rows, k)
  }

  lemma RecordedLists(rows: Rows, log: seq<(Key, Pair)>)
    requires Recorded(rows, log)
    ensures Lists(log, Pairings(rows))
  {
    forall i | 0 <= i < |log| ensures log[i].0 in Pairings(rows) && Pairings(rows)[log[i].0] == log[i].1 {
      assert Listed(rows, log[i]);
    }
    forall k | k in Pairings(rows) ensures (k, Pairings(rows)[k]) in log {
      var i :| 0 <= i < |log| && log[i].0 == k;
      assert Listed(rows, log[i]);
    }
  }

  /** Whatever passes got there, in whatever order: equal rows have equal reply statistics. */
  lemma StatsDependOnRowsOnly(
    rows: Rows, a: map<string, Stat>, b: map<string, Stat>, log: seq<(Key, Pair)>, log': seq<(Key, Pair)>, x: string)
    requires Inv(rows, a, log) && Inv(rows, b, log')
    ensures StatAt(a, x) == StatAt(b, x)
  {
    RecordedLists(rows, log);
    RecordedLists(rows, log');
    AddCommutative();
    SameIndexSameFold(log, log', Pairings(rows), x, Contribution, Add, Tally(0, 0));
  }

  lemma AddCommutative()
    ensures Commutative(Add)
  {
    forall a, b ensures Add(a, b) == Add(b, a) {}
    forall a, b, c ensures Add(Add(a, b), c) == Add(a, Add(b, c)) {}
  }

  /** Every gap that was credited is a reply time within the 30 days. */
  ghost predicate CreditsHonest(rows: Rows) {
    forall k :: k in Pairings(rows) && Accepted(Pairings(rows)[k].gap) ==> 0 <= Pairings(rows)[k].gap <= MAX_GAP
  }

  /** No paired reply came so late that its gap wraps. */
  ghost predicate NoneWrapped(rows: Rows) {
    forall k :: k in Pairings(rows) ==> !Wrapped(Pairings(rows)[k].gap)
  }

  /** Exactly when the reply statistics are made of reply times. */
  lemma HonestExactly(rows: Rows)
    ensures CreditsHonest(rows) <==> NoneWrapped(rows)
  {
    var ps := Pairings(rows);
    forall k | k in ps ensures (Accepted(ps[k].gap) ==> 0 <= ps[k].gap <= MAX_GAP) <==> !Wrapped(ps[k].gap) {
      AcceptedExactly(ps[k].gap);
    }
  }

  ghost predicate WithinMonth(log: seq<(Key, Pair)>) {
    forall i :: 0 <= i < |log| && Accepted(log[i].1.gap) ==> log[i].1.gap <= MAX_GAP
  }

  lemma {:induction false} TotalBounds(log: seq<(Key, Pair)>, x: string)
    ensures Total(log, x).total >= 0
    ensures WithinMonth(log) ==> Total(log, x).total <= MAX_GAP * Total(log, x).count
  {
    if log != [] {
      var init, p := log[..|log| - 1], log[|log| - 1].1;
      TotalBounds(init, x);
      assert forall i :: 0 <= i < |init| ==> init[i] == log[i];
      assert WithinMonth(log) ==> WithinMonth(init);
      ShareBounds(p, Accepted(p.gap), x);
    }
  }

  lemma ShareBounds(p: Pair, accepted: bool, x: string)
    requires accepted ==> p.gap >= 0
    ensures Share(p, accepted, x).total >= 0
    ensures (accepted ==> p.gap <= MAX_GAP) ==> Share(p, accepted, x).total <= MAX_GAP * Share(p, accepted, x).count
  {
  }

  /** The average is the floor of total over count, never negative, and at most 30 days if no paired gap wraps. */
  lemma AverageBounds(rows: Rows, senders: map<string, Stat>, log: seq<(Key, Pair)>, x: string)
    requires Inv(rows, senders, log)
    ensures
      var s := StatAt(senders, x);
      && (s.avg.Some? <==> s.count > 0)
      && (s.avg.Some? ==> s.avg.value * s.count <= s.total < (s.avg.value + 1) * s.count && 0 <= s.avg.value)
      && (s.avg.Some? && NoneWrapped(rows) ==> s.avg.value <= MAX_GAP)
  {
    TotalBounds(log, x);
    HonestExactly(rows);
    RecordedLists(rows, log);
    var t := Total(log, x);
    if t.count > 0 {
      FloorBounds(t.total, t.count);
    }
  }

  lemma FloorBounds(total: int, count: int)
    requires total >= 0 && count > 0
    ensures total / count >= 0 && total / count * count <= total < (total / count + 1) * count
    ensures total <= MAX_GAP * count ==> total / count <= MAX_GAP
  {
    var a := total / count;
    assert total == a * count + total % count;
    if a > MAX_GAP {
      assert a * count >= (MAX_GAP + 1) * count;
    }
  }

  /** A question, its only answer and one pass. */
  method OneAnswer(q: Key, r: Key, asked: int, answered: int, sender: string)
    returns (t: Index, ghost before: Rows)
    requires q != r
    ensures fresh(t) && before.Keys == {q, r} && t.rows.Keys == {q, r} && Follows(before, t.rows)
    ensures before[q] == Row(asked, false, None, Some(sender), false)
    ensures before[r] == Row(answered, true, Some(q), None, false)
    ensures (forall k :: Matched(t.rows, k) ==> t.rows[k].paired) && Exact(t.rows, t.senders)
  {
    t := new Index();
    t.Arrive(q, Row(asked, false, None, Some(sender), false));
    t.Arrive(r, Row(answered, true, Some(q), None, false));
    before := t.rows;
    var _ := t.PairReplies();
  }

  /** The delay is the total and the average, if it is accepted; every delay from 0 to 30 days is. */
  method OneReply(q: Key, r: Key, sender: string, asked: int, answered: int) returns (s: Stat)
    requires q != r
    ensures 0 <= answered - asked <= 30 * 24 * 3600 ==>
              s.count == 1 && s.total == answered - asked && s.avg == Some(answered - asked)
    ensures answered < asked ==> s.count == 0 && s.avg == None
    ensures Accepted(answered - asked) ==> s == Stat(1, answered - asked, Some(answered - asked))
  {
    var t;
    ghost var before;
    t, before := OneAnswer(q, r, asked, answered, sender);
    s := StatAt(t.senders, sender);
    OneStat(before, t.rows, t.senders, q, r, sender, Accepted(answered - asked));
    AcceptedBounds(answered - asked);
  }

  lemma AcceptedBounds(gap: int)
    ensures 0 <= gap <= 30 * 24 * 3600 ==> Accepted(gap)
    ensures gap < 0 ==> !Accepted(gap)
  {
    if gap <= LONGEST {
      AcceptedMeaning(gap);
    }
  }

  lemma OneStat(
    before: Rows, rows: Rows, senders: map<string, Stat>, q: Key, r: Key, sender: string, accepted: bool)
    requires q != r && before.Keys == {q, r} && rows.Keys == {q, r} && Follows(before, rows)
    requires !before[q].outgoing && before[q].sender == Some(sender)
    requires before[r].outgoing && before[r].reply == Some(q)
    requires (forall k :: Matched(rows, k) ==> rows[k].paired) && Exact(rows, senders)
    requires accepted <==> Accepted(before[r].date - before[q].date)
    ensures
      var d := before[r].date - before[q].date;
      StatAt(senders, sender) == if accepted then Stat(1, d, Some(d)) else Stat(0, 0, None)
  {
    OnePaired(before, rows, q, r, sender, accepted);
    var delay := k => Delay(rows, k);
    SumOne(r, delay);
    assert SumOver({}, delay) == 0;
  }

  lemma SumOne(k: Key, f: Key -> int)
    ensures SumOver({k}, f) == f(k)
  {
    SumWithout({k}, k, f);
    assert {k} - {k} == {};
  }

  lemma OnePaired(before: Rows, rows: Rows, q: Key, r: Key, sender: string, accepted: bool)
    requires q != r && before.Keys == {q, r} && rows.Keys == {q, r} && Follows(before, rows)
    requires !before[q].outgoing && before[q].sender == Some(sender)
    requires before[r].outgoing && before[r].reply == Some(q)
    requires forall k :: Matched(rows, k) ==> rows[k].paired
    requires accepted <==> Accepted(before[r].date - before[q].date)
    ensures Delay(rows, r) == before[r].date - before[q].date
    ensures Credited(rows, sender) == if accepted then {r} else {}
  {
    assert Matched(rows, r);
    forall k ensures k in Credited(rows, sender) <==> k == r && accepted {
      CreditedMeaning(rows, k, sender);
    }
  }

  /** So the 30-day bound needs its condition: a reply 585 years late becomes the average. */
  method LateReply(q: Key, r: Key, sender: string) returns (s: Stat)
    requires q != r
    ensures s.count == 1 && s.avg == Some(18_446_744_074) && s.avg.value > MAX_GAP
  {
    WrappedGapAccepted();
    s := OneReply(q, r, sender, 0, 18_446_744_074);
  }
}
