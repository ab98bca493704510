/**
 The latest message of each conversation (internal/intel/store.go: thread), with the
 dismiss and live-answered updates of internal/service/replies.go.
 */
module Threads {
  import opened Collections
  import opened Headers

  /** A copy of a person-to-person message, as the upsert sees it. */
  datatype Sight = Sight(hash: Key, date: int, outgoing: bool, counterpart: string, direct: bool, answered: bool)

  datatype Thread = Thread(
    hash: Key, date: int, outgoing: bool, counterpart: string, direct: bool, answered: bool, dismissed: Option<Key>)

  datatype Event = Seen(sight: Sight) | Dismiss | LiveAnswered(hash: Key)

  /******* Which messages count *******/

  /** The loop over To and Cc: the first address that is not the owner's, and whether one is. */
  method Correspondents(h: Header, account: string, own: Owner) returns (counterpart: string, direct: bool)
    ensures counterpart == FirstOther(Recipients(h), account, own)
    ensures direct == Direct(h, account, own)
  {
    var rs := Recipients(h);
    counterpart, direct := "", false;
    for i := 0 to |rs|
      invariant counterpart == FirstOther(rs[..i], account, own)
      invariant direct <==> exists k :: 0 <= k < i && own(account, rs[k])
    {
      FirstOtherSnoc(rs[..i], rs[i], account, own);
      assert rs[..i + 1] == rs[..i] + [rs[i]];
      if own(account, rs[i]) {
        direct := true;
      } else if counterpart == "" && rs[i] != "" {
        counterpart := rs[i];
      }
    }
    assert rs[..|rs|] == rs;
  }

  function FirstOther(rs: seq<string>, account: string, own: Owner): string {
    if rs == [] then ""
    else if rs[0] != "" && !own(account, rs[0]) then rs[0]
    else FirstOther(rs[1..], account, own)
  }

  lemma {:induction false} NoOther(rs: seq<string>, account: string, own: Owner)
    ensures FirstOther(rs, account, own) == "" <==> forall a :: a in rs ==> a == "" || own(account, a)
  {
    if rs != [] {
      NoOther(rs[1..], account, own);
      assert rs == [rs[0]] + rs[1..];
    }
  }

  lemma {:induction false} FirstOtherSnoc(rs: seq<string>, a: string, account: string, own: Owner)
    ensures FirstOther(rs + [a], account, own)
         == if FirstOther(rs, account, own) != "" then FirstOther(rs, account, own)
            else if a != "" && !own(account, a) then a else ""
  {
    if rs != [] {
      assert (rs + [a])[1..] == rs[1..] + [a];
      FirstOtherSnoc(rs[1..], a, account, own);
    } else {
      assert (rs + [a])[1..] == [];
    }
  }

  predicate Direct(h: Header, account: string, own: Owner) {
    exists i :: 0 <= i < |Recipients(h)| && own(account, Recipients(h)[i])
  }

  /** Incoming conversation, or the owner's own message to someone else, with a thread root. */
  function Counts(s: Sighting, own: Owner): Option<Sight> {
    var h := s.header;
    if !Readable(h) || ThreadRoot(h) == "" then None
    else if own(s.account, h.from) then
      var other := FirstOther(Recipients(h), s.account, own);
      if other == "" then None
      else Some(Sight(KeyOf(s), h.date.value, true, other, false, h.answered))
    else if !Conversation(h) then None
    else Some(Sight(KeyOf(s), h.date.value, false, h.from, Direct(h, s.account, own), h.answered))
  }

  /******* The upsert *******/

  /** Later, or as late and outgoing where the stored one is incoming. */
  predicate Above(date: int, outgoing: bool, date': int, outgoing': bool) {
    date > date' || (date == date' && outgoing && !outgoing')
  }

  /** The lexicographic order of date and direction. */
  lemma AboveMeaning(date: int, outgoing: bool, date': int, outgoing': bool)
    ensures Above(date, outgoing, date', outgoing')
       <==> 2 * date + (if outgoing then 1 else 0) > 2 * date' + (if outgoing' then 1 else 0)
  {
  }

  function RowOf(m: Sight, answered: bool, dismissed: Option<Key>): Thread {
    Thread(m.hash, m.date, m.outgoing, m.counterpart, m.direct, answered, dismissed)
  }

  function Take(row: Option<Thread>, m: Sight): Thread {
    match row
    case None => RowOf(m, m.answered, None)
    case Some(r) =>
      if m.hash == r.hash || Above(m.date, m.outgoing, r.date, r.outgoing)
      then RowOf(m, if m.hash == r.hash then r.answered || m.answered else m.answered, r.dismissed)
      else r
  }

  function Step(row: Option<Thread>, e: Event): Option<Thread> {
    match e
    case Seen(m) => Some(Take(row, m))
    case Dismiss => if row.None? then None else Some(row.value.(dismissed := Some(row.value.hash)))
    case LiveAnswered(k) =>
      if row.Some? && row.value.hash == k then Some(row.value.(answered := true)) else row
  }

  function Run(row: Option<Thread>, es: seq<Event>): Option<Thread> {
    if es == [] then row else Step(Run(row, es[..|es| - 1]), es[|es| - 1])
  }

  /** Copies of one message agree on its date and direction. */
  ghost predicate CopiesAgree(es: seq<Event>, canon: Key -> (int, bool)) {
    forall i :: 0 <= i < |es| && es[i].Seen? ==> canon(es[i].sight.hash) == (es[i].sight.date, es[i].sight.outgoing)
  }

  /******* What the row says *******/

  predicate SightedAt(es: seq<Event>, i: nat, k: Key)
    requires i < |es|
  {
    es[i].Seen? && es[i].sight.hash == k
  }

  /** The row's columns are those of a copy that was seen. */
  ghost predicate FromCopy(es: seq<Event>, r: Thread) {
    exists i :: 0 <= i < |es| && SightedAt(es, i, r.hash) && r == RowOf(es[i].sight, r.answered, r.dismissed)
  }

  ghost predicate NoneAbove(es: seq<Event>, date: int, outgoing: bool) {
    forall i :: 0 <= i < |es| && es[i].Seen? ==> !Above(es[i].sight.date, es[i].sight.outgoing, date, outgoing)
  }

  predicate AsLate(e: Event, r: Thread) {
    e.Seen? && e.sight.hash != r.hash && e.sight.date == r.date && e.sight.outgoing == r.outgoing
  }

  /** Of messages equally late, the row keeps the one seen first. */
  ghost predicate FirstOfEquals(es: seq<Event>, r: Thread) {
    forall i :: 0 <= i < |es| && AsLate(es[i], r) ==> SightedBefore(es, i, r.hash)
  }

  ghost predicate SightedBefore(es: seq<Event>, n: nat, k: Key)
    requires n <= |es|
  {
    exists j :: 0 <= j < n && SightedAt(es, j, k)
  }

  /** Some copy of the message was flagged, or a live check found it so once it was known. */
  ghost predicate EverAnswered(es: seq<Event>, k: Key) {
    exists i :: 0 <= i < |es| && AnsweredAt(es, i, k)
  }

  ghost predicate AnsweredAt(es: seq<Event>, i: nat, k: Key)
    requires i < |es|
  {
    || (SightedAt(es, i, k) && es[i].sight.answered)
    || (es[i] == LiveAnswered(k) && SightedBefore(es, i, k))
  }

  ghost predicate RowInv(es: seq<Event>, row: Option<Thread>) {
    match row
    case None => forall i :: 0 <= i < |es| ==> !es[i].Seen?
    case Some(r) =>
      && FromCopy(es, r) && NoneAbove(es, r.date, r.outgoing) && FirstOfEquals(es, r)
      && (r.answered <==> EverAnswered(es, r.hash))
  }

  /******* Every run *******/

  lemma SightedSnoc(es: seq<Event>, e: Event, n: nat, k: Key)
    requires n <= |es|
    ensures SightedBefore(es + [e], n, k) <==> SightedBefore(es, n, k)
  {
    var more := es + [e];
    assert forall j :: 0 <= j < n ==> more[j] == es[j];
    if SightedBefore(es, n, k) {
      var j :| 0 <= j < n && SightedAt(es, j, k);
      assert SightedAt(more, j, k);
    }
    if SightedBefore(more, n, k) {
      var j :| 0 <= j < n && SightedAt(more, j, k);
      assert SightedAt(es, j, k);
    }
  }

  lemma AnsweredSnoc(es: seq<Event>, e: Event, k: Key)
    ensures EverAnswered(es + [e], k) <==> EverAnswered(es, k) || AnsweredAt(es + [e], |es|, k)
  {
    var more := es + [e];
    forall i | 0 <= i < |es| ensures AnsweredAt(more, i, k) <==> AnsweredAt(es, i, k) {
      SightedSnoc(es, e, i, k);
      assert more[i] == es[i];
    }
  }

  /** Without a sighting there is no answer. */
  lemma UnsightedUnanswered(es: seq<Event>, k: Key)
    requires !SightedBefore(es, |es|, k)
    ensures !EverAnswered(es, k)
  {
    assert forall j :: 0 <= j < |es| ==> !SightedAt(es, j, k);
  }

  lemma FirstOfEqualsSnoc(es: seq<Event>, e: Event, r: Thread)
    requires FirstOfEquals(es, r)
    requires e.Seen? ==> SightedBefore(es, |es|, r.hash)
    ensures FirstOfEquals(es + [e], r)
  {
    var more := es + [e];
    forall i | 0 <= i < |more| && AsLate(more[i], r) ensures SightedBefore(more, i, r.hash) {
      SightedSnoc(es, e, i, r.hash);
    }
  }

  lemma FromCopySnoc(es: seq<Event>, e: Event, r: Thread, answered: bool, dismissed: Option<Key>)
    requires FromCopy(es, r)
    ensures FromCopy(es + [e], r.(answered := answered, dismissed := dismissed))
    ensures SightedBefore(es, |es|, r.hash)
  {
    var i :| 0 <= i < |es| && SightedAt(es, i, r.hash) && r == RowOf(es[i].sight, r.answered, r.dismissed);
    assert SightedAt(es + [e], i, r.hash);
  }

  predicate Written(row: Option<Thread>, e: Event) {
    e.Seen? && (row.None? || e.sight.hash == row.value.hash
      || Above(e.sight.date, e.sight.outgoing, row.value.date, row.value.outgoing))
  }

  lemma StepKeepsInv(es: seq<Event>, e: Event, row: Option<Thread>, canon: Key -> (int, bool))
    requires CopiesAgree(es + [e], canon) && RowInv(es, row)
    ensures RowInv(es + [e], Step(row, e))
  {
    if Written(row, e) {
      TakenKeepsInv(es, e.sight, row, canon);
    } else if row.Some? {
      KeptKeepsInv(es, e, row.value);
    } else {
      assert forall i :: 0 <= i < |es + [e]| ==> !(es + [e])[i].Seen?;
    }
  }

  /** The case where no message is written: the row stays, up to its two marks. */
  lemma KeptKeepsInv(es: seq<Event>, e: Event, r: Thread)
    requires RowInv(es, Some(r)) && !Written(Some(r), e)
    ensures RowInv(es + [e], Step(Some(r), e))
  {
    var more, next := es + [e], Step(Some(r), e).value;
    FromCopySnoc(es, e, r, next.answered, next.dismissed);
    assert next == r.(answered := next.answered, dismissed := next.dismissed);
    FirstOfEqualsSnoc(es, e, r);
    AnsweredSnoc(es, e, r.hash);
    SightedSnoc(es, e, |es|, r.hash);
  }

  /** The case where the row is written. */
  lemma TakenKeepsInv(es: seq<Event>, m: Sight, row: Option<Thread>, canon: Key -> (int, bool))
    requires CopiesAgree(es + [Seen(m)], canon) && RowInv(es, row)
    requires row.None? || m.hash == row.value.hash || Above(m.date, m.outgoing, row.value.date, row.value.outgoing)
    ensures RowInv(es + [Seen(m)], Some(Take(row, m)))
  {
    var e := Seen(m);
    var more, r := es + [e], Take(row, m);
    assert more[|es|] == e && forall i :: 0 <= i < |es| ==> more[i] == es[i];
    assert SightedAt(more, |es|, m.hash);
    AnsweredSnoc(es, e, m.hash);
    if row.Some? && m.hash == row.value.hash {
      assert canon(m.hash) == (m.date, m.outgoing);
      FromCopySnoc(es, e, row.value, true, None);
      var i :| 0 <= i < |es| && SightedAt(es, i, m.hash)
               && row.value == RowOf(es[i].sight, row.value.answered, row.value.dismissed);
      assert more[i].Seen? && (row.value.date, row.value.outgoing) == canon(m.hash);
      FirstOfEqualsSnoc(es, e, row.value);
    } else {
      NotSeenBefore(es, m, row, canon);
      UnsightedUnanswered(es, m.hash);
      assert FirstOfEquals(more, r) by {
        forall i | 0 <= i < |more| ensures !AsLate(more[i], r) {
          if i < |es| && row.Some? && es[i].Seen? {
            assert !Above(es[i].sight.date, es[i].sight.outgoing, row.value.date, row.value.outgoing);
          }
        }
      }
    }
  }

  /** A later message than all seen is a new one. */
  lemma NotSeenBefore(es: seq<Event>, m: Sight, row: Option<Thread>, canon: Key -> (int, bool))
    requires CopiesAgree(es + [Seen(m)], canon) && RowInv(es, row)
    requires row.Some? ==> Above(m.date, m.outgoing, row.value.date, row.value.outgoing)
    ensures !SightedBefore(es, |es|, m.hash)
  {
    var more := es + [Seen(m)];
    assert canon(more[|es|].sight.hash) == (m.date, m.outgoing);
    forall j | 0 <= j < |es| ensures !SightedAt(es, j, m.hash) {
      assert more[j] == es[j];
    }
  }

  /**
   After any run, in any order and with any repetition: the row is a copy of the lexicographic
   maximum of what was seen, and `answered` is the OR over everything known of that message.
   */
  lemma {:induction false} RunKeepsInv(es: seq<Event>, canon: Key -> (int, bool))
    requires CopiesAgree(es, canon)
    ensures RowInv(es, Run(None, es))
  {
    if es != [] {
      var init := es[..|es| - 1];
      assert forall i :: 0 <= i < |init| ==> init[i] == es[i];
      RunKeepsInv(init, canon);
      assert es == init + [es[|es| - 1]];
      StepKeepsInv(init, es[|es| - 1], Run(None, init), canon);
    }
  }

  /******* Dismissing and re-opening *******/

  /** A conversation is listed unless its latest message is the one dismissed. */
  predicate Open(r: Thread) { r.dismissed != Some(r.hash) }

  predicate Later(e: Event, r: Thread) { e.Seen? && Above(e.sight.date, e.sight.outgoing, r.date, r.outgoing) }

  ghost predicate SomeLater(es: seq<Event>, r: Thread) { exists i :: 0 <= i < |es| && Later(es[i], r) }

  lemma SomeLaterSnoc(es: seq<Event>, e: Event, r: Thread)
    ensures SomeLater(es + [e], r) <==> SomeLater(es, r) || Later(e, r)
  {
    var more := es + [e];
    assert more[|es|] == e && forall i :: 0 <= i < |es| ==> more[i] == es[i];
  }

  /** What became of the dismissed row `r`: still shown as it was, or replaced by a later message. */
  ghost predicate SinceDismissal(r: Thread, q: Thread, later: bool, canon: Key -> (int, bool)) {
    && q.dismissed == Some(r.hash) && canon(q.hash) == (q.date, q.outgoing)
    && (Open(q) <==> later)
    && (if later then Above(q.date, q.outgoing, r.date, r.outgoing)
        else (q.date, q.outgoing) == (r.date, r.outgoing))
  }

  lemma DismissedStep(r: Thread, q: Thread, later: bool, e: Event, canon: Key -> (int, bool))
    requires canon(r.hash) == (r.date, r.outgoing) && SinceDismissal(r, q, later, canon) && !e.Dismiss?
    requires e.Seen? ==> canon(e.sight.hash) == (e.sight.date, e.sight.outgoing)
    ensures SinceDismissal(r, Step(Some(q), e).value, later || Later(e, r), canon)
  {
  }

  /** A dismissed conversation opens again exactly when a strictly later message is seen, never on a rescan. */
  lemma {:induction false} ReopensExactly(r: Thread, es: seq<Event>, canon: Key -> (int, bool))
    requires !Open(r) && canon(r.hash) == (r.date, r.outgoing) && CopiesAgree(es, canon)
    requires forall i :: 0 <= i < |es| ==> !es[i].Dismiss?
    ensures Run(Some(r), es).Some? && SinceDismissal(r, Run(Some(r), es).value, SomeLater(es, r), canon)
    ensures Open(Run(Some(r), es).value) <==> SomeLater(es, r)
  {
    if es != [] {
      var init, e := es[..|es| - 1], es[|es| - 1];
      assert forall i :: 0 <= i < |init| ==> init[i] == es[i];
      ReopensExactly(r, init, canon);
      assert es == init + [e];
      SomeLaterSnoc(init, e, r);
      DismissedStep(r, Run(Some(r), init).value, SomeLater(init, r), e, canon);
    }
  }

  lemma {:induction false} RunConcat(row: Option<Thread>, a: seq<Event>, b: seq<Event>)
    ensures Run(row, a + b) == Run(Run(row, a), b)
  {
    if b == [] {
      assert a + b == a;
    } else {
      assert (a + b)[..|a + b| - 1] == a + b[..|b| - 1];
      RunConcat(row, a, b[..|b| - 1]);
    }
  }

  /** Above every message of a run. */
  ghost predicate AboveAll(m: Sight, es: seq<Event>) {
    forall j :: 0 <= j < |es| && es[j].Seen? ==> Above(m.date, m.outgoing, es[j].sight.date, es[j].sight.outgoing)
  }

  lemma AboveTheLatest(m: Sight, es: seq<Event>, r: Thread)
    requires RowInv(es, Some(r))
    ensures AboveAll(m, es) <==> Above(m.date, m.outgoing, r.date, r.outgoing)
  {
    var i :| 0 <= i < |es| && SightedAt(es, i, r.hash) && r == RowOf(es[i].sight, r.answered, r.dismissed);
    assert es[i].Seen?;
  }

  /** Over whole runs: after the last dismissal a conversation is listed iff a message later than all before came. */
  lemma OpenAfterDismissal(before: seq<Event>, after: seq<Event>, canon: Key -> (int, bool))
    requires CopiesAgree(before, canon) && CopiesAgree(after, canon)
    requires forall i :: 0 <= i < |after| ==> !after[i].Dismiss?
    requires Run(None, before).Some?
    ensures
      var row := Run(None, before + [Dismiss] + after);
      && row.Some?
      && (Open(row.value) <==> exists i :: 0 <= i < |after| && after[i].Seen? && AboveAll(after[i].sight, before))
  {
    var r := Run(None, before).value;
    RunKeepsInv(before, canon);
    RunConcat(None, before, [Dismiss]);
    RunConcat(None, before + [Dismiss], after);
    assert Run(Some(r), []) == Some(r) && [Dismiss][..0] == [];
    var d := r.(dismissed := Some(r.hash));
    assert Run(None, before + [Dismiss]) == Some(d);
    var i :| 0 <= i < |before| && SightedAt(before, i, r.hash) && r == RowOf(before[i].sight, r.answered, r.dismissed);
    assert before[i].Seen? && canon(r.hash) == (r.date, r.outgoing);
    ReopensExactly(d, after, canon);
    forall j | 0 <= j < |after| && after[j].Seen? ensures AboveAll(after[j].sight, before) <==> Later(after[j], d) {
      AboveTheLatest(after[j].sight, before, r);
    }
  }

  /******* The table *******/

  type Place = (string, string)

  /** What happens to reply_threads: a header is scanned, a caller dismisses, a live check finds \Answered. */
  datatype Action = Scanned(sighting: Sighting) | Dismissed(at: Place) | FoundAnswered(at: Place, hash: Key)

  /** What an action means to one conversation. */
  function EventAt(a: Action, p: Place, own: Owner): seq<Event> {
    match a
    case Scanned(s) =>
      if (s.account, ThreadRoot(s.header)) == p && Counts(s, own).Some? then [Seen(Counts(s, own).value)] else []
    case Dismissed(at) => if at == p then [Dismiss] else []
    case FoundAnswered(at, k) => if at == p then [LiveAnswered(k)] else []
  }

  function EventsAt(run: seq<Action>, p: Place, own: Owner): seq<Event> {
    if run == [] then [] else EventsAt(run[..|run| - 1], p, own) + EventAt(run[|run| - 1], p, own)
  }

  /** A run of sightings as actions. */
  function Scans(run: seq<Sighting>): seq<Action> {
    seq(|run|, i requires 0 <= i < |run| => Scanned(run[i]))
  }

  lemma ScansConcat(a: seq<Sighting>, b: seq<Sighting>)
    ensures Scans(a + b) == Scans(a) + Scans(b)
  {
  }

  lemma OneScan(s: Sighting, p: Place, own: Owner)
    ensures EventsAt(Scans([s]), p, own) == EventAt(Scanned(s), p, own)
  {
    assert Scans([s]) == [Scanned(s)] && [Scanned(s)][..0] == [];
    assert EventsAt([], p, own) == [];
    assert [] + EventAt(Scanned(s), p, own) == EventAt(Scanned(s), p, own);
  }

  lemma {:induction false} EventsConcat(a: seq<Action>, b: seq<Action>, p: Place, own: Owner)
    ensures EventsAt(a + b, p, own) == EventsAt(a, p, own) + EventsAt(b, p, own)
  {
    if b == [] {
      assert a + b == a && EventsAt(a, p, own) + [] == EventsAt(a, p, own);
    } else {
      var init, last := b[..|b| - 1], b[|b| - 1];
      EventsConcat(a, init, p, own);
      assert (a + b)[..|a + b| - 1] == a + init && (a + b)[|a + b| - 1] == last;
      Regroup(EventsAt(a, p, own), EventsAt(init, p, own), EventAt(last, p, own));
    }
  }

  lemma Regroup(a: seq<Event>, b: seq<Event>, c: seq<Event>)
    ensures (a + b) + c == a + (b + c)
  {
  }

  function Nobody(account: string, address: string): bool { false }

  function Lookup(rows: map<Place, Thread>, p: Place): Option<Thread> {
    if p in rows then Some(rows[p]) else None
  }

  /** The owner's message to nobody else. */
  predicate NoteToSelf(s: Sighting, own: Owner) {
    own(s.account, s.header.from) && forall a :: a in s.header.to + s.header.cc ==> a == "" || own(s.account, a)
  }

  /** Incoming person-to-person mail with a thread. */
  predicate FromStranger(s: Sighting, own: Owner) {
    var h := s.header;
    h.from != "" && h.date.Some? && ThreadRoot(h) != "" && !own(s.account, h.from) && !h.list && !h.bulk && !h.auto
  }

  /** reply_threads, one row per account and thread root. */
  class Table {
    var rows: map<Place, Thread>

    constructor ()
      ensures rows == map[]
    {
      rows := map[];
    }

    /** thread: every copy is offered to its conversation's row, and no other row changes. */
    method Thread(s: Sighting, own: Owner)
      modifies this
      ensures forall p :: Lookup(rows, p) == Run(Lookup(old(rows), p), EventAt(Scanned(s), p, own))
      ensures rows == old(rows) || (rows.Keys == old(rows).Keys + {(s.account, ThreadRoot(s.header))})
      ensures !own(s.account, s.header.from) && (s.header.list || s.header.bulk || s.header.auto) ==> rows == old(rows)
      ensures NoteToSelf(s, own) ==> rows == old(rows)
      ensures FromStranger(s, own) ==> (s.account, ThreadRoot(s.header)) in rows
    {
      var h := s.header;
      NoOther(Recipients(h), s.account, own);
      if !Readable(h) { return; }
      var outgoing := own(s.account, h.from);
      if !outgoing && !Conversation(h) { return; }
      var root := ThreadRoot(h);
      if root == "" { return; }
      var counterpart, direct := Correspondents(h, s.account, own);
      if !outgoing {
        counterpart := h.from;
      } else if counterpart == "" {
        return;
      }
      var m := Sight(KeyOf(s), h.date.value, outgoing, counterpart, direct && !outgoing, h.answered);
      var at := (s.account, root);
      rows := rows[at := Take(Lookup(rows, at), m)];
      assert [Seen(m)][..0] == [];
    }

    method Dismiss(at: Place) returns (found: bool)
      modifies this
      ensures found <==> at in old(rows)
      ensures forall p :: Lookup(rows, p) == Run(Lookup(old(rows), p), EventAt(Dismissed(at), p, Nobody))
    {
      found := at in rows;
      if found {
        rows := rows[at := rows[at].(dismissed := Some(rows[at].hash))];
      }
      assert [Event.Dismiss][..0] == [];
    }

    method RecordAnswered(at: Place, k: Key)
      modifies this
      ensures forall p :: Lookup(rows, p) == Run(Lookup(old(rows), p), EventAt(FoundAnswered(at, k), p, Nobody))
    {
      if at in rows && rows[at].hash == k {
        rows := rows[at := rows[at].(answered := true)];
      }
      assert [LiveAnswered(k)][..0] == [];
    }
  }

  /** Any run over the table. */
  method AnyRun(run: seq<Action>, own: Owner, canon: Key -> (int, bool)) returns (rows: map<Place, Thread>)
    requires forall i :: 0 <= i < |run| ==> ScanAgrees(run[i], own, canon)
    ensures forall p :: Lookup(rows, p) == Run(None, EventsAt(run, p, own))
    ensures forall p :: RowInv(EventsAt(run, p, own), Lookup(rows, p))
  {
    var t := new Table();
    for i := 0 to |run|
      invariant forall p :: Lookup(t.rows, p) == Run(None, EventsAt(run[..i], p, own))
    {
      match run[i] {
        case Scanned(s) => t.Thread(s, own);
        case Dismissed(at) => var _ := t.Dismiss(at);
        case FoundAnswered(at, k) => t.RecordAnswered(at, k);
      }
      forall p ensures Lookup(t.rows, p) == Run(None, EventsAt(run[..i + 1], p, own)) {
        EventsSnoc(run, i, p, own);
        RunConcat(None, EventsAt(run[..i], p, own), EventAt(run[i], p, own));
      }
    }
    rows := t.rows;
    assert run[..|run|] == run;
    forall p ensures RowInv(EventsAt(run, p, own), Lookup(rows, p)) {
      EventsAgree(run, p, own, canon);
      RunKeepsInv(EventsAt(run, p, own), canon);
    }
  }

  ghost predicate ScanAgrees(a: Action, own: Owner, canon: Key -> (int, bool)) {
    a.Scanned? && Readable(a.sighting.header) ==>
      canon(KeyOf(a.sighting)) == (a.sighting.header.date.value, own(a.sighting.account, a.sighting.header.from))
  }

  lemma EventsSnoc(run: seq<Action>, i: nat, p: Place, own: Owner)
    requires i < |run|
    ensures EventsAt(run[..i + 1], p, own) == EventsAt(run[..i], p, own) + EventAt(run[i], p, own)
  {
    assert run[..i + 1][..i] == run[..i];
  }

  lemma {:induction false} EventsAgree(run: seq<Action>, p: Place, own: Owner, canon: Key -> (int, bool))
    requires forall i :: 0 <= i < |run| ==> ScanAgrees(run[i], own, canon)
    ensures CopiesAgree(EventsAt(run, p, own), canon)
  {
    if run != [] {
      EventsAgree(run[..|run| - 1], p, own, canon);
      assert ScanAgrees(run[|run| - 1], own, canon);
    }
  }
}
