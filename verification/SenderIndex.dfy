/**
 The sender profiles the header scan builds (internal/intel/store.go: apply, profile).
 A message is counted when its key is first indexed; later copies, rescans and repeated
 folders only find the key taken.

 `log` lists the indexed messages in the order they were counted. It has no table; it
 exists to say what the counters are totals of.
 */
module SenderIndex {
  import opened Collections
  import opened Folds
  import opened Headers

  /** What counting a message depends on. `credited` are the recipients of an outgoing one. */
  datatype Entry = Entry(
    date: int, outgoing: bool, from: string, credited: seq<string>,
    list: bool, bulk: bool, auto: bool, dkim: Auth, dmarc: Auth)

  datatype Profile = Profile(
    first: Option<int>, last: Option<int>, received: nat, sent: nat, lists: nat, bulks: nat, autos: nat,
    dkimPass: nat, dkimFail: nat, dmarcPass: nat, dmarcFail: nat)

  const NOBODY := Profile(None, None, 0, 0, 0, 0, 0, 0, 0, 0, 0)

  datatype Tables = Tables(index: map<Key, Entry>, senders: map<string, Profile>, log: seq<(Key, Entry)>)

  const EMPTY := Tables(map[], map[], [])

  function Bit(b: bool): nat { if b then 1 else 0 }

  /** ON CONFLICT DO UPDATE: counters add up, the dates widen. */
  function Combine(p: Profile, q: Profile): Profile {
    Profile(Earlier(p.first, q.first), Later(p.last, q.last), p.received + q.received, p.sent + q.sent,
            p.lists + q.lists, p.bulks + q.bulks, p.autos + q.autos, p.dkimPass + q.dkimPass,
            p.dkimFail + q.dkimFail, p.dmarcPass + q.dmarcPass, p.dmarcFail + q.dmarcFail)
  }

  lemma CombineCommutative()
    ensures Commutative(Combine)
  {
    forall a, b ensures Combine(a, b) == Combine(b, a) {}
    forall a, b, c ensures Combine(Combine(a, b), c) == Combine(a, Combine(b, c)) {}
  }

  /******* One message *******/

  /** The recipients credited before the loop meets a blank, own or repeated address and returns. */
  function Credited(rs: seq<string>, account: string, own: Owner, seen: set<string>): seq<string> {
    if rs == [] || rs[0] == "" || own(account, rs[0]) || rs[0] in seen then []
    else [rs[0]] + Credited(rs[1..], account, own, seen + {rs[0]})
  }

  function EntryOf(s: Sighting, own: Owner): Entry
    requires Readable(s.header)
  {
    var h := s.header;
    var outgoing := own(s.account, h.from);
    Entry(h.date.value, outgoing, h.from,
          if outgoing then Credited(Recipients(h), s.account, own, {}) else [],
          h.list, h.bulk, h.auto, h.dkim, h.dmarc)
  }

  /** The profiles a message touches: its sender, or the recipients credited with an outgoing one. */
  function Touched(e: Entry): seq<string> { if e.outgoing then e.credited else [e.from] }

  /** What it adds to each of them. */
  function Share(e: Entry): Profile {
    if e.outgoing then NOBODY.(first := Some(e.date), last := Some(e.date), sent := 1)
    else Profile(Some(e.date), Some(e.date), 1, 0, Bit(e.list), Bit(e.bulk), Bit(e.auto),
                 Bit(e.dkim == Pass), Bit(e.dkim == Fail), Bit(e.dmarc == Pass), Bit(e.dmarc == Fail))
  }

  /** What one message adds to the profile of `address`. */
  function Contribution(item: (Key, Entry), address: string): Profile {
    if address in Touched(item.1) then Share(item.1) else NOBODY
  }

  function Total(log: seq<(Key, Entry)>, address: string): Profile {
    Fold(log, address, Contribution, Combine, NOBODY)
  }

  function Upsert(senders: map<string, Profile>, address: string, p: Profile): map<string, Profile> {
    senders[address := if address in senders then Combine(senders[address], p) else p]
  }

  function UpsertAll(senders: map<string, Profile>, addresses: seq<string>, p: Profile): map<string, Profile> {
    if addresses == [] then senders
    else Upsert(UpsertAll(senders, addresses[..|addresses| - 1], p), addresses[|addresses| - 1], p)
  }

  function Counted(senders: map<string, Profile>, e: Entry): map<string, Profile> {
    UpsertAll(senders, Touched(e), Share(e))
  }

  /** One header of a batch. */
  function Sight(t: Tables, s: Sighting, own: Owner): Tables {
    if !Readable(s.header) || KeyOf(s) in t.index then t
    else
      var e := EntryOf(s, own);
      Tables(t.index[KeyOf(s) := e], Counted(t.senders, e), t.log + [(KeyOf(s), e)])
  }

  function SightAll(t: Tables, run: seq<Sighting>, own: Owner): Tables {
    if run == [] then t else Sight(SightAll(t, run[..|run| - 1], own), run[|run| - 1], own)
  }

  /******* The profiles are totals *******/

  function ProfileOf(senders: map<string, Profile>, a: string): Profile {
    if a in senders then senders[a] else NOBODY
  }

  ghost predicate ProfilesAreTotals(senders: map<string, Profile>, log: seq<(Key, Entry)>) {
    forall a :: Total(log, a) == ProfileOf(senders, a)
  }

  ghost predicate Inv(t: Tables) {
    Once(t.log) && Lists(t.log, t.index) && ProfilesAreTotals(t.senders, t.log)
  }

  lemma {:induction false} CreditedDistinct(rs: seq<string>, account: string, own: Owner, seen: set<string>)
    ensures Distinct(Credited(rs, account, own, seen))
    ensures forall a :: a in Credited(rs, account, own, seen) ==> a !in seen
  {
    if !(rs == [] || rs[0] == "" || own(account, rs[0]) || rs[0] in seen) {
      CreditedDistinct(rs[1..], account, own, seen + {rs[0]});
    }
  }

  lemma CombineZero(p: Profile)
    ensures Combine(p, NOBODY) == p && Combine(NOBODY, p) == p
  {
  }

  lemma UpsertAt(senders: map<string, Profile>, b: string, p: Profile, a: string)
    ensures ProfileOf(Upsert(senders, b, p), a)
         == if a == b then Combine(ProfileOf(senders, a), p) else ProfileOf(senders, a)
  {
    CombineZero(p);
  }

  lemma {:induction false} UpsertAllAt(senders: map<string, Profile>, addresses: seq<string>, p: Profile, a: string)
    requires Distinct(addresses)
    ensures ProfileOf(UpsertAll(senders, addresses, p), a)
         == if a in addresses then Combine(ProfileOf(senders, a), p) else ProfileOf(senders, a)
  {
    if addresses != [] {
      var init, last := addresses[..|addresses| - 1], addresses[|addresses| - 1];
      assert addresses == init + [last] && last !in init;
      UpsertAllAt(senders, init, p, a);
      UpsertAt(UpsertAll(senders, init, p), last, p, a);
    }
  }

  lemma CombineWhen(before: Profile, hit: bool, p: Profile)
    ensures Combine(before, if hit then p else NOBODY) == if hit then Combine(before, p) else before
  {
    CombineZero(before);
  }

  lemma CountedAt(senders: map<string, Profile>, k: Key, e: Entry, a: string)
    requires Distinct(Touched(e))
    ensures ProfileOf(Counted(senders, e), a) == Combine(ProfileOf(senders, a), Contribution((k, e), a))
  {
    UpsertAllAt(senders, Touched(e), Share(e), a);
    CombineWhen(ProfileOf(senders, a), a in Touched(e), Share(e));
  }

  lemma SightKeepsInv(t: Tables, s: Sighting, own: Owner)
    requires Inv(t)
    ensures Inv(Sight(t, s, own))
  {
    if Readable(s.header) && KeyOf(s) !in t.index {
      var k, e := KeyOf(s), EntryOf(s, own);
      CreditedDistinct(Recipients(s.header), s.account, own, {});
      LedgerAdd(t.log, t.index, k, e);
      forall a ensures Total(t.log + [(k, e)], a) == ProfileOf(Counted(t.senders, e), a) {
        FoldSnoc(t.log, (k, e), a, Contribution, Combine, NOBODY);
        CountedAt(t.senders, k, e, a);
      }
    }
  }

  lemma {:induction false} RunKeepsInv(t: Tables, run: seq<Sighting>, own: Owner)
    requires Inv(t)
    ensures Inv(SightAll(t, run, own))
  {
    if run != [] {
      RunKeepsInv(t, run[..|run| - 1], own);
      SightKeepsInv(SightAll(t, run[..|run| - 1], own), run[|run| - 1], own);
    }
  }

  lemma EmptyInv()
    ensures Inv(EMPTY)
  {
  }

  /******* message_count *******/

  /** The index rows that point at a sender. */
  function RowsFrom(index: map<Key, Entry>, a: string): set<Key> {
    set k | k in index && !index[k].outgoing && index[k].from == a
  }

  lemma {:induction false} ReceivedIsRows(log: seq<(Key, Entry)>, index: map<Key, Entry>, a: string)
    requires Once(log) && Lists(log, index)
    ensures Total(log, a).received == |RowsFrom(index, a)|
  {
    if log == [] {
      assert RowsFrom(index, a) == {};
    } else {
      var init := log[..|log| - 1];
      var (k, e) := log[|log| - 1];
      LedgerDropLast(log, index);
      ReceivedIsRows(init, index - {k}, a);
      RowsWithout(index, k, a);
    }
  }

  lemma RowsWithout(index: map<Key, Entry>, k: Key, a: string)
    requires k in index
    ensures |RowsFrom(index, a)| == |RowsFrom(index - {k}, a)| + Bit(!index[k].outgoing && index[k].from == a)
  {
    var counts := !index[k].outgoing && index[k].from == a;
    assert RowsFrom(index, a) == RowsFrom(index - {k}, a) + (if counts then {k} else {});
  }

  /** In every reachable state message_count is the number of index rows pointing at the sender. */
  lemma MessageCountExact(run: seq<Sighting>, own: Owner, a: string)
    ensures
      var t := SightAll(EMPTY, run, own);
      ProfileOf(t.senders, a).received == |RowsFrom(t.index, a)|
  {
    EmptyInv();
    RunKeepsInv(EMPTY, run, own);
    var t := SightAll(EMPTY, run, own);
    ReceivedIsRows(t.log, t.index, a);
  }

  /******* Crashes, restarts and repetition do not matter *******/

  /** The distinct messages a run has seen. */
  function Seen(run: seq<Sighting>): set<Key> {
    set i | 0 <= i < |run| && Readable(run[i].header) :: KeyOf(run[i])
  }

  /** Copies of one message agree on everything that counts. */
  ghost predicate CopiesAgree(run: seq<Sighting>, own: Owner, canon: Key -> Entry) {
    forall i :: 0 <= i < |run| && Readable(run[i].header) ==> EntryOf(run[i], own) == canon(KeyOf(run[i]))
  }

  lemma {:induction false} IndexIsSeen(run: seq<Sighting>, own: Owner, canon: Key -> Entry)
    requires CopiesAgree(run, own, canon)
    ensures SightAll(EMPTY, run, own).index.Keys == Seen(run)
    ensures forall k :: k in SightAll(EMPTY, run, own).index ==> SightAll(EMPTY, run, own).index[k] == canon(k)
  {
    if run != [] {
      var init, s := run[..|run| - 1], run[|run| - 1];
      assert forall i :: 0 <= i < |init| ==> init[i] == run[i];
      IndexIsSeen(init, own, canon);
      SeenSnoc(run);
    }
  }

  lemma SeenSnoc(run: seq<Sighting>)
    requires run != []
    ensures
      var s := run[|run| - 1];
      Seen(run) == Seen(run[..|run| - 1]) + (if Readable(s.header) then {KeyOf(s)} else {})
  {
    var init, s := run[..|run| - 1], run[|run| - 1];
    forall k | k in Seen(run) ensures k in Seen(init) || (Readable(s.header) && k == KeyOf(s)) {
      var i :| 0 <= i < |run| && Readable(run[i].header) && KeyOf(run[i]) == k;
      assert i < |init| ==> init[i] == run[i];
    }
    forall k | k in Seen(init) ensures k in Seen(run) {
      var i :| 0 <= i < |init| && Readable(init[i].header) && KeyOf(init[i]) == k;
      assert init[i] == run[i];
    }
  }

  /**
   Two runs that saw the same messages, in whatever order, with whatever repetition,
   leave the same index and the same sender profiles.
   */
  lemma OrderIrrelevant(a: seq<Sighting>, b: seq<Sighting>, own: Owner, canon: Key -> Entry)
    requires CopiesAgree(a, own, canon) && CopiesAgree(b, own, canon) && Seen(a) == Seen(b)
    ensures SightAll(EMPTY, a, own).index == SightAll(EMPTY, b, own).index
    ensures forall x :: Total(SightAll(EMPTY, a, own).log, x) == Total(SightAll(EMPTY, b, own).log, x)
    ensures SightAll(EMPTY, a, own).senders == SightAll(EMPTY, b, own).senders
  {
    IndexIsSeen(a, own, canon);
    IndexIsSeen(b, own, canon);
    EmptyInv();
    RunKeepsInv(EMPTY, a, own);
    RunKeepsInv(EMPTY, b, own);
    CombineCommutative();
    var t, u := SightAll(EMPTY, a, own), SightAll(EMPTY, b, own);
    assert t.index == u.index;
    forall x ensures Total(t.log, x) == Total(u.log, x) {
      SameIndexSameFold(t.log, u.log, t.index, x, Contribution, Combine, NOBODY);
    }
    ProfilesPresent(a, own);
    ProfilesPresent(b, own);
    forall x ensures ProfileOf(t.senders, x) == ProfileOf(u.senders, x) {
      assert Total(t.log, x) == Total(u.log, x);
    }
    SameProfiles(t.senders, u.senders);
  }

  ghost predicate NoneBlank(senders: map<string, Profile>) {
    forall x :: x in senders ==> senders[x] != NOBODY
  }

  lemma SameProfiles(a: map<string, Profile>, b: map<string, Profile>)
    requires NoneBlank(a) && NoneBlank(b) && forall x :: ProfileOf(a, x) == ProfileOf(b, x)
    ensures a == b
  {
    forall x ensures x in a <==> x in b {
      assert ProfileOf(a, x) == ProfileOf(b, x);
    }
    forall x | x in a ensures a[x] == b[x] {
      assert ProfileOf(a, x) == ProfileOf(b, x);
    }
  }

  lemma {:induction false} UpsertAllNotBlank(senders: map<string, Profile>, addresses: seq<string>, p: Profile)
    requires NoneBlank(senders) && p.received + p.sent > 0
    ensures NoneBlank(UpsertAll(senders, addresses, p))
  {
    if addresses != [] {
      UpsertAllNotBlank(senders, addresses[..|addresses| - 1], p);
    }
  }

  /** A sender row is never blank: it came with a message received or sent. */
  lemma {:induction false} ProfilesPresent(run: seq<Sighting>, own: Owner)
    ensures NoneBlank(SightAll(EMPTY, run, own).senders)
  {
    if run != [] {
      var t, s := SightAll(EMPTY, run[..|run| - 1], own), run[|run| - 1];
      ProfilesPresent(run[..|run| - 1], own);
      if Readable(s.header) && KeyOf(s) !in t.index {
        var e := EntryOf(s, own);
        UpsertAllNotBlank(t.senders, Touched(e), Share(e));
      }
    }
  }

  /******* What the columns count *******/

  /** The distinct messages of a run with some property. */
  function KeysWhere(run: seq<Sighting>, q: Sighting -> bool): set<Key> {
    set i | 0 <= i < |run| && Readable(run[i].header) && q(run[i]) :: KeyOf(run[i])
  }

  predicate AreCopies(s: Sighting, t: Sighting) {
    Readable(s.header) && Readable(t.header) && KeyOf(s) == KeyOf(t)
  }

  /** Copies of one message agree on a property. */
  ghost predicate AgreeOn<V>(run: seq<Sighting>, q: Sighting -> V) {
    forall i, j :: 0 <= i < |run| && 0 <= j < |run| && AreCopies(run[i], run[j]) ==> q(run[i]) == q(run[j])
  }

  lemma {:induction false} IndexKeysSeen(run: seq<Sighting>, own: Owner)
    ensures SightAll(EMPTY, run, own).index.Keys == Seen(run)
  {
    if run != [] {
      IndexKeysSeen(run[..|run| - 1], own);
      SeenSnoc(run);
    }
  }

  lemma KeysGrow(run: seq<Sighting>, q: Sighting -> bool)
    requires run != []
    ensures
      var s := run[|run| - 1];
      KeysWhere(run, q) == KeysWhere(run[..|run| - 1], q) + (if Readable(s.header) && q(s) then {KeyOf(s)} else {})
  {
    var init, s := run[..|run| - 1], run[|run| - 1];
    var more := if Readable(s.header) && q(s) then {KeyOf(s)} else {};
    assert forall i :: 0 <= i < |init| ==> init[i] == run[i];
    forall k | k in KeysWhere(run, q) ensures k in KeysWhere(init, q) + more {
      var i :| 0 <= i < |run| && Readable(run[i].header) && q(run[i]) && KeyOf(run[i]) == k;
      assert i < |init| ==> init[i] == run[i];
    }
    forall k | k in KeysWhere(init, q) ensures k in KeysWhere(run, q) {
      var i :| 0 <= i < |init| && Readable(init[i].header) && q(init[i]) && KeyOf(init[i]) == k;
      assert run[i] == init[i];
    }
    assert run[|init|] == s;
  }

  /** A message seen before changes nothing about the count; a new one adds itself. */
  lemma KeysSnoc(run: seq<Sighting>, q: Sighting -> bool)
    requires run != [] && AgreeOn(run, q)
    ensures
      var init, s := run[..|run| - 1], run[|run| - 1];
      if Readable(s.header) && KeyOf(s) !in Seen(init)
      then |KeysWhere(run, q)| == |KeysWhere(init, q)| + Bit(q(s))
      else KeysWhere(run, q) == KeysWhere(init, q)
  {
    var init, s := run[..|run| - 1], run[|run| - 1];
    KeysGrow(run, q);
    if Readable(s.header) && KeyOf(s) in Seen(init) {
      var i :| 0 <= i < |init| && Readable(init[i].header) && KeyOf(init[i]) == KeyOf(s);
      assert run[i] == init[i] && AreCopies(run[i], run[|init|]);
      assert q(s) ==> KeyOf(s) in KeysWhere(init, q);
    } else if Readable(s.header) {
      assert KeysWhere(init, q) <= Seen(init);
    }
  }

  /** A message from `a` to the owner of the account. */
  predicate From(s: Sighting, a: string, own: Owner) { s.header.from == a && !own(s.account, a) }

  /** The address at position `k` of To and Cc, with no blank, own or repeated address up to there. */
  predicate ReachedAt(rs: seq<string>, k: nat, account: string, own: Owner)
    requires k < |rs|
  {
    forall j :: 0 <= j <= k ==> rs[j] != "" && !own(account, rs[j]) && rs[j] !in rs[..j]
  }

  /** A message of the owner that credits `a`. */
  predicate CreditsTo(s: Sighting, a: string, own: Owner) {
    var rs := s.header.to + s.header.cc;
    own(s.account, s.header.from) && exists k :: 0 <= k < |rs| && rs[k] == a && ReachedAt(rs, k, s.account, own)
  }

  predicate Touches(s: Sighting, a: string, own: Owner) { From(s, a, own) || CreditsTo(s, a, own) }

  lemma {:induction false} CreditedMeaning(rs: seq<string>, account: string, own: Owner, seen: set<string>, a: string)
    ensures a in Credited(rs, account, own, seen) <==>
      exists k :: 0 <= k < |rs| && rs[k] == a && ReachedAt(rs, k, account, own) && Unseen(rs, k, seen)
  {
    if rs != [] {
      var rest := rs[1..];
      CreditedMeaning(rest, account, own, seen + {rs[0]}, a);
      forall k | 0 <= k < |rest|
        ensures ReachedAt(rs, k + 1, account, own) && Unseen(rs, k + 1, seen)
           <==> !Stops(rs[0], account, own, seen) && ReachedAt(rest, k, account, own) && Unseen(rest, k, seen + {rs[0]})
      {
        ReachedShift(rs, k, account, own, seen);
      }
      assert rs[..0] == [];
      assert ReachedAt(rs, 0, account, own) <==> rs[0] != "" && !own(account, rs[0]);
      if a in Credited(rs, account, own, seen) && a != rs[0] {
        var k :| 0 <= k < |rest| && rest[k] == a && ReachedAt(rest, k, account, own) && Unseen(rest, k, seen + {rs[0]});
        assert rs[k + 1] == a;
      }
      if k :| 0 <= k < |rs| && rs[k] == a && ReachedAt(rs, k, account, own) && Unseen(rs, k, seen) {
        assert Unseen(rs, 0, seen);
        if k > 0 {
          assert rest[k - 1] == a;
        }
      }
    }
  }

  /** The loop meets a blank, own or repeated address. */
  predicate Stops(a: string, account: string, own: Owner, seen: set<string>) {
    a == "" || own(account, a) || a in seen
  }

  predicate Unseen(rs: seq<string>, k: nat, seen: set<string>)
    requires k < |rs|
  {
    forall j :: 0 <= j <= k ==> rs[j] !in seen
  }

  lemma ReachedShift(rs: seq<string>, k: nat, account: string, own: Owner, seen: set<string>)
    requires k + 1 < |rs|
    ensures ReachedAt(rs, k + 1, account, own) && Unseen(rs, k + 1, seen)
      <==> !Stops(rs[0], account, own, seen)
           && ReachedAt(rs[1..], k, account, own) && Unseen(rs[1..], k, seen + {rs[0]})
  {
    var rest := rs[1..];
    assert forall j :: 0 <= j <= k ==> rest[j] == rs[j + 1] && rs[..j + 1] == [rs[0]] + rest[..j];
    if ReachedAt(rest, k, account, own) && Unseen(rest, k, seen + {rs[0]})
      && rs[0] != "" && !own(account, rs[0]) && rs[0] !in seen {
      forall j | 0 <= j <= k + 1 ensures rs[j] != "" && !own(account, rs[j]) && rs[j] !in rs[..j] && rs[j] !in seen {
        if j > 0 {
          assert rs[j] == rest[j - 1];
        }
      }
    }
    if ReachedAt(rs, k + 1, account, own) && Unseen(rs, k + 1, seen) {
      forall j | 0 <= j <= k
        ensures rest[j] != "" && !own(account, rest[j]) && rest[j] !in rest[..j] && rest[j] !in seen + {rs[0]}
      {
        assert rest[j] == rs[j + 1] && rs[j + 1] !in rs[..j + 1];
      }
    }
  }

  /** Copies of one message agree on what the profiles count. */
  ghost predicate SameCopies(run: seq<Sighting>) {
    forall i, j :: 0 <= i < |run| && 0 <= j < |run| && AreCopies(run[i], run[j]) ==>
      SameFacts(run[i], run[j])
  }

  predicate SameFacts(s: Sighting, t: Sighting) {
    var g, h := s.header, t.header;
    && s.account == t.account && g.date == h.date && g.from == h.from && g.to == h.to && g.cc == h.cc
    && g.list == h.list && g.bulk == h.bulk && g.auto == h.auto && g.dkim == h.dkim && g.dmarc == h.dmarc
  }

  datatype Column = Received | Sent | Listed | Bulky | Automatic | DkimPasses | DkimFails | DmarcPasses | DmarcFails

  function ColumnOf(p: Profile, c: Column): nat {
    match c
    case Received => p.received
    case Sent => p.sent
    case Listed => p.lists
    case Bulky => p.bulks
    case Automatic => p.autos
    case DkimPasses => p.dkimPass
    case DkimFails => p.dkimFail
    case DmarcPasses => p.dmarcPass
    case DmarcFails => p.dmarcFail
  }

  /** What a column counts, said of a message's headers. */
  predicate CountsFor(c: Column, s: Sighting, a: string, own: Owner) {
    match c
    case Received => From(s, a, own)
    case Sent => CreditsTo(s, a, own)
    case Listed => From(s, a, own) && s.header.list
    case Bulky => From(s, a, own) && s.header.bulk
    case Automatic => From(s, a, own) && s.header.auto
    case DkimPasses => From(s, a, own) && s.header.dkim == Pass
    case DkimFails => From(s, a, own) && s.header.dkim == Fail
    case DmarcPasses => From(s, a, own) && s.header.dmarc == Pass
    case DmarcFails => From(s, a, own) && s.header.dmarc == Fail
  }

  /** The distinct messages of a run that a column counts. */
  function MessagesOf(run: seq<Sighting>, c: Column, a: string, own: Owner): set<Key> {
    KeysWhere(run, s => CountsFor(c, s, a, own))
  }

  /** Who a message touches, said of its headers. */
  lemma TouchedMeaning(s: Sighting, own: Owner, a: string)
    requires Readable(s.header)
    ensures
      var e := EntryOf(s, own);
      && (a in Touched(e) && !e.outgoing <==> From(s, a, own))
      && (a in Touched(e) && e.outgoing <==> CreditsTo(s, a, own))
  {
    var rs := s.header.to + s.header.cc;
    CreditedMeaning(rs, s.account, own, {}, a);
    forall k | 0 <= k < |rs| ensures Unseen(rs, k, {}) {
    }
  }

  /** What a message adds to each column, said of its headers. */
  lemma ContributionMeaning(s: Sighting, own: Owner, a: string)
    requires Readable(s.header)
    ensures
      var c, h := Contribution((KeyOf(s), EntryOf(s, own)), a), s.header;
      var here := From(s, a, own);
      && c.received == Bit(here) && c.sent == Bit(CreditsTo(s, a, own))
      && c.lists == Bit(here && h.list) && c.bulks == Bit(here && h.bulk) && c.autos == Bit(here && h.auto)
      && c.dkimPass == Bit(here && h.dkim == Pass) && c.dkimFail == Bit(here && h.dkim == Fail)
      && c.dmarcPass == Bit(here && h.dmarc == Pass) && c.dmarcFail == Bit(here && h.dmarc == Fail)
      && c.first == c.last == if Touches(s, a, own) then h.date else None
  {
    TouchedMeaning(s, own, a);
  }

  lemma ColumnMeaning(s: Sighting, own: Owner, a: string, c: Column)
    requires Readable(s.header)
    ensures ColumnOf(Contribution((KeyOf(s), EntryOf(s, own)), a), c) == Bit(CountsFor(c, s, a, own))
  {
    ContributionMeaning(s, own, a);
  }

  lemma ColumnAdds(p: Profile, q: Profile, c: Column)
    ensures ColumnOf(Combine(p, q), c) == ColumnOf(p, c) + ColumnOf(q, c)
    ensures ColumnOf(NOBODY, c) == 0
  {
  }

  /**
   Every counting column of a profile, after any run: the number of distinct messages from the address, of
   those with each header flag and verdict, and of the owner's messages that credit it.
   */
  lemma {:induction false} ProfileCounts(run: seq<Sighting>, own: Owner, a: string, c: Column)
    requires SameCopies(run)
    ensures ColumnOf(ProfileOf(SightAll(EMPTY, run, own).senders, a), c) == |MessagesOf(run, c, a, own)|
  {
    if run == [] {
      assert MessagesOf(run, c, a, own) == {};
      ColumnAdds(NOBODY, NOBODY, c);
    } else {
      var init, s := run[..|run| - 1], run[|run| - 1];
      assert forall i :: 0 <= i < |init| ==> init[i] == run[i];
      ProfileCounts(init, own, a, c);
      KeysSnoc(run, s => CountsFor(c, s, a, own));
      IndexKeysSeen(init, own);
      if Readable(s.header) && KeyOf(s) !in Seen(init) {
        var t, item := SightAll(EMPTY, init, own), (KeyOf(s), EntryOf(s, own));
        CreditedDistinct(Recipients(s.header), s.account, own, {});
        CountedAt(t.senders, item.0, item.1, a);
        ColumnMeaning(s, own, a, c);
        ColumnAdds(ProfileOf(t.senders, a), Contribution(item, a), c);
      }
    }
  }

  /** The dates of the messages that touch an address. */
  ghost predicate SpansDates(run: seq<Sighting>, a: string, own: Owner, first: Option<int>, last: Option<int>) {
    if first.None? then last.None? && forall i :: 0 <= i < |run| ==> !TouchesAt(run, i, a, own)
    else
      && last.Some?
      && (exists i :: 0 <= i < |run| && TouchesAt(run, i, a, own) && run[i].header.date == first)
      && (exists i :: 0 <= i < |run| && TouchesAt(run, i, a, own) && run[i].header.date == last)
      && (forall i :: 0 <= i < |run| && TouchesAt(run, i, a, own) ==>
            first.value <= run[i].header.date.value <= last.value)
  }

  predicate TouchesAt(run: seq<Sighting>, i: nat, a: string, own: Owner)
    requires i < |run|
  {
    Readable(run[i].header) && Touches(run[i], a, own)
  }

  lemma SpansSnoc(run: seq<Sighting>, a: string, own: Owner, first: Option<int>, last: Option<int>, d: Option<int>)
    requires run != [] && SpansDates(run[..|run| - 1], a, own, first, last)
    requires d == if TouchesAt(run, |run| - 1, a, own) then run[|run| - 1].header.date else None
    ensures SpansDates(run, a, own, Earlier(first, d), Later(last, d))
  {
    var init, n := run[..|run| - 1], |run| - 1;
    assert forall i :: 0 <= i < n ==> init[i] == run[i];
    forall i | 0 <= i < n ensures TouchesAt(init, i, a, own) <==> TouchesAt(run, i, a, own) {
    }
    if first.Some? {
      var i :| 0 <= i < n && TouchesAt(init, i, a, own) && init[i].header.date == first;
      var j :| 0 <= j < n && TouchesAt(init, j, a, own) && init[j].header.date == last;
      assert TouchesAt(run, i, a, own) && TouchesAt(run, j, a, own);
    }
  }

  /** A copy of a message seen before widens nothing. */
  lemma SpansSame(run: seq<Sighting>, a: string, own: Owner, first: Option<int>, last: Option<int>)
    requires run != [] && SpansDates(run[..|run| - 1], a, own, first, last) && SameCopies(run)
    requires Readable(run[|run| - 1].header) ==> KeyOf(run[|run| - 1]) in Seen(run[..|run| - 1])
    ensures SpansDates(run, a, own, first, last)
  {
    var init, n := run[..|run| - 1], |run| - 1;
    assert forall i :: 0 <= i < n ==> init[i] == run[i];
    var d := if TouchesAt(run, n, a, own) then run[n].header.date else None;
    if TouchesAt(run, n, a, own) {
      var i :| 0 <= i < n && Readable(init[i].header) && KeyOf(init[i]) == KeyOf(run[n]);
      assert AreCopies(run[i], run[n]) && SameFacts(run[i], run[n]);
      assert TouchesAt(init, i, a, own);
    }
    SpansSnoc(run, a, own, first, last, d);
  }

  /** first_seen and last_seen, after any run: the least and greatest date of the messages that touch the address. */
  lemma {:induction false} ProfileDates(run: seq<Sighting>, own: Owner, a: string)
    requires SameCopies(run)
    ensures
      var p := ProfileOf(SightAll(EMPTY, run, own).senders, a);
      SpansDates(run, a, own, p.first, p.last)
  {
    if run != [] {
      var init, s := run[..|run| - 1], run[|run| - 1];
      assert forall i :: 0 <= i < |init| ==> init[i] == run[i];
      ProfileDates(init, own, a);
      IndexKeysSeen(init, own);
      var t := SightAll(EMPTY, init, own);
      var p := ProfileOf(t.senders, a);
      if Readable(s.header) && KeyOf(s) !in Seen(init) {
        var item := (KeyOf(s), EntryOf(s, own));
        CreditedDistinct(Recipients(s.header), s.account, own, {});
        CountedAt(t.senders, item.0, item.1, a);
        ContributionMeaning(s, own, a);
        SpansSnoc(run, a, own, p.first, p.last, Contribution(item, a).first);
      } else {
        SpansSame(run, a, own, p.first, p.last);
      }
    }
  }

  /******* Who gets a sent_count *******/

  /** The recipient loop credits everyone exactly when no address is blank, own or repeated. */
  lemma {:induction false} AllCredited(rs: seq<string>, account: string, own: Owner, seen: set<string>)
    ensures Credited(rs, account, own, seen) == rs
       <==> Distinct(rs) && forall a :: a in rs ==> a != "" && !own(account, a) && a !in seen
  {
    if rs != [] {
      AllCredited(rs[1..], account, own, seen + {rs[0]});
      assert rs == [rs[0]] + rs[1..];
      var c, rest := Credited(rs, account, own, seen), Credited(rs[1..], account, own, seen + {rs[0]});
      assert c != [] ==> c == [rs[0]] + rest && c[1..] == rest;
      if Distinct(rs) && forall a :: a in rs ==> a != "" && !own(account, a) && a !in seen {
        assert forall a :: a in rs[1..] ==> a in rs && a != rs[0];
      }
      if Distinct(rs[1..]) && forall a :: a in rs[1..] ==> a !in seen + {rs[0]} {
        assert forall i :: 1 <= i < |rs| ==> rs[i] in rs[1..];
        assert Distinct(rs);
      }
    }
  }

  /** A message to the owner and someone else credits nobody when the owner comes first. */
  lemma OwnerFirstCreditsNobody(me: string, you: string, account: string, own: Owner)
    requires own(account, me) && !own(account, you)
    ensures Credited([me, you], account, own, {}) == []
  {
  }
}
