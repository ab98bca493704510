/**
 The reconcile cycle that keeps one folder's cache in line with the server
 (internal/sync/syncer.go), over the cached rows and the stored watermark of
 internal/db/cache.go.

 `Row.validity` records the UIDVALIDITY a row was fetched under. The table has
 no such column: the field exists to state which mailbox incarnation a cached
 row belongs to.
 */
module FolderSync {
  import opened Collections
  import opened ImapServer

  const FETCH_BATCH := 25
  const DELETE_BATCH := 500

  datatype Row = Row(flags: Flags, backfill: bool, validity: nat)
  type Rows = map<Uid, Row>

  /** The stored watermark; all zero when the folder has none. */
  datatype SyncState = SyncState(uidValidity: nat, highestModSeq: nat)

  const NEVER := SyncState(0, 0)

  datatype FolderStats = FolderStats(
    cached: nat, added: nat, removed: nat, flagsDone: nat, condStore: bool, rebuilt: bool)

  /******* Flag lists *******/

  predicate SameFlags(a: Flags, b: Flags) {
    |a| == |b| && Sort(a, StringLeq) == Sort(b, StringLeq)
  }

  lemma SameFlagsIsPermutation(a: Flags, b: Flags)
    ensures SameFlags(a, b) <==> multiset(a) == multiset(b)
  {
    StringOrder();
    SortCanonical(a, b, StringLeq);
    if multiset(a) == multiset(b) {
      assert |a| == |multiset(a)| == |multiset(b)| == |b|;
    }
  }

  /******* The invariant *******/

  predicate RowCurrent(r: Row, m: Message, h: nat) {
    SameFlags(r.flags, m.flags) || m.modSeq > h
  }

  /** Every cached row whose flags differ from the server's has a mod-sequence above `h`. */
  ghost predicate AllCurrent(rows: Rows, validity: nat, h: nat, s: Server) {
    s.uidValidity == validity ==>
      forall u :: u in rows && u in s.messages ==> RowCurrent(rows[u], s.messages[u], h)
  }

  ghost predicate WatermarkInv(rows: Rows, mark: SyncState, s: Server) {
    && mark.uidValidity <= s.uidValidity
    && (mark.uidValidity == 0 ==> mark.highestModSeq == 0)
    && (mark.uidValidity == s.uidValidity ==> mark.highestModSeq <= s.highestModSeq)
    && (mark.highestModSeq > 0 ==> AllCurrent(rows, mark.uidValidity, mark.highestModSeq, s))
  }

  /** No row is older than the watermark's incarnation, none is from the future. */
  ghost predicate EpochInv(rows: Rows, mark: SyncState, s: Server) {
    forall u :: u in rows ==> mark.uidValidity <= rows[u].validity <= s.uidValidity
  }

  lemma CurrentStable(rows: Rows, validity: nat, h: nat, s: Server, t: Server)
    requires WellFormed(s) && Evolves(s, t)
    requires validity <= s.uidValidity
    requires validity == s.uidValidity ==> h <= s.highestModSeq
    requires AllCurrent(rows, validity, h, s)
    ensures AllCurrent(rows, validity, h, t)
  {
    if t.uidValidity == validity {
      forall u | u in rows && u in t.messages ensures RowCurrent(rows[u], t.messages[u], h) {
        assert t == s || MessageEvolves(s, t, u);
      }
    }
  }

  /** Whatever the server does, the watermark stays sound. */
  lemma WatermarkStable(rows: Rows, mark: SyncState, s: Server, t: Server)
    requires WellFormed(s) && Evolves(s, t)
    requires WatermarkInv(rows, mark, s)
    ensures WatermarkInv(rows, mark, t)
  {
    if mark.highestModSeq > 0 {
      CurrentStable(rows, mark.uidValidity, mark.highestModSeq, s, t);
    }
  }

  /** Dropping rows, in part or in full, never invalidates the watermark. */
  lemma WatermarkSubset(rows: Rows, rest: Rows, mark: SyncState, s: Server)
    requires WatermarkInv(rows, mark, s)
    requires forall u :: u in rest ==> u in rows && rest[u] == rows[u]
    ensures WatermarkInv(rest, mark, s)
  {
  }

  /******* Refreshing flags *******/

  predicate Outdated(r: Row, told: FlagMap, u: Uid) {
    u in told && !SameFlags(r.flags, told[u])
  }

  /** The rows an answer changes: those it mentions whose flags differ as a multiset. */
  function Changed(rows: Rows, told: FlagMap): set<Uid> {
    set u | u in rows && Outdated(rows[u], told, u)
  }

  function RefreshedRow(r: Row, told: FlagMap, u: Uid): Row {
    if Outdated(r, told, u) then r.(flags := told[u]) else r
  }

  function Refresh(rows: Rows, told: FlagMap): Rows {
    map u | u in rows :: RefreshedRow(rows[u], told, u)
  }

  /**
   The point of the watermark: asking only for what changed since it leaves the
   very cache that asking for everything would.
   */
  lemma IncrementalEqualsFull(
    rows: Rows, mark: SyncState, s: Server, uids: set<Uid>, changed: FlagMap, all: FlagMap)
    requires WellFormed(s) && WatermarkInv(rows, mark, s)
    requires mark.uidValidity == s.uidValidity && mark.highestModSeq > 0
    requires FetchAnswer(s, uids, mark.highestModSeq, changed)
    requires FetchAnswer(s, uids, 0, all)
    ensures Refresh(rows, changed) == Refresh(rows, all)
  {
    forall u | u in rows ensures RefreshedRow(rows[u], changed, u) == RefreshedRow(rows[u], all, u) {
      assert u in s.messages ==> RowCurrent(rows[u], s.messages[u], mark.highestModSeq);
    }
  }

  /** Truthful answers, however many of them get stored, keep every watermark sound. */
  lemma RefreshCurrent(rows: Rows, validity: nat, h: nat, s: Server, told: FlagMap)
    requires forall u :: u in told ==> u in s.messages && told[u] == s.messages[u].flags
    requires AllCurrent(rows, validity, h, s)
    ensures AllCurrent(Refresh(rows, told), validity, h, s)
  {
  }

  /**
   After the whole answer is stored every cached row agrees with the server as it
   stood when it answered, so any mod-sequence is a sound watermark then.
   */
  lemma RefreshAgrees(rows: Rows, since: nat, validity: nat, s: Server, uids: set<Uid>, told: FlagMap, h: nat)
    requires WellFormed(s) && rows.Keys == uids
    requires uids != {} ==> FetchAnswer(s, uids, since, told)
    requires since > 0 ==> AllCurrent(rows, s.uidValidity, since, s)
    ensures AllCurrent(Refresh(rows, told), validity, h, s)
    ensures Refresh(rows, told) == Refresh(rows, ServerFlags(s))
    ensures Changed(rows, told) == Changed(rows, ServerFlags(s))
  {
    forall u | u in rows
      ensures Outdated(rows[u], told, u) <==> Outdated(rows[u], ServerFlags(s), u)
      ensures u in s.messages ==> SameFlags(RefreshedRow(rows[u], told, u).flags, s.messages[u].flags)
    {
      assert since > 0 && u in s.messages ==> RowCurrent(rows[u], s.messages[u], since);
    }
  }

  function ServerFlags(s: Server): FlagMap {
    map u | u in s.messages :: s.messages[u].flags
  }

  /******* What a cycle against a server that holds still leaves behind *******/

  predicate Rebuilds(mark: SyncState, validity: nat) {
    mark.uidValidity != 0 && mark.uidValidity != validity
  }

  function Kept(rows: Rows, mark: SyncState, s: Server): Rows {
    if Rebuilds(mark, s.uidValidity) then map[] else rows
  }

  /** New mail is a UID above all cached ones, in a folder that was synced before. */
  predicate IsBackfill(kept: Rows, hadState: bool, u: Uid) {
    !hadState || exists v :: v in kept && u <= v
  }

  /** A message at or below all cached ones is backfill exactly when some are cached, or the folder is new. */
  lemma GrowthLane(kept: Rows, hadState: bool, u: Uid)
    requires forall v :: v in kept ==> u <= v
    ensures IsBackfill(kept, hadState, u) <==> !hadState || kept != map[]
  {
    if kept != map[] {
      var v :| v in kept;
    }
  }

  /**
   The lane of a message is right, backfill for those the server had at the last cycle and new mail for
   those that came since, exactly when an older one has a cached message at or above it.
   */
  lemma LaneExactly(kept: Rows, u: Uid, uidNext: Uid)
    requires forall v :: v in kept ==> v < uidNext
    ensures (IsBackfill(kept, true, u) <==> u < uidNext) <==> (u < uidNext ==> exists v :: v in kept && u <= v)
  {
  }

  /** The input: a synced folder whose window held nothing. Widening the window files the old message as new. */
  lemma EmptyWindowMisfilesLane()
    ensures
      var s := Server(1, 8, 5, map[7 := Message([], 5, 0)], 1);
      && WellFormed(s) && WatermarkInv(map[], SyncState(1, 5), s)
      && Window(s, 1, false) == {} && Window(s, 0, false) == {7}
      && Reconciled(map[], SyncState(1, 5), s, 0, false) == map[7 := Row([], false, 1)]
  {
    var s := Server(1, 8, 5, map[7 := Message([], 5, 0)], 1);
    var r := Reconciled(map[], SyncState(1, 5), s, 0, false);
    assert Window(s, 0, false) == {7};
    assert r[7] == ReconciledRow(map[], true, s, 7) && r.Keys == {7};
  }

  function ReconciledRow(kept: Rows, hadState: bool, s: Server, u: Uid): Row
    requires u in s.messages
  {
    if u in kept then RefreshedRow(kept[u], ServerFlags(s), u)
    else Row(s.messages[u].flags, IsBackfill(kept, hadState, u), s.uidValidity)
  }

  function ReconciledFrom(kept: Rows, hadState: bool, s: Server, since: int, orFlagged: bool): Rows {
    map u | u in Window(s, since, orFlagged) && u in s.messages :: ReconciledRow(kept, hadState, s, u)
  }

  function Reconciled(rows: Rows, mark: SyncState, s: Server, since: int, orFlagged: bool): Rows {
    ReconciledFrom(Kept(rows, mark, s), mark.uidValidity == s.uidValidity, s, since, orFlagged)
  }

  /** The cache holds exactly the window, with the server's flags up to order. */
  lemma ReconciledMirrors(rows: Rows, mark: SyncState, s: Server, since: int, orFlagged: bool)
    ensures Reconciled(rows, mark, s, since, orFlagged).Keys == Window(s, since, orFlagged)
    ensures forall u :: u in Reconciled(rows, mark, s, since, orFlagged) ==>
      multiset(Reconciled(rows, mark, s, since, orFlagged)[u].flags) == multiset(s.messages[u].flags)
  {
    var r := Reconciled(rows, mark, s, since, orFlagged);
    forall u | u in r ensures multiset(r[u].flags) == multiset(s.messages[u].flags) {
      SameFlagsIsPermutation(r[u].flags, s.messages[u].flags);
    }
  }

  /** A second cycle finds nothing to do. */
  lemma ReconciledIdempotent(rows: Rows, mark: SyncState, s: Server, since: int, orFlagged: bool, h: nat)
    ensures
      var once := Reconciled(rows, mark, s, since, orFlagged);
      && Reconciled(once, SyncState(s.uidValidity, h), s, since, orFlagged) == once
      && Changed(once, ServerFlags(s)) == {}
  {
    var once := Reconciled(rows, mark, s, since, orFlagged);
    forall u | u in once ensures SameFlags(once[u].flags, s.messages[u].flags) {
      assert once[u] == ReconciledRow(Kept(rows, mark, s), mark.uidValidity == s.uidValidity, s, u);
    }
  }

  /** A kept row that the rebuild test cannot tell belongs to an earlier incarnation. */
  predicate Misfiled(rows: Rows, mark: SyncState, s: Server, u: Uid) {
    mark.uidValidity == 0 && u in rows && rows[u].validity != s.uidValidity
  }

  /**
   Exactly when every row left by a cycle was fetched under the server's
   UIDVALIDITY: no row still in the window was cached under another one while
   the folder had no watermark.
   */
  lemma ReconciledEpoch(rows: Rows, mark: SyncState, s: Server, since: int, orFlagged: bool)
    requires mark.uidValidity <= s.uidValidity && EpochInv(rows, mark, s)
    ensures
      var r := Reconciled(rows, mark, s, since, orFlagged);
      (forall u :: u in r ==> r[u].validity == s.uidValidity)
      <==> (forall u :: u in Window(s, since, orFlagged) ==> !Misfiled(rows, mark, s, u))
  {
    var r := Reconciled(rows, mark, s, since, orFlagged);
    var kept := Kept(rows, mark, s);
    var hadState := mark.uidValidity == s.uidValidity;
    assert forall u :: u in r ==> r[u] == ReconciledRow(kept, hadState, s, u);
    forall u | u in r ensures r[u].validity != s.uidValidity <==> Misfiled(rows, mark, s, u) {
    }
    if forall u :: u in r ==> r[u].validity == s.uidValidity {
      forall u | u in Window(s, since, orFlagged) ensures !Misfiled(rows, mark, s, u) {
        assert u in r;
      }
    }
  }

  /** A row a cycle keeps although it belongs to another incarnation, however it got there. */
  predicate KeptStale(rows: Rows, mark: SyncState, s: Server, u: Uid) {
    !Rebuilds(mark, s.uidValidity) && u in rows && rows[u].validity != s.uidValidity
  }

  /** The same iff for any cache, reachable or not. */
  lemma ReconciledEpochAlways(rows: Rows, mark: SyncState, s: Server, since: int, orFlagged: bool)
    ensures
      var r := Reconciled(rows, mark, s, since, orFlagged);
      (forall u :: u in r ==> r[u].validity == s.uidValidity)
      <==> (forall u :: u in Window(s, since, orFlagged) ==> !KeptStale(rows, mark, s, u))
  {
    var r := Reconciled(rows, mark, s, since, orFlagged);
    var kept := Kept(rows, mark, s);
    assert r.Keys == Window(s, since, orFlagged);
    forall u | u in r ensures r[u].validity != s.uidValidity <==> KeptStale(rows, mark, s, u) {
      assert r[u] == ReconciledRow(kept, mark.uidValidity == s.uidValidity, s, u);
    }
  }

  /** A misfiled row stays, cycle after cycle, until a rebuild or until it leaves the window. */
  lemma MisfiledStays(rows: Rows, mark: SyncState, s: Server, since: int, orFlagged: bool, h: nat, u: Uid)
    requires KeptStale(rows, mark, s, u) && u in Window(s, since, orFlagged)
    ensures
      var r := Reconciled(rows, mark, s, since, orFlagged);
      u in r && r[u].validity == rows[u].validity && KeptStale(r, SyncState(s.uidValidity, h), s, u)
  {
    assert Reconciled(rows, mark, s, since, orFlagged)[u]
        == ReconciledRow(Kept(rows, mark, s), mark.uidValidity == s.uidValidity, s, u);
  }

  /**
   The case that condition shuts out. A first sync fetches and stores UID 7 and stops before
   writing the watermark, the server renumbers the folder, and the next cycle keeps the old
   row for the new message 7 because no watermark tells it to rebuild.
   */
  lemma AbortedFirstSyncMisfiles()
    ensures
      var s1, s2 := Server(1, 8, 1, map[7 := Message([], 1, 0)], 1), Server(2, 8, 1, map[7 := Message([], 1, 0)], 2);
      var rows: Rows := map[7 := FetchedRow([], 7, 1, false, 0)];
      && WellFormed(s1) && WellFormed(s2) && Evolves(s1, s2)
      && 7 in Window(s1, 0, false) && FetchAnswer(s1, {7}, 0, map[7 := []])
      && WithFetched(map[], rows, map[7 := []], {7}, 1, false, 0)
      && WatermarkInv(rows, NEVER, s2) && EpochInv(rows, NEVER, s2)
      && 7 in Reconciled(rows, NEVER, s2, 0, false) && Reconciled(rows, NEVER, s2, 0, false)[7].validity == 1
  {
    var s2 := Server(2, 8, 1, map[7 := Message([], 1, 0)], 2);
    var rows: Rows := map[7 := FetchedRow([], 7, 1, false, 0)];
    assert 7 in Window(s2, 0, false);
    assert Reconciled(rows, NEVER, s2, 0, false)[7] == ReconciledRow(rows, false, s2, 7);
  }

  /******* The cycle *******/

  ghost predicate IsHighest(uids: set<Uid>, m: Uid) {
    (forall v :: v in uids ==> v <= m) && (m == 0 || m in uids)
  }

  /** Sorts the server's UIDs and the cached ones into cached, missing and departed. */
  method Classify(server: set<Uid>, cached: Rows)
    returns (existing: set<Uid>, missing: set<Uid>, gone: set<Uid>, prevMax: Uid)
    ensures existing == server * cached.Keys && missing == server - cached.Keys && gone == cached.Keys - server
    ensures IsHighest(cached.Keys, prevMax)
  {
    existing, missing, gone, prevMax := {}, {}, {}, 0;
    var rest := server;
    while rest != {}
      invariant rest <= server
      invariant existing == (server - rest) * cached.Keys && missing == (server - rest) - cached.Keys
    {
      var u :| u in rest;
      if u in cached {
        existing := existing + {u};
      } else {
        missing := missing + {u};
      }
      rest := rest - {u};
    }
    rest := cached.Keys;
    while rest != {}
      invariant rest <= cached.Keys
      invariant gone == cached.Keys - rest - server && IsHighest(cached.Keys - rest, prevMax)
    {
      var u :| u in rest;
      assert cached.Keys - (rest - {u}) == cached.Keys - rest + {u};
      prevMax := Max(prevMax, u);
      if u !in server {
        gone := gone + {u};
      }
      rest := rest - {u};
    }
    assert cached.Keys - rest == cached.Keys;
  }

  /** The `n` highest of `uids`, or all of them. */
  method TakeHighest(uids: set<Uid>, n: nat) returns (batch: set<Uid>)
    ensures batch <= uids && |batch| <= n && (n > 0 && uids != {} ==> batch != {})
    ensures |batch| < n ==> batch == uids
    ensures forall u, v :: u in batch && v in uids - batch ==> v < u
  {
    batch := {};
    while |batch| < n && batch != uids
      invariant batch <= uids && |batch| <= n
      invariant forall u, v :: u in batch && v in uids - batch ==> v < u
      decreases uids - batch
    {
      var top := HighestOf(uids - batch);
      batch := batch + {top};
    }
  }

  method HighestOf(uids: set<Uid>) returns (m: Uid)
    requires uids != {}
    ensures m in uids && forall u :: u in uids ==> u <= m
  {
    m :| m in uids;
    var rest := uids - {m};
    while rest != {}
      invariant rest <= uids && m in uids
      invariant forall u :: u in uids && u !in rest ==> u <= m
    {
      var u :| u in rest;
      m := Max(m, u);
      rest := rest - {u};
    }
  }

  function FetchedRow(flags: Flags, u: Uid, validity: nat, hadState: bool, prevMax: Uid): Row {
    Row(flags, !hadState || u <= prevMax, validity)
  }

  /** `after` is `rows` with the `stored` part of an answer inserted. */
  ghost predicate WithFetched(
    rows: Rows, after: Rows, told: FlagMap, stored: set<Uid>, validity: nat, hadState: bool, prevMax: Uid)
    requires stored <= told.Keys
  {
    && after.Keys == rows.Keys + stored
    && (forall u :: u in stored ==> after[u] == FetchedRow(told[u], u, validity, hadState, prevMax))
    && (forall u :: u in rows && u !in stored ==> after[u] == rows[u])
  }

  lemma WithFetchedAdd(
    rows: Rows, after: Rows, told: FlagMap, stored: set<Uid>, u: Uid, validity: nat, hadState: bool, prevMax: Uid)
    requires stored <= told.Keys && u in told && u !in stored
    requires WithFetched(rows, after, told, stored, validity, hadState, prevMax)
    ensures WithFetched(
              rows, after[u := FetchedRow(told[u], u, validity, hadState, prevMax)], told, stored + {u},
              validity, hadState, prevMax)
  {
  }

  lemma OneMoreStored(all: set<Uid>, stored: set<Uid>, u: Uid)
    requires stored <= all && u in all - stored
    ensures stored + {u} <= all && |stored + {u}| == |stored| + 1 && all - (stored + {u}) < all - stored
  {
    assert u in all - stored;
  }

  lemma DeleteSize(rows: Rows, batch: set<Uid>)
    ensures |rows - batch| == |rows| - |rows.Keys * batch|
    ensures rows.Keys !! batch ==> rows - batch == rows
  {
    assert (rows - batch).Keys == rows.Keys - batch;
    assert |rows.Keys| == |rows.Keys - batch| + |rows.Keys * batch|;
  }

  lemma DeleteTwice(rows: Rows, done: set<Uid>, batch: set<Uid>)
    ensures (rows - done) - batch == rows - (done + batch)
  {
  }

  lemma RefreshAdd(rows: Rows, told: FlagMap, u: Uid, flags: Flags)
    requires u !in told
    ensures
      var outdated := u in rows && !SameFlags(rows[u].flags, flags);
      && Refresh(rows, told[u := flags])
         == (if outdated then Refresh(rows, told)[u := rows[u].(flags := flags)] else Refresh(rows, told))
      && Changed(rows, told[u := flags]) == Changed(rows, told) + (if outdated then {u} else {})
      && (u in rows ==> Refresh(rows, told)[u] == rows[u])
  {
  }

  /** What the steps of a cycle that runs under `validity` and read mod-sequence `h` keep true. */
  ghost predicate Sound(rows: Rows, mark: SyncState, validity: nat, h: nat, s: Server) {
    && WellFormed(s)
    && WatermarkInv(rows, mark, s)
    && AllCurrent(rows, validity, h, s)
    && mark.uidValidity <= validity <= s.uidValidity
    && (validity == s.uidValidity ==> h <= s.highestModSeq)
  }

  lemma SoundStable(rows: Rows, mark: SyncState, validity: nat, h: nat, s: Server, t: Server)
    requires Sound(rows, mark, validity, h, s) && Evolves(s, t) && WellFormed(t)
    ensures Sound(rows, mark, validity, h, t)
  {
    WatermarkStable(rows, mark, s, t);
    CurrentStable(rows, validity, h, s, t);
  }

  /** `rows` is `before` plus rows cached under `validity` for some of `uids`. */
  ghost predicate Grown(before: Rows, rows: Rows, validity: nat, uids: set<Uid>) {
    && (forall u :: u in before ==> u in rows && rows[u] == before[u])
    && (forall u :: u in rows && u !in before ==> u in uids && rows[u].validity == validity)
  }

  /** `rows` is `before` plus a row for each of `uids` that `s` has. */
  ghost predicate Filled(
    before: Rows, rows: Rows, s: Server, uids: set<Uid>, validity: nat, hadState: bool, prevMax: Uid)
  {
    && (forall u :: u in uids && u in s.messages ==> u in rows)
    && (forall u :: u in rows && u !in before ==>
          u in s.messages && rows[u] == FetchedRow(s.messages[u].flags, u, validity, hadState, prevMax))
  }

  lemma GrownMore(
    rows0: Rows, before: Rows, rows: Rows, s: Server, done: set<Uid>, batch: set<Uid>,
    validity: nat, hadState: bool, prevMax: Uid)
    requires Grown(rows0, before, validity, done) && Grown(before, rows, validity, batch)
    ensures Grown(rows0, rows, validity, done + batch)
    ensures Filled(rows0, before, s, done, validity, hadState, prevMax)
         && Filled(before, rows, s, batch, validity, hadState, prevMax)
        ==> Filled(rows0, rows, s, done + batch, validity, hadState, prevMax)
  {
  }

  /** One fetched batch, stored in part or in full. */
  lemma BatchStored(
    rows: Rows, after: Rows, mark: SyncState, s: Server, batch: set<Uid>, told: FlagMap, stored: set<Uid>,
    validity: nat, hadState: bool, prevMax: Uid, h: nat)
    requires batch !! rows.Keys && FetchAnswer(s, batch, 0, told) && stored <= told.Keys
    requires WithFetched(rows, after, told, stored, validity, hadState, prevMax)
    requires Sound(rows, mark, validity, h, s)
    ensures Sound(after, mark, validity, h, s)
    ensures Grown(rows, after, validity, batch)
    ensures |after| == |rows| + |stored|
    ensures stored == told.Keys ==> Filled(rows, after, s, batch, validity, hadState, prevMax)
  {
    assert |after.Keys| == |rows.Keys| + |stored|;
  }

  function Within(rows: Rows, window: set<Uid>): Rows {
    map u | u in rows && u in window :: rows[u]
  }

  lemma WithinDeletes(rows: Rows, window: set<Uid>)
    ensures rows - (rows.Keys - window) == Within(rows, window)
    ensures Within(rows, window).Keys == window * rows.Keys
  {
  }

  /** Every row of `after` comes from `rows`, flags aside. */
  ghost predicate SameEpochs(rows: Rows, after: Rows) {
    forall u :: u in after ==> u in rows && after[u].validity == rows[u].validity
  }

  /** No cached row is from another incarnation that a missing watermark hides. */
  ghost predicate NoneMisfiled(rows: Rows, mark: SyncState, validity: nat) {
    mark.uidValidity == 0 ==> forall u :: u in rows ==> rows[u].validity == validity
  }

  /** Rows come from `rows0` or were cached under `validity`. */
  ghost predicate Aged(rows0: Rows, rows: Rows, validity: nat) {
    forall u :: u in rows ==>
      rows[u].validity == validity || (u in rows0 && rows[u].validity == rows0[u].validity)
  }

  /** A cycle that read UIDVALIDITY `v` keeps the epochs in order, whether or not it finished. */
  lemma EpochsKept(rows0: Rows, kept: Rows, rows: Rows, mark: SyncState, v: nat, s0: Server, s1: Server, s: Server)
    requires EpochInv(rows0, mark, s0) && Evolves(s0, s1) && Evolves(s1, s)
    requires mark.uidValidity <= s0.uidValidity
    requires v == s1.uidValidity && kept == Kept(rows0, mark, s1) && Aged(kept, rows, v)
    ensures EpochInv(rows, mark, s)
    ensures NoneMisfiled(rows0, mark, v) ==> EpochInv(rows, SyncState(v, 0), s)
  {
  }

  /** The pieces of a cycle against a still server make up `Reconciled`. */
  lemma Assembled(kept: Rows, stay: Rows, hadState: bool, s: Server, window: set<Uid>, rows: Rows, prevMax: Uid)
    requires forall u :: u in window ==> u in s.messages && u > 0
    requires stay == Refresh(Within(kept, window), ServerFlags(s)) && IsHighest(kept.Keys, prevMax)
    requires Grown(stay, rows, s.uidValidity, window - kept.Keys)
    requires Filled(stay, rows, s, window - kept.Keys, s.uidValidity, hadState, prevMax)
    ensures rows == map u | u in window && u in s.messages :: ReconciledRow(kept, hadState, s, u)
    ensures rows.Keys == window
  {
    assert rows.Keys == window;
    forall u | u in window ensures rows[u] == ReconciledRow(kept, hadState, s, u) {
      if u in kept {
        assert u in stay;
      } else {
        assert u !in stay && u in rows;
        assert u <= prevMax <==> exists v :: v in kept && u <= v;
      }
    }
  }

  lemma AssembledSizes(kept: Rows, stay: Rows, rows: Rows, window: set<Uid>)
    requires rows.Keys == window && stay.Keys == Within(kept, window).Keys
    ensures |rows| - |stay| == |window - kept.Keys|
    ensures |kept| - |Within(kept, window)| == |kept.Keys - window|
    ensures |rows| == |Within(kept, window).Keys| + |window - kept.Keys|
  {
    assert Within(kept, window).Keys == kept.Keys * window == window * kept.Keys;
    assert |window| == |window * kept.Keys| + |window - kept.Keys|;
    assert |kept.Keys| == |kept.Keys * window| + |kept.Keys - window|;
  }

  /** The counters say exactly what a cycle added, removed and changed. */
  ghost predicate StatsExact(st: FolderStats, kept: Rows, s: Server, window: set<Uid>) {
    && st.added == |window - kept.Keys|
    && st.removed == |kept.Keys - window|
    && st.flagsDone == |Changed(Within(kept, window), ServerFlags(s))|
  }

  /** CHANGEDSINCE, when the server supports it and the folder has a watermark. */
  function SinceFor(status: FolderStatus, prev: SyncState): nat {
    if status.condStore && prev.highestModSeq > 0 then prev.highestModSeq else 0
  }

  /** Storing any part of the answer keeps the watermark sound. */
  lemma PartStored(rows: Rows, mark: SyncState, s: Server, told: FlagMap, stored: FlagMap)
    requires WatermarkInv(rows, mark, s)
    requires forall u :: u in told ==> u in s.messages && told[u] == s.messages[u].flags
    requires forall u :: u in stored ==> u in told && stored[u] == told[u]
    ensures WatermarkInv(Refresh(rows, stored), mark, s) && SameEpochs(rows, Refresh(rows, stored))
    ensures Refresh(rows, stored).Keys == rows.Keys
  {
    if mark.highestModSeq > 0 {
      RefreshCurrent(rows, mark.uidValidity, mark.highestModSeq, s, stored);
    }
  }

  /** Storing all of it makes the cache current up to the mod-sequence the cycle read. */
  lemma AllStored(
    rows: Rows, mark: SyncState, prev: SyncState, condStore: bool, status: FolderStatus, s0: Server, s: Server,
    told: FlagMap)
    requires WellFormed(s0) && WellFormed(s) && Evolves(s0, s) && StatusAnswer(s0, condStore, status)
    requires mark.uidValidity <= s0.uidValidity
    requires WatermarkInv(rows, mark, s) && WatermarkInv(Refresh(rows, told), mark, s)
    requires prev == if Rebuilds(mark, status.uidValidity) then NEVER else mark
    requires rows.Keys != {} ==>
               s.uidValidity == status.uidValidity && FetchAnswer(s, rows.Keys, SinceFor(status, prev), told)
    ensures Sound(Refresh(rows, told), mark, status.uidValidity, status.highestModSeq, s)
    ensures Refresh(rows, told) == Refresh(rows, ServerFlags(s)) && Changed(rows, told) == Changed(rows, ServerFlags(s))
  {
    RefreshAgrees(rows, SinceFor(status, prev), status.uidValidity, s, rows.Keys, told, status.highestModSeq);
  }

  /** What a cycle against a still server reports and leaves. */
  ghost predicate QuietResult(
    rows: Rows, st: FolderStats, kept: Rows, hadState: bool, s: Server, since: int, orFlagged: bool)
  {
    && rows == ReconciledFrom(kept, hadState, s, since, orFlagged)
    && StatsExact(st, kept, s, Window(s, since, orFlagged)) && st.cached == |rows|
  }

  lemma QuietDone(
    kept: Rows, stay: Rows, rows: Rows, st: FolderStats, hadState: bool, s: Server, since: int, orFlagged: bool,
    prevMax: Uid)
    requires WellFormed(s) && stay == Refresh(Within(kept, Window(s, since, orFlagged)), ServerFlags(s))
    requires IsHighest(kept.Keys, prevMax)
    requires Grown(stay, rows, s.uidValidity, Window(s, since, orFlagged) - kept.Keys)
    requires Filled(stay, rows, s, Window(s, since, orFlagged) - kept.Keys, s.uidValidity, hadState, prevMax)
    requires st.added == |rows| - |stay| && st.removed == |kept| - |Within(kept, Window(s, since, orFlagged))|
    requires st.flagsDone == |Changed(Within(kept, Window(s, since, orFlagged)), ServerFlags(s))|
    requires st.cached == |Within(kept, Window(s, since, orFlagged)).Keys| + st.added
    ensures QuietResult(rows, st, kept, hadState, s, since, orFlagged)
  {
    var window := Window(s, since, orFlagged);
    Assembled(kept, stay, hadState, s, window, rows, prevMax);
    AssembledSizes(kept, stay, rows, window);
  }

  class Syncer {
    const mailbox: Mailbox
    var rows: Rows
    var mark: SyncState

    constructor (m: Mailbox)
      requires WellFormed(m.server)
      ensures mailbox == m && rows == map[] && mark == NEVER && Valid()
    {
      mailbox, rows, mark := m, map[], NEVER;
    }

    ghost predicate Valid()
      reads this, mailbox
    {
      WellFormed(mailbox.server) && WatermarkInv(rows, mark, mailbox.server)
    }

    /******* Cache statements; each may fail *******/

    /** A statement that may fail; failures are recorded as the mailbox's are. */
    method Statement() returns (ok: bool)
      modifies mailbox`fault
      ensures if ok then mailbox.fault == old(mailbox.fault) else mailbox.fault
    {
      ok := *;
      mailbox.fault := mailbox.fault || !ok;
    }

    method DeleteFolder() returns (ok: bool)
      modifies this`rows, mailbox`fault
      ensures rows == if ok then map[] else old(rows)
      ensures !ok ==> mailbox.fault
    {
      ok := Statement();
      if ok {
        rows := map[];
      }
    }

    /** Deletes in batches; a failure leaves the earlier batches deleted. */
    method DeleteUIDs(uids: set<Uid>) returns (ok: bool, total: nat)
      modifies this`rows, mailbox`fault
      ensures !ok ==> mailbox.fault
      ensures forall u :: u in rows ==> u in old(rows) && rows[u] == old(rows)[u]
      ensures total == |old(rows)| - |rows|
      ensures ok ==> rows == old(rows) - uids
    {
      total := 0;
      var done: set<Uid> := {};
      ok := Statement();
      while ok && uids - done != {}
        invariant !ok ==> mailbox.fault
        invariant done <= uids && rows == old(rows) - done
        invariant total == |old(rows)| - |rows|
        decreases uids - done
      {
        var batch := TakeHighest(uids - done, DELETE_BATCH);
        DeleteSize(rows, batch);
        DeleteTwice(old(rows), done, batch);
        total := total + |rows.Keys * batch|;
        rows := rows - batch;
        done := done + batch;
        if done != uids {
          ok := Statement();
        }
      }
    }

    /** The flag loop over an answer; `stored` is the part of it handled. */
    method StoreFlags(told: FlagMap) returns (ok: bool, done: nat, stored: FlagMap)
      modifies this`rows, mailbox`fault
      ensures !ok ==> mailbox.fault
      ensures forall u :: u in stored ==> u in told && stored[u] == told[u]
      ensures ok ==> stored == told
      ensures rows == Refresh(old(rows), stored)
      ensures done == |Changed(old(rows), stored)|
    {
      var cached := rows;
      ok, done, stored := true, 0, map[];
      var rest := told.Keys;
      while rest != {}
        invariant ok && rest <= told.Keys && stored == told - rest
        invariant rows == Refresh(cached, stored)
        invariant done == |Changed(cached, stored)|
      {
        var u :| u in rest;
        RefreshAdd(cached, stored, u, told[u]);
        if u in cached && !SameFlags(cached[u].flags, told[u]) {
          ok := Statement();
          if !ok {
            return;
          }
          rows := rows[u := rows[u].(flags := told[u])];
          done := done + 1;
        }
        rest := rest - {u};
        assert stored[u := told[u]] == told - rest;
        stored := stored[u := told[u]];
      }
    }

    /** Fetches one batch and stores it row by row. */
    method FetchBatch(validity: nat, batch: set<Uid>, hadState: bool, prevMax: Uid, ghost h: nat)
      returns (ok: bool, added: nat)
      requires batch != {} && batch !! rows.Keys
      requires Sound(rows, mark, validity, h, mailbox.server)
      modifies this`rows, mailbox`server, mailbox`since, mailbox`fault
      ensures Sound(rows, mark, validity, h, mailbox.server)
      ensures Evolves(old(mailbox.server), mailbox.server) && (!ok ==> mailbox.fault)
      ensures Grown(old(rows), rows, validity, batch) && added == |rows| - |old(rows)|
      ensures ok ==> Filled(old(rows), rows, mailbox.server, batch, validity, hadState, prevMax)
    {
      ghost var s := mailbox.server;
      var reply := mailbox.Fetch(validity, batch, 0);
      SoundStable(rows, mark, validity, h, s, mailbox.server);
      if reply.Failed? {
        return false, 0;
      }
      var stored;
      ok, added, stored := InsertAll(reply.value, validity, hadState, prevMax);
      BatchStored(old(rows), rows, mark, mailbox.server, batch, reply.value, stored, validity, hadState, prevMax, h);
    }

    method InsertAll(told: FlagMap, validity: nat, hadState: bool, prevMax: Uid)
      returns (ok: bool, added: nat, stored: set<Uid>)
      modifies this`rows, mailbox`fault
      ensures stored <= told.Keys && if ok then stored == told.Keys else mailbox.fault
      ensures WithFetched(old(rows), rows, told, stored, validity, hadState, prevMax)
      ensures added == |stored|
    {
      added, stored := 0, {};
      ok := Statement();
      while ok && told.Keys - stored != {}
        invariant !ok ==> mailbox.fault
        invariant stored <= told.Keys
        invariant WithFetched(old(rows), rows, told, stored, validity, hadState, prevMax)
        invariant added == |stored|
        decreases told.Keys - stored
      {
        var u :| u in told.Keys - stored;
        OneMoreStored(told.Keys, stored, u);
        WithFetchedAdd(old(rows), rows, told, stored, u, validity, hadState, prevMax);
        rows := rows[u := FetchedRow(told[u], u, validity, hadState, prevMax)];
        stored := stored + {u};
        added := added + 1;
        if stored != told.Keys {
          ok := Statement();
        }
      }
    }

    /** Fetches and caches what is missing, highest UIDs first, batch by batch. */
    method FetchMissing(validity: nat, missing: set<Uid>, hadState: bool, prevMax: Uid, ghost h: nat)
      returns (ok: bool, added: nat)
      requires missing !! rows.Keys
      requires Sound(rows, mark, validity, h, mailbox.server)
      modifies this`rows, mailbox`server, mailbox`since, mailbox`fault
      ensures Sound(rows, mark, validity, h, mailbox.server)
      ensures Evolves(old(mailbox.server), mailbox.server) && (!ok ==> mailbox.fault)
      ensures Grown(old(rows), rows, validity, missing) && added == |rows| - |old(rows)|
      ensures ok && mailbox.server.version == old(mailbox.server).version ==>
                Filled(old(rows), rows, mailbox.server, missing, validity, hadState, prevMax)
    {
      ghost var s0, rows0 := mailbox.server, rows;
      added := 0;
      var done: set<Uid> := {};
      ok := Statement(); // the context may be cancelled between batches
      while ok && done != missing
        invariant !ok ==> mailbox.fault
        invariant done <= missing
        invariant Sound(rows, mark, validity, h, mailbox.server)
        invariant Evolves(s0, mailbox.server)
        invariant Grown(rows0, rows, validity, done) && added == |rows| - |rows0|
        invariant ok && mailbox.server.version == s0.version ==>
                    Filled(rows0, rows, mailbox.server, done, validity, hadState, prevMax)
        decreases missing - done
      {
        var batch := TakeHighest(missing - done, FETCH_BATCH);
        ghost var s, before := mailbox.server, rows;
        var more;
        ok, more := FetchBatch(validity, batch, hadState, prevMax, h);
        EvolvesTransitive(s0, s, mailbox.server);
        GrownMore(rows0, before, rows, mailbox.server, done, batch, validity, hadState, prevMax);
        added := added + more;
        done := done + batch;
        if ok && done != missing {
          ok := Statement();
        }
      }
    }

    /** Reads the folder's status and drops the cache of a renumbered folder. */
    method Begin() returns (ok: bool, status: FolderStatus, prev: SyncState)
      requires Valid()
      modifies this`rows, mailbox`server, mailbox`told, mailbox`fault
      ensures Valid() && Evolves(old(mailbox.server), mailbox.server)
      ensures !ok ==> rows == old(rows) && mailbox.fault
      ensures ok ==> StatusAnswer(mailbox.server, mailbox.condStore, status) && mailbox.told == status
      ensures ok ==> rows == Kept(old(rows), mark, mailbox.server)
      ensures ok ==> prev == if Rebuilds(mark, status.uidValidity) then NEVER else mark
    {
      ok, status, prev := false, FolderStatus(0, 0, false), mark;
      ghost var s := mailbox.server;
      var reply := mailbox.Status();
      WatermarkStable(rows, mark, s, mailbox.server);
      if reply.Reply? {
        ok, status := true, reply.value;
        if prev.uidValidity != 0 && prev.uidValidity != status.uidValidity {
          ok := DeleteFolder();
          prev := NEVER;
        }
      }
    }

    /** Drops what left the window and refreshes the flags of what stayed. */
    method Refreshing(status: FolderStatus, prev: SyncState, since: int, orFlagged: bool)
      returns (ok: bool, existing: set<Uid>, missing: set<Uid>, prevMax: Uid, removed: nat, done: nat)
      requires Valid() && StatusAnswer(mailbox.server, mailbox.condStore, status)
      requires prev == if Rebuilds(mark, status.uidValidity) then NEVER else mark
      modifies this`rows, mailbox`server, mailbox`since, mailbox`fault
      ensures Valid() && Evolves(old(mailbox.server), mailbox.server) && (!ok ==> mailbox.fault)
      ensures SameEpochs(old(rows), rows)
      ensures ok ==> missing !! rows.Keys && Sound(rows, mark, status.uidValidity, status.highestModSeq, mailbox.server)
      ensures ok && mailbox.server.version == old(mailbox.server).version ==>
                var window := Window(mailbox.server, since, orFlagged);
                var stay := Within(old(rows), window);
                && existing == stay.Keys && missing == window - old(rows).Keys
                && IsHighest(old(rows).Keys, prevMax)
                && rows == Refresh(stay, ServerFlags(mailbox.server))
                && removed == |old(rows)| - |stay|
                && done == |Changed(stay, ServerFlags(mailbox.server))|
    {
      ok, existing, missing, prevMax, removed, done := false, {}, {}, 0, 0, 0;
      ghost var s0 := mailbox.server;
      var search := mailbox.SearchSince(status.uidValidity, since, orFlagged);
      ghost var s1 := mailbox.server;
      WatermarkStable(rows, mark, s0, s1);
      if search.Failed? {
        return;
      }
      var gone;
      existing, missing, gone, prevMax := Classify(search.value, rows);
      ok, removed := DeleteUIDs(gone);
      WatermarkSubset(old(rows), rows, mark, s1);
      if !ok {
        return;
      }
      WithinDeletes(old(rows), search.value);
      ok, done := RefreshFlags(status, prev, existing, s0);
      EvolvesTransitive(s0, s1, mailbox.server);
    }

    /** FETCH FLAGS of the cached UIDs, incrementally when the watermark allows, and store them. */
    method RefreshFlags(status: FolderStatus, prev: SyncState, existing: set<Uid>, ghost s0: Server)
      returns (ok: bool, done: nat)
      requires Valid() && WellFormed(s0) && StatusAnswer(s0, mailbox.condStore, status) && Evolves(s0, mailbox.server)
      requires mark.uidValidity <= s0.uidValidity && rows.Keys == existing
      requires prev == if Rebuilds(mark, status.uidValidity) then NEVER else mark
      modifies this`rows, mailbox`server, mailbox`since, mailbox`fault
      ensures Valid() && Evolves(old(mailbox.server), mailbox.server) && (!ok ==> mailbox.fault)
      ensures rows.Keys == existing && SameEpochs(old(rows), rows)
      ensures existing != {} ==>
                mailbox.since == if status.condStore && prev.highestModSeq > 0 then prev.highestModSeq else 0
      ensures ok ==> Sound(rows, mark, status.uidValidity, status.highestModSeq, mailbox.server)
      ensures ok && mailbox.server.version == old(mailbox.server).version ==>
                && rows == Refresh(old(rows), ServerFlags(mailbox.server))
                && done == |Changed(old(rows), ServerFlags(mailbox.server))|
    {
      ok, done := false, 0;
      var changedSince := SinceFor(status, prev);
      ghost var s1 := mailbox.server;
      var reply := mailbox.Fetch(status.uidValidity, existing, changedSince);
      ghost var s2 := mailbox.server;
      WatermarkStable(rows, mark, s1, s2);
      EvolvesTransitive(s0, s1, s2);
      if reply.Reply? {
        var stored;
        ok, done, stored := StoreFlags(reply.value);
        PartStored(old(rows), mark, s2, reply.value, stored);
        if ok {
          AllStored(old(rows), mark, prev, mailbox.condStore, status, s0, s2, reply.value);
        }
      }
    }

    /** Everything between reading the status and writing the watermark. */
    method Reconcile(status: FolderStatus, prev: SyncState, since: int, orFlagged: bool)
      returns (ok: bool, st: FolderStats)
      requires Valid() && StatusAnswer(mailbox.server, mailbox.condStore, status)
      requires prev == if Rebuilds(mark, status.uidValidity) then NEVER else mark
      modifies this`rows, mailbox`server, mailbox`since, mailbox`fault
      ensures Valid() && Evolves(old(mailbox.server), mailbox.server) && (!ok ==> mailbox.fault)
      ensures Aged(old(rows), rows, status.uidValidity)
      ensures ok ==> Sound(rows, mark, status.uidValidity, status.highestModSeq, mailbox.server)
      ensures ok && mailbox.server.version == old(mailbox.server).version ==>
                QuietResult(rows, st, old(rows), prev.uidValidity != 0, mailbox.server, since, orFlagged)
    {
      st := FolderStats(0, 0, 0, 0, false, false);
      ghost var s0 := mailbox.server;
      var existing, missing, prevMax, removed, done;
      ok, existing, missing, prevMax, removed, done := Refreshing(status, prev, since, orFlagged);
      ghost var s1, stay := mailbox.server, rows;
      if ok {
        var added;
        ok, added := FetchMissing(status.uidValidity, missing, prev.uidValidity != 0, prevMax, status.highestModSeq);
        EvolvesTransitive(s0, s1, mailbox.server);
        st := st.(removed := removed, flagsDone := done, added := added, cached := |existing| + added);
        if ok && mailbox.server.version == s0.version {
          assert s1 == s0 && mailbox.server == s0;
          QuietDone(old(rows), stay, rows, st, prev.uidValidity != 0, s0, since, orFlagged, prevMax);
        }
      }
    }

    /**
     One cycle. On every outcome the watermark stays sound; against a server that
     did not change meanwhile, a successful cycle leaves exactly `Reconciled`.
     */
    method SyncFolder(since: int, orFlagged: bool) returns (ok: bool, st: FolderStats)
      requires Valid()
      modifies this, mailbox
      ensures Valid() && Evolves(old(mailbox.server), mailbox.server)
      ensures !ok ==> mark == old(mark) && mailbox.fault
      ensures ok ==> mark == SyncState(mailbox.told.uidValidity, mailbox.told.highestModSeq)
      ensures ok ==> st.condStore == mailbox.told.condStore
      ensures old(EpochInv(rows, mark, mailbox.server)) && (ok ==> NoneMisfiled(old(rows), old(mark), mark.uidValidity))
        ==> EpochInv(rows, mark, mailbox.server)
      ensures ok && mailbox.server.version == old(mailbox.server).version ==>
                && mark.uidValidity == mailbox.server.uidValidity
                && (mailbox.condStore ==> mark.highestModSeq == mailbox.server.highestModSeq)
                && (st.condStore <==> mailbox.condStore && mailbox.server.highestModSeq > 0)
                && rows == Reconciled(old(rows), old(mark), mailbox.server, since, orFlagged)
                && st.rebuilt == Rebuilds(old(mark), mailbox.server.uidValidity)
                && StatsExact(st, Kept(old(rows), old(mark), mailbox.server), mailbox.server,
                              Window(mailbox.server, since, orFlagged))
                && st.cached == |rows|
    {
      st := FolderStats(0, 0, 0, 0, false, false);
      ghost var s0 := mailbox.server;
      var status, prev;
      ok, status, prev := Begin();
      if ok {
        ghost var s1, kept := mailbox.server, rows;
        ok, st := Reconcile(status, prev, since, orFlagged);
        EvolvesTransitive(s0, s1, mailbox.server);
        if EpochInv(old(rows), mark, s0) {
          EpochsKept(old(rows), kept, rows, mark, status.uidValidity, s0, s1, mailbox.server);
        }
        st := st.(condStore := status.condStore, rebuilt := prev != mark);
        if ok {
          ok := Statement();
        }
        if ok {
          mark := SyncState(status.uidValidity, status.highestModSeq);
        }
      }
    }

    /** cache_sweep: drops the selected rows and, if there were any, the watermark. */
    method Sweep(selected: set<Uid>)
      requires Valid()
      modifies this
      ensures Valid()
      ensures rows == old(rows) - selected
      ensures mark == if old(rows).Keys !! selected then old(mark) else NEVER
    {
      DeleteSize(rows, selected);
      if !(rows.Keys !! selected) {
        rows, mark := rows - selected, NEVER;
      }
    }

    /** A folder that left the configuration: rows first, then the watermark, each statement may fail. */
    method Prune()
      requires Valid()
      modifies this, mailbox`fault
      ensures Valid()
      ensures mailbox.fault || (rows == map[] && mark == NEVER)
      ensures (rows == old(rows) && mark == old(mark)) || (rows == map[] && (mark == old(mark) || mark == NEVER))
    {
      var ok := DeleteFolder();
      if ok {
        ok := Statement();
        if ok {
          mark := NEVER;
        }
      }
    }

    /**
     Any run: cycles that stop at any step, sweeps, prunes and server changes in
     any order. The stored watermark never hides a flag change.
     */
    method AnyRun(steps: nat)
      requires Valid()
      modifies this, mailbox
      ensures Valid()
      ensures mark.highestModSeq > 0 && mark.uidValidity == mailbox.server.uidValidity ==>
                forall u :: u in rows && u in mailbox.server.messages
                            && multiset(rows[u].flags) != multiset(mailbox.server.messages[u].flags)
                            ==> mailbox.server.messages[u].modSeq > mark.highestModSeq
    {
      for i := 0 to steps
        invariant Valid()
      {
        ghost var s := mailbox.server;
        if
        case true =>
          var since: int, orFlagged: bool := *, *;
          var _, _ := SyncFolder(since, orFlagged);
        case true =>
          var selected: set<Uid> := *;
          Sweep(selected);
        case true =>
          Prune();
        case true =>
          mailbox.Drift();
          WatermarkStable(rows, mark, s, mailbox.server);
      }
      forall u | u in rows && u in mailbox.server.messages
        ensures SameFlags(rows[u].flags, mailbox.server.messages[u].flags)
           <==> multiset(rows[u].flags) == multiset(mailbox.server.messages[u].flags)
      {
        SameFlagsIsPermutation(rows[u].flags, mailbox.server.messages[u].flags);
      }
    }
  }
}
