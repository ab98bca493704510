/**
 The cache tables of internal/db/cache.go that must stay consistent with each other:
 messages, the enrichment queue and the vectors that hang off them, and the folders
 that have a stored sync state. Deletions cascade, as the foreign keys demand.
 */
module CacheTables {
  datatype FolderKey = FolderKey(account: string, folder: string)
  datatype Message = Message(place: FolderKey, uid: nat, messageId: string)

  /** `queue` maps a message row to its lane; true is backfill. */
  datatype Tables = Tables(
    messages: map<nat, Message>, queue: map<nat, bool>, vectors: set<nat>, synced: set<FolderKey>, nextId: nat)

  const EMPTY := Tables(map[], map[], {}, {}, 0)

  predicate SamePlace(a: Message, b: Message) { a.place == b.place && a.uid == b.uid }

  predicate SameId(a: Message, b: Message) { a.messageId != "" && a.messageId == b.messageId }

  /** The queued copies of a Message-ID. */
  function QueuedCopies(t: Tables, id: string): set<nat> {
    set r | r in t.queue && r in t.messages && t.messages[r].messageId == id
  }

  predicate IsOtherCopy(a: Message, m: Message) { a.messageId == m.messageId && !SamePlace(a, m) }

  /** Another cached copy of the same Message-ID is queued already. */
  predicate IsDuplicate(t: Tables, m: Message) {
    m.messageId != "" && exists r :: r in t.queue && r in t.messages && IsOtherCopy(t.messages[r], m)
  }

  /** Deleting message rows takes their queue entries and vectors along. */
  function Dropped(t: Tables, ids: set<nat>): Tables {
    t.(messages := t.messages - ids, queue := t.queue - ids, vectors := t.vectors - ids)
  }

  function Replaced(t: Tables, m: Message): set<nat> {
    set r | r in t.messages && SamePlace(t.messages[r], m)
  }

  /** Delete-then-insert under a new row id; queued unless a copy is. */
  function Inserted(t: Tables, m: Message, backfill: bool): Tables {
    var u := Dropped(t, Replaced(t, m));
    u.(messages := u.messages[t.nextId := m],
       queue := if IsDuplicate(t, m) then u.queue else u.queue[t.nextId := backfill],
       nextId := t.nextId + 1)
  }

  function InFolders(t: Tables, places: set<FolderKey>): set<nat> {
    set r | r in t.messages && t.messages[r].place in places
  }

  function PlacesOf(t: Tables, ids: set<nat>): set<FolderKey> {
    set r | r in ids && r in t.messages :: t.messages[r].place
  }

  /** A sweep deletes the selected rows and forgets the sync state of the folders it touched. */
  function Swept(t: Tables, selected: set<nat>): Tables {
    Dropped(t, selected).(synced := t.synced - PlacesOf(t, selected))
  }

  function Pruned(t: Tables, places: set<FolderKey>): Tables {
    Dropped(t, InFolders(t, places)).(synced := t.synced - places)
  }

  function WithVector(t: Tables, r: nat): Tables {
    if r in t.messages then t.(vectors := t.vectors + {r}) else t
  }

  function Orphans(t: Tables): set<nat> { (t.queue.Keys + t.vectors) - t.messages.Keys }

  /******* What every run keeps *******/

  ghost predicate Inv(t: Tables) {
    && (forall r :: r in t.messages ==> r < t.nextId)
    && (forall r, q :: r in t.messages && q in t.messages && SamePlace(t.messages[r], t.messages[q]) ==> r == q)
    && t.queue.Keys <= t.messages.Keys && t.vectors <= t.messages.Keys
    && (forall r, q :: r in t.queue && q in t.queue && SameId(t.messages[r], t.messages[q]) ==> r == q)
  }

  datatype Event =
    | Insert(m: Message, backfill: bool)
    | Delete(ids: set<nat>)
    | Sweep(selected: set<nat>)
    | Prune(places: set<FolderKey>)
    | SaveVector(row: nat)
    | PutSyncState(place: FolderKey)

  function Step(t: Tables, e: Event): Tables {
    match e
    case Insert(m, backfill) => Inserted(t, m, backfill)
    case Delete(ids) => Dropped(t, ids)
    case Sweep(selected) => Swept(t, selected)
    case Prune(places) => Pruned(t, places)
    case SaveVector(r) => WithVector(t, r)
    case PutSyncState(p) => t.(synced := t.synced + {p})
  }

  function Run(t: Tables, es: seq<Event>): Tables {
    if es == [] then t else Step(Run(t, es[..|es| - 1]), es[|es| - 1])
  }

  lemma DropKeepsInv(t: Tables, ids: set<nat>)
    requires Inv(t)
    ensures Inv(Dropped(t, ids))
  {
  }

  /** A fresh row in a free place keeps the invariant, queued only if no copy is. */
  lemma AddKeepsInv(t: Tables, m: Message, queue: map<nat, bool>, backfill: bool)
    requires Inv(t) && forall r :: r in t.messages ==> !SamePlace(t.messages[r], m)
    requires queue == t.queue || queue == t.queue[t.nextId := backfill]
    requires t.nextId in queue ==> forall r :: r in t.queue ==> !SameId(t.messages[r], m)
    ensures Inv(t.(messages := t.messages[t.nextId := m], queue := queue, nextId := t.nextId + 1))
  {
  }

  lemma InsertKeepsInv(t: Tables, m: Message, backfill: bool)
    requires Inv(t)
    ensures Inv(Inserted(t, m, backfill))
  {
    var u := Dropped(t, Replaced(t, m));
    DropKeepsInv(t, Replaced(t, m));
    AddKeepsInv(u, m, Inserted(t, m, backfill).queue, backfill);
  }

  lemma StepKeepsInv(t: Tables, e: Event)
    requires Inv(t)
    ensures Inv(Step(t, e))
  {
    match e
    case Insert(m, backfill) => InsertKeepsInv(t, m, backfill);
    case Delete(ids) => DropKeepsInv(t, ids);
    case Sweep(selected) => DropKeepsInv(t, selected);
    case Prune(places) => DropKeepsInv(t, InFolders(t, places));
    case _ =>
  }

  lemma {:induction false} RunKeepsInv(t: Tables, es: seq<Event>)
    requires Inv(t)
    ensures Inv(Run(t, es))
  {
    if es != [] {
      RunKeepsInv(t, es[..|es| - 1]);
      StepKeepsInv(Run(t, es[..|es| - 1]), es[|es| - 1]);
    }
  }

  /** In every reachable state a Message-ID is queued at most once, and nothing is orphaned. */
  lemma QueuedAtMostOnce(es: seq<Event>, id: string)
    requires id != ""
    ensures |QueuedCopies(Run(EMPTY, es), id)| <= 1
    ensures Orphans(Run(EMPTY, es)) == {}
  {
    RunKeepsInv(EMPTY, es);
    var copies := QueuedCopies(Run(EMPTY, es), id);
    if r :| r in copies {
      assert copies == {r};
    }
  }

  /******* At most once, not exactly once *******/

  /** The cached copies of a Message-ID. */
  function Copies(t: Tables, id: string): set<nat> {
    set r | r in t.messages && t.messages[r].messageId == id
  }

  /** Cached, and queued nowhere. */
  predicate Unqueued(t: Tables, id: string) { Copies(t, id) != {} && QueuedCopies(t, id) == {} }

  /** The rows an event takes out of the cache. */
  function Gone(t: Tables, e: Event): set<nat> {
    match e
    case Insert(m, _) => Replaced(t, m)
    case Delete(ids) => ids
    case Sweep(selected) => selected
    case Prune(places) => InFolders(t, places)
    case _ => {}
  }

  /** Taking `ids` leaves a copy, but no queued one. */
  predicate Stranded(t: Tables, ids: set<nat>, id: string) {
    Copies(t, id) - ids != {} && QueuedCopies(t, id) <= ids
  }

  predicate Inserts(e: Event, id: string) { e.Insert? && e.m.messageId == id }

  lemma NothingLeft(a: set<nat>, b: set<nat>)
    ensures a - b == {} <==> a <= b
  {
    assert a <= b ==> forall r :: r !in a - b;
    assert a - b == {} ==> forall r :: r in a ==> r !in a - b;
  }

  /** Deleting rows leaves `id` cached and unqueued exactly when it strands it. */
  lemma DropLeaves(t: Tables, ids: set<nat>, id: string)
    ensures Copies(Dropped(t, ids), id) == Copies(t, id) - ids
    ensures QueuedCopies(Dropped(t, ids), id) == QueuedCopies(t, id) - ids
    ensures Unqueued(Dropped(t, ids), id) <==> Stranded(t, ids, id)
  {
    NothingLeft(QueuedCopies(t, id), ids);
  }

  /** Inserting a copy of `id` leaves one queued: the new one, or the one that made it a duplicate. */
  lemma InsertQueues(t: Tables, m: Message, backfill: bool)
    requires Inv(t) && m.messageId != ""
    ensures QueuedCopies(Inserted(t, m, backfill), m.messageId) != {}
  {
    if IsDuplicate(t, m) {
      var r :| r in t.queue && r in t.messages && IsOtherCopy(t.messages[r], m);
      assert r !in Replaced(t, m);
      DuplicateStays(Dropped(t, Replaced(t, m)), Inserted(t, m, backfill), m.messageId, r);
    } else {
      assert t.nextId in QueuedCopies(Inserted(t, m, backfill), m.messageId);
    }
  }

  lemma DuplicateStays(t: Tables, u: Tables, id: string, r: nat)
    requires r in t.queue && r in t.messages && t.messages[r].messageId == id
    requires r in u.queue && r in u.messages && u.messages[r] == t.messages[r]
    ensures QueuedCopies(u, id) != {}
  {
    assert r in QueuedCopies(u, id);
  }

  lemma InsertLeaves(t: Tables, m: Message, backfill: bool, id: string)
    requires Inv(t) && id != m.messageId
    ensures Copies(Inserted(t, m, backfill), id) == Copies(t, id) - Replaced(t, m)
    ensures QueuedCopies(Inserted(t, m, backfill), id) == QueuedCopies(t, id) - Replaced(t, m)
  {
  }

  /** Any event but an insert of `id` only takes copies away. */
  lemma StepLeaves(t: Tables, e: Event, id: string)
    requires Inv(t) && !Inserts(e, id)
    ensures Copies(Step(t, e), id) == Copies(t, id) - Gone(t, e)
    ensures QueuedCopies(Step(t, e), id) == QueuedCopies(t, id) - Gone(t, e)
  {
    match e
    case Insert(m, backfill) => InsertLeaves(t, m, backfill, id);
    case _ => DropLeaves(t, Gone(t, e), id);
  }

  /** One event leaves `id` cached and unqueued iff it is no insert of `id` and strands it. */
  lemma StepStrands(t: Tables, e: Event, id: string)
    requires Inv(t) && id != ""
    ensures Unqueued(Step(t, e), id) <==> !Inserts(e, id) && Stranded(t, Gone(t, e), id)
  {
    if Inserts(e, id) {
      InsertQueues(t, e.m, e.backfill);
    } else {
      StepLeaves(t, e, id);
      NothingLeft(QueuedCopies(t, id), Gone(t, e));
    }
  }

  /** Event `k` took the queued copy and left another, and no copy was inserted since. */
  ghost predicate StrandedSince(es: seq<Event>, id: string, k: nat)
    requires k < |es|
  {
    var t := Run(EMPTY, es[..k]);
    && QueuedCopies(t, id) != {} && !Inserts(es[k], id) && Stranded(t, Gone(t, es[k]), id)
    && forall j :: k < j < |es| ==> !Inserts(es[j], id)
  }

  ghost predicate WasStranded(es: seq<Event>, id: string) {
    exists k :: 0 <= k < |es| && StrandedSince(es, id, k)
  }

  lemma StrandedSnoc(es: seq<Event>, e: Event, id: string)
    ensures WasStranded(es + [e], id) <==>
      !Inserts(e, id) && (WasStranded(es, id) || (QueuedCopies(Run(EMPTY, es), id) != {}
        && Stranded(Run(EMPTY, es), Gone(Run(EMPTY, es), e), id)))
  {
    var more := es + [e];
    assert more[..|es|] == es && more[|es|] == e;
    forall k | 0 <= k < |es| ensures StrandedSince(more, id, k) <==> StrandedSince(es, id, k) && !Inserts(e, id) {
      assert more[..k] == es[..k] && more[k] == es[k];
      assert forall j :: k < j < |es| ==> more[j] == es[j];
    }
    if WasStranded(more, id) {
      var k :| 0 <= k < |more| && StrandedSince(more, id, k);
      assert k < |es| ==> StrandedSince(es, id, k);
    }
    if WasStranded(es, id) && !Inserts(e, id) {
      var k :| 0 <= k < |es| && StrandedSince(es, id, k);
      assert StrandedSince(more, id, k);
    }
    var t := Run(EMPTY, es);
    assert StrandedSince(more, id, |es|) <==>
      (!Inserts(e, id) && QueuedCopies(t, id) != {} && Stranded(t, Gone(t, e), id));
  }

  /** Exactly when a cached Message-ID is queued nowhere, over any run. */
  lemma {:induction false} UnqueuedExactly(es: seq<Event>, id: string)
    requires id != ""
    ensures Unqueued(Run(EMPTY, es), id) <==> Copies(Run(EMPTY, es), id) != {} && WasStranded(es, id)
  {
    if es != [] {
      var init, e := es[..|es| - 1], es[|es| - 1];
      assert es == init + [e];
      RunKeepsInv(EMPTY, init);
      UnqueuedExactly(init, id);
      StrandedSnoc(init, e, id);
      var t := Run(EMPTY, init);
      StepStrands(t, e, id);
      if !Inserts(e, id) {
        StepLeaves(t, e, id);
      }
    }
  }

  /** So a cached Message-ID is queued exactly once iff no event stranded it since its last insert. */
  lemma QueuedExactlyOnce(es: seq<Event>, id: string)
    requires id != "" && Copies(Run(EMPTY, es), id) != {}
    ensures |QueuedCopies(Run(EMPTY, es), id)| == 1 <==> !WasStranded(es, id)
  {
    QueuedAtMostOnce(es, id);
    UnqueuedExactly(es, id);
  }

  /** The input: the queued copy leaves the cache, and the copy skipped as a duplicate stays unqueued. */
  lemma SkippedCopyStaysUnqueued(inbox: FolderKey, all: FolderKey, id: string)
    requires inbox != all && id != ""
    ensures
      var es := [Insert(Message(inbox, 1, id), false), Insert(Message(all, 1, id), true), Delete({0})];
      var t := Run(EMPTY, es);
      t.messages == map[1 := Message(all, 1, id)] && QueuedCopies(t, id) == {}
  {
    var a, b := Message(inbox, 1, id), Message(all, 1, id);
    var es := [Insert(a, false), Insert(b, true), Delete({0})];
    assert es[..2] == [Insert(a, false), Insert(b, true)];
    assert es[..2][..1] == [Insert(a, false)] && es[..2][..1][..0] == [];
    var t1 := Inserted(EMPTY, a, false);
    assert Run(EMPTY, es[..2][..1]) == t1;
    assert t1.messages == map[0 := a] && t1.queue == map[0 := false];
    var t2 := Inserted(t1, b, true);
    assert 0 in t1.queue && 0 in t1.messages && !SamePlace(t1.messages[0], b);
    assert IsDuplicate(t1, b) && Replaced(t1, b) == {};
    assert t2.messages == map[0 := a, 1 := b] && t2.queue == map[0 := false];
    assert Run(EMPTY, es[..2]) == t2;
    assert Run(EMPTY, es) == Dropped(t2, {0});
  }

  /** A row with what hangs off it. */
  predicate SameRow(t: Tables, u: Tables, r: nat) {
    && r in t.messages && r in u.messages && u.messages[r] == t.messages[r]
    && (r in u.queue <==> r in t.queue) && (r in t.queue ==> u.queue[r] == t.queue[r])
    && (r in u.vectors <==> r in t.vectors)
  }

  /** Exactly the rows of `gone` left and those of `added` came; all others are as they were. */
  ghost predicate KeepsOthers(t: Tables, u: Tables, gone: set<nat>, added: set<nat>) {
    && u.messages.Keys == t.messages.Keys - gone + added
    && forall r :: r in t.messages && r !in gone ==> SameRow(t, u, r)
  }

  /** A copy of the message is queued, not at the place it is written to. */
  predicate QueuedElsewhere(t: Tables, m: Message) {
    exists r :: r in t.queue && r in t.messages && t.messages[r].messageId == m.messageId
      && (t.messages[r].place != m.place || t.messages[r].uid != m.uid)
  }

  /** What stood at the place a message is written to. */
  function At(t: Tables, m: Message): set<nat> {
    set r | r in t.messages && t.messages[r].place == m.place && t.messages[r].uid == m.uid
  }

  /** What an insert does, said of the columns. */
  ghost predicate InsertResult(t: Tables, u: Tables, m: Message, backfill: bool, id: nat, queued: bool) {
    && id !in t.messages && id in u.messages && u.messages[id] == m && KeepsOthers(t, u, At(t, m), {id})
    && (queued <==> id in u.queue) && (queued ==> u.queue[id] == backfill)
    && (queued <==> m.messageId == "" || !QueuedElsewhere(t, m))
    && u.synced == t.synced && id !in u.vectors
  }

  lemma InsertedResult(t: Tables, m: Message, backfill: bool)
    requires Inv(t)
    ensures InsertResult(t, Inserted(t, m, backfill), m, backfill, t.nextId, !IsDuplicate(t, m))
  {
    assert Replaced(t, m) == At(t, m);
  }

  /******* The repository *******/

  class MessageRepo {
    var t: Tables

    constructor ()
      ensures t == EMPTY && Inv(t)
    {
      t := EMPTY;
    }

    method InsertMessage(m: Message, backfill: bool) returns (id: nat, queued: bool)
      requires Inv(t)
      modifies this
      ensures t == Inserted(old(t), m, backfill) && Inv(t)
      ensures id in t.messages && t.messages[id] == m && (queued <==> id in t.queue)
      ensures InsertResult(old(t), t, m, backfill, id, queued)
    {
      InsertKeepsInv(t, m, backfill);
      InsertedResult(t, m, backfill);
      queued := !IsDuplicate(t, m);
      id := t.nextId;
      var u := Dropped(t, Replaced(t, m));
      u := u.(messages := u.messages[id := m], nextId := id + 1);
      if queued {
        u := u.(queue := u.queue[id := backfill]);
      }
      t := u;
    }

    /**
     Counts the selected rows per folder; unless it is a dry run, deletes them and
     forgets the sync state of exactly the folders that lost a row.
     */
    method SweepRows(selected: set<nat>, dryRun: bool) returns (counts: map<FolderKey, nat>)
      requires Inv(t) && selected <= t.messages.Keys
      modifies this
      ensures t == (if dryRun then old(t) else Swept(old(t), selected)) && Inv(t)
      ensures !dryRun ==> KeepsOthers(old(t), t, selected, {})
      ensures !dryRun ==> forall p :: p in t.synced <==>
                p in old(t).synced && forall r :: r in selected ==> old(t).messages[r].place != p
      ensures counts.Keys == PlacesOf(old(t), selected)
      ensures forall p :: p in counts ==> counts[p] == |InFolder(old(t), selected, p)|
    {
      StepKeepsInv(t, Sweep(selected));
      counts := CountByFolder(t, selected);
      if !dryRun {
        t := Swept(t, selected);
      }
    }

    /** Drops every folder `drop` picks, one statement at a time; a failure keeps what was done. */
    method PruneWhere(drop: FolderKey -> bool) returns (ok: bool, stale: set<FolderKey>)
      requires Inv(t)
      modifies this
      ensures Inv(t)
      ensures stale == set p | p in PlacesOf(old(t), old(t).messages.Keys) + old(t).synced && drop(p)
      ensures ok ==> t == Pruned(old(t), stale)
      ensures ok ==> forall r :: r in t.messages <==> r in old(t).messages && !drop(old(t).messages[r].place)
      ensures ok ==> forall r :: r in t.messages ==> SameRow(old(t), t, r)
      ensures ok ==> forall p :: p in t.synced <==> p in old(t).synced && !drop(p)
    {
      stale := set p | p in PlacesOf(t, t.messages.Keys) + t.synced && drop(p);
      ghost var t0 := t;
      var done: set<FolderKey> := {};
      assert Pruned(t, {}) == t;
      ok := true;
      while ok && stale - done != {}
        invariant done <= stale && Inv(t)
        invariant ok ==> t == Pruned(t0, done)
        decreases stale - done, ok
      {
        var p :| p in stale - done;
        var first: bool, second: bool := *, *;
        DropKeepsInv(t, InFolders(t, {p}));
        PruneMore(t0, done, p);
        if first {
          t := Dropped(t, InFolders(t, {p}));
        }
        if first && second {
          t := t.(synced := t.synced - {p});
          done := done + {p};
        } else {
          ok := false;
        }
      }
      if ok {
        assert done == stale;
        forall r ensures r in t.messages <==> r in t0.messages && !drop(t0.messages[r].place) {
          if r in t0.messages {
            assert t0.messages[r].place in PlacesOf(t0, t0.messages.Keys);
          }
        }
      }
    }

    /** Removes queue entries and vectors whose message is gone; there never are any. */
    method CleanOrphans() returns (vectors: nat, queued: nat)
      requires Inv(t)
      modifies this
      ensures t == old(t) && vectors == 0 && queued == 0
    {
      CleanNothing(t);
      vectors := |t.vectors - t.messages.Keys|;
      queued := |t.queue.Keys - t.messages.Keys|;
      t := Cleaned(t);
    }
  }

  function Cleaned(t: Tables): Tables {
    t.(vectors := t.vectors * t.messages.Keys, queue := t.queue - (t.queue.Keys - t.messages.Keys))
  }

  lemma CleanNothing(t: Tables)
    requires Inv(t)
    ensures Cleaned(t) == t && t.vectors - t.messages.Keys == {} && t.queue.Keys - t.messages.Keys == {}
  {
    assert t.vectors * t.messages.Keys == t.vectors;
    assert t.queue.Keys - t.messages.Keys == {};
    assert t.queue - {} == t.queue;
  }

  method CountByFolder(t: Tables, selected: set<nat>) returns (counts: map<FolderKey, nat>)
    requires selected <= t.messages.Keys
    ensures counts.Keys == PlacesOf(t, selected)
    ensures forall p :: p in counts ==> counts[p] == |InFolder(t, selected, p)|
  {
    counts := map[];
    var done: set<nat> := {};
    while selected - done != {}
      invariant done <= selected
      invariant counts.Keys == PlacesOf(t, done)
      invariant forall p :: p in counts ==> counts[p] == |InFolder(t, done, p)|
      decreases selected - done
    {
      var r :| r in selected - done;
      var p := t.messages[r].place;
      CountOne(t, done, r);
      counts := counts[p := (if p in counts then counts[p] else 0) + 1];
      done := done + {r};
    }
    assert done == selected;
  }

  function InFolder(t: Tables, ids: set<nat>, p: FolderKey): set<nat> {
    set r | r in ids && r in t.messages && t.messages[r].place == p
  }

  lemma CountOne(t: Tables, done: set<nat>, r: nat)
    requires r in t.messages && r !in done
    ensures
      var p := t.messages[r].place;
      && PlacesOf(t, done + {r}) == PlacesOf(t, done) + {p}
      && |InFolder(t, done + {r}, p)| == |InFolder(t, done, p)| + 1
      && (forall q :: q != p ==> InFolder(t, done + {r}, q) == InFolder(t, done, q))
      && (p !in PlacesOf(t, done) ==> InFolder(t, done, p) == {})
  {
    var p := t.messages[r].place;
    assert InFolder(t, done + {r}, p) == InFolder(t, done, p) + {r};
  }

  lemma PruneMore(t: Tables, done: set<FolderKey>, p: FolderKey)
    ensures
      var u := Pruned(t, done);
      Dropped(u, InFolders(u, {p})).(synced := u.synced - {p}) == Pruned(t, done + {p})
  {
    var u := Pruned(t, done);
    var a, b := InFolders(t, done), InFolders(u, {p});
    assert InFolders(t, done + {p}) == a + b;
    assert (t.messages - a) - b == t.messages - (a + b);
    assert (t.queue - a) - b == t.queue - (a + b);
  }
}
