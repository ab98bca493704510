/**
 The resumable header scan of an account's folders: scanFolder of internal/intel/scanner.go over
 apply, finish, resetFolder and register of internal/intel/store.go. A batch writes the
 sender index, the conversations and the graph, and is committed together with the
 progress it makes or not at all.
 */
module HeaderScan {
  import opened Collections
  import opened Headers
  import opened SenderIndex
  import T = Threads
  import G = KnowledgeGraph

  /******* The folder on the server *******/

  datatype Folder = Folder(uidValidity: nat, uidNext: nat, mails: map<nat, Header>)

  predicate WellFormed(f: Folder) {
    f.uidValidity > 0 && f.uidNext > 0 && forall u :: u in f.mails ==> 0 < u < f.uidNext && f.mails[u].uid == u
  }

  /** A message never changes, its flags aside. */
  predicate SameMail(a: Header, b: Header) { b == a.(answered := b.answered) }

  /** Section 2.3.1.1 of RFC 3501: UIDs grow and are not reused; a new UIDVALIDITY is greater. */
  predicate Evolves(f: Folder, g: Folder) {
    && f.uidValidity <= g.uidValidity
    && (f.uidValidity == g.uidValidity ==>
          && f.uidNext <= g.uidNext
          && forall u :: u in g.mails ==> if u in f.mails then SameMail(f.mails[u], g.mails[u]) else u >= f.uidNext)
  }

  datatype Batch = Batch(uidValidity: nat, headers: seq<Header>, more: bool)
  datatype Reply = Got(batch: Batch) | Lost

  /** The headers above `after`, sorted by UID as the source sorts them, without gaps as far as the batch goes. */
  predicate Answers(f: Folder, after: nat, b: Batch) {
    && b.uidValidity == f.uidValidity
    && (forall i, j :: 0 <= i < j < |b.headers| ==> b.headers[i].uid < b.headers[j].uid)
    && (forall i :: 0 <= i < |b.headers| ==>
          b.headers[i].uid > after && b.headers[i].uid in f.mails && f.mails[b.headers[i].uid] == b.headers[i])
    && (forall u :: u in f.mails && u > after && (!b.more || (b.headers != [] && u <= b.headers[|b.headers| - 1].uid))
          ==> f.mails[u] in b.headers)
  }

  type Folders = map<string, Folder>

  predicate AllWellFormed(fs: Folders) { forall n :: n in fs ==> WellFormed(fs[n]) }

  /** Folders appear and change; one that is deleted stays on as an empty one. */
  predicate AllEvolve(fs: Folders, gs: Folders) {
    forall n :: n in fs ==> n in gs && Evolves(fs[n], gs[n])
  }

  /**
   The mailbox. For the sake of the contracts, `ever` collects what the folders have ever held, `version`
   counts their changes, and `fault` says whether any call or commit failed.
   */
  class Source {
    var folders: Folders
    ghost var ever: set<(string, Header)>
    ghost var version: nat
    ghost var fault: bool

    constructor (fs: Folders)
      requires AllWellFormed(fs)
      ensures folders == fs && ever == Held(fs) && !fault
    {
      folders, ever, version, fault := fs, Held(fs), 0, false;
    }

    /**
     The folders change, then the call answers or fails. While they hold still, an answer
     with more to come is not empty.
     */
    method Fetch(name: string, after: nat) returns (r: Reply)
      requires AllWellFormed(folders)
      modifies this
      ensures AllWellFormed(folders) && AllEvolve(old(folders), folders)
      ensures ever == old(ever) + Held(folders)
      ensures version >= old(version) && (version == old(version) ==> folders == old(folders))
      ensures r.Got? ==> name in folders && Answers(folders[name], after, r.batch) && fault == old(fault)
      ensures r.Got? && r.batch.more && version == old(version) ==> r.batch.headers != []
      ensures r.Lost? ==> fault
    {
      var next: Folders := *;
      ghost var was := version;
      if AllWellFormed(next) && AllEvolve(folders, next) {
        folders := next;
        version := version + 1;
      }
      r := Lost;
      ever := ever + Held(folders);
      var b: Batch := *;
      if name in folders && Answers(folders[name], after, b) && !(b.more && b.headers == []) {
        r := Got(b);
      }
      fault := fault || r.Lost?;
    }
  }

  /** What the folders hold, by folder. */
  ghost function Held(fs: Folders): set<(string, Header)> {
    set n, u | n in fs && u in fs[n].mails :: (n, fs[n].mails[u])
  }

  /******* Progress *******/

  /** The folder's intel_scan row; all zero when it was never scanned. */
  datatype Progress = Progress(uidValidity: nat, lastUid: nat)

  const UNSCANNED := Progress(0, 0)

  predicate Indexed(t: Tables, account: string, name: string, h: Header) {
    Readable(h) ==> KeyOf(Sighting(account, name, h)) in t.index
  }

  /** Every message at or below `last` is in the index. */
  ghost predicate Covered(t: Tables, account: string, name: string, f: Folder, last: nat) {
    forall u :: u in f.mails && u <= last ==> Indexed(t, account, name, f.mails[u])
  }

  ghost predicate AllIndexed(t: Tables, account: string, name: string, f: Folder) {
    forall u :: u in f.mails ==> Indexed(t, account, name, f.mails[u])
  }

  ghost predicate ProgressInv(t: Tables, account: string, name: string, f: Folder, p: Progress) {
    && p.uidValidity <= f.uidValidity
    && (p.uidValidity == 0 ==> p.lastUid == 0)
    && (p.uidValidity == f.uidValidity ==> p.lastUid < f.uidNext && Covered(t, account, name, f, p.lastUid))
  }

  lemma ProgressStable(t: Tables, account: string, name: string, f: Folder, g: Folder, p: Progress)
    requires WellFormed(f) && WellFormed(g) && Evolves(f, g) && ProgressInv(t, account, name, f, p)
    ensures ProgressInv(t, account, name, g, p)
  {
    if p.uidValidity == g.uidValidity {
      forall u | u in g.mails && u <= p.lastUid ensures Indexed(t, account, name, g.mails[u]) {
        assert u in f.mails && SameMail(f.mails[u], g.mails[u]);
        assert Indexed(t, account, name, f.mails[u]);
      }
    }
  }

  /** The intel_scan table: folders without a row were never scanned. */
  function At(progress: map<string, Progress>, name: string): Progress {
    if name in progress then progress[name] else UNSCANNED
  }

  ghost predicate AllProgress(t: Tables, account: string, fs: Folders, progress: map<string, Progress>) {
    && (forall n :: n in fs ==> ProgressInv(t, account, n, fs[n], At(progress, n)))
    && progress.Keys <= fs.Keys
  }

  lemma AllProgressStable(t: Tables, account: string, fs: Folders, gs: Folders, progress: map<string, Progress>)
    requires AllWellFormed(fs) && AllWellFormed(gs) && AllEvolve(fs, gs) && AllProgress(t, account, fs, progress)
    ensures AllProgress(t, account, gs, progress)
  {
    forall n | n in gs ensures ProgressInv(t, account, n, gs[n], At(progress, n)) {
      if n in fs {
        ProgressStable(t, account, n, fs[n], gs[n], At(progress, n));
      }
    }
  }

  /** Scanning one folder does not unsettle the others: the index only grows. */
  lemma AllProgressGrows(
    t: Tables, u: Tables, account: string, fs: Folders, progress: map<string, Progress>, name: string, p: Progress)
    requires AllProgress(t, account, fs, progress) && t.index.Keys <= u.index.Keys
    requires name in fs && ProgressInv(u, account, name, fs[name], p)
    ensures AllProgress(u, account, fs, progress[name := p])
  {
    forall n | n in fs ensures ProgressInv(u, account, n, fs[n], At(progress[name := p], n)) {
      if n != name {
        assert ProgressInv(t, account, n, fs[n], At(progress, n));
      }
    }
  }

  function Sightings(account: string, name: string, hs: seq<Header>): seq<Sighting> {
    seq(|hs|, i requires 0 <= i < |hs| => Sighting(account, name, hs[i]))
  }

  lemma SightingsMore(account: string, name: string, hs: seq<Header>, i: nat)
    requires i < |hs|
    ensures Sightings(account, name, hs[..i + 1])
         == Sightings(account, name, hs[..i]) + [Sighting(account, name, hs[i])]
  {
  }

  lemma {:induction false} SightAllIndexes(t: Tables, run: seq<Sighting>, own: Owner)
    ensures t.index.Keys <= SightAll(t, run, own).index.Keys
    ensures Seen(run) <= SightAll(t, run, own).index.Keys
  {
    if run != [] {
      SightAllIndexes(t, run[..|run| - 1], own);
      SeenSnoc(run);
    }
  }

  function LastUid(hs: seq<Header>): nat {
    if hs == [] then 0 else Max(LastUid(hs[..|hs| - 1]), hs[|hs| - 1].uid)
  }

  lemma {:induction false} LastUidIsLast(hs: seq<Header>)
    requires hs != [] && forall i, j :: 0 <= i < j < |hs| ==> hs[i].uid < hs[j].uid
    ensures LastUid(hs) == hs[|hs| - 1].uid
  {
    if |hs| > 1 {
      LastUidIsLast(hs[..|hs| - 1]);
    }
  }

  /** Applying an answer moves the progress to its last UID, with everything below it indexed. */
  lemma BatchProgress(t: Tables, account: string, name: string, f: Folder, p: Progress, b: Batch, own: Owner)
    requires WellFormed(f) && ProgressInv(t, account, name, f, p)
    requires Answers(f, p.lastUid, b)
    requires p.uidValidity == 0 || p.uidValidity == b.uidValidity
    ensures
      var after := SightAll(t, Sightings(account, name, b.headers), own);
      var last := Max(p.lastUid, LastUid(b.headers));
      && ProgressInv(after, account, name, f, Progress(b.uidValidity, last))
      && (b.headers != [] ==> last == b.headers[|b.headers| - 1].uid)
      && (!b.more ==> AllIndexed(after, account, name, f))
  {
    var run := Sightings(account, name, b.headers);
    var after := SightAll(t, run, own);
    SightAllIndexes(t, run, own);
    if b.headers != [] {
      LastUidIsLast(b.headers);
    }
    forall h | h in b.headers ensures Indexed(after, account, name, h) {
      var i :| 0 <= i < |b.headers| && b.headers[i] == h;
      assert run[i] == Sighting(account, name, h);
      assert Readable(h) ==> KeyOf(run[i]) in Seen(run);
    }
    forall u | u in f.mails && (u <= p.lastUid || !b.more || (b.headers != [] && u <= b.headers[|b.headers| - 1].uid))
      ensures Indexed(after, account, name, f.mails[u])
    {
      if u <= p.lastUid {
        assert Covered(t, account, name, f, p.lastUid);
        assert Indexed(t, account, name, f.mails[u]);
      } else {
        assert f.mails[u] in b.headers;
      }
    }
  }

  /******* The scanner *******/

  lemma UpsertOne(senders: map<string, Profile>, a: string, p: Profile)
    ensures UpsertAll(senders, [a], p) == Upsert(senders, a, p)
  {
    assert [a][..0] == [];
    assert UpsertAll(senders, [], p) == senders;
  }

  lemma UpsertSnoc(senders: map<string, Profile>, done: seq<string>, a: string, p: Profile)
    ensures UpsertAll(senders, done + [a], p) == Upsert(UpsertAll(senders, done, p), a, p)
  {
    assert (done + [a])[..|done|] == done;
  }

  /** Where the recipient loop stands at address `i`: `done` were credited, the rest is still to come. */
  ghost predicate Crediting(rs: seq<string>, i: nat, account: string, own: Owner, seen: set<string>, done: seq<string>)
    requires i <= |rs|
  {
    done + Credited(rs[i..], account, own, seen) == Credited(rs, account, own, {})
  }

  lemma CreditingStep(rs: seq<string>, i: nat, account: string, own: Owner, seen: set<string>, done: seq<string>)
    requires i < |rs| && Crediting(rs, i, account, own, seen, done)
    ensures if Stops(rs[i], account, own, seen) then done == Credited(rs, account, own, {})
            else Crediting(rs, i + 1, account, own, seen + {rs[i]}, done + [rs[i]])
  {
    assert rs[i..][0] == rs[i] && rs[i..][1..] == rs[i + 1..];
    if Stops(rs[i], account, own, seen) {
      assert Credited(rs[i..], account, own, seen) == [];
    } else {
      var rest := Credited(rs[i + 1..], account, own, seen + {rs[i]});
      assert Credited(rs[i..], account, own, seen) == [rs[i]] + rest;
      assert done + ([rs[i]] + rest) == (done + [rs[i]]) + rest;
    }
  }

  /** The recipient loop of an outgoing message, early return included. */
  method CountRecipients(senders: map<string, Profile>, rs: seq<string>, account: string, own: Owner, share: Profile)
    returns (r: map<string, Profile>)
    ensures r == UpsertAll(senders, Credited(rs, account, own, {}), share)
  {
    r := senders;
    var seen: set<string> := {};
    ghost var done: seq<string> := [];
    for i := 0 to |rs|
      invariant r == UpsertAll(senders, done, share) && Crediting(rs, i, account, own, seen, done)
    {
      CreditingStep(rs, i, account, own, seen, done);
      if rs[i] == "" || own(account, rs[i]) || rs[i] in seen {
        return;
      }
      UpsertSnoc(senders, done, rs[i], share);
      seen := seen + {rs[i]};
      r := Upsert(r, rs[i], share);
      done := done + [rs[i]];
    }
    assert Credited(rs[|rs|..], account, own, seen) == [] && done + [] == done;
  }

  /** Every sighting of a run is of something the mailbox held. */
  ghost predicate Genuine(run: seq<Sighting>, account: string, ever: set<(string, Header)>) {
    forall i :: 0 <= i < |run| ==> run[i].account == account && (run[i].folder, run[i].header) in ever
  }

  lemma BatchGenuine(account: string, name: string, fs: Folders, after: nat, b: Batch, ever: set<(string, Header)>)
    requires name in fs && Answers(fs[name], after, b) && Held(fs) <= ever
    ensures Genuine(Sightings(account, name, b.headers), account, ever)
  {
    forall i | 0 <= i < |b.headers| ensures (name, b.headers[i]) in ever {
      assert (name, fs[name].mails[b.headers[i].uid]) in Held(fs);
    }
  }

  /** The upsert of the progress row: last_uid never moves back. */
  function Advanced(p: Progress, b: Batch, last: nat): Progress { Progress(b.uidValidity, Max(p.lastUid, last)) }

  /** Where the next fetch starts. */
  function NextUid(after: nat, b: Batch, restarted: bool): nat {
    if restarted then 0 else if b.headers == [] then after else b.headers[|b.headers| - 1].uid
  }

  /******* What a batch writes *******/

  /** The three sets of tables a batch writes: the sender index, the conversations and the graph's claims. */
  datatype Store = Store(tables: Tables, rows: map<T.Place, T.Thread>, claimed: map<Key, G.Evidence>)

  /** The conversations after a run: each saw its own messages of the run, in order. */
  ghost predicate RowsFollow(a: map<T.Place, T.Thread>, b: map<T.Place, T.Thread>, run: seq<Sighting>, own: Owner) {
    forall p :: T.Lookup(b, p) == T.Run(T.Lookup(a, p), T.EventsAt(T.Scans(run), p, own))
  }

  /** What a run of sightings makes of the tables; `on` says whether the graph is switched on. */
  ghost predicate Follows(a: Store, b: Store, run: seq<Sighting>, c: G.Setting, on: bool) {
    && b.tables == SightAll(a.tables, run, c.own)
    && RowsFollow(a.rows, b.rows, run, c.own)
    && b.claimed == if on then G.ClaimMore(a.claimed, run, c) else a.claimed
  }

  lemma FollowsNone(a: Store, c: G.Setting, on: bool)
    ensures Follows(a, a, [], c, on)
  {
  }

  lemma RowsThen(
    a: map<T.Place, T.Thread>, b: map<T.Place, T.Thread>, d: map<T.Place, T.Thread>,
    first: seq<Sighting>, second: seq<Sighting>, own: Owner)
    requires RowsFollow(a, b, first, own) && RowsFollow(b, d, second, own)
    ensures RowsFollow(a, d, first + second, own)
  {
    forall p ensures T.Lookup(d, p) == T.Run(T.Lookup(a, p), T.EventsAt(T.Scans(first + second), p, own)) {
      T.ScansConcat(first, second);
      T.EventsConcat(T.Scans(first), T.Scans(second), p, own);
      T.RunConcat(T.Lookup(a, p), T.EventsAt(T.Scans(first), p, own), T.EventsAt(T.Scans(second), p, own));
    }
  }

  lemma FollowsThen(a: Store, b: Store, d: Store, first: seq<Sighting>, second: seq<Sighting>, c: G.Setting, on: bool)
    requires Follows(a, b, first, c, on) && Follows(b, d, second, c, on)
    ensures Follows(a, d, first + second, c, on)
  {
    SightAllConcat(a.tables, first, second, c.own);
    RowsThen(a.rows, b.rows, d.rows, first, second, c.own);
    G.ClaimConcat(a.claimed, first, second, c);
  }

  lemma FollowsOne(a: Store, b: Store, s: Sighting, c: G.Setting, on: bool)
    requires b.tables == Sight(a.tables, s, c.own)
    requires forall p :: T.Lookup(b.rows, p) == T.Run(T.Lookup(a.rows, p), T.EventAt(T.Scanned(s), p, c.own))
    requires b.claimed == if on then G.Claim(a.claimed, s, c) else a.claimed
    ensures Follows(a, b, [s], c, on)
  {
    assert [s][..0] == [];
    forall p ensures T.EventsAt(T.Scans([s]), p, c.own) == T.EventAt(T.Scanned(s), p, c.own) {
      T.OneScan(s, p, c.own);
    }
  }

  /** More rounds than the folder has UIDs. */
  predicate Enough(fs: Folders, name: string, steps: nat) { name in fs && steps > fs[name].uidNext }

  /** On a folder that holds still each round moves on by at least one UID; only the first may start over. */
  predicate KeepsPace(fs: Folders, name: string, known: nat, after: nat, rounds: nat) {
    name in fs && rounds > 0 ==> known == fs[name].uidValidity && rounds <= after + 1
  }

  /** A round that is not the last moved on, or started over because it knew another UIDVALIDITY. */
  predicate Moved(fs: Folders, name: string, known: nat, after: nat, known': nat, after': nat) {
    name in fs ==> known' == fs[name].uidValidity && (after' > after || known !in {0, known'})
  }

  /** The scan of one account. */
  class Scanner {
    const account: string
    const own: Owner
    const source: Source
    const threads: T.Table
    const graph: G.Graph
    const graphOn: bool
    var tables: Tables
    var progress: map<string, Progress>

    constructor (a: string, s: Source, t: T.Table, g: G.Graph, on: bool)
      requires AllWellFormed(s.folders) && g.Valid()
      ensures account == a && own == g.c.own && source == s && threads == t && graph == g && graphOn == on
      ensures tables == EMPTY && progress == map[] && Valid()
    {
      account, own, source, threads, graph, graphOn := a, g.c.own, s, t, g, on;
      tables, progress := EMPTY, map[];
    }

    ghost predicate Valid()
      reads this, source, graph
    {
      && own == graph.c.own && graph.Valid()
      && AllWellFormed(source.folders) && AllProgress(tables, account, source.folders, progress)
    }

    ghost function State(): Store
      reads this, threads, graph
    {
      Store(tables, threads.rows, graph.claimed)
    }

    /** One header inside the batch transaction. */
    method SightOne(t: Tables, name: string, h: Header) returns (r: Tables)
      ensures r == Sight(t, Sighting(account, name, h), own)
    {
      r := t;
      if h.from == "" || h.date.None? {
        return;
      }
      var s := Sighting(account, name, h);
      if KeyOf(s) !in t.index {
        var e := EntryOf(s, own);
        var senders;
        if e.outgoing {
          senders := CountRecipients(t.senders, Recipients(h), account, own, Share(e));
        } else {
          senders := Upsert(t.senders, e.from, Share(e));
          UpsertOne(t.senders, e.from, Share(e));
        }
        r := Tables(t.index[KeyOf(s) := e], senders, t.log + [(KeyOf(s), e)]);
      }
    }

    /** The batch loop: each header goes to the index, to its conversation and to the graph. */
    method SightBatch(t0: Tables, name: string, hs: seq<Header>) returns (t: Tables, last: nat)
      requires own == graph.c.own && graph.Valid()
      modifies threads, graph`edges, graph`claimed, graph`log
      ensures graph.Valid() && last == LastUid(hs)
      ensures Follows(
                Store(t0, old(threads.rows), old(graph.claimed)), Store(t, threads.rows, graph.claimed),
                Sightings(account, name, hs), graph.c, graphOn)
    {
      t, last := t0, 0;
      ghost var start := Store(t0, threads.rows, graph.claimed);
      FollowsNone(start, graph.c, graphOn);
      assert Sightings(account, name, hs[..0]) == [];
      for i := 0 to |hs|
        invariant graph.Valid() && last == LastUid(hs[..i])
        invariant Follows(
            start, Store(t, threads.rows, graph.claimed), Sightings(account, name, hs[..i]), graph.c, graphOn)
      {
        assert hs[..i + 1][..i] == hs[..i];
        var s := Sighting(account, name, hs[i]);
        ghost var before := Store(t, threads.rows, graph.claimed);
        t := SightOne(t, name, hs[i]);
        threads.Thread(s, own);
        if graphOn {
          graph.Sight(s);
        }
        ghost var after := Store(t, threads.rows, graph.claimed);
        FollowsOne(before, after, s, graph.c, graphOn);
        FollowsThen(start, before, after, Sightings(account, name, hs[..i]), [s], graph.c, graphOn);
        SightingsMore(account, name, hs, i);
        last := Max(last, hs[i].uid);
      }
      assert hs[..|hs|] == hs;
    }

    method Commit() returns (ok: bool)
      modifies source`fault
      ensures if ok then source.fault == old(source.fault) else source.fault
    {
      ok := *;
      source.fault := source.fault || !ok;
    }

    /** Records a batch and the folder's progress in one transaction; a failure rolls all of it back. */
    method Apply(name: string, b: Batch) returns (ok: bool)
      requires own == graph.c.own && graph.Valid()
      modifies this`tables, this`progress, threads, graph`edges, graph`claimed, graph`log, source`fault
      ensures graph.Valid() && (if ok then source.fault == old(source.fault) else source.fault)
      ensures ok ==> Follows(old(State()), State(), Sightings(account, name, b.headers), graph.c, graphOn)
      ensures ok ==> progress == old(progress)[name := Advanced(At(old(progress), name), b, LastUid(b.headers))]
      ensures !ok ==> State() == old(State()) && graph.edges == old(graph.edges) && progress == old(progress)
    {
      var rows, edges, claimed := threads.rows, graph.edges, graph.claimed;
      ghost var log := graph.log;
      var t, last := SightBatch(tables, name, b.headers);
      ok := Commit();
      if ok {
        tables := t;
        progress := progress[name := Advanced(At(progress, name), b, last)];
      } else {
        threads.rows := rows;
        graph.edges, graph.claimed := edges, claimed;
        graph.log := log;
      }
    }

    /** Applies an answer of the server, or restarts a folder that was renumbered. */
    method Take(name: string, known: nat, b: Batch) returns (ok: bool, restarted: bool, ghost run: seq<Sighting>)
      requires Valid() && name in source.folders && Answers(source.folders[name], At(progress, name).lastUid, b)
      requires known == At(progress, name).uidValidity
      requires Held(source.folders) <= source.ever
      modifies this`tables, this`progress, threads, graph`edges, graph`claimed, graph`log, source`fault
      ensures if ok then source.fault == old(source.fault) else source.fault
      ensures Valid() && Follows(old(State()), State(), run, graph.c, graphOn) && Genuine(run, account, source.ever)
      ensures restarted <==> known != 0 && known != b.uidValidity
      ensures ok ==>
                At(progress, name) == Progress(b.uidValidity, NextUid(At(old(progress), name).lastUid, b, restarted))
      ensures ok && !restarted && !b.more ==> AllIndexed(tables, account, name, source.folders[name])
    {
      restarted := known != 0 && b.uidValidity != known;
      if restarted {
        run := [];
        FollowsNone(State(), graph.c, graphOn);
        ok := Restart(name, b.uidValidity);
      } else {
        ok, run := Record(name, b);
      }
    }

    /** A renumbered folder starts over. */
    method Restart(name: string, validity: nat) returns (ok: bool)
      requires Valid() && name in source.folders && validity == source.folders[name].uidValidity
      modifies this`progress, source`fault
      ensures if ok then source.fault == old(source.fault) else source.fault
      ensures Valid() && progress == if ok then old(progress)[name := Progress(validity, 0)] else old(progress)
    {
      ok := Commit();
      if ok {
        AllProgressGrows(tables, tables, account, source.folders, progress, name, Progress(validity, 0));
        progress := progress[name := Progress(validity, 0)];
      }
    }

    /** Applies an answer to a folder that kept its UIDVALIDITY. */
    method Record(name: string, b: Batch) returns (ok: bool, ghost run: seq<Sighting>)
      requires Valid() && name in source.folders && Answers(source.folders[name], At(progress, name).lastUid, b)
      requires At(progress, name).uidValidity in {0, b.uidValidity} && Held(source.folders) <= source.ever
      modifies this`tables, this`progress, threads, graph`edges, graph`claimed, graph`log, source`fault
      ensures if ok then source.fault == old(source.fault) else source.fault
      ensures Valid() && Follows(old(State()), State(), run, graph.c, graphOn) && Genuine(run, account, source.ever)
      ensures ok ==> At(progress, name) == Progress(b.uidValidity, NextUid(At(old(progress), name).lastUid, b, false))
      ensures ok && !b.more ==> AllIndexed(tables, account, name, source.folders[name])
    {
      run := [];
      FollowsNone(State(), graph.c, graphOn);
      ghost var t, p, st := tables, progress, At(progress, name);
      BatchProgress(tables, account, name, source.folders[name], st, b, own);
      BatchGenuine(account, name, source.folders, st.lastUid, b, source.ever);
      SightAllIndexes(tables, Sightings(account, name, b.headers), own);
      ok := Apply(name, b);
      if ok {
        run := Sightings(account, name, b.headers);
        AllProgressGrows(t, tables, account, source.folders, p, name, At(progress, name));
      }
    }

    /**
     Scans a folder until it is done, a call fails, a commit fails or the context is
     cancelled, which `steps` stands for. Whenever it stops, every message at or below
     each folder's stored UID is indexed, and starting again resumes there.
     */
    method ScanFolder(name: string, steps: nat) returns (done: bool, ghost run: seq<Sighting>)
      requires Valid() && Held(source.folders) <= source.ever
      modifies this`tables, this`progress, source, threads, graph`edges, graph`claimed, graph`log
      ensures Valid() && Held(source.folders) <= source.ever && old(source.ever) <= source.ever
      ensures Follows(old(State()), State(), run, graph.c, graphOn) && Genuine(run, account, source.ever)
      ensures done ==> name in source.folders && AllIndexed(tables, account, name, source.folders[name])
      ensures source.version >= old(source.version)
      ensures source.version == old(source.version) && !source.fault && Enough(source.folders, name, steps) ==> done
    {
      done, run := false, [];
      ghost var start := State();
      FollowsNone(start, graph.c, graphOn);
      var known, after, ok := At(progress, name).uidValidity, At(progress, name).lastUid, true;
      for i := 0 to steps
        invariant !done && InScan(name, known, after, start, run) && old(source.ever) <= source.ever
        invariant source.version >= old(source.version)
        invariant source.version == old(source.version) ==> KeepsPace(source.folders, name, known, after, i)
      {
        ok, done, known, after, run := Round(name, known, after, start, run);
        if !ok || done {
          return;
        }
      }
    }

    /** Where a scan stands between two rounds. */
    ghost predicate InScan(name: string, known: nat, after: nat, start: Store, run: seq<Sighting>)
      reads this, source, threads, graph
    {
      && Valid() && Held(source.folders) <= source.ever
      && Follows(start, State(), run, graph.c, graphOn) && Genuine(run, account, source.ever)
      && At(progress, name) == Progress(known, after)
    }

    /** One fetch and what is made of it. */
    method Round(name: string, known: nat, after: nat, ghost start: Store, ghost run: seq<Sighting>)
      returns (ok: bool, done: bool, known': nat, after': nat, ghost run': seq<Sighting>)
      requires InScan(name, known, after, start, run)
      modifies this`tables, this`progress, source, threads, graph`edges, graph`claimed, graph`log
      ensures ok ==> InScan(name, known', after', start, run')
      ensures Valid() && Held(source.folders) <= source.ever && old(source.ever) <= source.ever
      ensures Follows(start, State(), run', graph.c, graphOn) && Genuine(run', account, source.ever)
      ensures source.version >= old(source.version) && (!ok ==> source.fault)
      ensures source.version == old(source.version) ==> source.folders == old(source.folders)
      ensures done ==> ok && name in source.folders && AllIndexed(tables, account, name, source.folders[name])
      ensures ok && !done && source.version == old(source.version) ==>
                Moved(source.folders, name, known, after, known', after')
    {
      ok, done, known', after', run' := false, false, known, after, run;
      ghost var before := source.folders;
      var reply := source.Fetch(name, after);
      AllProgressStable(tables, account, before, source.folders, progress);
      if reply.Got? {
        var restarted;
        ghost var more, mid := [], State();
        ok, restarted, more := Take(name, known, reply.batch);
        FollowsThen(start, mid, State(), run, more, graph.c, graphOn);
        run' := run + more;
        if ok {
          known', after' := reply.batch.uidValidity, NextUid(after, reply.batch, restarted);
          done := !restarted && !reply.batch.more;
        }
      }
    }

    /** A folder that left the scope loses its progress row; the index keeps a rescan from counting twice. */
    method Forget(name: string)
      requires Valid()
      modifies this`progress
      ensures Valid() && progress == old(progress) - {name}
    {
      progress := progress - {name};
      forall n | n in source.folders ensures ProgressInv(tables, account, n, source.folders[n], At(progress, n)) {
        assert n != name ==> At(progress, n) == At(old(progress), n);
      }
    }

    /**
     Any history of scans of any folders, each stopped anywhere, with progress rows
     dropped now and then: one long list of sightings gives the sender tables, every
     conversation and the graph's claims together, so the graph's edges are those of it too.
     */
    method AnyHistory(rounds: nat) returns (ghost run: seq<Sighting>)
      requires Valid() && Held(source.folders) <= source.ever
      modifies this`tables, this`progress, source, threads, graph`edges, graph`claimed, graph`log
      ensures Valid() && Follows(old(State()), State(), run, graph.c, graphOn) && Genuine(run, account, source.ever)
    {
      run := [];
      ghost var start := State();
      FollowsNone(start, graph.c, graphOn);
      for i := 0 to rounds
        invariant Valid() && Held(source.folders) <= source.ever
        invariant Follows(start, State(), run, graph.c, graphOn) && Genuine(run, account, source.ever)
      {
        var name: string, forget: bool, steps: nat := *, *, *;
        if forget {
          Forget(name);
        }
        var done;
        ghost var more, mid := [], State();
        done, more := ScanFolder(name, steps);
        FollowsThen(start, mid, State(), run, more, graph.c, graphOn);
        run := run + more;
      }
    }
  }

  /** Every readable message the mailbox ever held, under its key, is among the sightings. */
  ghost predicate Reaches(run: seq<Sighting>, account: string, ever: set<(string, Header)>) {
    forall p :: p in ever && Readable(p.1) ==> KeyOf(Sighting(account, p.0, p.1)) in Seen(run)
  }

  /**
   A history and an uninterrupted pass that both reached everything the mailbox ever held leave the same
   index and the same profiles, whatever the order, the interruptions and the repetitions. A pass need not
   see every version of a header: a change of flags leaves the key alone.
   */
  lemma HistoryIsOnePass(
    run: seq<Sighting>, once: seq<Sighting>, account: string, ever: set<(string, Header)>, own: Owner,
    canon: Key -> Entry)
    requires CopiesAgree(run, own, canon) && CopiesAgree(once, own, canon)
    requires Genuine(run, account, ever) && Genuine(once, account, ever)
    requires Reaches(once, account, ever)
    requires forall p :: p in ever ==> Indexed(SightAll(EMPTY, run, own), account, p.0, p.1)
    ensures SightAll(EMPTY, run, own).index == SightAll(EMPTY, once, own).index
    ensures SightAll(EMPTY, run, own).senders == SightAll(EMPTY, once, own).senders
  {
    HistorySeen(run, once, account, ever, own, canon);
    OrderIrrelevant(run, once, own, canon);
  }

  lemma HistorySeen(
    run: seq<Sighting>, once: seq<Sighting>, account: string, ever: set<(string, Header)>, own: Owner,
    canon: Key -> Entry)
    requires CopiesAgree(run, own, canon)
    requires Genuine(run, account, ever) && Genuine(once, account, ever)
    requires Reaches(once, account, ever)
    requires forall p :: p in ever ==> Indexed(SightAll(EMPTY, run, own), account, p.0, p.1)
    ensures Seen(run) == Seen(once)
  {
    IndexIsSeen(run, own, canon);
    GenuineSeen(run, once, account, ever);
    forall k | k in Seen(once) ensures k in Seen(run) {
      var i :| 0 <= i < |once| && Readable(once[i].header) && KeyOf(once[i]) == k;
      var p := (once[i].folder, once[i].header);
      assert p in ever && once[i] == Sighting(account, p.0, p.1);
      assert Indexed(SightAll(EMPTY, run, own), account, p.0, p.1);
    }
  }

  const BLANK := Store(EMPTY, map[], map[])

  /**
   The same of everything a batch writes: after such a history the graph has the edges of the one pass,
   and every conversation shows the latest message of its own sightings.
   */
  lemma HistoryOfAll(
    b: Store, run: seq<Sighting>, once: seq<Sighting>, account: string, ever: set<(string, Header)>, c: G.Setting,
    entries: Key -> Entry, evidence: Key -> G.Evidence, dates: Key -> (int, bool),
    edges: map<G.Link, G.Edge>, log: seq<(Key, G.Evidence)>, edges': map<G.Link, G.Edge>, log': seq<(Key, G.Evidence)>)
    requires Follows(BLANK, b, run, c, true)
    requires CopiesAgree(run, c.own, entries) && CopiesAgree(once, c.own, entries)
    requires G.CopiesAgree(run, c, evidence) && G.CopiesAgree(once, c, evidence)
    requires forall i :: 0 <= i < |run| ==> T.ScanAgrees(T.Scanned(run[i]), c.own, dates)
    requires Genuine(run, account, ever) && Genuine(once, account, ever)
    requires Reaches(once, account, ever)
    requires forall p :: p in ever ==> Indexed(b.tables, account, p.0, p.1)
    requires G.Inv(b.claimed, edges, log) && G.Inv(G.ClaimAll(once, c), edges', log')
    ensures b.tables.index == SightAll(EMPTY, once, c.own).index
    ensures b.tables.senders == SightAll(EMPTY, once, c.own).senders
    ensures edges == edges'
    ensures forall p :: T.RowInv(T.EventsAt(T.Scans(run), p, c.own), T.Lookup(b.rows, p))
  {
    HistorySeen(run, once, account, ever, c.own, entries);
    OrderIrrelevant(run, once, c.own, entries);
    G.OrderIrrelevant(run, once, c, evidence, edges, edges', log, log');
    forall p ensures T.RowInv(T.EventsAt(T.Scans(run), p, c.own), T.Lookup(b.rows, p)) {
      T.EventsAgree(T.Scans(run), p, c.own, dates);
      T.RunKeepsInv(T.EventsAt(T.Scans(run), p, c.own), dates);
    }
  }

  lemma GenuineSeen(run: seq<Sighting>, once: seq<Sighting>, account: string, ever: set<(string, Header)>)
    requires Genuine(run, account, ever) && Reaches(once, account, ever)
    ensures Seen(run) <= Seen(once)
  {
    forall k | k in Seen(run) ensures k in Seen(once) {
      var i :| 0 <= i < |run| && Readable(run[i].header) && KeyOf(run[i]) == k;
      var p := (run[i].folder, run[i].header);
      assert p in ever && run[i] == Sighting(account, p.0, p.1);
    }
  }

  /******* Rescans *******/

  /** A rescan adds nothing exactly when the key of each header it sees is indexed already. */
  lemma {:induction false} RescanAddsNothing(t: Tables, run: seq<Sighting>, own: Owner)
    ensures SightAll(t, run, own) == t <==> Seen(run) <= t.index.Keys
  {
    SightAllIndexes(t, run, own);
    if run != [] && Seen(run) <= t.index.Keys {
      SeenSnoc(run);
      RescanAddsNothing(t, run[..|run| - 1], own);
    }
  }

  /** The mails of a folder after it was renumbered. */
  function Renumbered(account: string, name: string, hs: seq<Header>, uids: seq<nat>): seq<Sighting>
    requires |uids| == |hs|
  {
    seq(|hs|, i requires 0 <= i < |hs| => Sighting(account, name, hs[i].(uid := uids[i])))
  }

  /** Counting the mail under its new UID finds its key taken. */
  predicate KnownAs(t: Tables, account: string, name: string, h: Header, uid: nat) {
    Readable(h) && h.messageId == "" ==> ByCopy(account, name, uid, h.date.value, h.from) in t.index
  }

  /**
   The rescan of a renumbered folder whose mails are all indexed adds nothing exactly when every mail without
   a Message-ID is indexed under its new UID too; mails with a Message-ID are never counted again.
   */
  lemma RenumberedRescan(t: Tables, account: string, name: string, hs: seq<Header>, uids: seq<nat>, own: Owner)
    requires |uids| == |hs| && forall i :: 0 <= i < |hs| ==> Indexed(t, account, name, hs[i])
    ensures SightAll(t, Renumbered(account, name, hs, uids), own) == t
       <==> forall i :: 0 <= i < |hs| ==> KnownAs(t, account, name, hs[i], uids[i])
  {
    var run := Renumbered(account, name, hs, uids);
    RescanAddsNothing(t, run, own);
    forall i | 0 <= i < |hs|
      ensures (Readable(run[i].header) ==> KeyOf(run[i]) in t.index) <==> KnownAs(t, account, name, hs[i], uids[i])
    {
      assert Indexed(t, account, name, hs[i]);
    }
    if Seen(run) <= t.index.Keys {
      forall i | 0 <= i < |hs| ensures KnownAs(t, account, name, hs[i], uids[i]) {
        assert Readable(run[i].header) ==> KeyOf(run[i]) in Seen(run);
      }
    }
  }

  lemma NewMailCounts(t: Tables, s: Sighting, own: Owner)
    requires Readable(s.header) && KeyOf(s) !in t.index && !own(s.account, s.header.from)
    ensures ProfileOf(Sight(t, s, own).senders, s.header.from).received
         == ProfileOf(t.senders, s.header.from).received + 1
  {
    var e := EntryOf(s, own);
    UpsertOne(t.senders, e.from, Share(e));
    UpsertAt(t.senders, e.from, Share(e), e.from);
  }

  /** The input: a received mail without a Message-ID, seen under two UIDs, is counted twice. */
  lemma RenumberedCountsTwice(account: string, name: string, h: Header, uid: nat, own: Owner)
    requires Readable(h) && h.messageId == "" && uid != h.uid && !own(account, h.from)
    ensures
      var first, again := Sighting(account, name, h), Sighting(account, name, h.(uid := uid));
      && ProfileOf(SightAll(EMPTY, [first], own).senders, h.from).received == 1
      && ProfileOf(SightAll(EMPTY, [first, again], own).senders, h.from).received == 2
  {
    var first, again := Sighting(account, name, h), Sighting(account, name, h.(uid := uid));
    assert [first][..0] == [] && [first, again][..1] == [first];
    var t := Sight(EMPTY, first, own);
    assert SightAll(EMPTY, [first], own) == t && SightAll(EMPTY, [first, again], own) == Sight(t, again, own);
    NewMailCounts(EMPTY, first, own);
    NewMailCounts(t, again, own);
  }

  lemma {:induction false} SightAllConcat(t: Tables, a: seq<Sighting>, b: seq<Sighting>, own: Owner)
    ensures SightAll(t, a + b, own) == SightAll(SightAll(t, a, own), b, own)
  {
    if b == [] {
      assert a + b == a;
    } else {
      SightAllConcat(t, a, b[..|b| - 1], own);
      assert (a + b)[..|a + b| - 1] == a + b[..|b| - 1];
    }
  }
}
