/**
 Deleting and moving exactly the given UIDs (internal/service/mail.go), on servers
 with and without MOVE and UIDPLUS.

 `Connection` is the server end with one folder selected and no other client active.
 Its commands follow section 6.4 of RFC 3501 (STORE, EXPUNGE, SEARCH, and COPY, which
 copies everything or nothing), section 2.1 of RFC 4315 (UID EXPUNGE) and section 3.3
 of RFC 6851 (MOVE, where every message ends up moved or untouched). Any command may
 fail, and a failed STORE, EXPUNGE or MOVE may have done part of its work.
 */
module MailOps {
  import opened Collections

  type Uid = nat
  type Content = string

  datatype Mail = Mail(content: Content, deleted: bool)
  type Folder = map<Uid, Mail>

  /** A folder that is not selected: what it holds, counting duplicates. */
  type Store = multiset<Content>

  /** The messages among `uids` with the given content. */
  function Holders(f: Folder, uids: set<Uid>, c: Content): set<Uid> {
    set u | u in uids && u in f && f[u].content == c
  }

  /** `after` is `before` and one copy of each message of `uids`. */
  predicate Gains(before: Store, after: Store, f: Folder, uids: set<Uid>) {
    && (forall c :: c in after ==> after[c] == before[c] + |Holders(f, uids, c)|)
    && (forall c :: c in before ==> c in after)
    && (forall u :: u in uids && u in f ==> f[u].content in after)
  }

  function Deleted(f: Folder): set<Uid> {
    set u | u in f && f[u].deleted
  }

  function Marked(f: Folder, uids: set<Uid>): Folder {
    map u | u in f :: if u in uids then f[u].(deleted := true) else f[u]
  }

  /** `after` is `before` with only messages of `uids` removed or marked. */
  ghost predicate OnlyTouches(before: Folder, after: Folder, uids: set<Uid>) {
    && after.Keys <= before.Keys
    && (forall u :: u in before && u !in uids ==> u in after && after[u] == before[u])
    && (forall u :: u in after ==> after[u].content == before[u].content)
  }

  /** The messages that left the folder. */
  function Left(before: Folder, after: Folder): set<Uid> { before.Keys - after.Keys }

  /**
   No message that left the folder is lost: of every content the destination gained at
   least as many copies as left, and at most as many as were to be moved.
   */
  ghost predicate NoneLost(before: Folder, after: Folder, uids: set<Uid>, had: Store, has: Store) {
    forall c :: had[c] + |Holders(before, Left(before, after), c)| <= has[c] <= had[c] + |Holders(before, uids, c)|
  }

  function At(others: map<string, Store>, name: string): Store {
    if name in others then others[name] else multiset{}
  }

  lemma GainsCount(before: Store, after: Store, f: Folder, uids: set<Uid>)
    requires Gains(before, after, f, uids)
    ensures forall c :: after[c] == before[c] + |Holders(f, uids, c)|
  {
    forall c ensures after[c] == before[c] + |Holders(f, uids, c)| {
      if c !in after {
        assert c !in before && Holders(f, uids, c) == {};
      }
    }
  }

  lemma HoldersGrow(f: Folder, a: set<Uid>, b: set<Uid>)
    requires a * f.Keys <= b
    ensures forall c :: |Holders(f, a, c)| <= |Holders(f, b, c)|
  {
    forall c ensures |Holders(f, a, c)| <= |Holders(f, b, c)| {
      Subset(Holders(f, a, c), Holders(f, b, c));
    }
  }

  lemma Subset(a: set<Uid>, b: set<Uid>)
    requires a <= b
    ensures |a| <= |b|
  {
    assert b == a + (b - a);
  }

  /** Nothing left: at most the copies arrived. */
  lemma StayedNoneLost(before: Folder, after: Folder, uids: set<Uid>, had: Store, has: Store)
    requires after.Keys == before.Keys && (has == had || Gains(had, has, before, uids))
    ensures NoneLost(before, after, uids, had, has)
  {
    assert Left(before, after) == {};
    assert forall c :: Holders(before, {}, c) == {};
    if has != had {
      GainsCount(had, has, before, uids);
    }
  }

  /** All of `part` arrived, and only messages of `part` left. */
  lemma GainedNoneLost(before: Folder, after: Folder, uids: set<Uid>, part: set<Uid>, had: Store, has: Store)
    requires Left(before, after) <= part <= uids && Gains(had, has, before, part)
    ensures NoneLost(before, after, uids, had, has)
  {
    GainsCount(had, has, before, part);
    HoldersGrow(before, Left(before, after), part);
    HoldersGrow(before, part, uids);
  }

  class Connection {
    const hasMove: bool
    const hasUidPlus: bool
    const isRev2: bool
    var selected: Folder
    var others: map<string, Store>
    ghost var fault: bool // some command failed although it could be carried out

    constructor (move: bool, uidPlus: bool, rev2: bool, folder: Folder, rest: map<string, Store>)
      ensures hasMove == move && hasUidPlus == uidPlus && isRev2 == rev2 && selected == folder && others == rest
    {
      hasMove, hasUidPlus, isRev2, selected, others, fault := move, uidPlus, rev2, folder, rest, false;
    }

    /******* Commands *******/

    method StoreDeleted(uids: set<Uid>) returns (ok: bool)
      modifies this`selected, this`fault
      ensures fault <==> old(fault) || !ok
      ensures ok ==> selected == Marked(old(selected), uids)
      ensures !ok ==> exists part :: part <= uids && selected == Marked(old(selected), part)
    {
      var part: set<Uid> := *;
      ok := *;
      if ok || !(part <= uids) {
        part := uids;
      }
      selected := Marked(selected, part);
      fault := fault || !ok;
    }

    method UidExpunge(uids: set<Uid>) returns (ok: bool)
      modifies this`selected, this`fault
      ensures fault <==> old(fault) || !ok
      ensures ok ==> selected == old(selected) - (uids * Deleted(old(selected)))
      ensures !ok ==> exists part :: part <= uids * Deleted(old(selected)) && selected == old(selected) - part
    {
      ok := ExpungeSome(uids * Deleted(selected));
    }

    method Expunge() returns (ok: bool)
      modifies this`selected, this`fault
      ensures fault <==> old(fault) || !ok
      ensures ok ==> selected == old(selected) - Deleted(old(selected))
      ensures !ok ==> exists part :: part <= Deleted(old(selected)) && selected == old(selected) - part
    {
      ok := ExpungeSome(Deleted(selected));
    }

    method ExpungeSome(uids: set<Uid>) returns (ok: bool)
      modifies this`selected, this`fault
      ensures fault <==> old(fault) || !ok
      ensures ok ==> selected == old(selected) - uids
      ensures !ok ==> exists part :: part <= uids && selected == old(selected) - part
    {
      var part: set<Uid> := *;
      ok := *;
      if ok || !(part <= uids) {
        part := uids;
      }
      selected := selected - part;
      fault := fault || !ok;
    }

    method SearchDeleted() returns (r: Option<set<Uid>>)
      modifies this`fault
      ensures r.Some? ==> r.value == Deleted(selected)
      ensures fault <==> old(fault) || r.None?
    {
      var ok: bool := *;
      r := if ok then Some(Deleted(selected)) else None;
      fault := fault || !ok;
    }

    /** On failure nothing was copied, or everything was and the answer got lost. */
    method Copy(uids: set<Uid>, dest: string) returns (ok: bool)
      modifies this`others, this`fault
      ensures fault <==> old(fault) || (!ok && dest in old(others))
      ensures others == old(others) || Arrived(old(others), others, dest, selected, uids)
      ensures ok ==> Arrived(old(others), others, dest, selected, uids)
    {
      var next: Store := *;
      var heard: bool := *;
      ok := false;
      var known := dest in others;
      if known && Gains(others[dest], next, selected, uids) {
        others := others[dest := next];
        ok := heard;
      }
      fault := fault || (!ok && known);
    }

    /** Every message is moved or untouched; success means all are moved. */
    method MoveCommand(uids: set<Uid>, dest: string) returns (ok: bool, ghost part: set<Uid>)
      modifies this`others, this`selected, this`fault
      ensures fault <==> old(fault) || (!ok && dest in old(others))
      ensures part <= uids && selected == old(selected) - part
      ensures (part == {} && others == old(others)) || Arrived(old(others), others, dest, old(selected), part)
      ensures ok ==> part == uids && Arrived(old(others), others, dest, old(selected), uids)
    {
      var some: set<Uid>, next: Store, heard: bool := *, *, *;
      ok, part := false, {};
      assert selected - {} == selected;
      if dest in others && some <= uids && Gains(others[dest], next, selected, some) {
        others, selected, part := others[dest := next], selected - some, some;
        ok := heard && some == uids;
      }
      fault := fault || (!ok && dest in others);
    }

    /******* The operations *******/

    /** Removes exactly `uids`, or refuses; never removes anything else. */
    method DeleteUIDs(uids: set<Uid>) returns (ok: bool)
      modifies this`selected, this`fault
      ensures !ok ==> fault || (!hasUidPlus && !isRev2 && !(Deleted(old(selected)) <= uids))
      ensures old(fault) ==> fault
      ensures OnlyTouches(old(selected), selected, uids)
      ensures ok ==> selected.Keys == old(selected).Keys - uids
      ensures !hasUidPlus && !isRev2 && !(Deleted(old(selected)) <= uids) ==> !ok && selected.Keys == old(selected).Keys
    {
      ok := StoreDeleted(uids);
      MarkedTouches(old(selected), selected, uids);
      if ok {
        MarkedDeleted(old(selected), uids);
        ghost var marked := selected;
        if hasUidPlus || isRev2 {
          ok := UidExpunge(uids);
          RemovedTouches(old(selected), marked, selected, uids);
        } else {
          var found := SearchDeleted();
          if found.None? || !(found.value <= uids) {
            ok := false;
          } else {
            ok := Expunge();
            RemovedTouches(old(selected), marked, selected, uids);
          }
        }
      }
    }

    /** COPY is all the server can do: it cannot expunge the targets alone. */
    predicate Refuses(f: Folder, uids: set<Uid>) {
      !hasMove && !isRev2 && !hasUidPlus && !(Deleted(f) <= uids)
    }

    /** Every target stays in the folder or reaches `dest`, whatever fails. */
    method MoveUIDs(uids: set<Uid>, dest: string) returns (ok: bool)
      modifies this
      ensures MoveOutcome(old(selected), selected, old(others), others, uids, dest, ok)
      ensures Refuses(old(selected), uids) ==> !ok && selected.Keys == old(selected).Keys
      ensures !ok ==> fault || dest !in old(others) || Refuses(old(selected), uids)
      ensures old(fault) ==> fault
    {
      if hasMove || isRev2 {
        ghost var part;
        ok, part := MoveCommand(uids, dest);
        RemovedTouches(old(selected), old(selected), selected, part);
        MovedOutcome(old(selected), selected, old(others), others, uids, dest, part, ok);
      } else {
        ok := Copy(uids, dest);
        if ok {
          ok := DeleteUIDs(uids);
          CopiedOutcome(old(selected), selected, old(others), others, uids, dest, ok);
        } else {
          StayedOutcome(old(selected), old(others), others, uids, dest);
        }
      }
    }

    /** Deletes one message: for good, or into the first trash folder that takes it. */
    method DeleteMessage(uid: Uid, permanent: bool) returns (ok: bool, trash: Option<string>)
      modifies this
      ensures OnlyTouches(old(selected), selected, {uid})
      ensures !permanent && uid in old(selected) ==>
                uid in selected || InTrash(old(others), others, old(selected)[uid].content)
      ensures permanent ==> others == old(others) && trash.None? && (ok ==> uid !in selected)
      ensures trash.Some? ==> ok && uid !in selected && trash.value in {TRASH, GMAIL_TRASH} && trash.value in others
      ensures trash.Some? && uid in old(selected) ==>
                NamedGained(old(others), others, trash.value, old(selected)[uid].content)
      ensures !permanent && Refuses(old(selected), {uid}) ==> trash.None? && selected.Keys == old(selected).Keys
      ensures !permanent && !fault ==> ok && trash == FirstTrash(old(selected), old(others), uid)
      ensures permanent && !fault ==> ok || (!hasUidPlus && !isRev2 && !(Deleted(old(selected)) <= {uid}))
      ensures !permanent && ok && trash.None? && uid in selected ==> selected[uid].deleted
    {
      trash := None;
      if permanent {
        ok := DeleteUIDs({uid});
      } else {
        trash := ToTrash(uid);
        ok := true;
        if trash.None? {
          ok := MarkOne(uid, old(selected));
        }
      }
    }

    /** The trash folder that takes the message when no command fails: the first there is, if any may. */
    function FirstTrash(f: Folder, rest: map<string, Store>, uid: Uid): Option<string> {
      if Refuses(f, {uid}) then None
      else if "Trash" in rest then Some("Trash")
      else if "[Gmail]/Trash" in rest then Some("[Gmail]/Trash")
      else None
    }

    /** Tries the trash folders in order; names the first that took the message. */
    method ToTrash(uid: Uid) returns (trash: Option<string>)
      modifies this
      ensures OnlyTouches(old(selected), selected, {uid})
      ensures uid in old(selected) ==> uid in selected || InTrash(old(others), others, old(selected)[uid].content)
      ensures trash.Some? ==> uid !in selected && trash.value in {TRASH, GMAIL_TRASH} && trash.value in others
      ensures trash.Some? && uid in old(selected) ==>
                NamedGained(old(others), others, trash.value, old(selected)[uid].content)
      ensures Refuses(old(selected), {uid}) ==> trash.None? && selected.Keys == old(selected).Keys
      ensures !fault ==> trash == FirstTrash(old(selected), old(others), uid)
      ensures old(fault) ==> fault
    {
      trash := None;
      var ok := MoveUIDs({uid}, TRASH);
      MovedToTrash(old(selected), selected, uid, old(others), others, TRASH);
      if ok {
        trash := Some(TRASH);
        GainOne(old(selected), uid, old(others), others, TRASH);
      } else {
        ghost var middle, rest := selected, others;
        StillRefuses(old(selected), middle, uid);
        ok := MoveUIDs({uid}, GMAIL_TRASH);
        TouchesTwice(old(selected), middle, selected, {uid});
        MovedToTrash(middle, selected, uid, rest, others, GMAIL_TRASH);
        TrashKept(old(selected), middle, uid, old(others), rest, others);
        if ok {
          trash := Some(GMAIL_TRASH);
          GainOne(middle, uid, rest, others, GMAIL_TRASH);
        }
      }
    }

    /** The last resort: \Deleted, without an EXPUNGE. */
    method MarkOne(uid: Uid, ghost start: Folder) returns (ok: bool)
      requires OnlyTouches(start, selected, {uid})
      modifies this`selected, this`fault
      ensures !ok ==> fault
      ensures old(fault) ==> fault
      ensures OnlyTouches(start, selected, {uid}) && selected.Keys == old(selected).Keys
      ensures ok && uid in selected ==> selected[uid].deleted
    {
      ok := StoreDeleted({uid});
      MarkedTouches(old(selected), selected, {uid});
      TouchesTwice(start, old(selected), selected, {uid});
    }
  }

  /** `dest` gained one copy of each message of `uids`; the other folders stay. */
  ghost predicate Arrived(
    before: map<string, Store>, after: map<string, Store>, dest: string, f: Folder, uids: set<Uid>)
  {
    && dest in before && after.Keys == before.Keys && Gains(before[dest], after[dest], f, uids)
    && forall name :: name in before && name != dest ==> after[name] == before[name]
  }

  /**
   What a move may come to. Nothing but the targets leaves, no other folder changes, no message is lost;
   success moves exactly the targets, and a missing destination moves nothing.
   */
  ghost predicate MoveOutcome(
    before: Folder, after: Folder, rest: map<string, Store>, others: map<string, Store>, uids: set<Uid>, dest: string,
    ok: bool)
  {
    && OnlyTouches(before, after, uids)
    && others.Keys == rest.Keys && (forall name :: name in rest && name != dest ==> others[name] == rest[name])
    && NoneLost(before, after, uids, At(rest, dest), At(others, dest))
    && (dest !in rest ==> !ok && after.Keys == before.Keys)
    && (ok ==> Arrived(rest, others, dest, before, uids) && after.Keys == before.Keys - uids)
  }

  lemma StayedOutcome(f: Folder, rest: map<string, Store>, others: map<string, Store>, uids: set<Uid>, dest: string)
    requires others == rest || Arrived(rest, others, dest, f, uids)
    ensures MoveOutcome(f, f, rest, others, uids, dest, false)
  {
    StayedNoneLost(f, f, uids, At(rest, dest), At(others, dest));
  }

  lemma MovedOutcome(
    before: Folder, after: Folder, rest: map<string, Store>, others: map<string, Store>, uids: set<Uid>, dest: string,
    part: set<Uid>, ok: bool)
    requires part <= uids && after == before - part && OnlyTouches(before, after, part)
    requires (part == {} && others == rest) || Arrived(rest, others, dest, before, part)
    requires ok ==> part == uids && Arrived(rest, others, dest, before, uids)
    ensures MoveOutcome(before, after, rest, others, uids, dest, ok)
  {
    if Arrived(rest, others, dest, before, part) {
      GainedNoneLost(before, after, uids, part, At(rest, dest), At(others, dest));
    } else {
      StayedNoneLost(before, after, uids, At(rest, dest), At(others, dest));
    }
  }

  lemma CopiedOutcome(
    before: Folder, after: Folder, rest: map<string, Store>, others: map<string, Store>, uids: set<Uid>, dest: string,
    ok: bool)
    requires OnlyTouches(before, after, uids) && Arrived(rest, others, dest, before, uids)
    requires ok ==> after.Keys == before.Keys - uids
    ensures MoveOutcome(before, after, rest, others, uids, dest, ok)
  {
    GainedNoneLost(before, after, uids, uids, At(rest, dest), At(others, dest));
  }

  /** A trash folder holds more copies of `c` than it did. */
  ghost predicate InTrash(before: map<string, Store>, after: map<string, Store>, c: Content) {
    At(after, TRASH)[c] > At(before, TRASH)[c] || At(after, GMAIL_TRASH)[c] > At(before, GMAIL_TRASH)[c]
  }

  /**
   The folder named in the result gained exactly one copy; or it is the second trash folder and gained
   none, because the first had the message already although its answer was lost.
   */
  ghost predicate NamedGained(before: map<string, Store>, after: map<string, Store>, name: string, c: Content) {
    || At(after, name)[c] == At(before, name)[c] + 1
    || (name == GMAIL_TRASH && At(after, name)[c] == At(before, name)[c] && At(after, TRASH)[c] > At(before, TRASH)[c])
  }

  lemma GainOne(f: Folder, uid: Uid, rest: map<string, Store>, others: map<string, Store>, dest: string)
    requires Arrived(rest, others, dest, f, {uid})
    ensures uid in f ==> At(others, dest)[f[uid].content] == At(rest, dest)[f[uid].content] + 1
    ensures uid !in f ==> forall c :: At(others, dest)[c] == At(rest, dest)[c]
  {
    GainsCount(rest[dest], others[dest], f, {uid});
    if uid in f {
      assert Holders(f, {uid}, f[uid].content) == {uid};
    } else {
      assert forall c :: Holders(f, {uid}, c) == {};
    }
  }

  /** A message marked by others stays marked. */
  lemma StillRefuses(before: Folder, after: Folder, uid: Uid)
    requires OnlyTouches(before, after, {uid})
    ensures !(Deleted(before) <= {uid}) ==> !(Deleted(after) <= {uid})
  {
    if u :| u in Deleted(before) && u != uid {
      assert u in Deleted(after);
    }
  }

  /**
   The copy that is left behind: a server that must refuse the delete took the COPY first. The move counts as
   failed, so the result names no trash folder although one holds a copy of the message.
   */
  lemma CopyLeftBehind(one: Content, two: Content)
    ensures
      var before: Folder := map[1 := Mail(one, false), 2 := Mail(two, true)];
      var after: Folder := map[1 := Mail(one, true), 2 := Mail(two, true)];
      var rest: map<string, Store> := map[TRASH := multiset{}];
      var others: map<string, Store> := map[TRASH := multiset{one}];
      && !(Deleted(before) <= {1}) && after == Marked(before, {1})
      && Arrived(rest, others, TRASH, before, {1})
      && MoveOutcome(before, after, rest, others, {1}, TRASH, false)
  {
    var before: Folder := map[1 := Mail(one, false), 2 := Mail(two, true)];
    var after: Folder := map[1 := Mail(one, true), 2 := Mail(two, true)];
    var rest: map<string, Store> := map[TRASH := multiset{}];
    var others: map<string, Store> := map[TRASH := multiset{one}];
    assert 2 in Deleted(before) && after == Marked(before, {1});
    assert Holders(before, {1}, one) == {1};
    MarkedTouches(before, after, {1});
    CopiedOutcome(before, after, rest, others, {1}, TRASH, false);
  }

  lemma MovedToTrash(
    before: Folder, after: Folder, uid: Uid, rest: map<string, Store>, others: map<string, Store>, dest: string)
    requires NoneLost(before, after, {uid}, At(rest, dest), At(others, dest)) && dest in {TRASH, GMAIL_TRASH}
    ensures uid in before && uid !in after ==> InTrash(rest, others, before[uid].content)
    ensures forall c :: At(rest, dest)[c] <= At(others, dest)[c]
  {
    if uid in before && uid !in after {
      var c := before[uid].content;
      assert uid in Holders(before, Left(before, after), c);
      assert At(rest, dest)[c] + |Holders(before, Left(before, after), c)| <= At(others, dest)[c];
    }
  }

  /** What the first attempt brought to the trash is still there after the second. */
  lemma TrashKept(
    start: Folder, middle: Folder, uid: Uid,
    first: map<string, Store>, rest: map<string, Store>, last: map<string, Store>)
    requires uid in start && uid !in middle ==> InTrash(first, rest, start[uid].content)
    requires forall c :: At(rest, GMAIL_TRASH)[c] <= At(last, GMAIL_TRASH)[c]
    requires At(last, TRASH) == At(rest, TRASH) && At(rest, GMAIL_TRASH) == At(first, GMAIL_TRASH)
    ensures uid in start && uid !in middle ==> InTrash(first, last, start[uid].content)
    ensures forall c :: InTrash(rest, last, c) ==> InTrash(first, last, c)
  {
  }

  const TRASH: string := "Trash"
  const GMAIL_TRASH: string := "[Gmail]/Trash"

  lemma MarkedTouches(before: Folder, after: Folder, uids: set<Uid>)
    requires exists part :: part <= uids && after == Marked(before, part)
    ensures OnlyTouches(before, after, uids) && after.Keys == before.Keys
  {
  }

  lemma MarkedDeleted(f: Folder, uids: set<Uid>)
    ensures Deleted(Marked(f, uids)) == Deleted(f) + (uids * f.Keys)
    ensures Marked(f, uids).Keys == f.Keys
  {
  }

  lemma RemovedTouches(before: Folder, marked: Folder, after: Folder, uids: set<Uid>)
    requires OnlyTouches(before, marked, uids) && marked.Keys == before.Keys
    requires exists part :: part <= uids && after == marked - part
    ensures OnlyTouches(before, after, uids)
  {
  }

  lemma TouchesTwice(a: Folder, b: Folder, c: Folder, uids: set<Uid>)
    requires OnlyTouches(a, b, uids) && OnlyTouches(b, c, uids)
    ensures OnlyTouches(a, c, uids)
  {
  }
}
