/**
 The mailbox a folder cache mirrors, as far as the syncer can observe it, and
 the four read-only calls the syncer makes on it.

 The server keeps the promises of section 2.3.1.1 of RFC 3501 (UIDs are never
 reused under one UIDVALIDITY, and a new UIDVALIDITY is greater) and of section
 3.1 of RFC 7162 (every change of a message's metadata gives it a mod-sequence
 above everything assigned before). Apart from that it may change in any way
 between any two calls, and any call may fail.
 */
module ImapServer {
  type Uid = nat
  type Flags = seq<string>

  const FLAGGED: string := "\\Flagged"

  datatype Message = Message(flags: Flags, modSeq: nat, date: int)

  /** `version` counts the changes the server has been through. */
  datatype Server = Server(
    uidValidity: nat,
    uidNext: Uid,
    highestModSeq: nat,
    messages: map<Uid, Message>,
    version: nat)

  datatype FolderStatus = FolderStatus(uidValidity: nat, highestModSeq: nat, condStore: bool)

  /** The flags a FETCH answer gives, one entry per UID, in no particular order. */
  type FlagMap = map<Uid, Flags>

  datatype Reply<+T> = Reply(value: T) | Failed

  predicate WellFormed(s: Server) {
    && s.uidValidity > 0
    && forall u :: u in s.messages ==> 0 < u < s.uidNext && 0 < s.messages[u].modSeq <= s.highestModSeq
  }

  /** What may happen to message `u` while the UIDVALIDITY stays the same. */
  predicate MessageEvolves(s: Server, t: Server, u: Uid)
    requires u in t.messages
  {
    if u in s.messages then
      && t.messages[u].date == s.messages[u].date
      && (t.messages[u] == s.messages[u] || t.messages[u].modSeq > s.highestModSeq)
    else
      u >= s.uidNext && t.messages[u].modSeq > s.highestModSeq
  }

  /** `t` is what `s` became after any number of changes. */
  predicate Evolves(s: Server, t: Server) {
    || t == s
    || (&& t.version > s.version
        && t.uidValidity >= s.uidValidity
        && (t.uidValidity == s.uidValidity ==>
              && t.highestModSeq >= s.highestModSeq
              && t.uidNext >= s.uidNext
              && forall u :: u in t.messages ==> MessageEvolves(s, t, u)))
  }

  lemma EvolvesTransitive(s: Server, t: Server, v: Server)
    requires WellFormed(s) && Evolves(s, t) && Evolves(t, v)
    ensures Evolves(s, v)
  {
    if s != t && t != v && v.uidValidity == s.uidValidity {
      forall u | u in v.messages ensures MessageEvolves(s, v, u) {
        assert MessageEvolves(t, v, u);
        if u in t.messages {
          assert MessageEvolves(s, t, u);
        }
      }
    }
  }

  /** The messages SEARCH SINCE selects, with `\Flagged` ones kept on request. */
  predicate InWindow(m: Message, since: int, orFlagged: bool) {
    m.date >= since || (orFlagged && FLAGGED in m.flags)
  }

  function Window(s: Server, since: int, orFlagged: bool): set<Uid> {
    set u | u in s.messages && InWindow(s.messages[u], since, orFlagged)
  }

  /******* What a well-behaved server may answer *******/

  /** The status of a mailbox; `condStore` says whether the server announces CONDSTORE. */
  predicate StatusAnswer(s: Server, condStore: bool, r: FolderStatus) {
    && r.uidValidity == s.uidValidity
    && (r.highestModSeq == s.highestModSeq || (!condStore && r.highestModSeq == 0))
    && (r.condStore <==> condStore && r.highestModSeq > 0)
  }

  /** FETCH of `uids` with CHANGEDSINCE `since`; zero means no CHANGEDSINCE modifier. */
  predicate FetchAnswer(s: Server, uids: set<Uid>, since: nat, r: FlagMap) {
    && (forall u :: u in r ==> u in uids && u in s.messages && r[u] == s.messages[u].flags)
    && (forall u :: u in uids && u in s.messages && s.messages[u].modSeq > since ==> u in r)
  }

  /**
   The server end of one folder. Each call first lets the server change, then
   answers anything the predicates above allow, or fails. Every call but Status
   refuses when the UIDVALIDITY is no longer the one the cycle started with.

   The ghost fields record what passed over the wire: the last status told, the
   CHANGEDSINCE of the last FETCH, and whether anything failed.
   */
  class Mailbox {
    const condStore: bool
    var server: Server
    ghost var told: FolderStatus
    ghost var since: nat
    ghost var fault: bool

    constructor (s: Server, cond: bool)
      requires WellFormed(s)
      ensures server == s && condStore == cond && !fault
    {
      server, condStore := s, cond;
      told, since, fault := FolderStatus(0, 0, false), 0, false;
    }

    /** Other clients act on the mailbox. */
    method Drift()
      requires WellFormed(server)
      modifies this`server
      ensures WellFormed(server) && Evolves(old(server), server)
    {
      var next: Server := *;
      if WellFormed(next) && Evolves(server, next) {
        server := next;
      }
    }

    method Status() returns (r: Reply<FolderStatus>)
      requires WellFormed(server)
      modifies this`server, this`told, this`fault
      ensures WellFormed(server) && Evolves(old(server), server)
      ensures r.Reply? ==> StatusAnswer(server, condStore, r.value) && told == r.value && fault == old(fault)
      ensures r.Failed? ==> fault
    {
      Drift();
      var answer: FolderStatus := *;
      r := if StatusAnswer(server, condStore, answer) then Reply(answer) else Failed;
      told, fault := answer, fault || r.Failed?;
    }

    method SearchSince(validity: nat, since: int, orFlagged: bool) returns (r: Reply<set<Uid>>)
      requires WellFormed(server)
      modifies this`server, this`fault
      ensures WellFormed(server) && Evolves(old(server), server)
      ensures r.Reply? ==>
                server.uidValidity == validity && r.value == Window(server, since, orFlagged) && fault == old(fault)
      ensures r.Failed? ==> fault
    {
      Drift();
      var up: bool := *;
      r := if up && server.uidValidity == validity then Reply(Window(server, since, orFlagged)) else Failed;
      fault := fault || r.Failed?;
    }

    /** FETCH; no UIDs means no round trip. */
    method Fetch(validity: nat, uids: set<Uid>, changedSince: nat) returns (r: Reply<FlagMap>)
      requires WellFormed(server)
      modifies this`server, this`since, this`fault
      ensures WellFormed(server) && Evolves(old(server), server)
      ensures r.Reply? && uids == {} ==> r.value == map[]
      ensures r.Reply? && uids != {} ==>
                server.uidValidity == validity && FetchAnswer(server, uids, changedSince, r.value)
      ensures since == if uids == {} then old(since) else changedSince
      ensures if r.Failed? then fault else fault == old(fault)
    {
      if uids == {} {
        return Reply(map[]);
      }
      Drift();
      since := changedSince;
      var answer: FlagMap := *;
      r := if server.uidValidity == validity && FetchAnswer(server, uids, changedSince, answer)
      then Reply(answer) else Failed;
      fault := fault || r.Failed?;
    }
  }
}
