/**
 What the header scan reads of a message (internal/intel/headers.go) and the key it
 is indexed under. The hash is modelled by the key itself, so two messages collide
 only when their keys are equal.
 */
module Headers {
  import opened Collections

  datatype Auth = Pass | Fail | NoResult

  /** Message-IDs are normalised: trimmed, without angle brackets, lower case. */
  datatype Header = Header(
    uid: nat, date: Option<int>, messageId: string, inReplyTo: string, references: seq<string>,
    from: string, to: seq<string>, cc: seq<string>, answered: bool,
    list: bool, bulk: bool, auto: bool, dkim: Auth, dmarc: Auth)

  /** A message without a Message-ID is identified by its copy. */
  datatype Key = ById(account: string, id: string)
               | ByCopy(account: string, folder: string, uid: nat, date: int, from: string)

  /** Whether an address belongs to the owner of an account. */
  type Owner = (string, string) -> bool

  datatype Sighting = Sighting(account: string, folder: string, header: Header)

  /** The scan skips messages without a sender or a date. */
  predicate Readable(h: Header) { h.from != "" && h.date.Some? }

  function KeyOf(s: Sighting): Key
    requires Readable(s.header)
  {
    if s.header.messageId != "" then ById(s.account, s.header.messageId)
    else ByCopy(s.account, s.folder, s.header.uid, s.header.date.value, s.header.from)
  }

  predicate Conversation(h: Header) { !h.list && !h.bulk && !h.auto }

  function ThreadRoot(h: Header): string {
    if h.references != [] then h.references[0]
    else if h.inReplyTo != "" then h.inReplyTo
    else h.messageId
  }

  function Recipients(h: Header): seq<string> { h.to + h.cc }

  /** Two sightings are of one message exactly when they share the Message-ID, or lack one and are the same copy. */
  lemma KeyMeaning(s: Sighting, t: Sighting)
    requires Readable(s.header) && Readable(t.header)
    ensures KeyOf(s) == KeyOf(t) <==>
      && s.account == t.account && s.header.messageId == t.header.messageId
      && (s.header.messageId == "" ==>
            s.folder == t.folder && s.header.uid == t.header.uid
            && s.header.date == t.header.date && s.header.from == t.header.from)
  {
  }

  /**
   A reply made as section 3.6.4 of RFC 5322 says, its References those of the message it answers (or that
   message's In-Reply-To) and then that message's ID, has the root of the message it answers; so has a reply
   that only names the first message in In-Reply-To.
   */
  lemma RepliesShareRoot(m: Header, r: Header)
    requires m.messageId != ""
    requires
      || r.references == (if m.references == [] && m.inReplyTo != "" then [m.inReplyTo] else m.references)
                         + [m.messageId]
      || (r.references == [] && r.inReplyTo == m.messageId && m.references == [] && m.inReplyTo == "")
    ensures ThreadRoot(r) == ThreadRoot(m)
    ensures m.references == [] && m.inReplyTo == "" ==> ThreadRoot(r) == m.messageId
  {
  }
}
