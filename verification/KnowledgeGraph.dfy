/**
 The knowledge graph that message headers feed (internal/intel/kg.go: edge, addMessage,
 markStale), with the claim that lets each message add its edges once
 (internal/intel/store.go: apply).

 An entity's id stands for its type and name, so a node is that pair. `log` lists the
 messages in the order they were claimed. It has no table; it exists to say what the
 edges are totals of.
 */
module KnowledgeGraph {
  import opened Collections
  import opened Folds
  import opened Headers
  import opened EdgeEnds
  import SenderIndex

  datatype Node = Person(address: string) | Organization(domain: string) | Thread(root: string)

  datatype Relation = BelongsTo | IsSubscription | CorrespondsWith | CcWith | ParticipatesIn

  datatype Link = Link(subject: Node, relation: Relation, target: Node)

  datatype Edge = Edge(weight: nat, from: int, last: int, confidence: real)

  /** The owner's addresses, the mailbox owner of each account and the shared consumer domains. */
  datatype Setting = Setting(own: Owner, owner: string -> string, webmail: set<string>)

  const MAX_PEOPLE := 8

  /******* What a message is evidence for *******/

  /** The part after the last @; addresses are lower case already. */
  function DomainOf(address: string): (d: string)
    ensures '@' !in d
    ensures d != "" ==> |d| < |address| && address[|address| - |d| - 1..] == "@" + d
    ensures d == "" ==> '@' !in address || address[|address| - 1] == '@'
  {
    if '@' !in address then ""
    else if '@' in address[1..] then
      var d := DomainOf(address[1..]);
      assert d != "" ==> address[|address| - |d| - 1..] == address[1..][|address| - 1 - |d| - 1..];
      d
    else if address[0] == '@' then
      assert address == "@" + address[1..];
      address[1..]
    else ""
  }

  function Everyone(h: Header): seq<string> { [h.from] + h.to + h.cc }

  predicate Counts(a: string, account: string, own: Owner) { a != "" && '@' in a && !own(account, a) }

  /** The participants other than the owner. */
  function People(h: Header, account: string, own: Owner): set<string> {
    set a | a in Everyone(h) && Counts(a, account, own)
  }

  /** One edge from each person to the object picked for them; never from a node to itself. */
  function Star(people: set<string>, p: Relation, target: string -> Option<Node>): set<Link> {
    set a | a in people && target(a).Some? && target(a).value != Person(a) :: Link(Person(a), p, target(a).value)
  }

  /** One edge for each unordered pair, from the lesser address to the greater. */
  function Pairs(people: set<string>): set<Link> {
    set a, b | a in people && b in people && a != b && StringLeq(a, b) :: Link(Person(a), CcWith, Person(b))
  }

  function Employer(webmail: set<string>): string -> Option<Node> {
    a => if DomainOf(a) == "" || DomainOf(a) in webmail then None else Some(Organization(DomainOf(a)))
  }

  function Always(n: Node): string -> Option<Node> { a => Some(n) }

  /** The edges a message supports, said without the order in which they are written. */
  function Supported(h: Header, account: string, c: Setting): set<Link> {
    var people := People(h, account, c.own);
    var owner := c.owner(account);
    var outgoing := c.own(account, h.from);
    Star(people, BelongsTo, Employer(c.webmail)) +
    if owner == "" then {}
    else if !Conversation(h) then
      if outgoing then {} else Star({h.from}, IsSubscription, Always(Person(owner)))
    else Spoken(people, h, owner, outgoing)
  }

  /** The edges of person-to-person mail. */
  function Spoken(people: set<string>, h: Header, owner: string, outgoing: bool): set<Link> {
    Star(if outgoing then people else {h.from}, CorrespondsWith, Always(Person(owner)))
    + (if 2 <= |people| <= MAX_PEOPLE then Pairs(people) else {})
    + (if ThreadRoot(h) != "" && |people| <= MAX_PEOPLE
       then Star(people, ParticipatesIn, Always(Thread(ThreadRoot(h)))) else {})
  }

  /** A participant other than the owner. */
  predicate TakesPart(h: Header, account: string, own: Owner, a: string) {
    (a == h.from || a in h.to || a in h.cc) && a != "" && '@' in a && !own(account, a)
  }

  /** The edges a message supports, said of its header fields, one kind of edge at a time. */
  predicate Says(h: Header, account: string, c: Setting, k: Link) {
    && k.subject.Person? && k.subject != k.target
    && var a, owner, mass := k.subject.address, c.owner(account), h.list || h.bulk || h.auto;
    match k.relation
    case BelongsTo =>
      && TakesPart(h, account, c.own, a) && k.target == Organization(DomainOf(a))
      && DomainOf(a) != "" && DomainOf(a) !in c.webmail
    case IsSubscription =>
      owner != "" && mass && !c.own(account, h.from) && a == h.from && k.target == Person(owner)
    case CorrespondsWith =>
      && owner != "" && !mass && k.target == Person(owner)
      && (if c.own(account, h.from) then TakesPart(h, account, c.own, a) else a == h.from)
    case CcWith =>
      && owner != "" && !mass && |People(h, account, c.own)| <= 8 && TakesPart(h, account, c.own, a)
      && k.target.Person? && TakesPart(h, account, c.own, k.target.address) && StringLeq(a, k.target.address)
    case ParticipatesIn =>
      && owner != "" && !mass && |People(h, account, c.own)| <= 8 && TakesPart(h, account, c.own, a)
      && ThreadRoot(h) != "" && k.target == Thread(ThreadRoot(h))
  }

  lemma PeopleTakePart(h: Header, account: string, own: Owner)
    ensures forall a :: a in People(h, account, own) <==> TakesPart(h, account, own, a)
  {
  }

  lemma TwoAtLeast(people: set<string>, a: string, b: string)
    requires a in people && b in people && a != b
    ensures |people| >= 2
  {
    assert {a, b} <= people && |{a, b}| == 2;
    assert people == {a, b} + (people - {a, b});
  }

  lemma StarHas(people: set<string>, p: Relation, target: string -> Option<Node>, k: Link)
    ensures k in Star(people, p, target) <==>
      && k.relation == p && k.subject.Person? && k.subject.address in people
      && target(k.subject.address) == Some(k.target) && k.target != k.subject
  {
  }

  lemma PairsHas(people: set<string>, k: Link)
    ensures k in Pairs(people) <==>
      && k.relation == CcWith && k.subject.Person? && k.target.Person? && k.subject != k.target
      && k.subject.address in people && k.target.address in people && StringLeq(k.subject.address, k.target.address)
  {
  }

  lemma SpokenMeaning(h: Header, account: string, c: Setting, k: Link)
    requires c.owner(account) != "" && Conversation(h)
    ensures
      k in Spoken(People(h, account, c.own), h, c.owner(account), c.own(account, h.from))
      <==> Says(h, account, c, k) && k.relation != BelongsTo
  {
    var people, owner := People(h, account, c.own), c.owner(account);
    PeopleTakePart(h, account, c.own);
    StarHas(if c.own(account, h.from) then people else {h.from}, CorrespondsWith, Always(Person(owner)), k);
    StarHas(people, ParticipatesIn, Always(Thread(ThreadRoot(h))), k);
    PairsHas(people, k);
    if k.subject.Person? && k.target.Person? && k.subject != k.target
      && k.subject.address in people && k.target.address in people {
      TwoAtLeast(people, k.subject.address, k.target.address);
    }
  }

  /** Both ways: the links written are exactly those the header fields call for. */
  lemma SupportedMeaning(h: Header, account: string, c: Setting, k: Link)
    ensures k in Supported(h, account, c) <==> Says(h, account, c, k)
  {
    var people, owner := People(h, account, c.own), c.owner(account);
    PeopleTakePart(h, account, c.own);
    StarHas(people, BelongsTo, Employer(c.webmail), k);
    if owner != "" && Conversation(h) {
      SpokenMeaning(h, account, c, k);
    } else if owner != "" {
      StarHas({h.from}, IsSubscription, Always(Person(owner)), k);
    }
  }

  /******* One piece of evidence *******/

  function MaxReal(a: real, b: real): real { if a < b then b else a }

  /** ON CONFLICT DO UPDATE: the weight grows, the dates widen, the confidence is the highest seen. */
  function Combine(a: Option<Edge>, b: Option<Edge>): Option<Edge> {
    if a.None? then b
    else if b.None? then a
    else Some(Edge(a.value.weight + b.value.weight, Min(a.value.from, b.value.from),
                   Max(a.value.last, b.value.last), MaxReal(a.value.confidence, b.value.confidence)))
  }

  lemma CombineCommutative()
    ensures Commutative(Combine)
  {
    forall a, b ensures Combine(a, b) == Combine(b, a) {}
    forall a, b, c ensures Combine(Combine(a, b), c) == Combine(a, Combine(b, c)) {}
  }

  /** A header edge: one message, confidence 1. */
  function Fact(when: int): Option<Edge> { Some(Edge(1, when, when, 1.0)) }

  function Lookup(edges: map<Link, Edge>, k: Link): Option<Edge> {
    if k in edges then Some(edges[k]) else None
  }

  function Upsert(edges: map<Link, Edge>, k: Link, when: int): map<Link, Edge> {
    edges[k := Combine(Lookup(edges, k), Fact(when)).value]
  }

  /** Exactly the links of `given` got one more piece of evidence. */
  ghost predicate Gained(a: map<Link, Edge>, b: map<Link, Edge>, given: set<Link>, when: int) {
    forall k :: Lookup(b, k) == Combine(Lookup(a, k), if k in given then Fact(when) else None)
  }

  lemma GainedNone(a: map<Link, Edge>, when: int)
    ensures Gained(a, a, {}, when)
  {
  }

  lemma GainedThen(a: map<Link, Edge>, b: map<Link, Edge>, c: map<Link, Edge>, s: set<Link>, t: set<Link>, when: int)
    requires Gained(a, b, s, when) && Gained(b, c, t, when) && s !! t
    ensures Gained(a, c, s + t, when)
  {
  }

  lemma GainedOne(a: map<Link, Edge>, k: Link, when: int)
    ensures Gained(a, Upsert(a, k, when), {k}, when)
  {
  }

  /******* The loops *******/

  /** The de-duplicating loop over the sender and the recipients. */
  method Participants(h: Header, account: string, own: Owner) returns (people: seq<string>)
    ensures Distinct(people) && Elements(people) == People(h, account, own)
  {
    var all := Everyone(h);
    people := [];
    var seen := {};
    for i := 0 to |all|
      invariant Distinct(people) && Elements(people) == seen
      invariant forall a :: a in seen <==> a in all[..i] && Counts(a, account, own)
    {
      assert all[..i + 1] == all[..i] + [all[i]];
      if all[i] != "" && '@' in all[i] && !own(account, all[i]) && all[i] !in seen {
        DistinctSnoc(people, all[i]);
        seen := seen + {all[i]};
        people := people + [all[i]];
      }
    }
    assert all[..|all|] == all;
  }

  lemma StarSnoc(people: seq<string>, a: string, p: Relation, target: string -> Option<Node>)
    requires a !in people
    ensures
      var more := if target(a).Some? && target(a).value != Person(a) then {Link(Person(a), p, target(a).value)} else {};
      var before := Star(Elements(people), p, target);
      before !! more && Star(Elements(people + [a]), p, target) == before + more
  {
    var more := if target(a).Some? && target(a).value != Person(a) then {Link(Person(a), p, target(a).value)} else {};
    var before, after := Star(Elements(people), p, target), Star(Elements(people + [a]), p, target);
    forall k ensures k in after <==> k in before + more {
    }
  }

  /** The pairs (p, q), p < q, that the nested loops reach before (i, j). */
  function PairsBefore(people: seq<string>, i: int, j: int): set<Link> {
    set p, q | 0 <= p < q < |people| && (p < i || (p == i && q < j)) :: PairLink(people[p], people[q])
  }

  /** a, b = b, a when a > b: one edge per pair. */
  function PairLink(a: string, b: string): Link {
    if StringLeq(a, b) then Link(Person(a), CcWith, Person(b)) else Link(Person(b), CcWith, Person(a))
  }

  lemma PairsStep(people: seq<string>, i: int, j: int)
    requires Distinct(people) && 0 <= i < j < |people|
    ensures PairLink(people[i], people[j]) !in PairsBefore(people, i, j)
    ensures PairsBefore(people, i, j + 1) == PairsBefore(people, i, j) + {PairLink(people[i], people[j])}
  {
    var k := PairLink(people[i], people[j]);
    if k in PairsBefore(people, i, j) {
      var p, q :| 0 <= p < q < |people| && (p < i || (p == i && q < j)) && PairLink(people[p], people[q]) == k;
      SamePair(people, p, q, i, j);
    }
    var before, after := PairsBefore(people, i, j), PairsBefore(people, i, j + 1);
    forall l ensures l in after <==> l in before + {k} {
      if l in after {
        var p, q :| 0 <= p < q < |people| && (p < i || (p == i && q < j + 1)) && PairLink(people[p], people[q]) == l;
        assert p < i || (p == i && q < j) ==> l in before;
      }
      if l in before {
        var p, q :| 0 <= p < q < |people| && (p < i || (p == i && q < j)) && PairLink(people[p], people[q]) == l;
      }
      assert PairLink(people[i], people[j]) in after;
    }
  }

  lemma SamePair(people: seq<string>, p: int, q: int, i: int, j: int)
    requires Distinct(people) && 0 <= p < q < |people| && 0 <= i < j < |people|
    requires PairLink(people[p], people[q]) == PairLink(people[i], people[j])
    ensures p == i && q == j
  {
    SameEnds(people[p], people[q], people[i], people[j]);
  }

  lemma SameEnds(a: string, b: string, c: string, d: string)
    requires PairLink(a, b) == PairLink(c, d)
    ensures (a == c && b == d) || (a == d && b == c)
  {
  }

  lemma PairsNextRow(people: seq<string>, i: int)
    requires 0 <= i < |people|
    ensures PairsBefore(people, i, |people|) == PairsBefore(people, i + 1, i + 2)
  {
    var before, after := PairsBefore(people, i, |people|), PairsBefore(people, i + 1, i + 2);
    forall k ensures k in before <==> k in after {
      if k in before {
        var p, q :| 0 <= p < q < |people| && (p < i || (p == i && q < |people|)) && PairLink(people[p], people[q]) == k;
        assert p < i + 1;
      }
      if k in after {
        var p, q :| 0 <= p < q < |people| && (p < i + 1 || (p == i + 1 && q < i + 2))
                    && PairLink(people[p], people[q]) == k;
        assert p < i || (p == i && q < |people|);
      }
    }
  }

  /** The nested loops reach every unordered pair. */
  lemma AllPairs(people: seq<string>)
    requires Distinct(people)
    ensures PairsBefore(people, |people|, |people| + 1) == Pairs(Elements(people))
  {
    var n := |people|;
    var loops, spec := PairsBefore(people, n, n + 1), Pairs(Elements(people));
    forall k | k in loops ensures k in spec {
      var p, q :| 0 <= p < q < n && PairLink(people[p], people[q]) == k;
      StringLeqTotal(people[p], people[q]);
      assert people[p] in Elements(people) && people[q] in Elements(people);
    }
    forall k | k in spec ensures k in loops {
      var a, b :| a in people && b in people && a != b && StringLeq(a, b) && k == Link(Person(a), CcWith, Person(b));
      var p, q :| 0 <= p < n && 0 <= q < n && people[p] == a && people[q] == b;
      PairLinkEither(a, b);
      assert p < q ==> PairLink(people[p], people[q]) in loops;
      assert q < p ==> PairLink(people[q], people[p]) in loops;
    }
  }

  lemma PairLinkEither(a: string, b: string)
    requires a != b && StringLeq(a, b)
    ensures PairLink(a, b) == PairLink(b, a) == Link(Person(a), CcWith, Person(b))
  {
    if StringLeq(b, a) {
      StringLeqAntisymmetric(a, b);
    }
  }

  /******* Claimed messages *******/

  /** What a message tells the graph. */
  datatype Evidence = Evidence(date: int, links: set<Link>)

  function EvidenceOf(s: Sighting, c: Setting): Evidence
    requires Readable(s.header)
  {
    Evidence(s.header.date.value, Supported(s.header, s.account, c))
  }

  function Contribution(item: (Key, Evidence), k: Link): Option<Edge> {
    if k in item.1.links then Fact(item.1.date) else None
  }

  /** All evidence for a link. */
  function Total(log: seq<(Key, Evidence)>, k: Link): Option<Edge> {
    Fold(log, k, Contribution, Combine, None)
  }

  ghost predicate EdgesAreTotals(edges: map<Link, Edge>, log: seq<(Key, Evidence)>) {
    forall k :: Lookup(edges, k) == Total(log, k)
  }

  ghost predicate Inv(claimed: map<Key, Evidence>, edges: map<Link, Edge>, log: seq<(Key, Evidence)>) {
    Once(log) && Lists(log, claimed) && EdgesAreTotals(edges, log)
  }

  lemma ClaimKeepsInv(
    claimed: map<Key, Evidence>, edges: map<Link, Edge>, log: seq<(Key, Evidence)>, m: Key, e: Evidence,
    next: map<Link, Edge>)
    requires Inv(claimed, edges, log) && m !in claimed && Gained(edges, next, e.links, e.date)
    ensures Inv(claimed[m := e], next, log + [(m, e)])
  {
    LedgerAdd(log, claimed, m, e);
    forall k ensures Lookup(next, k) == Total(log + [(m, e)], k) {
      FoldSnoc(log, (m, e), k, Contribution, Combine, None);
    }
  }

  /** valid_to was a last_seen of its edge. */
  ghost predicate EndsInPast(validTo: map<Link, int>, edges: map<Link, Edge>) {
    forall k :: k in validTo ==> k in edges && validTo[k] <= edges[k].last
  }

  lemma GainedKeepsEnds(validTo: map<Link, int>, a: map<Link, Edge>, b: map<Link, Edge>, given: set<Link>, when: int)
    requires EndsInPast(validTo, a) && Gained(a, b, given, when)
    ensures EndsInPast(validTo, b)
  {
    forall k | k in validTo ensures k in b && validTo[k] <= b[k].last {
      assert Lookup(b, k) == Combine(Lookup(a, k), if k in given then Fact(when) else None);
    }
  }

  /** kg_relationships, its valid_to column (absent means NULL) and the kg_done marks. */
  class Graph {
    const c: Setting
    var edges: map<Link, Edge>
    var validTo: map<Link, int>
    var claimed: map<Key, Evidence>
    ghost var log: seq<(Key, Evidence)>

    ghost predicate Valid() reads this {
      Inv(claimed, edges, log) && EndsInPast(validTo, edges)
    }

    constructor (c: Setting)
      ensures Valid() && this.c == c && claimed == map[] && edges == map[] && validTo == map[]
    {
      this.c := c;
      edges, validTo, claimed, log := map[], map[], map[], [];
    }

    /** edge: a node has no edge to itself. */
    method AddEdge(k: Link, when: int)
      modifies this`edges
      ensures Gained(old(edges), edges, if k.subject == k.target then {} else {k}, when)
    {
      if k.subject == k.target {
        GainedNone(edges, when);
      } else {
        GainedOne(edges, k, when);
        edges := Upsert(edges, k, when);
      }
    }

    /** A loop over the people, linking each to an object. */
    method LinkEach(people: seq<string>, relation: Relation, target: string -> Option<Node>, when: int)
      requires Distinct(people)
      modifies this`edges
      ensures Gained(old(edges), edges, Star(Elements(people), relation, target), when)
    {
      ghost var start := edges;
      for i := 0 to |people|
        invariant Gained(start, edges, Star(Elements(people[..i]), relation, target), when)
      {
        var a := people[i];
        ghost var was := edges;
        StarSnoc(people[..i], a, relation, target);
        assert people[..i + 1] == people[..i] + [a];
        ghost var more := {};
        if target(a).Some? {
          AddEdge(Link(Person(a), relation, target(a).value), when);
          more := if target(a).value != Person(a) then {Link(Person(a), relation, target(a).value)} else {};
        }
        GainedThen(start, was, edges, Star(Elements(people[..i]), relation, target), more, when);
      }
      assert people[..|people|] == people;
    }

    /** The nested loops over pairs of people. */
    method LinkPairs(people: seq<string>, when: int)
      requires Distinct(people)
      modifies this`edges
      ensures Gained(old(edges), edges, Pairs(Elements(people)), when)
    {
      ghost var start := edges;
      assert PairsBefore(people, 0, 1) == {};
      for i := 0 to |people|
        invariant Gained(start, edges, PairsBefore(people, i, i + 1), when)
      {
        for j := i + 1 to |people|
          invariant Gained(start, edges, PairsBefore(people, i, j), when)
        {
          var a, b := people[i], people[j];
          if !StringLeq(a, b) {
            a, b := b, a;
          }
          PairsStep(people, i, j);
          ghost var was := edges;
          assert Link(Person(a), CcWith, Person(b)) == PairLink(people[i], people[j]) && a != b;
          AddEdge(Link(Person(a), CcWith, Person(b)), when);
          GainedThen(start, was, edges, PairsBefore(people, i, j), {PairLink(people[i], people[j])}, when);
        }
        PairsNextRow(people, i);
      }
      AllPairs(people);
    }

    /** addMessage: every edge the message supports gains one piece of evidence, and no other edge changes. */
    method AddMessage(h: Header, account: string)
      requires Readable(h)
      modifies this`edges
      ensures Gained(old(edges), edges, Supported(h, account, c), h.date.value)
    {
      var when, outgoing, owner := h.date.value, c.own(account, h.from), c.owner(account);
      ghost var start := edges;
      var people := Participants(h, account, c.own);
      LinkEach(people, BelongsTo, Employer(c.webmail), when);
      if owner != "" {
        ghost var was, first := edges, Star(Elements(people), BelongsTo, Employer(c.webmail));
        if Conversation(h) {
          AddConversation(people, h, owner, outgoing);
          GainedThen(start, was, edges, first, Spoken(Elements(people), h, owner, outgoing), when);
        } else if !outgoing {
          LinkEach([h.from], IsSubscription, Always(Person(owner)), when);
          assert Elements([h.from]) == {h.from};
          GainedThen(start, was, edges, first, Star({h.from}, IsSubscription, Always(Person(owner))), when);
        }
      }
    }

    /** The edges of person-to-person mail. */
    method AddConversation(people: seq<string>, h: Header, owner: string, outgoing: bool)
      requires Readable(h) && Distinct(people)
      modifies this`edges
      ensures Gained(old(edges), edges, Spoken(Elements(people), h, owner, outgoing), h.date.value)
    {
      var when := h.date.value;
      ghost var start := edges;
      DistinctSize(people);
      if outgoing {
        LinkEach(people, CorrespondsWith, Always(Person(owner)), when);
      } else {
        LinkEach([h.from], CorrespondsWith, Always(Person(owner)), when);
        assert Elements([h.from]) == {h.from};
      }
      ghost var given := Star(if outgoing then Elements(people) else {h.from}, CorrespondsWith, Always(Person(owner)));
      ghost var was := edges;
      if 2 <= |people| <= MAX_PEOPLE {
        LinkPairs(people, when);
        GainedThen(start, was, edges, given, Pairs(Elements(people)), when);
        given := given + Pairs(Elements(people));
      }
      was := edges;
      if ThreadRoot(h) != "" && |people| <= MAX_PEOPLE {
        LinkEach(people, ParticipatesIn, Always(Thread(ThreadRoot(h))), when);
        ghost var root := Star(Elements(people), ParticipatesIn, Always(Thread(ThreadRoot(h))));
        GainedThen(start, was, edges, given, root, when);
      }
    }

    /** A header of a batch, with the graph switched on: the first copy claims the message. */
    method Sight(s: Sighting)
      requires Valid()
      modifies this`edges, this`claimed, this`log
      ensures Valid()
      ensures claimed == Claim(old(claimed), s, c)
      ensures if Claims(old(claimed), s) then Gained(old(edges), edges, EvidenceOf(s, c).links, EvidenceOf(s, c).date)
              else edges == old(edges)
    {
      if Claims(claimed, s) {
        ghost var was, e := edges, EvidenceOf(s, c);
        AddMessage(s.header, s.account);
        ClaimKeepsInv(claimed, was, log, KeyOf(s), e, edges);
        GainedKeepsEnds(validTo, was, edges, e.links, e.date);
        claimed, log := claimed[KeyOf(s) := EvidenceOf(s, c)], log + [(KeyOf(s), e)];
      }
    }

    /** markStale: an edge is marked ended iff its last evidence is before the cutoff. */
    method MarkStale(cutoff: int)
      requires EndsInPast(validTo, edges)
      modifies this`validTo
      ensures EndsInPast(validTo, edges)
      ensures StaleMarked(edges, validTo, cutoff)
      ensures forall k :: k in validTo ==> validTo[k] == if k in old(validTo) then old(validTo)[k] else edges[k].last
      ensures forall k :: k in validTo ==>
                (validTo[k] == edges[k].last <==> k !in old(validTo) || old(validTo)[k] == edges[k].last)
    {
      var written := set k | k in edges
        && ((edges[k].last < cutoff && k !in validTo) || (edges[k].last >= cutoff && k in validTo));
      validTo := map k | k in edges && (if k in written then edges[k].last < cutoff else k in validTo)
        :: if k in written then edges[k].last else validTo[k];
    }

    /** The tables are those a run leaves. */
    ghost predicate Follows(run: seq<Action>) reads this {
      claimed == ClaimAll(Sightings(run), c) && Tracks(run, edges, validTo, c)
    }

    method Perform(a: Action, ghost run: seq<Action>)
      requires Valid() && Follows(run)
      modifies this
      ensures Valid() && Follows(run + [a])
    {
      ghost var edges0, validTo0 := edges, validTo;
      ClaimSnoc(run, a, c);
      match a {
        case Scan(s, on) =>
          if on {
            Sight(s);
          }
          TracksScan(run, a, edges0, edges, validTo, c);
        case Stale(cutoff) =>
          MarkStale(cutoff);
          TracksStale(run, cutoff, edges, validTo0, validTo, c);
      }
    }
  }

  /******* Any history *******/

  /** A header is scanned, with the graph on or off, or stale edges are marked. */
  datatype Action = Scan(sighting: Sighting, on: bool) | Stale(cutoff: int)

  /** The sightings that may claim. */
  function Sightings(run: seq<Action>): seq<Sighting> {
    if run == [] then []
    else
      var a := run[|run| - 1];
      Sightings(run[..|run| - 1]) + if a.Scan? && a.on then [a.sighting] else []
  }

  /** The sighting is of a message not claimed yet. */
  predicate Claims(claimed: map<Key, Evidence>, s: Sighting) { Readable(s.header) && KeyOf(s) !in claimed }

  function Claim(claimed: map<Key, Evidence>, s: Sighting, c: Setting): map<Key, Evidence> {
    if Claims(claimed, s) then claimed[KeyOf(s) := EvidenceOf(s, c)] else claimed
  }

  function ClaimMore(claimed: map<Key, Evidence>, run: seq<Sighting>, c: Setting): map<Key, Evidence> {
    if run == [] then claimed else Claim(ClaimMore(claimed, run[..|run| - 1], c), run[|run| - 1], c)
  }

  function ClaimAll(run: seq<Sighting>, c: Setting): map<Key, Evidence> { ClaimMore(map[], run, c) }

  lemma {:induction false} ClaimConcat(claimed: map<Key, Evidence>, a: seq<Sighting>, b: seq<Sighting>, c: Setting)
    ensures ClaimMore(claimed, a + b, c) == ClaimMore(ClaimMore(claimed, a, c), b, c)
  {
    if b == [] {
      assert a + b == a;
    } else {
      ClaimConcat(claimed, a, b[..|b| - 1], c);
      assert (a + b)[..|a + b| - 1] == a + b[..|b| - 1];
    }
  }

  lemma ClaimSnoc(run: seq<Action>, a: Action, c: Setting)
    ensures
      var before := ClaimAll(Sightings(run), c);
      ClaimAll(Sightings(run + [a]), c) == if a.Scan? && a.on then Claim(before, a.sighting, c) else before
  {
    assert (run + [a])[..|run|] == run;
    var before := Sightings(run);
    if a.Scan? && a.on {
      assert (before + [a.sighting])[..|before|] == before;
    } else {
      assert before + [] == before;
    }
  }

  /** What an action means to one link, after the run `before`. */
  function TickOf(before: seq<Action>, a: Action, k: Link, c: Setting): Tick {
    match a
    case Stale(cutoff) => Mark(cutoff)
    case Scan(s, on) =>
      if on && Claims(ClaimAll(Sightings(before), c), s) && k in EvidenceOf(s, c).links
      then Brought(EvidenceOf(s, c).date) else Other
  }

  function History(run: seq<Action>, k: Link, c: Setting): seq<Tick> {
    if run == [] then []
    else
      var before := run[..|run| - 1];
      History(before, k, c) + [TickOf(before, run[|run| - 1], k, c)]
  }

  function LastOf(edges: map<Link, Edge>, k: Link): Option<int> {
    if k in edges then Some(edges[k].last) else None
  }

  function EndAt(validTo: map<Link, int>, k: Link): Option<int> {
    if k in validTo then Some(validTo[k]) else None
  }

  /** last_seen and valid_to of every link are those of its history. */
  ghost predicate Tracks(run: seq<Action>, edges: map<Link, Edge>, validTo: map<Link, int>, c: Setting) {
    forall k :: LastOf(edges, k) == LastSeen(History(run, k, c)) && EndAt(validTo, k) == EndOf(History(run, k, c))
  }

  lemma GainedLast(a: map<Link, Edge>, b: map<Link, Edge>, given: set<Link>, when: int, k: Link)
    requires Gained(a, b, given, when)
    ensures LastOf(b, k) == Later(LastOf(a, k), if k in given then Some(when) else None)
  {
    assert Lookup(b, k) == Combine(Lookup(a, k), if k in given then Fact(when) else None);
  }

  lemma HistorySnoc(run: seq<Action>, a: Action, k: Link, c: Setting)
    ensures History(run + [a], k, c) == History(run, k, c) + [TickOf(run, a, k, c)]
  {
    assert (run + [a])[..|run|] == run;
  }

  lemma TracksScan(
    run: seq<Action>, a: Action, edges: map<Link, Edge>, next: map<Link, Edge>, validTo: map<Link, int>, c: Setting)
    requires Tracks(run, edges, validTo, c) && a.Scan?
    requires
      if a.on && Claims(ClaimAll(Sightings(run), c), a.sighting)
      then Gained(edges, next, EvidenceOf(a.sighting, c).links, EvidenceOf(a.sighting, c).date)
      else next == edges
    ensures Tracks(run + [a], next, validTo, c)
  {
    forall k
      ensures LastOf(next, k) == LastSeen(History(run + [a], k, c))
      ensures EndAt(validTo, k) == EndOf(History(run + [a], k, c))
    {
      HistorySnoc(run, a, k, c);
      Snoc(History(run, k, c), TickOf(run, a, k, c));
      if a.on && Claims(ClaimAll(Sightings(run), c), a.sighting) {
        GainedLast(edges, next, EvidenceOf(a.sighting, c).links, EvidenceOf(a.sighting, c).date, k);
      }
    }
  }

  lemma TracksStale(
    run: seq<Action>, cutoff: int, edges: map<Link, Edge>, validTo: map<Link, int>, next: map<Link, int>, c: Setting)
    requires Tracks(run, edges, validTo, c)
    requires StaleMarked(edges, next, cutoff)
    requires forall k :: k in next ==> next[k] == if k in validTo then validTo[k] else edges[k].last
    ensures Tracks(run + [Stale(cutoff)], edges, next, c)
  {
    forall k
      ensures LastOf(edges, k) == LastSeen(History(run + [Stale(cutoff)], k, c))
      ensures EndAt(next, k) == EndOf(History(run + [Stale(cutoff)], k, c))
    {
      HistorySnoc(run, Stale(cutoff), k, c);
      Snoc(History(run, k, c), Mark(cutoff));
    }
  }

  /**
   Any run: the edges are totals over the claimed messages, each row says what `Describes` says of them, and
   last_seen and valid_to are the functions of the run given above.
   */
  method AnyRun(run: seq<Action>, c: Setting)
    returns (
      claimed: map<Key, Evidence>, edges: map<Link, Edge>, validTo: map<Link, int>, ghost log: seq<(Key, Evidence)>)
    ensures claimed == ClaimAll(Sightings(run), c)
    ensures Inv(claimed, edges, log) && EndsInPast(validTo, edges)
    ensures forall k :: Describes(claimed, k, Lookup(edges, k))
    ensures Tracks(run, edges, validTo, c)
    ensures run != [] && run[|run| - 1].Stale? ==> StaleMarked(edges, validTo, run[|run| - 1].cutoff)
  {
    var g := new Graph(c);
    for i := 0 to |run|
      invariant g.Valid() && g.Follows(run[..i]) && g.c == c
    {
      g.Perform(run[i], run[..i]);
      assert run[..i + 1] == run[..i] + [run[i]];
    }
    assert run[..|run|] == run;
    claimed, edges, validTo, log := g.claimed, g.edges, g.validTo, g.log;
    forall k ensures Describes(claimed, k, Lookup(edges, k)) {
      EdgeMeaning(claimed, log, k);
    }
    if run != [] && run[|run| - 1].Stale? {
      assert run == run[..|run| - 1] + [Stale(run[|run| - 1].cutoff)];
      MarkedLast(run[..|run| - 1], run[|run| - 1].cutoff, edges, validTo, c);
    }
  }

  /** valid_to is set iff last_seen is before the cutoff. */
  ghost predicate StaleMarked(edges: map<Link, Edge>, validTo: map<Link, int>, cutoff: int) {
    forall k :: k in validTo <==> k in edges && edges[k].last < cutoff
  }

  lemma MarkedLast(run: seq<Action>, cutoff: int, edges: map<Link, Edge>, validTo: map<Link, int>, c: Setting)
    requires Tracks(run + [Stale(cutoff)], edges, validTo, c)
    ensures StaleMarked(edges, validTo, cutoff)
  {
    forall k ensures k in validTo <==> k in edges && edges[k].last < cutoff {
      HistorySnoc(run, Stale(cutoff), k, c);
      Snoc(History(run, k, c), Mark(cutoff));
      assert LastOf(edges, k) == LastSeen(History(run, k, c));
      assert EndAt(validTo, k) == EndOf(History(run + [Stale(cutoff)], k, c));
    }
  }

  /** Over any run, valid_to differs from last_seen exactly when newer evidence came after the first mark. */
  lemma EndLagsExactly(run: seq<Action>, k: Link, c: Setting, edges: map<Link, Edge>, validTo: map<Link, int>)
    requires Tracks(run, edges, validTo, c) && EndsInPast(validTo, edges)
    ensures k in validTo && validTo[k] != edges[k].last <==> NewerThanMark(History(run, k, c))
  {
    var h := History(run, k, c);
    LagsExactly(h);
    assert LastOf(edges, k) == LastSeen(h) && EndAt(validTo, k) == EndOf(h);
  }

  /** The input: a mail, a mark, a later mail and another mark, all before the cutoff. */
  method EndLags(first: Sighting, second: Sighting, k: Link, cutoff: int, c: Setting) returns (end: int, last: int)
    requires Readable(first.header) && Readable(second.header) && KeyOf(first) != KeyOf(second)
    requires k in EvidenceOf(first, c).links && k in EvidenceOf(second, c).links
    requires first.header.date.value < second.header.date.value < cutoff
    ensures end == first.header.date.value && last == second.header.date.value
  {
    var g := new Graph(c);
    ghost var edges := g.edges;
    g.Sight(first);
    GainedLast(edges, g.edges, EvidenceOf(first, c).links, first.header.date.value, k);
    g.MarkStale(cutoff);
    edges := g.edges;
    g.Sight(second);
    GainedLast(edges, g.edges, EvidenceOf(second, c).links, second.header.date.value, k);
    g.MarkStale(cutoff);
    end, last := g.validTo[k], g.edges[k].last;
  }

  /** Two such mails: one stranger writes to the owner twice. */
  method EndLagsConcretely() returns (end: int, last: int)
    ensures end == 0 && last == 10
  {
    var c := Setting((account, address) => address == "me@home.org", account => "me@home.org", {});
    var h := Header(1, Some(0), "a", "", [], "ann@corp.com", ["me@home.org"], [],
                    false, false, false, false, NoResult, NoResult);
    var first := Sighting("acc", "INBOX", h);
    var second := Sighting("acc", "INBOX", h.(uid := 2, date := Some(10), messageId := "b"));
    var k := Link(Person("ann@corp.com"), CorrespondsWith, Person("me@home.org"));
    Corresponds(h, "acc", c);
    Corresponds(second.header, "acc", c);
    end, last := EndLags(first, second, k, 100, c);
  }

  /** Mail from a stranger is evidence that they correspond with the owner. */
  lemma Corresponds(h: Header, account: string, c: Setting)
    requires Conversation(h) && !c.own(account, h.from) && c.owner(account) != "" && c.owner(account) != h.from
    ensures Link(Person(h.from), CorrespondsWith, Person(c.owner(account))) in Supported(h, account, c)
  {
    var owner := c.owner(account);
    assert Always(Person(owner))(h.from) == Some(Person(owner));
    var star := Star({h.from}, CorrespondsWith, Always(Person(owner)));
    assert Link(Person(h.from), CorrespondsWith, Person(owner)) in star;
  }

  /******* What an edge says *******/

  /** The claimed messages that support a link. */
  function Supporters(claimed: map<Key, Evidence>, k: Link): set<Key> {
    set m | m in claimed && k in claimed[m].links
  }

  ghost predicate Earliest(claimed: map<Key, Evidence>, k: Link, d: int) {
    && (exists m :: m in Supporters(claimed, k) && claimed[m].date == d)
    && (forall m :: m in Supporters(claimed, k) ==> d <= claimed[m].date)
  }

  ghost predicate Latest(claimed: map<Key, Evidence>, k: Link, d: int) {
    && (exists m :: m in Supporters(claimed, k) && claimed[m].date == d)
    && (forall m :: m in Supporters(claimed, k) ==> claimed[m].date <= d)
  }

  /** An edge's row, said of the claimed messages alone. */
  ghost predicate Describes(claimed: map<Key, Evidence>, k: Link, row: Option<Edge>) {
    if Supporters(claimed, k) == {} then row.None?
    else
      && row.Some? && row.value.weight == |Supporters(claimed, k)| && row.value.confidence == 1.0
      && Earliest(claimed, k, row.value.from) && Latest(claimed, k, row.value.last)
  }

  lemma EarliestAfter(claimed: map<Key, Evidence>, m: Key, k: Link, d: int)
    requires m in claimed && k in claimed[m].links && Earliest(claimed - {m}, k, d)
    ensures Earliest(claimed, k, Min(d, claimed[m].date))
  {
    var rest := claimed - {m};
    var p :| p in Supporters(rest, k) && rest[p].date == d;
    assert p in Supporters(claimed, k) && m in Supporters(claimed, k);
    assert Supporters(claimed, k) == Supporters(rest, k) + {m};
  }

  lemma LatestAfter(claimed: map<Key, Evidence>, m: Key, k: Link, d: int)
    requires m in claimed && k in claimed[m].links && Latest(claimed - {m}, k, d)
    ensures Latest(claimed, k, Max(d, claimed[m].date))
  {
    var rest := claimed - {m};
    var p :| p in Supporters(rest, k) && rest[p].date == d;
    assert p in Supporters(claimed, k) && m in Supporters(claimed, k);
    assert Supporters(claimed, k) == Supporters(rest, k) + {m};
  }

  lemma DescribesAfter(claimed: map<Key, Evidence>, m: Key, k: Link, row: Option<Edge>)
    requires m in claimed && Describes(claimed - {m}, k, row)
    ensures Describes(claimed, k, Combine(row, Contribution((m, claimed[m]), k)))
  {
    var rest, e := claimed - {m}, claimed[m];
    var before, after := Supporters(rest, k), Supporters(claimed, k);
    if k !in e.links {
      assert after == before;
      assert forall p :: p in before ==> rest[p] == claimed[p];
    } else {
      assert after == before + {m} && m !in before;
      if before != {} {
        EarliestAfter(claimed, m, k, row.value.from);
        LatestAfter(claimed, m, k, row.value.last);
      }
    }
  }

  /** Weight, valid_from, last_seen and confidence: count, minimum, maximum and 1 over the distinct supporters. */
  lemma {:induction false} EdgeMeaning(claimed: map<Key, Evidence>, log: seq<(Key, Evidence)>, k: Link)
    requires Once(log) && Lists(log, claimed)
    ensures Describes(claimed, k, Total(log, k))
  {
    if log == [] {
      assert Supporters(claimed, k) == {};
    } else {
      var m := log[|log| - 1].0;
      LedgerDropLast(log, claimed);
      EdgeMeaning(claimed - {m}, log[..|log| - 1], k);
      DescribesAfter(claimed, m, k, Total(log[..|log| - 1], k));
    }
  }

  /** Copies of one message agree on everything the graph takes from it. */
  ghost predicate CopiesAgree(run: seq<Sighting>, c: Setting, canon: Key -> Evidence) {
    forall i :: 0 <= i < |run| && Readable(run[i].header) ==> EvidenceOf(run[i], c) == canon(KeyOf(run[i]))
  }

  lemma {:induction false} ClaimedIsSeen(run: seq<Sighting>, c: Setting, canon: Key -> Evidence)
    requires CopiesAgree(run, c, canon)
    ensures ClaimAll(run, c).Keys == SenderIndex.Seen(run)
    ensures forall m :: m in ClaimAll(run, c) ==> ClaimAll(run, c)[m] == canon(m)
  {
    if run != [] {
      var init := run[..|run| - 1];
      assert forall i :: 0 <= i < |init| ==> init[i] == run[i];
      ClaimedIsSeen(init, c, canon);
      SenderIndex.SeenSnoc(run);
    }
  }

  /** Order, repetition and rescans do not matter: graphs fed the same messages are equal. */
  lemma OrderIrrelevant(
    a: seq<Sighting>, b: seq<Sighting>, c: Setting, canon: Key -> Evidence,
    edges: map<Link, Edge>, edges': map<Link, Edge>, log: seq<(Key, Evidence)>, log': seq<(Key, Evidence)>)
    requires CopiesAgree(a, c, canon) && CopiesAgree(b, c, canon) && SenderIndex.Seen(a) == SenderIndex.Seen(b)
    requires Inv(ClaimAll(a, c), edges, log) && Inv(ClaimAll(b, c), edges', log')
    ensures edges == edges'
  {
    ClaimedIsSeen(a, c, canon);
    ClaimedIsSeen(b, c, canon);
    assert ClaimAll(a, c) == ClaimAll(b, c);
    CombineCommutative();
    forall k ensures Lookup(edges, k) == Lookup(edges', k) {
      SameIndexSameFold(log, log', ClaimAll(a, c), k, Contribution, Combine, None);
    }
    SameEdges(edges, edges');
  }

  lemma SameEdges(a: map<Link, Edge>, b: map<Link, Edge>)
    requires forall k :: Lookup(a, k) == Lookup(b, k)
    ensures a == b
  {
    assert forall k :: (k in a <==> Lookup(a, k).Some?) && (k in b <==> Lookup(b, k).Some?);
    assert forall k :: k in a ==> Lookup(a, k) == Some(a[k]) && Lookup(b, k) == Some(b[k]);
  }

  /******* One cc_with edge per pair *******/

  predicate Oriented(k: Link) {
    k.relation == CcWith ==>
      k.subject.Person? && k.target.Person? && k.subject != k.target && StringLeq(k.subject.address, k.target.address)
  }

  ghost predicate AllOriented(links: set<Link>) { forall k :: k in links ==> Oriented(k) }

  lemma StarOriented(people: set<string>, p: Relation, target: string -> Option<Node>)
    requires p != CcWith
    ensures AllOriented(Star(people, p, target))
  {
  }

  lemma PairsOriented(people: set<string>)
    ensures AllOriented(Pairs(people))
  {
  }

  lemma UnionOriented(a: set<Link>, b: set<Link>)
    requires AllOriented(a) && AllOriented(b)
    ensures AllOriented(a + b)
  {
  }

  lemma SpokenOriented(people: set<string>, h: Header, owner: string, outgoing: bool)
    ensures AllOriented(Spoken(people, h, owner, outgoing))
  {
    var star := Star(if outgoing then people else {h.from}, CorrespondsWith, Always(Person(owner)));
    var pairs := if 2 <= |people| <= MAX_PEOPLE then Pairs(people) else {};
    var root := if ThreadRoot(h) != "" && |people| <= MAX_PEOPLE
      then Star(people, ParticipatesIn, Always(Thread(ThreadRoot(h)))) else {};
    StarOriented(if outgoing then people else {h.from}, CorrespondsWith, Always(Person(owner)));
    PairsOriented(people);
    StarOriented(people, ParticipatesIn, Always(Thread(ThreadRoot(h))));
    UnionOriented(star, pairs);
    UnionOriented(star + pairs, root);
  }

  lemma SupportedOriented(h: Header, account: string, c: Setting)
    ensures AllOriented(Supported(h, account, c))
  {
    var people := People(h, account, c.own);
    var owner := c.owner(account);
    var outgoing := c.own(account, h.from);
    StarOriented(people, BelongsTo, Employer(c.webmail));
    StarOriented({h.from}, IsSubscription, Always(Person(owner)));
    SpokenOriented(people, h, owner, outgoing);
  }

  lemma {:induction false} ClaimedOriented(run: seq<Sighting>, c: Setting)
    ensures forall m, k :: m in ClaimAll(run, c) && k in ClaimAll(run, c)[m].links ==> Oriented(k)
  {
    if run != [] {
      assert ClaimAll(run, c) == Claim(ClaimAll(run[..|run| - 1], c), run[|run| - 1], c);
      ClaimedOriented(run[..|run| - 1], c);
      SupportedOriented(run[|run| - 1].header, run[|run| - 1].account, c);
    }
  }

  /** Two people share at most one cc_with edge, whichever of them came first in a header. */
  lemma OneEdgePerPair(
    run: seq<Sighting>, c: Setting, edges: map<Link, Edge>, log: seq<(Key, Evidence)>, a: Node, b: Node)
    requires Inv(ClaimAll(run, c), edges, log) && a != b
    ensures !(Link(a, CcWith, b) in edges && Link(b, CcWith, a) in edges)
  {
    var claimed := ClaimAll(run, c);
    ClaimedOriented(run, c);
    forall k | k in edges ensures Oriented(k) {
      EdgeMeaning(claimed, log, k);
      assert Lookup(edges, k) == Total(log, k);
      var m :| m in Supporters(claimed, k);
    }
    if a.Person? && b.Person? && StringLeq(a.address, b.address) && StringLeq(b.address, a.address) {
      StringLeqAntisymmetric(a.address, b.address);
    }
  }
}
