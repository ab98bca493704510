/**
 The SQL text the query compiler emits (internal/query/query.go), read back word by
 word. The reader knows SQL's own symbols and nothing of how the text was rendered: it
 finds the WHERE and ORDER BY clauses by their keywords, takes each condition apart from
 its right end, and gives every symbol the meaning SQL gives it.
 */
module SqlText {
  import opened Collections
  import opened Like
  import opened Query

  /******* Words *******/

  /** A character put in front of the first word. */
  function Glue(c: char, ws: seq<string>): (r: seq<string>)
    requires ws != []
    ensures r != []
  {
    [[c] + ws[0]] + ws[1..]
  }

  function Words(s: string): (ws: seq<string>)
    ensures ws != []
  {
    if s == [] then [[]]
    else if s[0] == ' ' then [[]] + Words(s[1..])
    else Glue(s[0], Words(s[1..]))
  }

  lemma GlueConcat(c: char, a: seq<string>, b: seq<string>)
    requires a != []
    ensures Glue(c, a + b) == Glue(c, a) + b
  {
    assert (a + b)[1..] == a[1..] + b;
  }

  lemma {:induction false} WordsJoin(a: string, b: string)
    ensures Words(a + " " + b) == Words(a) + Words(b)
  {
    var all := a + " " + b;
    if a == [] {
      assert all[0] == ' ' && all[1..] == b;
    } else {
      WordsJoin(a[1..], b);
      assert all[0] == a[0] && all[1..] == a[1..] + " " + b;
      if a[0] == ' ' {
        assert [[]] + (Words(a[1..]) + Words(b)) == ([[]] + Words(a[1..])) + Words(b);
      } else {
        GlueConcat(a[0], Words(a[1..]), Words(b));
      }
    }
  }

  lemma {:induction false} OneWord(a: string)
    requires ' ' !in a
    ensures Words(a) == [a]
  {
    if a != [] {
      OneWord(a[1..]);
      assert [a[0]] + a[1..] == a;
    }
  }

  function Unwords(ws: seq<string>): string
    requires ws != []
  {
    if |ws| == 1 then ws[0] else ws[0] + " " + Unwords(ws[1..])
  }

  lemma UnwordsGlue(c: char, ws: seq<string>)
    requires ws != []
    ensures Unwords(Glue(c, ws)) == [c] + Unwords(ws)
  {
    var g := Glue(c, ws);
    assert g[1..] == ws[1..] && |g| == |ws|;
    if |ws| > 1 {
      assert ([c] + ws[0]) + " " + Unwords(ws[1..]) == [c] + (ws[0] + " " + Unwords(ws[1..]));
    }
  }

  lemma {:induction false} UnwordsWords(s: string)
    ensures Unwords(Words(s)) == s
  {
    if s != [] {
      UnwordsWords(s[1..]);
      var rest := Words(s[1..]);
      if s[0] == ' ' {
        assert ([[]] + rest)[1..] == rest;
        assert [] + " " + s[1..] == s;
      } else {
        UnwordsGlue(s[0], rest);
      }
    }
  }

  /** A text put behind the last word. */
  function Extend(ws: seq<string>, t: string): seq<string>
    requires ws != []
  {
    ws[..|ws| - 1] + [ws[|ws| - 1] + t]
  }

  lemma GlueExtend(c: char, ws: seq<string>, t: string)
    requires ws != []
    ensures Glue(c, Extend(ws, t)) == Extend(Glue(c, ws), t)
  {
    if |ws| == 1 {
      assert Extend(ws, t) == [ws[0] + t] && [c] + (ws[0] + t) == ([c] + ws[0]) + t;
    }
  }

  lemma ConsExtend(w: string, ws: seq<string>, t: string)
    requires ws != []
    ensures [w] + Extend(ws, t) == Extend([w] + ws, t)
  {
  }

  /** A text without spaces, put behind another, ends its last word. */
  lemma {:induction false} ExtendWords(a: string, t: string)
    requires ' ' !in t
    ensures Words(a + t) == Extend(Words(a), t)
  {
    if a == [] {
      OneWord(t);
      assert a + t == t && [] + t == t;
    } else {
      ExtendWords(a[1..], t);
      assert (a + t)[0] == a[0] && (a + t)[1..] == a[1..] + t;
      if a[0] == ' ' {
        ConsExtend([], Words(a[1..]), t);
      } else {
        GlueExtend(a[0], Words(a[1..]), t);
      }
    }
  }

  /******* The reader *******/

  const CLAUSES := {"GROUP", "ORDER", "LIMIT"}

  datatype Reading =
    | NullTest(expr: string, negated: bool)
    | Membership(expr: string, negated: bool, count: nat)
    | Likeness(expr: string)
    | Comparison(expr: string, symbol: string)

  /** The words from the right up to the one that opens the list. */
  function ListLength(ws: seq<string>): nat {
    if ws == [] then 0
    else if '(' in ws[|ws| - 1] then 1
    else 1 + ListLength(ws[..|ws| - 1])
  }

  /** The words before the last `n`, as an expression. */
  function Front(ws: seq<string>, n: nat): string {
    if n < |ws| then Unwords(ws[..|ws| - n]) else ""
  }

  /** The word `n` places from the end. */
  function FromEnd(ws: seq<string>, n: nat): string {
    if 1 <= n <= |ws| then ws[|ws| - n] else ""
  }

  function ReadCond(ws: seq<string>): Reading {
    if FromEnd(ws, 1) == "NULL" then
      if FromEnd(ws, 2) == "NOT" then NullTest(Front(ws, 3), true) else NullTest(Front(ws, 2), false)
    else if FromEnd(ws, 1) == "'\\'" then Likeness(Front(ws, 4))
    else if FromEnd(ws, 1) == "?" then Comparison(Front(ws, 2), FromEnd(ws, 2))
    else
      var n := ListLength(ws);
      if FromEnd(ws, n + 2) == "NOT" then Membership(Front(ws, n + 2), true, n)
      else Membership(Front(ws, n + 1), false, n)
  }

  function After(ws: seq<string>, keyword: string): seq<string> {
    if ws == [] then [] else if ws[0] == keyword then ws[1..] else After(ws[1..], keyword)
  }

  function Until(ws: seq<string>, stops: set<string>): seq<string> {
    if ws == [] || ws[0] in stops then [] else [ws[0]] + Until(ws[1..], stops)
  }

  /** The stretches between the ANDs. */
  function Conjuncts(ws: seq<string>): (r: seq<seq<string>>)
    ensures r != []
  {
    if ws == [] then [[]]
    else
      var rest := Conjuncts(ws[1..]);
      if ws[0] == "AND" then [[]] + rest else [[ws[0]] + rest[0]] + rest[1..]
  }

  function ReadWhere(text: string): seq<Reading> {
    var ws := Words(text);
    if "WHERE" !in ws then [] else MapAll(Conjuncts(Until(After(ws, "WHERE"), CLAUSES)), ReadCond)
  }

  function ParseNat(s: string): int {
    if s == "" then 0 else 10 * ParseNat(s[..|s| - 1]) + (s[|s| - 1] as int - '0' as int)
  }

  /** Column numbers, each with a direction; a comma ends all but the last. */
  function ReadItems(ws: seq<string>): seq<(int, bool)> {
    if |ws| < 2 then [] else [(ParseNat(ws[0]), ws[1] in {"DESC", "DESC,"})] + ReadItems(ws[2..])
  }

  /** The columns the statement sorts by, and which of them downwards. */
  function ReadOrder(text: string): seq<(int, bool)> {
    var ws := After(Words(text), "ORDER");
    if ws == [] then [] else ReadItems(Until(ws[1..], {"LIMIT"}))
  }

  /** What SQL's comparison symbols mean. */
  predicate SymbolHolds(symbol: string, o: Ordering) {
    || (symbol == "=" && o == Equal)
    || (symbol == "!=" && (o == Less || o == Greater))
    || (symbol == "<" && o == Less)
    || (symbol == "<=" && (o == Less || o == Equal))
    || (symbol == ">" && o == Greater)
    || (symbol == ">=" && (o == Greater || o == Equal))
  }

  function Slots(r: Reading): nat {
    match r
    case NullTest(_, _) => 0
    case Membership(_, _, n) => n
    case Likeness(_) => 1
    case Comparison(_, _) => 1
  }

  predicate ReadingHolds<Val(!new)>(d: Database<Val>, row: string -> Val, r: Reading, args: seq<Arg>)
    requires |args| == Slots(r)
  {
    match r
    case NullTest(e, negated) => if negated then !d.isNull(row(e)) else d.isNull(row(e))
    case Membership(e, negated, _) =>
      if negated then !d.isNull(row(e)) && forall a :: a in args ==> d.compare(row(e), a) in {Less, Greater}
      else exists a :: a in args && d.compare(row(e), a) == Equal
    case Likeness(e) => args[0].Text? && d.text(row(e)).Some? && Matches(args[0].s, d.text(row(e)).value)
    case Comparison(e, symbol) => SymbolHolds(symbol, d.compare(row(e), args[0]))
  }

  /** All conditions hold, the arguments handed out in order and used up. */
  predicate AllRead<Val(!new)>(d: Database<Val>, row: string -> Val, rs: seq<Reading>, args: seq<Arg>) {
    if rs == [] then args == []
    else
      var r := rs[|rs| - 1];
      var k := |args| - Slots(r);
      k >= 0 && AllRead(d, row, rs[..|rs| - 1], args[..k]) && ReadingHolds(d, row, r, args[k..])
  }

  /** The statement's text selects the row. */
  predicate TextSelects<Val(!new)>(d: Database<Val>, row: string -> Val, text: string, args: seq<Arg>) {
    AllRead(d, row, ReadWhere(text), args)
  }

  /******* One condition *******/

  /** An expression without the keywords the reader goes by. */
  predicate Plain(e: string) {
    && (forall w :: w in Words(e) ==> w !in CLAUSES + {"WHERE", "AND"})
    && FromEnd(Words(e), 1) != "NOT"
  }

  function ListWords(n: nat): seq<string> {
    if n <= 1 then ["(?)"] else ["(?,"] + MoreWords(n - 1)
  }

  function MoreWords(n: nat): seq<string> {
    if n <= 1 then ["?)"] else ["?,"] + MoreWords(n - 1)
  }

  lemma {:induction false} MoreWordsText(n: nat)
    requires n >= 1
    ensures Words(Placeholders(n) + ")") == MoreWords(n)
  {
    if n == 1 {
      OneWord("?)");
      assert Placeholders(1) + ")" == "?)";
    } else {
      MoreWordsText(n - 1);
      OneWord("?,");
      WordsJoin("?,", Placeholders(n - 1) + ")");
      assert Placeholders(n) + ")" == "?," + " " + (Placeholders(n - 1) + ")");
    }
  }

  lemma ListWordsText(n: nat, list: string)
    requires n >= 1 && list == "(" + Placeholders(n) + ")"
    ensures Words(list) == ListWords(n)
  {
    if n == 1 {
      assert Placeholders(1) == "?" && list == "(?)";
      OneWord(list);
    } else {
      MoreWordsText(n - 1);
      ListSplits(Placeholders(n), Placeholders(n - 1), list);
      LongList("(?,", Placeholders(n - 1) + ")", list);
    }
  }

  lemma ListSplits(p: string, q: string, list: string)
    requires p == [MARK] + ", " + q && list == "(" + p + ")"
    ensures list == "(?," + " " + (q + ")")
  {
  }

  lemma LongList(word: string, rest: string, list: string)
    requires ' ' !in word && list == word + " " + rest
    ensures Words(list) == [word] + Words(rest)
  {
    OneWord(word);
    WordsJoin(word, rest);
  }

  /** Lists are not empty, and comparisons have a symbol. */
  predicate Proper(c: Cond) {
    match c
    case InCond(_, _, n) => n >= 1
    case CompareCond(_, op) => IsComparison(op)
    case _ => true
  }

  /** The words of what follows the expression. */
  function SuffixWords(c: Cond): seq<string> {
    match c
    case NullCond(_, negated) => if negated then ["IS", "NOT", "NULL"] else ["IS", "NULL"]
    case InCond(_, negated, n) => (if negated then ["NOT", "IN"] else ["IN"]) + ListWords(n)
    case LikeCond(_) => ["LIKE", "?", "ESCAPE", "'\\'"]
    case CompareCond(_, op) => [OpText(op), "?"]
  }

  lemma TwoWords(a: string, b: string)
    requires ' ' !in a && ' ' !in b
    ensures Words(a + " " + b) == [a, b]
  {
    WordsJoin(a, b);
    OneWord(a);
    OneWord(b);
  }

  /** A text made of words is read as them. */
  lemma {:induction false} WordsAre(s: string, ws: seq<string>)
    requires ws != [] && s == Unwords(ws) && forall w :: w in ws ==> ' ' !in w
    ensures Words(s) == ws
    decreases |ws|
  {
    if |ws| == 1 {
      OneWord(s);
    } else {
      WordsAre(Unwords(ws[1..]), ws[1..]);
      WordsJoin(ws[0], Unwords(ws[1..]));
      OneWord(ws[0]);
    }
  }

  lemma Two(a: string, b: string)
    ensures Unwords([a, b]) == a + " " + b
  {
    assert [a, b][1..] == [b];
  }

  lemma Three(a: string, b: string, c: string)
    ensures Unwords([a, b, c]) == a + " " + (b + " " + c)
  {
    Two(b, c);
    assert [a, b, c][1..] == [b, c];
  }

  lemma Four(a: string, b: string, c: string, d: string)
    ensures Unwords([a, b, c, d]) == a + " " + (b + " " + (c + " " + d))
  {
    Three(b, c, d);
    assert [a, b, c, d][1..] == [b, c, d];
  }

  lemma InWords(word: string, not: string, list: string, front: string)
    requires ' ' !in word && ' ' !in not && front == not + " " + word + " "
    ensures Words(front + list) == [not, word] + Words(list)
    ensures Words(word + " " + list) == [word] + Words(list)
  {
    TwoWords(not, word);
    OneWord(word);
    WordsJoin(not + " " + word, list);
    WordsJoin(word, list);
    assert front + list == (not + " " + word) + " " + list;
  }

  lemma MemberWords(negated: bool, n: nat, list: string)
    requires n >= 1 && list == "(" + Placeholders(n) + ")"
    ensures Words((if negated then "NOT IN " else "IN ") + list)
         == (if negated then ["NOT", "IN"] else ["IN"]) + ListWords(n)
  {
    ListWordsText(n, list);
    InWords("IN", "NOT", list, "NOT IN ");
    assert "IN " + list == "IN" + " " + list;
  }

  lemma SuffixWordsText(c: Cond)
    requires Proper(c)
    ensures Words(Suffix(c)) == SuffixWords(c)
  {
    match c
    case NullCond(_, negated) =>
      Two("IS", "NULL");
      Three("IS", "NOT", "NULL");
      WordsAre(Suffix(c), SuffixWords(c));
    case InCond(_, negated, n) => MemberWords(negated, n, "(" + Placeholders(n) + ")");
    case LikeCond(_) =>
      Four("LIKE", "?", "ESCAPE", "'\\'");
      WordsAre(Suffix(c), SuffixWords(c));
    case CompareCond(_, op) => TwoWords(OpText(op), "?");
  }

  /** The words of a rendered condition. */
  function CondWords(c: Cond): seq<string> { Words(c.expr) + SuffixWords(c) }

  lemma CondWordsText(c: Cond)
    requires Proper(c)
    ensures Words(RenderCond(c)) == CondWords(c)
  {
    SuffixWordsText(c);
    WordsJoin(c.expr, Suffix(c));
  }

  lemma FrontOf(e: string, tail: seq<string>)
    ensures Front(Words(e) + tail, |tail|) == e
  {
    assert (Words(e) + tail)[..|Words(e)|] == Words(e);
    UnwordsWords(e);
  }

  lemma {:induction false} MoreWordsShape(n: nat)
    requires n >= 1
    ensures |MoreWords(n)| == n && forall w :: w in MoreWords(n) ==> '(' !in w
    ensures MoreWords(n)[n - 1] == "?)"
  {
    if n > 1 {
      MoreWordsShape(n - 1);
    }
  }

  lemma {:induction false} LengthOf(front: seq<string>, open: string, rest: seq<string>)
    requires '(' in open && forall w :: w in rest ==> '(' !in w
    ensures ListLength(front + [open] + rest) == |rest| + 1
  {
    var ws := front + [open] + rest;
    if rest != [] {
      LengthOf(front, open, rest[..|rest| - 1]);
      assert ws[|ws| - 1] == rest[|rest| - 1];
      assert ws[..|ws| - 1] == front + [open] + rest[..|rest| - 1];
    }
  }

  lemma ListWordsLength(front: seq<string>, n: nat)
    requires n >= 1
    ensures ListLength(front + ListWords(n)) == n == |ListWords(n)|
    ensures FromEnd(front + ListWords(n), 1) in {"(?)", "?)"}
  {
    if n == 1 {
      LengthOf(front, "(?)", []);
      assert front + ["(?)"] + [] == front + ListWords(1);
    } else {
      MoreWordsShape(n - 1);
      LengthOf(front, "(?,", MoreWords(n - 1));
      assert front + ["(?,"] + MoreWords(n - 1) == front + ListWords(n);
    }
  }

  /** What a rendered condition reads as. */
  function ReadingOf(c: Cond): Reading {
    match c
    case NullCond(e, negated) => NullTest(e, negated)
    case InCond(e, negated, n) => Membership(e, negated, n)
    case LikeCond(e) => Likeness(e)
    case CompareCond(e, op) => Comparison(e, OpText(op))
  }

  lemma CondReads(c: Cond)
    requires Plain(c.expr) && Proper(c)
    ensures ReadCond(CondWords(c)) == ReadingOf(c)
  {
    var e := c.expr;
    match c
    case NullCond(_, negated) => FrontOf(e, if negated then ["IS", "NOT", "NULL"] else ["IS", "NULL"]);
    case InCond(_, negated, n) => InReads(e, negated, n);
    case LikeCond(_) => FrontOf(e, ["LIKE", "?", "ESCAPE", "'\\'"]);
    case CompareCond(_, op) => FrontOf(e, [OpText(op), "?"]);
  }

  lemma InReads(e: string, negated: bool, n: nat)
    requires Plain(e) && n >= 1
    ensures ReadCond(CondWords(InCond(e, negated, n))) == Membership(e, negated, n)
  {
    var list := ListWords(n);
    if negated {
      NotInReads(e, list, n);
    } else {
      PlainInReads(e, list, n);
    }
  }

  lemma NotInReads(e: string, list: seq<string>, n: nat)
    requires n >= 1 && list == ListWords(n)
    ensures ReadCond(Words(e) + (["NOT", "IN"] + list)) == Membership(e, true, n)
  {
    var tail := ["NOT", "IN"] + list;
    var ws := Words(e) + tail;
    FrontOf(e, tail);
    ListReads(Words(e) + ["NOT"], n);
    assert ws == Words(e) + ["NOT"] + ["IN"] + list;
    ReadMember(ws, n);
  }

  lemma PlainInReads(e: string, list: seq<string>, n: nat)
    requires Plain(e) && n >= 1 && list == ListWords(n)
    ensures ReadCond(Words(e) + (["IN"] + list)) == Membership(e, false, n)
  {
    var tail := ["IN"] + list;
    var ws := Words(e) + tail;
    FrontOf(e, tail);
    ListReads(Words(e), n);
    assert ws == Words(e) + ["IN"] + list;
    ReadMember(ws, n);
  }

  lemma ReadMember(ws: seq<string>, n: nat)
    requires FromEnd(ws, 1) in {"(?)", "?)"} && ListLength(ws) == n
    ensures ReadCond(ws) == if FromEnd(ws, n + 2) == "NOT" then Membership(Front(ws, n + 2), true, n)
                            else Membership(Front(ws, n + 1), false, n)
  {
  }

  /** A list is read from its right end up to the word before IN. */
  lemma ListReads(front: seq<string>, n: nat)
    requires front != [] && n >= 1
    ensures
      var ws := front + ["IN"] + ListWords(n);
      && FromEnd(ws, 1) in {"(?)", "?)"} && ListLength(ws) == n && |ListWords(n)| == n
      && FromEnd(ws, n + 2) == front[|front| - 1]
  {
    ListWordsLength(front + ["IN"], n);
    var ws := front + ["IN"] + ListWords(n);
    assert ws[|ws| - (n + 2)] == front[|front| - 1];
  }

  /** The symbol the compiler writes means what the operator demands. */
  lemma SymbolsMeanOperators(op: Op, o: Ordering)
    requires IsComparison(op)
    ensures SymbolHolds(OpText(op), o) <==> Ranks(op, o)
  {
  }

  /** The text of a condition, read back, holds of a row exactly when the condition does. */
  lemma CondTextMeaning<Val(!new)>(d: Database<Val>, row: string -> Val, c: Cond, args: seq<Arg>)
    requires Plain(c.expr) && Proper(c) && |args| == Holes(c)
    ensures
      var r := ReadCond(Words(RenderCond(c)));
      Slots(r) == |args| && (ReadingHolds(d, row, r, args) <==> CondHolds(d, row, c, args))
  {
    CondWordsText(c);
    CondReads(c);
    if c.CompareCond? {
      SymbolsMeanOperators(c.op, d.compare(row(c.expr), args[0]));
    }
  }

  /******* The whole statement *******/

  /** Words none of which is a keyword the reader goes by. */
  predicate NoKeyword(ws: seq<string>) { forall w :: w in ws ==> w !in CLAUSES + {"WHERE", "AND"} }

  /** The text's own fragments keep clear of the keywords. */
  ghost predicate PlainStatement(st: Statement) {
    && NoKeyword(Words(st.from))
    && (forall c :: c in st.columns ==> NoKeyword(Words(c.expr)))
    && (forall e :: e in st.group ==> NoKeyword(Words(e)))
    && (forall c :: c in st.conds ==> Plain(c.expr) && Proper(c))
  }

  lemma KeywordFreeJoin(a: string, b: string)
    requires NoKeyword(Words(a)) && NoKeyword(Words(b))
    ensures NoKeyword(Words(a + " " + b))
  {
    WordsJoin(a, b);
  }

  lemma KeywordFreeComma(a: string)
    requires NoKeyword(Words(a))
    ensures NoKeyword(Words(a + ","))
  {
    var comma := ",";
    ExtendWords(a, comma);
    NoKeywordExtend(Words(a), comma);
  }

  /** A comma-separated list of fragments has no keyword if none of them has. */
  lemma {:induction false} KeywordFreeList(parts: seq<string>)
    requires forall p :: p in parts ==> NoKeyword(Words(p))
    ensures NoKeyword(Words(JoinWith(parts, ", ")))
  {
    if parts == [] {
      assert Words("") == [""];
    } else if |parts| > 1 {
      var rest := JoinWith(parts[1..], ", ");
      KeywordFreeList(parts[1..]);
      KeywordFreeComma(parts[0]);
      KeywordFreeJoin(parts[0] + ",", rest);
      assert parts[0] + ", " + rest == (parts[0] + ",") + " " + rest;
    }
  }

  /** The words of the conditions, with AND between them. */
  function AndWords(cs: seq<Cond>): seq<string>
    requires cs != []
  {
    if |cs| == 1 then CondWords(cs[0]) else CondWords(cs[0]) + ["AND"] + AndWords(cs[1..])
  }

  /** Conditions from the left. */
  lemma {:induction false} CondsFirst(cs: seq<Cond>)
    requires cs != []
    ensures RenderConds(cs) == [RenderCond(cs[0])] + RenderConds(cs[1..])
  {
    MapFirst(cs, RenderCond);
  }

  lemma {:induction false} MapFirst<A, B>(s: seq<A>, f: A -> B)
    requires s != []
    ensures MapAll(s, f) == [f(s[0])] + MapAll(s[1..], f)
  {
    if |s| == 1 {
      assert s[..0] == [] && s[1..] == [];
    } else {
      MapFirst(s[..|s| - 1], f);
      assert s[..|s| - 1][1..] == s[1..][..|s| - 2];
    }
  }

  lemma {:induction false} AndWordsText(cs: seq<Cond>)
    requires cs != [] && forall c :: c in cs ==> Proper(c)
    ensures Words(JoinWith(RenderConds(cs), " AND ")) == AndWords(cs)
  {
    CondsFirst(cs);
    CondWordsText(cs[0]);
    if |cs| == 1 {
      assert cs[1..] == [] && RenderConds(cs) == [RenderCond(cs[0])];
    } else {
      AndWordsText(cs[1..]);
      CondsFirst(cs[1..]);
      Conjoin(RenderCond(cs[0]), JoinWith(RenderConds(cs[1..]), " AND "));
      assert RenderConds(cs)[1..] == RenderConds(cs[1..]);
    }
  }

  lemma Conjoin(a: string, b: string)
    ensures Words(a + " AND " + b) == Words(a) + ["AND"] + Words(b)
  {
    var word := "AND";
    OneWord(word);
    WordsJoin(a, word);
    WordsJoin(a + " " + word, b);
    assert a + " AND " + b == a + " " + word + " " + b;
  }

  /** One keyword between two texts. */
  lemma KeywordBetween(a: string, keyword: string, b: string)
    requires ' ' !in keyword
    ensures Words(a + " " + keyword + " " + b) == Words(a) + [keyword] + Words(b)
  {
    OneWord(keyword);
    WordsJoin(a, keyword);
    WordsJoin(a + " " + keyword, b);
  }

  lemma {:induction false} AfterFirst(a: seq<string>, keyword: string, b: seq<string>)
    requires keyword !in a
    ensures After(a + [keyword] + b, keyword) == b
  {
    if a == [] {
      assert a + [keyword] + b == [keyword] + b;
    } else {
      AfterFirst(a[1..], keyword, b);
      assert (a + [keyword] + b)[1..] == a[1..] + [keyword] + b;
    }
  }

  lemma {:induction false} UntilFirst(a: seq<string>, b: seq<string>, stops: set<string>)
    requires (forall w :: w in a ==> w !in stops) && (b == [] || b[0] in stops)
    ensures Until(a + b, stops) == a
  {
    if a == [] {
      assert a + b == b;
    } else {
      UntilFirst(a[1..], b, stops);
      assert (a + b)[1..] == a[1..] + b;
    }
  }

  lemma {:induction false} FirstConjunct(a: seq<string>, b: seq<string>)
    requires "AND" !in a
    ensures Conjuncts(a) == [a]
    ensures Conjuncts(a + ["AND"] + b) == [a] + Conjuncts(b)
  {
    if a == [] {
      assert a + ["AND"] + b == ["AND"] + b;
    } else {
      FirstConjunct(a[1..], b);
      assert (a + ["AND"] + b)[1..] == a[1..] + ["AND"] + b;
      assert [a[0]] + a[1..] == a;
    }
  }

  lemma NoKeywordBoth(a: seq<string>, b: seq<string>)
    requires NoKeyword(a) && NoKeyword(b)
    ensures NoKeyword(a + b)
  {
  }

  lemma NoKeywordInSuffix(c: Cond)
    requires Proper(c)
    ensures NoKeyword(SuffixWords(c))
  {
    match c
    case InCond(_, negated, n) =>
      ListKeywordFree(n - 1);
      NoKeywordBoth(["(?,"], MoreWords(n - 1));
      NoKeywordBoth(if negated then ["NOT", "IN"] else ["IN"], ListWords(n));
    case _ =>
  }

  lemma NoKeywordInCond(c: Cond)
    requires Plain(c.expr) && Proper(c)
    ensures NoKeyword(CondWords(c))
  {
    NoKeywordInSuffix(c);
    NoKeywordBoth(Words(c.expr), SuffixWords(c));
  }

  lemma {:induction false} ListKeywordFree(n: nat)
    ensures NoKeyword(MoreWords(n))
  {
    if n > 1 {
      ListKeywordFree(n - 1);
    }
  }

  function Readings(cs: seq<Cond>): seq<Reading> { MapAll(cs, ReadingOf) }

  lemma ConjunctRead(w: seq<string>, rest: seq<string>)
    requires "AND" !in w
    ensures MapAll(Conjuncts(w), ReadCond) == [ReadCond(w)]
    ensures MapAll(Conjuncts(w + ["AND"] + rest), ReadCond) == [ReadCond(w)] + MapAll(Conjuncts(rest), ReadCond)
  {
    FirstConjunct(w, rest);
    MapFirst([w], ReadCond);
    assert [w][1..] == [];
    MapFirst([w] + Conjuncts(rest), ReadCond);
    assert ([w] + Conjuncts(rest))[1..] == Conjuncts(rest);
  }

  lemma {:induction false} AndKeywordFree(cs: seq<Cond>)
    requires cs != [] && forall c :: c in cs ==> Plain(c.expr) && Proper(c)
    ensures forall w :: w in AndWords(cs) ==> w !in CLAUSES
  {
    NoKeywordInCond(cs[0]);
    if |cs| > 1 {
      AndKeywordFree(cs[1..]);
    }
  }

  lemma {:induction false} ConjunctsRead(cs: seq<Cond>)
    requires cs != [] && forall c :: c in cs ==> Plain(c.expr) && Proper(c)
    ensures MapAll(Conjuncts(AndWords(cs)), ReadCond) == Readings(cs)
  {
    var w := CondWords(cs[0]);
    NoKeywordInCond(cs[0]);
    CondReads(cs[0]);
    MapFirst(cs, ReadingOf);
    if |cs| == 1 {
      ConjunctRead(w, []);
      assert cs[1..] == [];
    } else {
      ConjunctsRead(cs[1..]);
      ConjunctRead(w, AndWords(cs[1..]));
    }
  }

  /******* The clauses *******/

  function WhereWords(st: Statement): seq<string> {
    if st.conds == [] then [] else ["WHERE"] + AndWords(st.conds)
  }

  function GroupWords(st: Statement): seq<string> {
    if st.group == [] then [] else ["GROUP"] + ["BY"] + Words(JoinWith(st.group, ", "))
  }

  function OrderWords(st: Statement): seq<string> {
    if st.order == [] then [] else ["ORDER"] + ["BY"] + Words(JoinWith(RenderOrder(st.order), ", "))
  }

  const LIMIT_WORDS := ["LIMIT", "?", "OFFSET", "?"]

  lemma Clause1(a: string, clause: string, keyword: string, parts: seq<string>, sep: string)
    requires ' ' !in keyword && clause == " " + keyword + " "
    ensures Words(a + Clause(clause, parts, sep))
         == Words(a) + if parts == [] then [] else [keyword] + Words(JoinWith(parts, sep))
  {
    if parts == [] {
      assert a + "" == a;
    } else {
      KeywordBetween(a, keyword, JoinWith(parts, sep));
      assert a + (clause + JoinWith(parts, sep)) == a + " " + keyword + " " + JoinWith(parts, sep);
    }
  }

  lemma Clause2(a: string, clause: string, keyword: string, word: string, parts: seq<string>, sep: string)
    requires ' ' !in keyword && ' ' !in word && clause == " " + keyword + " " + word + " "
    ensures Words(a + Clause(clause, parts, sep))
         == Words(a) + if parts == [] then [] else [keyword] + [word] + Words(JoinWith(parts, sep))
  {
    if parts == [] {
      assert a + "" == a;
    } else {
      TwoKeywords(a, keyword, word, JoinWith(parts, sep));
      assert a + (clause + JoinWith(parts, sep)) == a + " " + keyword + " " + (word + " " + JoinWith(parts, sep));
    }
  }

  lemma TwoKeywords(a: string, keyword: string, word: string, b: string)
    requires ' ' !in keyword && ' ' !in word
    ensures Words(a + " " + keyword + " " + (word + " " + b)) == Words(a) + [keyword] + ([word] + Words(b))
  {
    OneWord(word);
    WordsJoin(word, b);
    KeywordBetween(a, keyword, word + " " + b);
  }

  lemma LimitText(a: string, q: string, limit: string)
    requires q == [MARK] && limit == " LIMIT " + q + " OFFSET " + q
    ensures Words(a + limit) == Words(a) + LIMIT_WORDS
  {
    var l, o := "LIMIT", "OFFSET";
    OneWord(q);
    KeywordBetween(q, o, q);
    KeywordBetween(a, l, q + " " + o + " " + q);
    assert a + limit == a + " " + l + " " + (q + " " + o + " " + q);
  }

  lemma RenderWords(st: Statement)
    requires PlainStatement(st)
    ensures Words(Render(st)) == Words(Head(st)) + WhereWords(st) + GroupWords(st) + OrderWords(st) + LIMIT_WORDS
  {
    var h, limit := Head(st), " LIMIT " + [MARK] + " OFFSET " + [MARK];
    var w, g := Clause(" WHERE ", RenderConds(st.conds), " AND "), Clause(" GROUP BY ", st.group, ", ");
    var o := Clause(" ORDER BY ", RenderOrder(st.order), ", ");
    WhereText(h, st);
    GroupText(h + w, st);
    OrderText(h + w + g, st);
    LimitText(h + w + g + o, [MARK], limit);
    Flatten(h, w, g, o, limit);
  }

  lemma Flatten(h: string, w: string, g: string, o: string, limit: string)
    ensures h + w + (g + o + limit) == h + w + g + o + limit
  {
  }

  lemma GroupText(a: string, st: Statement)
    ensures Words(a + Clause(" GROUP BY ", st.group, ", ")) == Words(a) + GroupWords(st)
  {
    Clause2(a, " GROUP BY ", "GROUP", "BY", st.group, ", ");
  }

  lemma OrderText(a: string, st: Statement)
    ensures Words(a + Clause(" ORDER BY ", RenderOrder(st.order), ", ")) == Words(a) + OrderWords(st)
  {
    Clause2(a, " ORDER BY ", "ORDER", "BY", RenderOrder(st.order), ", ");
    OrderCount(st.order);
  }

  lemma WhereText(h: string, st: Statement)
    requires forall c :: c in st.conds ==> Proper(c)
    ensures Words(h + Clause(" WHERE ", RenderConds(st.conds), " AND ")) == Words(h) + WhereWords(st)
  {
    Clause1(h, " WHERE ", "WHERE", RenderConds(st.conds), " AND ");
    MapPrefix(st.conds, RenderCond, 0);
    if st.conds != [] {
      AndWordsText(st.conds);
    }
  }

  lemma {:induction false} OrderCount(os: seq<(nat, bool)>)
    ensures |RenderOrder(os)| == |os|
  {
    if os != [] {
      OrderCount(os[1..]);
    }
  }

  /******* ORDER BY *******/

  lemma {:induction false} ItoaReads(n: nat)
    ensures ParseNat(Itoa(n)) == n && ' ' !in Itoa(n) && Itoa(n) != ""
    ensures forall c :: c in Itoa(n) ==> '0' <= c <= '9'
  {
    if n < 10 {
      assert Itoa(n)[..0] == "";
    } else {
      ItoaReads(n / 10);
      assert Itoa(n)[..|Itoa(n)| - 1] == Itoa(n / 10);
    }
  }

  lemma ItemText(n: nat, direction: string)
    requires ' ' !in direction
    ensures Words(Itoa(n) + " " + direction) == [Itoa(n), direction]
  {
    ItoaReads(n);
    TwoWords(Itoa(n), direction);
  }

  function DirectionWord(desc: bool): string { if desc then "DESC" else "ASC" }

  lemma ItemIs(n: nat, desc: bool)
    ensures RenderOrder([(n, desc)]) == [Itoa(n) + " " + DirectionWord(desc)]
  {
    var word := if desc then " DESC" else " ASC";
    assert word == " " + DirectionWord(desc);
    assert Itoa(n) + word == Itoa(n) + " " + DirectionWord(desc);
    assert [(n, desc)][1..] == [];
  }

  lemma OrderFirst(os: seq<(nat, bool)>)
    requires os != []
    ensures RenderOrder(os) == [Itoa(os[0].0) + " " + DirectionWord(os[0].1)] + RenderOrder(os[1..])
  {
    ItemIs(os[0].0, os[0].1);
    assert [(os[0].0, os[0].1)][1..] == [];
  }

  /** An item and the rest of a list, with a comma between them. */
  lemma ItemThen(number: string, word: string, rest: string)
    requires ' ' !in number && ' ' !in word
    ensures Words(number + " " + word + ", " + rest) == [number, word + ","] + Words(rest)
  {
    TwoWords(number, word + ",");
    WordsJoin(number + " " + (word + ","), rest);
    assert number + " " + word + ", " + rest == number + " " + (word + ",") + " " + rest;
  }

  lemma DirectionRead(desc: bool)
    ensures (DirectionWord(desc) in {"DESC", "DESC,"} <==> desc) && ' ' !in DirectionWord(desc)
    ensures DirectionWord(desc) + "," in {"DESC", "DESC,"} <==> desc
    ensures {DirectionWord(desc), DirectionWord(desc) + ","} !! {"LIMIT", "ORDER", "WHERE"}
  {
    if !desc {
      assert (DirectionWord(desc) + ",")[0] == 'A';
    } else {
      assert DirectionWord(desc) + "," == "DESC,";
    }
  }

  /** A number is no keyword. */
  lemma NumberRead(n: nat)
    ensures ParseNat(Itoa(n)) == n && ' ' !in Itoa(n) && Itoa(n) !in {"LIMIT", "ORDER", "WHERE"}
  {
    ItoaReads(n);
    assert Itoa(n)[0] in Itoa(n);
  }

  /** Each item, read back, is the column and the direction it was written for. */
  lemma {:induction false} OrderReads(os: seq<(nat, bool)>)
    requires os != []
    ensures ReadItems(Words(JoinWith(RenderOrder(os), ", "))) == os
    ensures forall w :: w in Words(JoinWith(RenderOrder(os), ", ")) ==> w !in {"LIMIT", "ORDER", "WHERE"}
  {
    var number, word := Itoa(os[0].0), DirectionWord(os[0].1);
    NumberRead(os[0].0);
    DirectionRead(os[0].1);
    OrderFirst(os);
    OrderCount(os);
    if |os| == 1 {
      TwoWords(number, word);
      LastItem(number, word);
      assert JoinWith(RenderOrder(os), ", ") == number + " " + word;
      assert os == [(os[0].0, os[0].1)];
    } else {
      var rest := JoinWith(RenderOrder(os[1..]), ", ");
      OrderReads(os[1..]);
      ItemThen(number, word, rest);
      FirstItem(number, word + ",", Words(rest));
      assert RenderOrder(os)[1..] == RenderOrder(os[1..]);
      assert JoinWith(RenderOrder(os), ", ") == number + " " + word + ", " + rest;
      assert os == [(os[0].0, os[0].1)] + os[1..];
    }
  }

  lemma FirstItem(number: string, word: string, rest: seq<string>)
    ensures ReadItems([number, word] + rest) == [(ParseNat(number), word in {"DESC", "DESC,"})] + ReadItems(rest)
  {
    assert ([number, word] + rest)[2..] == rest;
  }

  lemma LastItem(number: string, word: string)
    ensures ReadItems([number, word]) == [(ParseNat(number), word in {"DESC", "DESC,"})]
  {
    FirstItem(number, word, []);
    assert [number, word] + [] == [number, word];
  }

  /******* Reading the statement back *******/

  lemma HeadKeywordFree(st: Statement)
    requires PlainStatement(st)
    ensures NoKeyword(Words(Head(st)))
  {
    ExprsPlain(st.columns);
    KeywordFreeList(Exprs(st.columns));
    HeadPlain("SELECT", JoinWith(Exprs(st.columns), ", "), "FROM", st.from, Head(st));
  }

  lemma HeadPlain(select: string, columns: string, word: string, from: string, head: string)
    requires ' ' !in select && ' ' !in word && NoKeyword([select]) && NoKeyword([word])
    requires NoKeyword(Words(columns)) && NoKeyword(Words(from))
    requires head == select + " " + columns + (" " + word + " ") + from
    ensures NoKeyword(Words(head))
  {
    OneWord(select);
    KeywordFreeJoin(select, columns);
    KeywordBetween(select + " " + columns, word, from);
    NoKeywordBoth(Words(select + " " + columns) + [word], Words(from));
    assert head == select + " " + columns + " " + word + " " + from;
  }

  lemma {:induction false} ExprsPlain(cols: seq<Column>)
    requires forall c :: c in cols ==> NoKeyword(Words(c.expr))
    ensures forall e :: e in Exprs(cols) ==> NoKeyword(Words(e))
  {
    if cols != [] {
      assert cols[0] in cols;
      ExprsPlain(cols[1..]);
    }
  }

  /** What is left after the WHERE clause starts with a keyword that ends it. */
  lemma RestStarts(st: Statement)
    ensures
      var rest := GroupWords(st) + OrderWords(st) + LIMIT_WORDS;
      rest != [] && rest[0] in CLAUSES
  {
  }

  /** The stretch between a keyword and the clause after it. */
  lemma ReadStretch(head: seq<string>, keyword: string, body: seq<string>, rest: seq<string>, stops: set<string>)
    requires keyword !in head && (forall w :: w in body ==> w !in stops) && rest != [] && rest[0] in stops
    ensures Until(After(head + ([keyword] + body) + rest, keyword), stops) == body
    ensures keyword in head + ([keyword] + body) + rest
  {
    AfterFirst(head, keyword, body + rest);
    UntilFirst(body, rest, stops);
    assert head + ([keyword] + body) + rest == head + [keyword] + (body + rest);
  }

  lemma WhereReads(text: string, head: seq<string>, cs: seq<Cond>, rest: seq<string>)
    requires Words(text) == head + (if cs == [] then [] else ["WHERE"] + AndWords(cs)) + rest
    requires NoKeyword(head) && "WHERE" !in rest && rest != [] && rest[0] in CLAUSES
    requires forall c :: c in cs ==> Plain(c.expr) && Proper(c)
    ensures ReadWhere(text) == Readings(cs)
  {
    if cs != [] {
      ConjunctsRead(cs);
      AndKeywordFree(cs);
      ReadStretch(head, "WHERE", AndWords(cs), rest, CLAUSES);
    }
  }

  lemma ColumnNumbersOnly(st: Statement)
    ensures forall w :: w in OrderWords(st) ==> w != "WHERE" && w != "LIMIT"
  {
    if st.order != [] {
      OrderReads(st.order);
    }
  }

  lemma GroupPlain(st: Statement)
    requires PlainStatement(st)
    ensures forall w :: w in GroupWords(st) ==> w !in {"WHERE", "ORDER", "LIMIT"}
  {
    KeywordFreeList(st.group);
  }

  /** The WHERE clause, read back from the text, is the statement's conditions. */
  lemma StatementWhere(st: Statement)
    requires PlainStatement(st)
    ensures ReadWhere(Render(st)) == Readings(st.conds)
  {
    var rest := GroupWords(st) + OrderWords(st) + LIMIT_WORDS;
    RenderWords(st);
    HeadKeywordFree(st);
    GroupPlain(st);
    ColumnNumbersOnly(st);
    RestStarts(st);
    Regrouped(Words(Head(st)), WhereWords(st), GroupWords(st), OrderWords(st), LIMIT_WORDS);
    WhereReads(Render(st), Words(Head(st)), st.conds, rest);
  }

  lemma Regrouped(h: seq<string>, w: seq<string>, g: seq<string>, o: seq<string>, l: seq<string>)
    ensures h + w + g + o + l == h + w + (g + o + l)
  {
  }

  /** The ORDER BY clause, read back, is the statement's order: every number and every direction. */
  lemma StatementOrder(st: Statement)
    requires PlainStatement(st)
    ensures ReadOrder(Render(st)) == st.order
  {
    var head := Words(Head(st)) + WhereWords(st) + GroupWords(st);
    RenderWords(st);
    HeadKeywordFree(st);
    GroupPlain(st);
    if st.conds != [] {
      AndKeywordFree(st.conds);
    }
    assert "ORDER" !in head;
    OrderRead(head, st.order);
  }

  lemma OrderRead(head: seq<string>, os: seq<(nat, bool)>)
    requires "ORDER" !in head
    ensures
      var o := if os == [] then [] else ["ORDER"] + ["BY"] + Words(JoinWith(RenderOrder(os), ", "));
      var ws := After(head + o + LIMIT_WORDS, "ORDER");
      (if ws == [] then [] else ReadItems(Until(ws[1..], {"LIMIT"}))) == os
  {
    if os == [] {
      NotAfter(head + LIMIT_WORDS, "ORDER");
      assert head + [] + LIMIT_WORDS == head + LIMIT_WORDS;
    } else {
      var items := Words(JoinWith(RenderOrder(os), ", "));
      OrderReads(os);
      ItemsStretch(head, "ORDER", "BY", items, LIMIT_WORDS, {"LIMIT"});
    }
  }

  lemma ItemsStretch(
    head: seq<string>, keyword: string, second: string, items: seq<string>, tail: seq<string>, stops: set<string>)
    requires keyword !in head && (forall w :: w in items ==> w !in stops) && tail != [] && tail[0] in stops
    ensures
      var ws := After(head + ([keyword] + [second] + items) + tail, keyword);
      ws != [] && Until(ws[1..], stops) == items
  {
    AfterFirst(head, keyword, [second] + (items + tail));
    UntilFirst(items, tail, stops);
    assert head + ([keyword] + [second] + items) + tail == head + [keyword] + ([second] + (items + tail));
    assert ([second] + (items + tail))[1..] == items + tail;
  }

  lemma {:induction false} NotAfter(ws: seq<string>, keyword: string)
    requires keyword !in ws
    ensures After(ws, keyword) == []
  {
    if ws != [] {
      NotAfter(ws[1..], keyword);
    }
  }

  /** The statement ends in LIMIT ? OFFSET ?, the places of its last two arguments. */
  lemma StatementLimit(st: Statement)
    requires PlainStatement(st)
    ensures
      var ws := Words(Render(st));
      |ws| >= 4 && ws[|ws| - 4..] == ["LIMIT", "?", "OFFSET", "?"]
  {
    RenderWords(st);
  }

  /******* What the text means *******/

  lemma {:induction false} ReadingsHold<Val(!new)>(
    d: Database<Val>, row: string -> Val, cs: seq<Cond>, args: seq<Arg>)
    requires (forall c :: c in cs ==> Plain(c.expr) && Proper(c)) && |args| == TotalHoles(cs)
    ensures AllRead(d, row, Readings(cs), args) <==> WhereHolds(d, row, cs, args)
  {
    if cs != [] {
      var init, c := cs[..|cs| - 1], cs[|cs| - 1];
      var k := |args| - Holes(c);
      ReadingsHold(d, row, init, args[..k]);
      ReadingHoldsAs(d, row, c, args[k..]);
      assert Readings(cs)[..|Readings(cs)| - 1] == Readings(init);
    }
  }

  lemma ReadingHoldsAs<Val(!new)>(d: Database<Val>, row: string -> Val, c: Cond, args: seq<Arg>)
    requires Plain(c.expr) && Proper(c) && |args| == Holes(c)
    ensures Slots(ReadingOf(c)) == |args|
    ensures ReadingHolds(d, row, ReadingOf(c), args) <==> CondHolds(d, row, c, args)
  {
    if c.CompareCond? {
      SymbolsMeanOperators(c.op, d.compare(row(c.expr), args[0]));
    }
  }

  /** The text selects a row exactly when the statement's clauses do. */
  lemma TextMeaning<Val(!new)>(d: Database<Val>, row: string -> Val, st: Statement, args: seq<Arg>)
    requires PlainStatement(st) && |args| == TotalHoles(st.conds)
    ensures TextSelects(d, row, Render(st), args) <==> WhereHolds(d, row, st.conds, args)
  {
    StatementWhere(st);
    ReadingsHold(d, row, st.conds, args);
  }

  /******* The compiler *******/

  /** The views' fragments keep clear of the keywords, as those of this package do. */
  ghost predicate PlainView(v: View) {
    NoKeyword(Words(v.from)) && forall f :: f in v.fields ==> Plain(f.expr)
  }

  lemma {:induction false} CondsPlain(v: View, fs: seq<Filter>, parse: string -> Option<int>)
    requires PlainView(v) && CompileFilters(v, fs, parse).Ok?
    ensures forall c :: c in CompileFilters(v, fs, parse).value.0 ==> Plain(c.expr) && Proper(c)
  {
    if fs != [] {
      CondsPlain(v, fs[..|fs| - 1], parse);
      CondPlain(v, fs[|fs| - 1], parse);
    }
  }

  lemma CondPlain(v: View, f: Filter, parse: string -> Option<int>)
    requires PlainView(v) && CompileFilter(v, f, parse).Ok?
    ensures var c := CompileFilter(v, f, parse).value.0; Plain(c.expr) && Proper(c)
  {
    FieldOfIn(v.fields, f.field);
  }

  function Prefixed(t: string, ws: seq<string>): seq<string>
    requires ws != []
  {
    [t + ws[0]] + ws[1..]
  }

  lemma GluePrefixed(c: char, t: string, ws: seq<string>)
    requires ws != []
    ensures Glue(c, Prefixed(t, ws)) == Prefixed([c] + t, ws)
  {
    assert [c] + (t + ws[0]) == ([c] + t) + ws[0];
  }

  /** A text without spaces, put before another, starts its first word. */
  lemma {:induction false} PrependWords(t: string, a: string)
    requires ' ' !in t
    ensures Words(t + a) == Prefixed(t, Words(a))
  {
    if t == [] {
      assert t + a == a && [] + Words(a)[0] == Words(a)[0];
      assert [Words(a)[0]] + Words(a)[1..] == Words(a);
    } else {
      PrependWords(t[1..], a);
      assert (t + a)[0] == t[0] && (t + a)[1..] == t[1..] + a;
      GluePrefixed(t[0], t[1..], Words(a));
      assert [t[0]] + t[1..] == t;
    }
  }

  /** A word with a bracket or a comma is no keyword. */
  lemma Punctuated(w: string)
    requires '(' in w || ')' in w || ',' in w
    ensures w !in CLAUSES + {"WHERE", "AND"}
  {
  }

  lemma NoKeywordExtend(ws: seq<string>, t: string)
    requires ws != [] && NoKeyword(ws) && (')' in t || ',' in t)
    ensures NoKeyword(Extend(ws, t))
  {
    Punctuated(ws[|ws| - 1] + t);
  }

  lemma NoKeywordPrefixed(t: string, ws: seq<string>)
    requires ws != [] && NoKeyword(ws) && '(' in t
    ensures NoKeyword(Prefixed(t, ws))
  {
    Punctuated(t + ws[0]);
  }

  lemma CallPlain(name: string, e: string)
    requires ' ' !in name && '(' in name && NoKeyword(Words(e))
    ensures NoKeyword(Words(name + e + ")"))
  {
    var close := ")";
    PrependWords(name, e);
    ExtendWords(name + e, close);
    NoKeywordPrefixed(name, Words(e));
    NoKeywordExtend(Words(name + e), close);
  }

  lemma DistinctPlain(word: string, e: string, text: string)
    requires ' ' !in word && '(' in word && NoKeyword(Words(e)) && text == word + " " + e + ")"
    ensures NoKeyword(Words(text))
  {
    var close := ")";
    OneWord(word);
    Punctuated(word);
    WordsJoin(word, e);
    ExtendWords(word + " " + e, close);
    NoKeywordBoth([word], Words(e));
    NoKeywordExtend(Words(word + " " + e), close);
  }

  lemma StarPlain(star: string)
    requires ' ' !in star && '(' in star
    ensures NoKeyword(Words(star))
  {
    OneWord(star);
    Punctuated(star);
  }

  /** What the compiler writes for an aggregate. */
  lemma AggregateShape(v: View, a: Aggregate) returns (name: string)
    requires CompileAggregate(v, a).Ok?
    ensures CompileAggregate(v, a).value.expr == CallText(name, a.fn.value == CountDistinct, ArgumentOf(v, a))
    ensures '(' !in name && ' ' !in name && Computes(Call(name, a.fn.value == CountDistinct, ""), a.fn.value)
  {
    name := if a.fn.value in {Count, CountDistinct} then "count" else FnName(a.fn.value);
    var e := CompileAggregate(v, a).value.expr;
    if a.fn.value == Count && a.field == "" {
      assert e == "count(*)" && name + "(" + "*" + ")" == "count(*)";
    } else if a.fn.value == CountDistinct {
      var x := FieldOf(v.fields, a.field).value.expr;
      assert e == "count(DISTINCT " + x + ")" && name + "(" + (DISTINCT + x) + ")" == "count(DISTINCT " + x + ")";
    } else {
      NamedCall(name, FieldOf(v.fields, a.field).value.expr);
    }
  }

  lemma NamedCall(name: string, x: string)
    ensures name == "count" ==> "count(" + x + ")" == name + "(" + x + ")"
    ensures name == "min" ==> "min(" + x + ")" == name + "(" + x + ")"
    ensures name == "max" ==> "max(" + x + ")" == name + "(" + x + ")"
  {
  }

  function CallText(name: string, distinct: bool, argument: string): string {
    name + "(" + (if distinct then DISTINCT + argument else argument) + ")"
  }

  /** What an aggregate is taken of: the rows, or the field asked for. */
  function ArgumentOf(v: View, a: Aggregate): string {
    if a.field == "" && a.fn == Some(Count) then "*"
    else if FieldOf(v.fields, a.field).Some? then FieldOf(v.fields, a.field).value.expr else ""
  }

  lemma ArgumentPlain(v: View, a: Aggregate)
    requires PlainView(v)
    ensures NoKeyword(Words(ArgumentOf(v, a)))
  {
    var star, none := "*", "";
    OneWord(star);
    OneWord(none);
    FieldOfIn(v.fields, a.field);
  }

  lemma AggregatePlain(v: View, a: Aggregate)
    requires PlainView(v) && CompileAggregate(v, a).Ok?
    ensures NoKeyword(Words(CompileAggregate(v, a).value.expr))
  {
    var name := AggregateShape(v, a);
    ArgumentPlain(v, a);
    CallTextPlain(name, a.fn.value == CountDistinct, ArgumentOf(v, a));
  }

  lemma CallTextPlain(name: string, distinct: bool, x: string)
    requires ' ' !in name && NoKeyword(Words(x))
    ensures NoKeyword(Words(CallText(name, distinct, x)))
  {
    if distinct {
      var word := name + "(DISTINCT";
      assert word[|name|] == '(';
      assert CallText(name, distinct, x) == word + " " + x + ")";
      DistinctPlain(word, x, CallText(name, distinct, x));
    } else {
      CallPlain(name + "(", x);
    }
  }

  lemma ColumnPlain(v: View, w: Wanted)
    requires PlainView(v) && CompileColumn(v, w).Ok?
    ensures NoKeyword(Words(CompileColumn(v, w).value.expr))
  {
    match w
    case PlainField(name) => FieldOfIn(v.fields, name);
    case GroupField(name) => FieldOfIn(v.fields, name);
    case AggregateColumn(a) => AggregatePlain(v, a);
  }

  /******* Aggregates *******/

  /** A call: the name before the bracket, and whether its argument is taken DISTINCT. */
  datatype Call = Call(name: string, distinct: bool, argument: string)

  const DISTINCT: string := "DISTINCT "

  function ReadCall(e: string): Call
    requires '(' in e
    decreases |e|
  {
    if e[0] == '(' then
      var inner := if |e| > 1 then e[1..|e| - 1] else "";
      if DISTINCT <= inner then Call("", true, inner[|DISTINCT|..]) else Call("", false, inner)
    else
      var c := ReadCall(e[1..]);
      c.(name := [e[0]] + c.name)
  }

  lemma {:induction false} CallReads(name: string, distinct: bool, argument: string)
    requires '(' !in name && (distinct || !(DISTINCT <= argument))
    ensures ReadCall(name + "(" + (if distinct then DISTINCT + argument else argument) + ")")
         == Call(name, distinct, argument)
  {
    var inner := if distinct then DISTINCT + argument else argument;
    var e := name + "(" + inner + ")";
    if name == [] {
      assert e[0] == '(' && e[1..|e| - 1] == inner;
      if distinct {
        assert inner[|DISTINCT|..] == argument;
      }
    } else {
      CallReads(name[1..], distinct, argument);
      assert e[0] == name[0] && e[1..] == name[1..] + "(" + inner + ")";
      assert [name[0]] + name[1..] == name;
    }
  }

  /** SQL's names for the aggregates. */
  predicate Computes(c: Call, fn: Fn) {
    match fn
    case Count => c.name == "count" && !c.distinct
    case CountDistinct => c.name == "count" && c.distinct
    case MinOf => c.name == "min" && !c.distinct
    case MaxOf => c.name == "max" && !c.distinct
    case Sum => c.name == "sum" && !c.distinct
    case Avg => c.name == "avg" && !c.distinct
  }

  /** The text of an aggregate column, read back, is the call of the function asked for on the field asked for. */
  lemma AggregateReads(v: View, a: Aggregate)
    requires CompileAggregate(v, a).Ok?
    requires forall f :: f in v.fields ==> !(DISTINCT <= f.expr)
    ensures
      var e := CompileAggregate(v, a).value.expr;
      '(' in e && Computes(ReadCall(e), a.fn.value)
      && ReadCall(e).argument == ArgumentOf(v, a)
  {
    var name := AggregateShape(v, a);
    FieldOfIn(v.fields, a.field);
    CallReads(name, a.fn.value == CountDistinct, ArgumentOf(v, a));
    assert CallText(name, a.fn.value == CountDistinct, ArgumentOf(v, a))[|name|] == '(';
  }

  /******* All columns *******/

  lemma {:induction false} ColumnsPlain(v: View, ws: seq<Wanted>)
    requires PlainView(v) && CompileColumns(v, ws).Ok?
    ensures forall c :: c in CompileColumns(v, ws).value ==> NoKeyword(Words(c.expr))
  {
    if ws != [] {
      ColumnsPlain(v, ws[..|ws| - 1]);
      ColumnPlain(v, ws[|ws| - 1]);
    }
  }

  lemma CompiledPlain(views: map<string, View>, q: Request, parse: string -> Option<int>)
    requires (forall name :: name in views ==> PlainView(views[name])) && CompileSpec(views, q, parse).Ok?
    ensures PlainStatement(CompileSpec(views, q, parse).value.statement)
  {
    CondsPlain(views[q.view], q.filters, parse);
    ColumnsPlain(views[q.view], WantedColumns(views[q.view], q));
  }

  /**
   The text the compiler emits, read back by SQL's own symbols and bound to the leading arguments, selects
   exactly the rows that satisfy the request's filters: with the values as converted, and with the values as
   given if every one is bound as what it denotes. It sorts by the columns and directions asked for, and it
   ends in the places of the limit and the offset.
   */
  lemma CompiledTextMeaning<Val(!new)>(
    d: Database<Val>, row: string -> Val, views: map<string, View>, q: Request, parse: string -> Option<int>)
    requires (forall name :: name in views ==> PlainView(views[name])) && CompileSpec(views, q, parse).Ok?
    ensures
      var c := CompileSpec(views, q, parse).value;
      var n := |c.args| - 2;
      && n >= 0
      && (TextSelects(d, row, Render(c.statement), c.args[..n])
          <==> AllBound(d, row, views[q.view], q.filters, parse))
      && (AllKept(views[q.view], q.filters) ==>
            (TextSelects(d, row, Render(c.statement), c.args[..n])
             <==> AllHold(d, row, views[q.view], q.filters, parse)))
  {
    CompiledPlain(views, q, parse);
    CompileMeaning(d, row, views, q, parse);
    var c := CompileSpec(views, q, parse).value;
    TextMeaning(d, row, c.statement, c.args[..|c.args| - 2]);
  }

  /** The direction and the column of each ORDER BY item are those asked for. */
  lemma CompiledTextOrder(views: map<string, View>, q: Request, parse: string -> Option<int>, i: nat)
    requires (forall name :: name in views ==> PlainView(views[name])) && CompileSpec(views, q, parse).Ok?
    requires i < |q.orderBy|
    ensures
      var st := CompileSpec(views, q, parse).value.statement;
      var order := ReadOrder(Render(st));
      && |order| == |q.orderBy| && order[i].1 == q.orderBy[i].desc && 1 <= order[i].0 <= |st.columns|
      && st.columns[order[i].0 - 1].name == q.orderBy[i].field
  {
    CompiledPlain(views, q, parse);
    StatementOrder(CompileSpec(views, q, parse).value.statement);
    OrderMeaning(views, q, parse, i);
  }
}
