/**
 The mboxrd writer (internal/service/export.go) and a reader that undoes it.

 A message is its sender, its already formatted date and its raw bytes. The reader
 splits at the lines that start with "From " and takes one '>' off every line that
 matches ^>+From , as the mboxrd format asks.
 */
module Mboxrd {

  const NL: string := "\n"
  const FROM: string := "From "
  const MARK: string := ">"

  datatype Message = Message(from: string, date: string, raw: string)

  /******* Lines *******/

  predicate EndsLine(s: string) { s == [] || s[|s| - 1] == '\n' }

  predicate IsLine(s: string) {
    s != [] && s[|s| - 1] == '\n' && forall i :: 0 <= i < |s| - 1 ==> s[i] != '\n'
  }

  /** Puts a character in front of split text. */
  function LineCons(c: char, rest: seq<string>): seq<string> {
    if c == '\n' || rest == [] then [[c]] + rest else [[c] + rest[0]] + rest[1..]
  }

  /** Splits after every newline; only the last piece may lack one. */
  function Lines(s: string): seq<string> {
    if s == [] then [] else LineCons(s[0], Lines(s[1..]))
  }

  function Join(lines: seq<string>): string {
    if lines == [] then [] else lines[0] + Join(lines[1..])
  }

  lemma LineConsConcat(c: char, a: seq<string>, b: seq<string>)
    requires c == '\n' || a != []
    ensures LineCons(c, a + b) == LineCons(c, a) + b
  {
    if c == '\n' {
      assert [[c]] + (a + b) == [[c]] + a + b;
    } else {
      assert (a + b)[1..] == a[1..] + b;
    }
  }

  lemma {:induction false} LinesConcat(a: string, b: string)
    requires EndsLine(a)
    ensures Lines(a + b) == Lines(a) + Lines(b)
  {
    if a == [] {
      assert a + b == b;
    } else {
      LinesConcat(a[1..], b);
      assert (a + b)[1..] == a[1..] + b;
      LineConsConcat(a[0], Lines(a[1..]), Lines(b));
    }
  }

  lemma {:induction false} LinesOfLine(s: string)
    requires IsLine(s) || (s != [] && '\n' !in s)
    ensures Lines(s) == [s]
  {
    if |s| > 1 {
      LinesOfLine(s[1..]);
      assert s == [s[0]] + s[1..];
    } else {
      assert s[1..] == [] && s == [s[0]];
    }
  }

  lemma {:induction false} LinesOfJoin(lines: seq<string>)
    requires forall l :: l in lines ==> IsLine(l)
    ensures Lines(Join(lines)) == lines
  {
    if lines != [] {
      assert IsLine(lines[0]);
      LinesOfJoin(lines[1..]);
      LinesConcat(lines[0], Join(lines[1..]));
      LinesOfLine(lines[0]);
    }
  }

  lemma LineConsShape(c: char, rest: seq<string>)
    requires forall l :: l in rest ==> IsLine(l)
    requires c != '\n' ==> rest != []
    ensures forall l :: l in LineCons(c, rest) ==> IsLine(l)
  {
    if c != '\n' {
      assert IsLine(rest[0]);
    }
  }

  lemma {:induction false} LinesShape(s: string)
    requires EndsLine(s)
    ensures forall l :: l in Lines(s) ==> IsLine(l)
  {
    if s != [] {
      LinesShape(s[1..]);
      LineConsShape(s[0], Lines(s[1..]));
    }
  }

  lemma {:induction false} JoinOfLines(s: string)
    ensures Join(Lines(s)) == s
  {
    if s != [] {
      JoinOfLines(s[1..]);
      var c, rest := s[0], Lines(s[1..]);
      assert LineCons(c, rest)[1..] == if c == '\n' || rest == [] then rest else rest[1..];
      assert s == [c] + Join(rest);
    }
  }

  lemma {:induction false} JoinConcat(a: seq<string>, b: seq<string>)
    ensures Join(a + b) == Join(a) + Join(b)
  {
    if a == [] {
      assert a + b == b;
    } else {
      JoinConcat(a[1..], b);
      assert (a + b)[1..] == a[1..] + b;
    }
  }

  /******* Quoting *******/

  predicate IsSeparator(line: string) { FROM <= line }

  /** ^>*From */
  predicate IsFromLine(line: string) {
    IsSeparator(line) || (line != [] && line[0] == '>' && IsFromLine(line[1..]))
  }

  /** Any number of '>' and then "From ". */
  lemma {:induction false} FromLineMeaning(line: string)
    ensures IsFromLine(line) <==>
      exists k :: 0 <= k <= |line| && (forall i :: 0 <= i < k ==> line[i] == '>') && "From " <= line[k..]
  {
    assert line[0..] == line;
    if line != [] {
      var rest := line[1..];
      FromLineMeaning(rest);
      if k :| 0 <= k <= |line| && (forall i :: 0 <= i < k ==> line[i] == '>') && "From " <= line[k..] {
        if k > 0 {
          assert rest[k - 1..] == line[k..];
          assert forall i :: 0 <= i < k - 1 ==> rest[i] == line[i + 1];
        }
      }
      if line[0] == '>' && IsFromLine(rest) {
        var k :| 0 <= k <= |rest| && (forall i :: 0 <= i < k ==> rest[i] == '>') && "From " <= rest[k..];
        assert line[k + 1..] == rest[k..];
        assert forall i :: 0 <= i < k + 1 ==> line[i] == '>';
      }
    }
  }

  function Quote(line: string): string { if IsFromLine(line) then MARK + line else line }

  function Unquote(line: string): string {
    if line != [] && line[0] == '>' && IsFromLine(line[1..]) then line[1..] else line
  }

  function QuoteAll(lines: seq<string>): seq<string> {
    if lines == [] then [] else [Quote(lines[0])] + QuoteAll(lines[1..])
  }

  function UnquoteAll(lines: seq<string>): seq<string> {
    if lines == [] then [] else [Unquote(lines[0])] + UnquoteAll(lines[1..])
  }

  lemma {:induction false} QuoteAllConcat(a: seq<string>, b: seq<string>)
    ensures QuoteAll(a + b) == QuoteAll(a) + QuoteAll(b)
  {
    if a == [] {
      assert a + b == b;
    } else {
      QuoteAllConcat(a[1..], b);
      assert (a + b)[1..] == a[1..] + b;
    }
  }

  lemma QuoteUndone(line: string)
    ensures Unquote(Quote(line)) == line && !IsSeparator(Quote(line))
    ensures IsLine(line) ==> IsLine(Quote(line))
  {
    if IsFromLine(line) {
      assert Quote(line)[1..] == line;
      assert Quote(line)[0] == '>' && FROM[0] != '>';
    }
  }

  /** A newline added to a last, unterminated line never changes how it is quoted. */
  lemma {:induction false} QuoteThenNewline(line: string)
    requires '\n' !in line
    ensures IsFromLine(line + NL) <==> IsFromLine(line)
  {
    if line != [] {
      assert (line + NL)[1..] == line[1..] + NL;
      QuoteThenNewline(line[1..]);
      assert |line| >= 5 || (|line + NL| >= 5 ==> (line + NL)[4] == '\n');
    }
  }

  /******* The writer *******/

  /** Every CRLF becomes LF, left to right. */
  function CrlfToLf(s: string): string {
    if s == [] then []
    else if |s| > 1 && s[0] == '\r' && s[1] == '\n' then NL + CrlfToLf(s[2..])
    else [s[0]] + CrlfToLf(s[1..])
  }

  /** Wherever a CRLF stands it becomes LF, and the text around it is converted by itself. */
  lemma {:induction false} CrlfBecomesLf(a: string, b: string)
    ensures CrlfToLf(a + "\r\n" + b) == CrlfToLf(a) + "\n" + CrlfToLf(b)
    decreases |a|
  {
    var s := a + "\r\n" + b;
    if a == [] {
      assert s[0] == '\r' && s[1] == '\n' && s[2..] == b;
    } else if |a| > 1 && a[0] == '\r' && a[1] == '\n' {
      CrlfBecomesLf(a[2..], b);
      assert s[2..] == a[2..] + "\r\n" + b;
    } else {
      CrlfBecomesLf(a[1..], b);
      assert s[0] == a[0] && s[1..] == a[1..] + "\r\n" + b;
      assert s[1] == if |a| > 1 then a[1] else '\r';
    }
  }

  /** A text without CRLF stays as it is. */
  lemma {:induction false} NoCrlfStays(s: string)
    requires forall i :: 0 <= i < |s| - 1 ==> !(s[i] == '\r' && s[i + 1] == '\n')
    ensures CrlfToLf(s) == s
  {
    if s != [] {
      assert |s| > 1 ==> !(s[0] == '\r' && s[0 + 1] == '\n');
      NoCrlfStays(s[1..]);
    }
  }

  /** What a round trip preserves: the text with LF line ends and a final newline. */
  function Normal(raw: string): string {
    var t := CrlfToLf(raw);
    if t != [] && EndsLine(t) then t else t + NL
  }

  function SeparatorLine(m: Message): string { FROM + m.from + " " + m.date + NL }

  /** What stands between "From " and the first space after it, and what follows up to the line end. */
  function ReadEnvelope(line: string): (string, string)
    requires IsSeparator(line)
  {
    var rest := line[|FROM|..];
    var from := FirstWord(rest);
    (from, if |from| + 1 < |rest| then rest[|from| + 1..|rest| - 1] else "")
  }

  function FirstWord(s: string): (w: string)
    ensures |w| <= |s|
  {
    if s == [] || s[0] == ' ' then [] else [s[0]] + FirstWord(s[1..])
  }

  lemma {:induction false} FirstWordIs(a: string, b: string)
    requires ' ' !in a
    ensures FirstWord(a + " " + b) == a
  {
    if a == [] {
      assert (a + " " + b)[0] == ' ';
    } else {
      FirstWordIs(a[1..], b);
      assert (a + " " + b)[1..] == a[1..] + " " + b;
    }
  }

  /** The separator line names the sender and the date, in this order, and ends there. */
  lemma SeparatorReads(m: Message)
    requires ' ' !in m.from
    ensures IsSeparator(SeparatorLine(m)) && ReadEnvelope(SeparatorLine(m)) == (m.from, m.date)
    ensures SeparatorLine(m)[|SeparatorLine(m)| - 1] == '\n'
  {
    var rest := m.from + " " + (m.date + NL);
    FirstWordIs(m.from, m.date + NL);
    assert SeparatorLine(m) == FROM + rest;
    assert SeparatorLine(m)[|FROM|..] == rest;
    assert rest[|m.from| + 1..|rest| - 1] == m.date;
  }

  function MessageLines(m: Message): seq<string> {
    [SeparatorLine(m)] + QuoteAll(Lines(Normal(m.raw))) + [NL]
  }

  function FlatMap<M, L>(ms: seq<M>, f: M -> seq<L>): seq<L> {
    if ms == [] then [] else f(ms[0]) + FlatMap(ms[1..], f)
  }

  lemma {:induction false} FlatMapSnoc<M, L>(ms: seq<M>, m: M, f: M -> seq<L>)
    ensures FlatMap(ms + [m], f) == FlatMap(ms, f) + f(m)
  {
    if ms == [] {
      assert ms + [m] == [m] && [m][1..] == [];
    } else {
      FlatMapSnoc(ms[1..], m, f);
      assert (ms + [m])[1..] == ms[1..] + [m];
    }
  }

  function AllLines(msgs: seq<Message>): seq<string> { FlatMap(msgs, MessageLines) }

  function Written(msgs: seq<Message>): string { Join(AllLines(msgs)) }

  class Buffer {
    var data: string

    constructor ()
      ensures data == []
    {
      data := [];
    }

    method WriteString(s: string)
      modifies this
      ensures data == old(data) + s
    {
      data := data + s;
    }

    /** Appends one message. */
    method WriteMboxrd(m: Message)
      modifies this
      ensures data == old(data) + Join(MessageLines(m))
    {
      WriteString(SeparatorLine(m));
      var t := CrlfToLf(m.raw);
      WriteQuoted(Lines(t));
      if !(t != [] && EndsLine(t)) {
        WriteString(NL);
      }
      WriteString(NL);
      FinalNewline(t);
      MessageText(m);
    }

    method WriteQuoted(lines: seq<string>)
      modifies this
      ensures data == old(data) + QuotedText(lines)
    {
      for i := 0 to |lines|
        invariant data == old(data) + QuotedText(lines[..i])
      {
        assert lines[..i + 1] == lines[..i] + [lines[i]];
        QuotedSnoc(lines[..i], lines[i]);
        if lines[i] != [] {
          if IsFromLine(lines[i]) {
            WriteString(MARK);
          }
          WriteString(lines[i]);
        }
      }
      assert lines[..|lines|] == lines;
    }

    /** The export loop. */
    method WriteAll(msgs: seq<Message>)
      modifies this
      ensures data == old(data) + Written(msgs)
    {
      for i := 0 to |msgs|
        invariant data == old(data) + Written(msgs[..i])
      {
        WrittenNext(old(data), data, msgs, i);
        WriteMboxrd(msgs[i]);
      }
      assert msgs[..|msgs|] == msgs;
    }
  }

  function QuotedText(lines: seq<string>): string { Join(QuoteAll(lines)) }

  lemma JoinOne(s: string)
    ensures Join([s]) == s
  {
    assert [s][1..] == [];
  }

  lemma QuotedSnoc(lines: seq<string>, l: string)
    ensures QuotedText(lines + [l]) == QuotedText(lines) + Quote(l)
    ensures Quote([]) == []
  {
    QuoteAllConcat(lines, [l]);
    assert [l][1..] == [] && QuoteAll([l]) == [Quote(l)];
    JoinConcat(QuoteAll(lines), [Quote(l)]);
    JoinOne(Quote(l));
  }

  lemma QuotedLast(a: string, l: string)
    requires EndsLine(a) && (IsLine(l) || (l != [] && '\n' !in l))
    ensures QuotedText(Lines(a + l)) == QuotedText(Lines(a)) + Quote(l)
  {
    LinesConcat(a, l);
    LinesOfLine(l);
    QuotedSnoc(Lines(a), l);
  }

  lemma QuoteNewline(l: string)
    requires '\n' !in l
    ensures Quote(l + NL) == Quote(l) + NL && IsLine(l + NL)
  {
    QuoteThenNewline(l);
    assert MARK + (l + NL) == MARK + l + NL;
  }

  lemma FinalPartial(a: string, l: string)
    requires EndsLine(a) && l != [] && '\n' !in l
    ensures QuotedText(Lines(a + l + NL)) == QuotedText(Lines(a + l)) + NL
  {
    QuotedLast(a, l);
    QuoteNewline(l);
    QuotedLast(a, l + NL);
    Regroup(a, l, NL);
    Regroup(QuotedText(Lines(a)), Quote(l), NL);
  }

  /** Quoting before or after the final newline is added gives the same text. */
  lemma FinalNewline(t: string)
    ensures !(t != [] && EndsLine(t)) ==> QuotedText(Lines(t + NL)) == QuotedText(Lines(t)) + NL
  {
    if t == [] {
      QuotedLast(t, NL);
    } else if !EndsLine(t) {
      var k := LastBreak(t);
      FinalPartial(t[..k], t[k..]);
      assert t == t[..k] + t[k..];
    }
  }

  /** Where the last, unterminated line starts. */
  lemma LastBreak(t: string) returns (k: nat)
    requires t != [] && !EndsLine(t)
    ensures k < |t| && EndsLine(t[..k]) && '\n' !in t[k..]
  {
    k := |t| - 1;
    while k > 0 && t[k - 1] != '\n'
      invariant 0 <= k < |t| && '\n' !in t[k..]
    {
      assert t[k - 1..] == [t[k - 1]] + t[k..];
      k := k - 1;
    }
  }

  lemma MessageText(m: Message)
    ensures Join(MessageLines(m)) == SeparatorLine(m) + QuotedText(Lines(Normal(m.raw))) + NL
  {
    var q := QuoteAll(Lines(Normal(m.raw)));
    JoinConcat([SeparatorLine(m)] + q, [NL]);
    JoinConcat([SeparatorLine(m)], q);
    JoinOne(NL);
    JoinOne(SeparatorLine(m));
  }

  lemma WrittenNext(start: string, data: string, msgs: seq<Message>, i: nat)
    requires i < |msgs| && data == start + Written(msgs[..i])
    ensures data + Join(MessageLines(msgs[i])) == start + Written(msgs[..i + 1])
  {
    var done, m := msgs[..i], msgs[i];
    assert msgs[..i + 1] == done + [m];
    FlatMapSnoc(done, m, MessageLines);
    JoinConcat(AllLines(done), MessageLines(m));
    Regroup(start, Written(done), Join(MessageLines(m)));
  }

  lemma Regroup(a: string, b: string, c: string)
    ensures (a + b) + c == a + (b + c)
  {
  }

  /******* The reader *******/

  /** The lines up to the next separator. */
  function BodyOf(lines: seq<string>): seq<string> {
    if lines == [] || IsSeparator(lines[0]) then [] else [lines[0]] + BodyOf(lines[1..])
  }

  /** The text of one entry: its lines without the closing blank one, unquoted. */
  function BodyText(body: seq<string>): string {
    if body == [] then [] else Join(UnquoteAll(body[..|body| - 1]))
  }

  function ReadLines(lines: seq<string>): seq<string> {
    if lines == [] then []
    else if IsSeparator(lines[0]) then [BodyText(BodyOf(lines[1..]))] + ReadLines(lines[1..])
    else ReadLines(lines[1..])
  }

  function Read(text: string): seq<string> { ReadLines(Lines(text)) }

  function Separators(lines: seq<string>): nat {
    if lines == [] then 0 else (if IsSeparator(lines[0]) then 1 else 0) + Separators(lines[1..])
  }

  function Normals(msgs: seq<Message>): seq<string> {
    seq(|msgs|, i requires 0 <= i < |msgs| => Normal(msgs[i].raw))
  }

  /** The sender and the date stay on the separator line. */
  predicate OneLineHeader(m: Message) { '\n' !in m.from && '\n' !in m.date }

  lemma {:induction false} ReadPlain(plain: seq<string>, rest: seq<string>)
    requires forall l :: l in plain ==> !IsSeparator(l)
    requires rest == [] || IsSeparator(rest[0])
    ensures BodyOf(plain + rest) == plain
    ensures ReadLines(plain + rest) == ReadLines(rest)
    ensures Separators(plain + rest) == Separators(rest)
  {
    if plain == [] {
      assert plain + rest == rest;
    } else {
      ReadPlain(plain[1..], rest);
      assert (plain + rest)[1..] == plain[1..] + rest;
    }
  }

  lemma {:induction false} QuotedLinesShape(lines: seq<string>)
    requires forall l :: l in lines ==> IsLine(l)
    ensures forall l :: l in QuoteAll(lines) ==> IsLine(l) && !IsSeparator(l)
    ensures UnquoteAll(QuoteAll(lines)) == lines
  {
    if lines != [] {
      QuoteUndone(lines[0]);
      assert IsLine(lines[0]);
      QuotedLinesShape(lines[1..]);
      assert QuoteAll(lines)[1..] == QuoteAll(lines[1..]);
    }
  }

  lemma MessageLinesShape(m: Message)
    requires OneLineHeader(m)
    ensures forall l :: l in MessageLines(m) ==> IsLine(l)
    ensures IsSeparator(MessageLines(m)[0])
    ensures forall l :: l in MessageLines(m)[1..] ==> !IsSeparator(l)
    ensures BodyText(MessageLines(m)[1..]) == Normal(m.raw)
  {
    var lines := Lines(Normal(m.raw));
    LinesShape(Normal(m.raw));
    JoinOfLines(Normal(m.raw));
    QuotedLinesShape(lines);
    var body := QuoteAll(lines) + [NL];
    assert MessageLines(m) == [SeparatorLine(m)] + body;
    assert MessageLines(m)[1..] == body && body[..|body| - 1] == QuoteAll(lines);
    assert IsLine(SeparatorLine(m)) && IsLine(NL);
  }

  lemma ReadEntry(entry: seq<string>, rest: seq<string>)
    requires entry != [] && IsSeparator(entry[0]) && forall l :: l in entry[1..] ==> !IsSeparator(l)
    requires rest == [] || IsSeparator(rest[0])
    ensures ReadLines(entry + rest) == [BodyText(entry[1..])] + ReadLines(rest)
    ensures Separators(entry + rest) == 1 + Separators(rest)
  {
    ReadPlain(entry[1..], rest);
    ReadFrom(entry[0], entry[1..] + rest);
    HeadFirst(entry, rest);
  }

  lemma HeadFirst(entry: seq<string>, rest: seq<string>)
    requires entry != []
    ensures entry + rest == [entry[0]] + (entry[1..] + rest)
  {
  }

  lemma ReadFrom(separator: string, rest: seq<string>)
    requires IsSeparator(separator)
    ensures ReadLines([separator] + rest) == [BodyText(BodyOf(rest))] + ReadLines(rest)
    ensures Separators([separator] + rest) == 1 + Separators(rest)
  {
    assert ([separator] + rest)[1..] == rest;
  }

  lemma NormalsCons(msgs: seq<Message>)
    requires msgs != []
    ensures Normals(msgs) == [Normal(msgs[0].raw)] + Normals(msgs[1..])
  {
  }

  lemma {:induction false} AllLinesRead(msgs: seq<Message>)
    requires forall m :: m in msgs ==> OneLineHeader(m)
    ensures forall l :: l in AllLines(msgs) ==> IsLine(l)
    ensures msgs != [] ==> AllLines(msgs) != [] && IsSeparator(AllLines(msgs)[0])
    ensures ReadLines(AllLines(msgs)) == Normals(msgs)
    ensures Separators(AllLines(msgs)) == |msgs|
  {
    if msgs != [] {
      var m, rest := msgs[0], AllLines(msgs[1..]);
      AllLinesRead(msgs[1..]);
      MessageLinesShape(m);
      assert msgs[1..] == [] ==> rest == [];
      ReadEntry(MessageLines(m), rest);
      NormalsCons(msgs);
    }
  }

  /**
   Reading back what was written gives every message in order, with LF line ends and
   a final newline, and the text has one separator line per message.
   */
  lemma RoundTrip(msgs: seq<Message>)
    requires forall m :: m in msgs ==> OneLineHeader(m)
    ensures Read(Written(msgs)) == Normals(msgs)
    ensures Separators(Lines(Written(msgs))) == |msgs|
  {
    AllLinesRead(msgs);
    LinesOfJoin(AllLines(msgs));
  }
}
