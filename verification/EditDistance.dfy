/**
 The edit distance behind the lookalike-domain check (internal/intel/anomaly.go).

 `Levenshtein` is the textbook recursion. It is shown to be a metric and to be the
 least number of one-character edits, and the two-row loop is shown to compute it.
 Strings are sequences of byte-valued characters, as the Go code indexes bytes.
 */
module EditDistance {
  import opened Collections

  function Cost(x: char, y: char): nat { if x == y then 0 else 1 }

  function Min3(a: nat, b: nat, c: nat): nat {
    if a <= b && a <= c then a else if b <= c then b else c
  }

  function Levenshtein(a: string, b: string): nat
    decreases |a| + |b|
  {
    if a == [] then |b|
    else if b == [] then |a|
    else
      var a', b' := a[..|a| - 1], b[..|b| - 1];
      Min3(Levenshtein(a', b) + 1, Levenshtein(a, b') + 1,
           Levenshtein(a', b') + Cost(a[|a| - 1], b[|b| - 1]))
  }

  /******* A metric *******/

  lemma {:induction false} Symmetric(a: string, b: string)
    ensures Levenshtein(a, b) == Levenshtein(b, a)
    decreases |a| + |b|
  {
    if a != [] && b != [] {
      var a', b' := a[..|a| - 1], b[..|b| - 1];
      Symmetric(a', b);
      Symmetric(a, b');
      Symmetric(a', b');
    }
  }

  lemma {:induction false} ZeroIffEqual(a: string, b: string)
    ensures Levenshtein(a, b) == 0 <==> a == b
    decreases |a| + |b|
  {
    if a != [] && b != [] {
      var a', b' := a[..|a| - 1], b[..|b| - 1];
      ZeroIffEqual(a', b');
      assert a == a' + [a[|a| - 1]] && b == b' + [b[|b| - 1]];
    }
  }

  lemma {:induction false} Triangle(a: string, b: string, c: string)
    ensures Levenshtein(a, c) <= Levenshtein(a, b) + Levenshtein(b, c)
    decreases |a| + |b| + |c|
  {
    if a == [] {
      LengthBound(b, c);
    } else if c == [] {
      LengthBound(a, b);
    } else {
      var a', c' := a[..|a| - 1], c[..|c| - 1];
      if b == [] || Levenshtein(a, b) == Levenshtein(a', b) + 1 {
        Triangle(a', b, c);
      } else if Levenshtein(b, c) == Levenshtein(b, c') + 1 {
        Triangle(a, b, c');
      } else {
        var b' := b[..|b| - 1];
        var inserts := Levenshtein(a, b) == Levenshtein(a, b') + 1;
        var deletes := Levenshtein(b, c) == Levenshtein(b', c) + 1;
        Triangle(if inserts then a else a', b', if deletes then c else c');
      }
    }
  }

  /** The distance is never below the difference in length. */
  lemma {:induction false} LengthBound(a: string, b: string)
    ensures |a| - |b| <= Levenshtein(a, b) && |b| - |a| <= Levenshtein(a, b)
    ensures Levenshtein(a, b) <= Max(|a|, |b|)
    decreases |a| + |b|
  {
    if a != [] && b != [] {
      var a', b' := a[..|a| - 1], b[..|b| - 1];
      LengthBound(a', b);
      LengthBound(a, b');
      LengthBound(a', b');
    }
  }

  /******* The least number of edits *******/

  datatype Edit = Insert(at: nat, c: char) | Delete(at: nat) | Replace(at: nat, c: char)

  predicate Applies(e: Edit, s: string) {
    match e
    case Insert(at, _) => at <= |s|
    case Delete(at) => at < |s|
    case Replace(at, _) => at < |s|
  }

  function Apply(e: Edit, s: string): string
    requires Applies(e, s)
  {
    match e
    case Insert(at, c) => s[..at] + [c] + s[at..]
    case Delete(at) => s[..at] + s[at + 1..]
    case Replace(at, c) => s[at := c]
  }

  /** The edits, applied in order, turn `a` into `b`. */
  predicate Turns(edits: seq<Edit>, a: string, b: string) {
    if edits == [] then a == b
    else Applies(edits[0], a) && Turns(edits[1..], Apply(edits[0], a), b)
  }

  lemma {:induction false} CommonSuffix(a: string, b: string, t: string)
    ensures Levenshtein(a + t, b + t) <= Levenshtein(a, b)
  {
    if t == [] {
      assert a + t == a && b + t == b;
    } else {
      var t', x := t[..|t| - 1], t[|t| - 1];
      assert (a + t)[..|a + t| - 1] == a + t' && (b + t)[..|b + t| - 1] == b + t';
      CommonSuffix(a, b, t');
    }
  }

  lemma AppendOne(s: string, c: char)
    ensures Levenshtein(s, s + [c]) <= 1 && Levenshtein(s + [c], s) <= 1
  {
    ZeroIffEqual(s, s);
    assert (s + [c])[..|s|] == s;
  }

  lemma ReplaceLast(s: string, c: char, d: char)
    ensures Levenshtein(s + [c], s + [d]) <= 1
  {
    ZeroIffEqual(s, s);
    assert (s + [c])[..|s|] == s && (s + [d])[..|s|] == s;
  }

  lemma InsertBetween(a: string, c: char, b: string)
    ensures Levenshtein(a + b, a + [c] + b) <= 1 && Levenshtein(a + [c] + b, a + b) <= 1
  {
    AppendOne(a, c);
    CommonSuffix(a, a + [c], b);
    CommonSuffix(a + [c], a, b);
  }

  lemma ReplaceBetween(a: string, c: char, d: char, b: string)
    ensures Levenshtein(a + [c] + b, a + [d] + b) <= 1
  {
    ReplaceLast(a, c, d);
    CommonSuffix(a + [c], a + [d], b);
  }

  lemma SplitAt(s: string, at: nat)
    requires at < |s|
    ensures s == s[..at] + [s[at]] + s[at + 1..]
    ensures forall c :: s[at := c] == s[..at] + [c] + s[at + 1..]
  {
  }

  /** One edit anywhere moves a string by at most one. */
  lemma OneEdit(e: Edit, s: string)
    requires Applies(e, s)
    ensures Levenshtein(s, Apply(e, s)) <= 1
  {
    match e
    case Insert(at, c) =>
      InsertBetween(s[..at], c, s[at..]);
      assert s == s[..at] + s[at..];
    case Delete(at) =>
      InsertBetween(s[..at], s[at], s[at + 1..]);
      SplitAt(s, at);
    case Replace(at, c) =>
      ReplaceBetween(s[..at], s[at], c, s[at + 1..]);
      SplitAt(s, at);
  }

  /** No shorter list of edits does it. */
  lemma {:induction false} NoFewerEdits(edits: seq<Edit>, a: string, b: string)
    requires Turns(edits, a, b)
    ensures Levenshtein(a, b) <= |edits|
  {
    if edits == [] {
      ZeroIffEqual(a, b);
    } else {
      var a' := Apply(edits[0], a);
      NoFewerEdits(edits[1..], a', b);
      OneEdit(edits[0], a);
      Triangle(a, a', b);
    }
  }

  lemma {:induction false} TurnsThen(first: seq<Edit>, second: seq<Edit>, a: string, b: string, c: string)
    requires Turns(first, a, b) && Turns(second, b, c)
    ensures Turns(first + second, a, c)
  {
    if first == [] {
      assert first + second == second;
    } else {
      TurnsThen(first[1..], second, Apply(first[0], a), b, c);
      assert (first + second)[1..] == first[1..] + second;
    }
  }

  /** Edits of a prefix leave the characters after it alone. */
  lemma {:induction false} TurnsPrefix(edits: seq<Edit>, a: string, b: string, t: string)
    requires Turns(edits, a, b)
    ensures Turns(edits, a + t, b + t)
  {
    if edits != [] {
      var e := edits[0];
      assert Apply(e, a + t) == Apply(e, a) + t;
      TurnsPrefix(edits[1..], Apply(e, a), b, t);
    }
  }

  /** Some list of exactly that many edits does it. */
  lemma {:induction false} EnoughEdits(a: string, b: string) returns (edits: seq<Edit>)
    ensures Turns(edits, a, b) && |edits| == Levenshtein(a, b)
    decreases |a| + |b|
  {
    if a == [] && b == [] {
      edits := [];
    } else if a != [] && Levenshtein(a, b) == Levenshtein(a[..|a| - 1], b) + 1 {
      edits := EnoughEdits(a[..|a| - 1], b);
      edits := TurnsDeleting(edits, a, b);
    } else if b != [] && Levenshtein(a, b) == Levenshtein(a, b[..|b| - 1]) + 1 {
      edits := EnoughEdits(a, b[..|b| - 1]);
      edits := TurnsInserting(edits, a, b);
    } else {
      edits := EnoughEdits(a[..|a| - 1], b[..|b| - 1]);
      edits := TurnsLast(edits, a, b);
    }
  }

  lemma TurnsDeleting(edits: seq<Edit>, a: string, b: string) returns (more: seq<Edit>)
    requires a != [] && Turns(edits, a[..|a| - 1], b)
    ensures Turns(more, a, b) && |more| == |edits| + 1
  {
    var last := Delete(|a| - 1);
    assert Apply(last, a) == a[..|a| - 1];
    more := [last] + edits;
    assert more[1..] == edits;
  }

  lemma TurnsInserting(edits: seq<Edit>, a: string, b: string) returns (more: seq<Edit>)
    requires b != [] && Turns(edits, a, b[..|b| - 1])
    ensures Turns(more, a, b) && |more| == |edits| + 1
  {
    var b' := b[..|b| - 1];
    assert Apply(Insert(|b'|, b[|b'|]), b') == b;
    more := TurnsOneMore(edits, Insert(|b'|, b[|b'|]), a, b', b);
  }

  lemma TurnsOneMore(edits: seq<Edit>, last: Edit, a: string, b: string, c: string) returns (more: seq<Edit>)
    requires Turns(edits, a, b) && Applies(last, b) && Apply(last, b) == c
    ensures Turns(more, a, c) && |more| == |edits| + 1
  {
    assert Turns([last][1..], c, c);
    assert Turns([last], b, c);
    TurnsThen(edits, [last], a, b, c);
    more := edits + [last];
  }

  lemma TurnsLast(edits: seq<Edit>, a: string, b: string) returns (more: seq<Edit>)
    requires a != [] && b != [] && Turns(edits, a[..|a| - 1], b[..|b| - 1])
    ensures Turns(more, a, b) && |more| == |edits| + Cost(a[|a| - 1], b[|b| - 1])
  {
    var a', b' := a[..|a| - 1], b[..|b| - 1];
    assert a == a' + [a[|a'|]] && b == b' + [b[|b'|]];
    more := TurnsBoth(edits, a', a[|a'|], b', b[|b'|]);
  }

  lemma TurnsBoth(edits: seq<Edit>, a: string, x: char, b: string, y: char) returns (more: seq<Edit>)
    requires Turns(edits, a, b)
    ensures Turns(more, a + [x], b + [y]) && |more| == |edits| + Cost(x, y)
  {
    TurnsPrefix(edits, a, b, [x]);
    more := edits;
    if x != y {
      assert Apply(Replace(|b|, y), b + [x]) == b + [y];
      more := TurnsOneMore(edits, Replace(|b|, y), a + [x], b + [x], b + [y]);
    }
  }

  /******* The two-row loop *******/

  /** Row `i` of the table, up to column `upTo`, is in `row`. */
  ghost predicate RowDone(row: seq<int>, a: string, b: string, i: nat, upTo: nat)
    requires i <= |a| && upTo <= |b| < |row|
  {
    forall j :: 0 <= j <= upTo ==> row[j] == Levenshtein(a[..i], b[..j])
  }

  lemma CellStep(a: string, b: string, i: nat, j: nat)
    requires 0 < i <= |a| && 0 < j <= |b|
    ensures Levenshtein(a[..i], b[..j])
         == Min3(Levenshtein(a[..i - 1], b[..j]) + 1, Levenshtein(a[..i], b[..j - 1]) + 1,
                 Levenshtein(a[..i - 1], b[..j - 1]) + Cost(a[i - 1], b[j - 1]))
  {
    assert a[..i][..i - 1] == a[..i - 1] && b[..j][..j - 1] == b[..j - 1];
  }

  lemma RowStep(prev: seq<int>, row: seq<int>, a: string, b: string, i: nat, j: nat)
    requires |prev| == |row| == |b| + 1 && 0 < i <= |a| && 0 < j <= |b|
    requires RowDone(prev, a, b, i - 1, |b|) && RowDone(row, a, b, i, j - 1)
    ensures RowDone(row[j := NextCell(prev, row, a, b, i, j)], a, b, i, j)
  {
    CellStep(a, b, i, j);
  }

  function NextCell(prev: seq<int>, row: seq<int>, a: string, b: string, i: nat, j: nat): int
    requires |prev| == |row| == |b| + 1 && 0 < i <= |a| && 0 < j <= |b|
  {
    Min3Int(prev[j] + 1, row[j - 1] + 1, prev[j - 1] + Cost(a[i - 1], b[j - 1]))
  }

  method FillRow(prev: array<int>, cur: array<int>, a: string, b: string, i: nat)
    requires prev != cur && prev.Length == cur.Length == |b| + 1
    requires 0 < i <= |a| && RowDone(prev[..], a, b, i - 1, |b|)
    modifies cur
    ensures RowDone(cur[..], a, b, i, |b|)
  {
    cur[0] := i;
    assert cur[..][0] == i;
    for j := 1 to |b| + 1
      invariant RowDone(cur[..], a, b, i, j - 1)
    {
      RowStep(prev[..], cur[..], a, b, i, j);
      ghost var next := cur[..][j := NextCell(prev[..], cur[..], a, b, i, j)];
      cur[j] := Min3Int(prev[j] + 1, cur[j - 1] + 1, prev[j - 1] + Cost(a[i - 1], b[j - 1]));
      assert cur[..] == next;
    }
  }

  function Min3Int(a: int, b: int, c: int): int { Min(Min(a, b), c) }

  method EditDistance(a: string, b: string) returns (d: int)
    ensures d == Levenshtein(a, b)
  {
    var prev := new int[|b| + 1];
    var cur := new int[|b| + 1];
    for j := 0 to |b| + 1
      invariant forall k :: 0 <= k < j ==> prev[k] == k
    {
      prev[j] := j;
    }
    assert a[..0] == [];
    for i := 1 to |a| + 1
      invariant prev != cur && prev.Length == cur.Length == |b| + 1
      invariant fresh(prev) && fresh(cur)
      invariant RowDone(prev[..], a, b, i - 1, |b|)
    {
      FillRow(prev, cur, a, b, i);
      prev, cur := cur, prev;
    }
    assert a[..|a|] == a && b[..|b|] == b;
    d := prev[|b|];
    assert d == prev[..][|b|];
  }

  /******* lookalike *******/

  function LowerChar(c: char): char {
    if 'A' <= c <= 'Z' then c - 'A' + 'a' else c
  }

  /** Replaces pieces from the left; `next` says what the piece in front becomes and how long it is. */
  function Rewrite(s: string, next: string -> (string, nat)): string {
    if s == "" then ""
    else
      var n := Max(1, Min(next(s).1, |s|));
      next(s).0 + Rewrite(s[n..], next)
  }

  /** A text is rewritten piece by piece wherever what follows does not change a piece. */
  lemma {:induction false} RewritesApart(a: string, b: string, next: string -> (string, nat))
    requires forall k :: 0 <= k < |a| ==> SameNext(a[k..], b, next)
    ensures Rewrite(a + b, next) == Rewrite(a, next) + Rewrite(b, next)
    decreases |a|
  {
    if a == "" {
      assert a + b == b;
    } else {
      assert a[0..] == a;
      assert SameNext(a[0..], b, next);
      var n := next(a).1;
      var rest := a[n..];
      forall k | 0 <= k < |rest| ensures SameNext(rest[k..], b, next) {
        assert rest[k..] == a[n + k..];
      }
      RewritesApart(rest, b, next);
      RewriteStep(a, n, rest, next);
      RewriteStep(a + b, n, rest + b, next);
      Regroup(next(a).0, Rewrite(rest, next), Rewrite(b, next));
    }
  }

  lemma RewriteStep(s: string, n: nat, rest: string, next: string -> (string, nat))
    requires s != "" && next(s).1 == n && 1 <= n <= |s| && rest == s[n..]
    ensures Rewrite(s, next) == next(s).0 + Rewrite(rest, next)
  {
  }

  lemma Regroup(a: string, b: string, c: string)
    ensures a + (b + c) == (a + b) + c
  {
  }

  predicate SameNext(x: string, b: string, next: string -> (string, nat)) {
    next(x + b) == next(x) && 1 <= next(x).1 <= |x|
  }

  /** What the next one or two characters become, and how many they are. */
  function Replaced(s: string): (string, nat) {
    if s == "" then ("", 1)
    else
      var c, d := LowerChar(s[0]), if |s| > 1 then LowerChar(s[1]) else ' ';
      if c == 'r' && d == 'n' then ("m", 2)
      else if c == 'v' && d == 'v' then ("w", 2)
      else if c == '0' then ("o", 1)
      else if c == '1' || c == 'i' then ("l", 1)
      else ([c], 1)
  }

  /** The confusable replacements, leftmost first, on the lower-cased string. */
  function FoldConfusables(s: string): string { Rewrite(s, Replaced) }

  lemma FoldsAtOnce(s: string)
    requires s != "" && Replaced(s).1 == |s|
    ensures FoldConfusables(s) == Replaced(s).0
  {
    assert s[|s|..] == "";
    RewriteStep(s, |s|, "", Replaced);
    assert Rewrite("", Replaced) == "" && Replaced(s).0 + "" == Replaced(s).0;
  }

  /** The replacement table, in either case. */
  lemma ConfusableTable(c: char)
    ensures FoldConfusables("rn") == FoldConfusables("RN") == "m"
    ensures FoldConfusables("vv") == FoldConfusables("VV") == "w"
    ensures FoldConfusables("0") == "o" && FoldConfusables("1") == FoldConfusables("i") == FoldConfusables("I") == "l"
    ensures c !in {'0', '1', 'i', 'I'} && !('A' <= c <= 'Z') ==> FoldConfusables([c]) == [c]
    ensures c != 'I' && 'A' <= c <= 'Z' ==> FoldConfusables([c]) == [c - 'A' + 'a']
  {
    FoldsAtOnce("rn");
    FoldsAtOnce("RN");
    FoldsAtOnce("vv");
    FoldsAtOnce("VV");
    FoldsAtOnce([c]);
    FoldsAtOnce("0");
    FoldsAtOnce("1");
    FoldsAtOnce("i");
    FoldsAtOnce("I");
  }

  /** The boundary cuts no pair. */
  predicate NoPair(x: char, y: char) {
    !(x in {'r', 'R'} && y in {'n', 'N'}) && !(x in {'v', 'V'} && y in {'v', 'V'})
  }

  lemma ReplacedSame(x: string, b: string)
    requires x != "" && (b != "" ==> NoPair(x[|x| - 1], b[0]))
    ensures SameNext(x, b, Replaced)
  {
    if b == "" {
      assert x + b == x;
    } else {
      assert (x + b)[0] == x[0] && (x + b)[1] == if |x| > 1 then x[1] else b[0];
    }
  }

  /** Nothing else is replaced: a text folds piece by piece wherever no pair is cut. */
  lemma FoldsApart(a: string, b: string)
    requires a != "" && b != "" ==> NoPair(a[|a| - 1], b[0])
    ensures FoldConfusables(a + b) == FoldConfusables(a) + FoldConfusables(b)
  {
    forall k | 0 <= k < |a| ensures SameNext(a[k..], b, Replaced) {
      assert a[k..][|a[k..]| - 1] == a[|a| - 1];
      ReplacedSame(a[k..], b);
    }
    RewritesApart(a, b, Replaced);
  }

  function DistanceLimit(known: string): nat { if |known| >= 10 then 2 else 1 }

  /** `dom` imitates `known`: the same after folding, or within the distance limit. */
  predicate Imitates(dom: string, known: string) {
    && known != dom
    && (FoldConfusables(known) == FoldConfusables(dom) || Levenshtein(dom, known) <= DistanceLimit(known))
  }

  ghost predicate FirstImitated(dom: string, known: seq<string>, k: nat)
    requires k < |known|
  {
    Imitates(dom, known[k]) && forall j :: 0 <= j < k ==> !Imitates(dom, known[j])
  }

  /**
   Returns the first known domain that `dom` imitates. The length test in front of
   the distance is invisible in the result.
   */
  method Lookalike(dom: string, known: seq<string>) returns (r: Option<string>)
    ensures |dom| < 6 ==> r == None
    ensures |dom| >= 6 && r == None ==> forall k :: 0 <= k < |known| ==> !Imitates(dom, known[k])
    ensures r.Some? ==> exists k :: 0 <= k < |known| && r.value == known[k] && FirstImitated(dom, known, k)
  {
    if |dom| < 6 {
      return None;
    }
    var folded := FoldConfusables(dom);
    for i := 0 to |known|
      invariant forall k :: 0 <= k < i ==> !Imitates(dom, known[k])
    {
      var c := known[i];
      if c != dom {
        if FoldConfusables(c) == folded {
          return Some(c);
        }
        var limit := 1;
        if |c| >= 10 {
          limit := 2;
        }
        var gap := if |c| >= |dom| then |c| - |dom| else |dom| - |c|;
        LengthBound(dom, c);
        if gap <= limit {
          var d := EditDistance(dom, c);
          if d <= limit {
            return Some(c);
          }
        }
      }
    }
    r := None;
  }
}
