/**
 The LIKE patterns the query compiler builds (internal/query/query.go), against
 SQLite's LIKE with ESCAPE '\': '%' matches any run, '_' any one character, the
 escape character takes the next one literally, and ASCII letters match in either case.
 */
module Like {

  const ANY: char := '%'
  const ONE: char := '_'
  const ESC: char := '\\'

  function Fold(c: char): char {
    if 'A' <= c <= 'Z' then c - 'A' + 'a' else c
  }

  /** Characters are matched as equal exactly when they are, or are the two cases of one ASCII letter. */
  lemma FoldExactly(a: char, b: char)
    ensures Fold(a) == Fold(b) <==>
      a == b || ('A' <= a <= 'Z' && b as int == a as int + 32) || ('A' <= b <= 'Z' && a as int == b as int + 32)
  {
  }

  predicate Matches(pattern: string, t: string)
    decreases |pattern| + |t|
  {
    if pattern == [] then t == []
    else if pattern[0] == ANY then
      Matches(pattern[1..], t) || (t != [] && Matches(pattern, t[1..]))
    else if pattern[0] == ESC then
      |pattern| > 1 && t != [] && Fold(pattern[1]) == Fold(t[0]) && Matches(pattern[2..], t[1..])
    else
      t != [] && (pattern[0] == ONE || Fold(pattern[0]) == Fold(t[0])) && Matches(pattern[1..], t[1..])
  }

  predicate Special(c: char) { c == ESC || c == ANY || c == ONE }

  function EscapeLike(s: string): string {
    if s == [] then []
    else (if Special(s[0]) then [ESC, s[0]] else [s[0]]) + EscapeLike(s[1..])
  }

  function PrefixPattern(s: string): string { EscapeLike(s) + [ANY] }

  function ContainsPattern(s: string): string { [ANY] + PrefixPattern(s) }

  /******* What the patterns mean *******/

  /** `s` and `t` are equal up to the case of ASCII letters. */
  predicate SameText(s: string, t: string) {
    |s| == |t| && forall i :: 0 <= i < |s| ==> Fold(s[i]) == Fold(t[i])
  }

  predicate StartsWith(t: string, s: string) {
    |s| <= |t| && SameText(s, t[..|s|])
  }

  predicate Occurs(s: string, t: string) {
    exists i :: 0 <= i <= |t| && StartsWith(t[i..], s)
  }

  /** An escaped string in front of a pattern matches itself and nothing else. */
  lemma {:induction false} EscapedLiteral(s: string, rest: string, t: string)
    ensures Matches(EscapeLike(s) + rest, t) <==> StartsWith(t, s) && Matches(rest, t[|s|..])
  {
    var p := EscapeLike(s) + rest;
    if s == [] {
      assert p == rest && t[0..] == t;
    } else {
      var tail := EscapeLike(s[1..]) + rest;
      assert Special(s[0]) ==> p[0] == ESC && p[1] == s[0] && p[2..] == tail;
      assert !Special(s[0]) ==> p[0] == s[0] && p[1..] == tail;
      if t != [] {
        EscapedLiteral(s[1..], rest, t[1..]);
        assert |s| <= |t| ==> t[1..][|s| - 1..] == t[|s|..];
        StartsStep(t, s);
      }
    }
  }

  lemma StartsStep(t: string, s: string)
    requires s != [] && t != []
    ensures StartsWith(t, s) <==> Fold(s[0]) == Fold(t[0]) && StartsWith(t[1..], s[1..])
  {
    if |s| <= |t| {
      assert t[..|s|][0] == t[0] && t[..|s|][1..] == t[1..][..|s| - 1];
      if Fold(s[0]) == Fold(t[0]) && StartsWith(t[1..], s[1..]) {
        forall i | 0 <= i < |s| ensures Fold(s[i]) == Fold(t[..|s|][i]) {
          assert i > 0 ==> s[1..][i - 1] == s[i] && t[1..][..|s| - 1][i - 1] == t[i];
        }
      }
      if StartsWith(t, s) {
        forall i | 0 <= i < |s| - 1 ensures Fold(s[1..][i]) == Fold(t[1..][..|s| - 1][i]) {
          assert Fold(s[i + 1]) == Fold(t[..|s|][i + 1]);
        }
      }
    }
  }

  lemma {:induction false} AnyMatchesAll(t: string)
    ensures Matches([ANY], t)
  {
    assert [ANY][1..] == [];
    if t != [] {
      AnyMatchesAll(t[1..]);
    }
  }

  /** prefix: exactly the texts that start with `s`. */
  lemma PrefixMeaning(s: string, t: string)
    ensures Matches(PrefixPattern(s), t) <==> StartsWith(t, s)
  {
    EscapedLiteral(s, [ANY], t);
    if |s| <= |t| {
      AnyMatchesAll(t[|s|..]);
    }
  }

  /** contains: exactly the texts in which `s` occurs. */
  lemma {:induction false} ContainsMeaning(s: string, t: string)
    ensures Matches(ContainsPattern(s), t) <==> Occurs(s, t)
    decreases |t|
  {
    var p := ContainsPattern(s);
    assert p[0] == ANY && p[1..] == PrefixPattern(s);
    PrefixMeaning(s, t);
    assert t[0..] == t;
    if t != [] {
      ContainsMeaning(s, t[1..]);
      if Occurs(s, t[1..]) {
        var i :| 0 <= i <= |t[1..]| && StartsWith(t[1..][i..], s);
        assert t[i + 1..] == t[1..][i..];
      }
      if Occurs(s, t) {
        var i :| 0 <= i <= |t| && StartsWith(t[i..], s);
        assert i > 0 ==> t[1..][i - 1..] == t[i..];
      }
    }
  }

  /******* Escaping can be undone *******/

  function Unescape(s: string): string {
    if s == [] then []
    else if s[0] == ESC && |s| > 1 then [s[1]] + Unescape(s[2..])
    else [s[0]] + Unescape(s[1..])
  }

  lemma {:induction false} UnescapeEscape(s: string)
    ensures Unescape(EscapeLike(s)) == s
  {
    if s != [] {
      UnescapeEscape(s[1..]);
      var e := EscapeLike(s);
      if Special(s[0]) {
        assert e[2..] == EscapeLike(s[1..]);
      } else {
        assert e[1..] == EscapeLike(s[1..]);
      }
    }
  }

  lemma EscapeInjective(a: string, b: string)
    requires EscapeLike(a) == EscapeLike(b)
    ensures a == b
  {
    UnescapeEscape(a);
    UnescapeEscape(b);
  }
}
