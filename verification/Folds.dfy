/**
 Totals over a collection whose order must not matter: a fold with a commutative
 operation, and ledgers that hold each key once.
 */
module Folds {
  import opened Collections

  /** op(... op(op(zero, f(s[0], x)), f(s[1], x)) ..., f(s[n-1], x)) */
  function Fold<T, X, M>(s: seq<T>, x: X, f: (T, X) -> M, op: (M, M) -> M, zero: M): M {
    if s == [] then zero else op(Fold(s[..|s| - 1], x, f, op, zero), f(s[|s| - 1], x))
  }

  ghost predicate Commutative<M(!new)>(op: (M, M) -> M) {
    && (forall a, b :: op(a, b) == op(b, a))
    && (forall a, b, c :: op(op(a, b), c) == op(a, op(b, c)))
  }

  lemma FoldSnoc<T, X, M>(s: seq<T>, t: T, x: X, f: (T, X) -> M, op: (M, M) -> M, zero: M)
    ensures Fold(s + [t], x, f, op, zero) == op(Fold(s, x, f, op, zero), f(t, x))
  {
    assert (s + [t])[..|s|] == s;
  }

  /** Any element may be taken out and added last. */
  lemma {:induction false} FoldMove<T, X, M(!new)>(
    a: seq<T>, t: T, b: seq<T>, x: X, f: (T, X) -> M, op: (M, M) -> M, zero: M)
    requires Commutative(op)
    ensures Fold(a + [t] + b, x, f, op, zero) == op(Fold(a + b, x, f, op, zero), f(t, x))
  {
    if b == [] {
      assert a + [t] + b == a + [t] && a + b == a;
      FoldSnoc(a, t, x, f, op, zero);
    } else {
      var init, last := b[..|b| - 1], b[|b| - 1];
      FoldMove(a, t, init, x, f, op, zero);
      assert a + [t] + b == (a + [t] + init) + [last] && a + b == (a + init) + [last];
      FoldSnoc(a + [t] + init, last, x, f, op, zero);
      FoldSnoc(a + init, last, x, f, op, zero);
      Exchange(Fold(a + init, x, f, op, zero), f(t, x), f(last, x), op);
    }
  }

  lemma Exchange<M(!new)>(m: M, p: M, q: M, op: (M, M) -> M)
    requires Commutative(op)
    ensures op(op(m, p), q) == op(op(m, q), p)
  {
    assert op(p, q) == op(q, p);
    assert op(op(m, p), q) == op(m, op(p, q));
    assert op(op(m, q), p) == op(m, op(q, p));
  }

  /** Permutations have the same total. */
  lemma {:induction false} FoldPermutes<T, X, M(!new)>(
    a: seq<T>, b: seq<T>, x: X, f: (T, X) -> M, op: (M, M) -> M, zero: M)
    requires Commutative(op) && multiset(a) == multiset(b)
    ensures Fold(a, x, f, op, zero) == Fold(b, x, f, op, zero)
    decreases |a|
  {
    assert |a| == |multiset(a)| == |multiset(b)| == |b|;
    if a != [] {
      var init, t := a[..|a| - 1], a[|a| - 1];
      assert a == init + [t];
      assert t in multiset(b);
      var i :| 0 <= i < |b| && b[i] == t;
      var rest := b[..i] + b[i + 1..];
      assert b == b[..i] + [t] + b[i + 1..];
      assert multiset(rest) == multiset(b) - multiset{t};
      FoldPermutes(init, rest, x, f, op, zero);
      FoldMove(b[..i], t, b[i + 1..], x, f, op, zero);
    }
  }

  /******* Ledgers *******/

  /** No key is entered twice. */
  ghost predicate Once<K, V>(log: seq<(K, V)>) {
    forall i, j :: 0 <= i < j < |log| ==> log[i].0 != log[j].0
  }

  /** The ledger and the index hold the same entries. */
  ghost predicate Lists<K(!new), V>(log: seq<(K, V)>, index: map<K, V>) {
    && (forall i :: 0 <= i < |log| ==> log[i].0 in index && index[log[i].0] == log[i].1)
    && (forall k :: k in index ==> (k, index[k]) in log)
  }

  lemma LedgerAdd<K(!new), V>(log: seq<(K, V)>, index: map<K, V>, k: K, v: V)
    requires Once(log) && Lists(log, index) && k !in index
    ensures Once(log + [(k, v)]) && Lists(log + [(k, v)], index[k := v])
  {
    var more, next := log + [(k, v)], index[k := v];
    assert more[|log|] == (k, v);
    forall q | q in next ensures (q, next[q]) in more {
      if q != k {
        assert (q, index[q]) in log;
      }
    }
  }

  lemma LedgerDropLast<K(!new), V>(log: seq<(K, V)>, index: map<K, V>)
    requires log != [] && Once(log) && Lists(log, index)
    ensures Once(log[..|log| - 1]) && Lists(log[..|log| - 1], index - {log[|log| - 1].0})
  {
    var init, k := log[..|log| - 1], log[|log| - 1].0;
    assert log == init + [log[|log| - 1]];
    forall q | q in index - {k} ensures (q, index[q]) in init {
      assert (q, index[q]) in log;
    }
  }

  lemma OnceDistinct<K, V>(log: seq<(K, V)>)
    requires Once(log)
    ensures Distinct(log)
  {
  }

  /** Two ledgers of the same index are permutations of each other. */
  lemma SameIndexPermutes<K(!new), V>(a: seq<(K, V)>, b: seq<(K, V)>, index: map<K, V>)
    requires Once(a) && Once(b) && Lists(a, index) && Lists(b, index)
    ensures multiset(a) == multiset(b)
  {
    OnceDistinct(a);
    OnceDistinct(b);
    DistinctMultiset(a);
    DistinctMultiset(b);
    forall p ensures p in Elements(a) <==> p in Elements(b) {
      if p in a {
        var i :| 0 <= i < |a| && a[i] == p;
        assert p == (p.0, index[p.0]);
      }
      if p in b {
        var i :| 0 <= i < |b| && b[i] == p;
        assert p == (p.0, index[p.0]);
      }
    }
    assert Elements(a) == Elements(b);
  }

  lemma SameIndexSameFold<K(!new), V, X, M(!new)>(
    a: seq<(K, V)>, b: seq<(K, V)>, index: map<K, V>, x: X, f: ((K, V), X) -> M, op: (M, M) -> M, zero: M)
    requires Once(a) && Once(b) && Lists(a, index) && Lists(b, index) && Commutative(op)
    ensures Fold(a, x, f, op, zero) == Fold(b, x, f, op, zero)
  {
    SameIndexPermutes(a, b, index);
    FoldPermutes(a, b, x, f, op, zero);
  }

  /******* Sums over sets *******/

  ghost function SumOver<K(!new)>(s: set<K>, f: K -> int): int {
    if s == {} then 0
    else
      var k :| k in s;
      f(k) + SumOver(s - {k}, f)
  }

  /** Any element may be taken out first. */
  lemma {:induction false} SumWithout<K(!new)>(s: set<K>, k: K, f: K -> int)
    requires k in s
    ensures SumOver(s, f) == f(k) + SumOver(s - {k}, f)
    decreases s
  {
    var c :| c in s && SumOver(s, f) == f(c) + SumOver(s - {c}, f);
    if c != k {
      SumWithout(s - {c}, k, f);
      SumWithout(s - {k}, c, f);
      assert s - {c} - {k} == s - {k} - {c};
    }
  }

  lemma SumWith<K(!new)>(s: set<K>, k: K, f: K -> int)
    requires k !in s
    ensures SumOver(s + {k}, f) == SumOver(s, f) + f(k)
  {
    SumWithout(s + {k}, k, f);
    assert s + {k} - {k} == s;
  }
}
