/** Filtering and subsequences, shared by the index, queue and event-bus models. */
module Sequences {

  /** The elements of s that satisfy p, in order. */
  function Filter<T>(s: seq<T>, p: T -> bool): (r: seq<T>) {
    if s == [] then [] else
      var init, last := s[..|s| - 1], s[|s| - 1];
      if p(last) then Filter(init, p) + [last] else Filter(init, p)
  }

  lemma FilterSnoc<T>(s: seq<T>, x: T, p: T -> bool)
    ensures Filter(s + [x], p) == if p(x) then Filter(s, p) + [x] else Filter(s, p)
  {
  }

  lemma {:induction false} FilterConcat<T>(s: seq<T>, t: seq<T>, p: T -> bool)
    ensures Filter(s + t, p) == Filter(s, p) + Filter(t, p)
  {
    if t == [] {
      assert s + t == s;
    } else {
      var u, x := t[..|t| - 1], t[|t| - 1];
      assert t == u + [x] && s + t == (s + u) + [x];
      FilterSnoc(s + u, x, p);
      FilterConcat(s, u, p);
    }
  }

  lemma {:induction false} FilterMember<T>(s: seq<T>, p: T -> bool, x: T)
    ensures x in Filter(s, p) <==> x in s && p(x)
  {
    if s != [] {
      FilterMember(s[..|s| - 1], p, x);
      assert s == s[..|s| - 1] + [s[|s| - 1]];
    }
  }

  lemma {:induction false} FilterThrice<T>(s: seq<T>, p: T -> bool, q: T -> bool, r: T -> bool, all: T -> bool)
    requires forall x :: x in s ==> (all(x) <==> p(x) && q(x) && r(x))
    ensures Filter(Filter(Filter(s, p), q), r) == Filter(s, all)
  {
    if s != [] {
      var init, x := s[..|s| - 1], s[|s| - 1];
      assert x in s && forall y :: y in init ==> y in s;
      FilterThrice(init, p, q, r, all);
      FilterSnoc(Filter(init, p), x, q);
      FilterSnoc(Filter(Filter(init, p), q), x, r);
    }
  }

  /** Filtering by two disjoint tests gives together what their union gives. */
  lemma {:induction false} FilterUnion<T>(s: seq<T>, p: T -> bool, q: T -> bool, r: T -> bool)
    requires forall m :: m in s ==> !(p(m) && q(m)) && (r(m) <==> p(m) || q(m))
    ensures multiset(Filter(s, r)) == multiset(Filter(s, p)) + multiset(Filter(s, q))
  {
    if s != [] {
      var init, m := s[..|s| - 1], s[|s| - 1];
      assert m in s && forall x :: x in init ==> x in s;
      FilterUnion(init, p, q, r);
    }
  }

  lemma {:induction false} FilterSame<T>(s: seq<T>, p: T -> bool, q: T -> bool)
    requires forall m :: m in s ==> (p(m) <==> q(m))
    ensures Filter(s, p) == Filter(s, q)
  {
    if s != [] {
      var init, m := s[..|s| - 1], s[|s| - 1];
      assert m in s && forall x :: x in init ==> x in s;
      FilterSame(init, p, q);
    }
  }

  lemma {:induction false} FilterNone<T>(s: seq<T>, p: T -> bool)
    requires forall m :: m in s ==> !p(m)
    ensures Filter(s, p) == []
  {
    if s != [] {
      var init, m := s[..|s| - 1], s[|s| - 1];
      assert m in s && forall x :: x in init ==> x in s;
      FilterNone(init, p);
    }
  }

  lemma {:induction false} FilterTwice<T>(s: seq<T>, p: T -> bool, q: T -> bool, both: T -> bool)
    requires forall m :: m in s ==> (both(m) <==> p(m) && q(m))
    ensures Filter(Filter(s, p), q) == Filter(s, both)
  {
    if s != [] {
      var init, m := s[..|s| - 1], s[|s| - 1];
      assert m in s && forall x :: x in init ==> x in s;
      FilterTwice(init, p, q, both);
      if p(m) {
        FilterSnoc(Filter(init, p), m, q);
      }
    }
  }

  lemma RemoveAt<T>(s: seq<T>, k: nat)
    requires k < |s|
    ensures multiset(s) == multiset(s[..k] + s[k + 1..]) + multiset{s[k]}
  {
    assert s == s[..k] + [s[k]] + s[k + 1..];
  }

  /** Where the last element of s sits in a permutation t of s. */
  lemma BagInit<T>(s: seq<T>, t: seq<T>) returns (k: nat)
    requires multiset(s) == multiset(t) && s != []
    ensures k < |t| && t[k] == s[|s| - 1]
    ensures multiset(s[..|s| - 1]) == multiset(t[..k] + t[k + 1..])
  {
    var x := s[|s| - 1];
    assert s == s[..|s| - 1] + [x];
    assert x in multiset(t);
    k :| 0 <= k < |t| && t[k] == x;
    RemoveAt(t, k);
    assert multiset(s[..|s| - 1]) == multiset(s) - multiset{x};
    assert multiset(t[..k] + t[k + 1..]) == multiset(t) - multiset{x};
  }

  /** Filtering equal bags gives equal bags. */
  lemma {:induction false} FilterBag<T>(s: seq<T>, t: seq<T>, p: T -> bool)
    requires multiset(s) == multiset(t)
    ensures multiset(Filter(s, p)) == multiset(Filter(t, p))
    decreases |s|
  {
    if s == [] {
      assert |multiset(t)| == 0;
    } else {
      var k := BagInit(s, t);
      FilterBag(s[..|s| - 1], t[..k] + t[k + 1..], p);
      assert t == t[..k] + [t[k]] + t[k + 1..];
      FilterConcat(t[..k], t[k + 1..], p);
      FilterConcat(t[..k] + [t[k]], t[k + 1..], p);
      FilterSnoc(t[..k], t[k], p);
    }
  }

  /** a can be obtained from b by deleting elements. */
  predicate Subsequence<T(==)>(a: seq<T>, b: seq<T>) {
    if a == [] then true
    else if b == [] then false
    else (a[|a| - 1] == b[|b| - 1] && Subsequence(a[..|a| - 1], b[..|b| - 1])) || Subsequence(a, b[..|b| - 1])
  }

  lemma SubsequenceGrow<T>(a: seq<T>, b: seq<T>, x: T)
    requires Subsequence(a, b)
    ensures Subsequence(a, b + [x]) && Subsequence(a + [x], b + [x])
  {
  }

  lemma {:induction false} SubsequenceReflexive<T>(a: seq<T>)
    ensures Subsequence(a, a)
  {
    if a != [] {
      SubsequenceReflexive(a[..|a| - 1]);
    }
  }

  /** Dropping the last element of the shorter sequence keeps the relation. */
  lemma {:induction false} SubsequenceInit<T>(a: seq<T>, b: seq<T>)
    requires a != [] && Subsequence(a, b)
    ensures Subsequence(a[..|a| - 1], b)
  {
    var init := b[..|b| - 1];
    if a[|a| - 1] == b[|b| - 1] && Subsequence(a[..|a| - 1], init) {
      SubsequenceGrow(a[..|a| - 1], init, b[|b| - 1]);
      assert b == init + [b[|b| - 1]];
    } else {
      SubsequenceInit(a, init);
      SubsequenceGrow(a[..|a| - 1], init, b[|b| - 1]);
      assert b == init + [b[|b| - 1]];
    }
  }

  lemma {:induction false} SubsequenceTransitive<T>(a: seq<T>, b: seq<T>, c: seq<T>)
    requires Subsequence(a, b) && Subsequence(b, c)
    ensures Subsequence(a, c)
    decreases |c|
  {
    if a != [] {
      var cInit := c[..|c| - 1];
      if b[|b| - 1] == c[|c| - 1] && Subsequence(b[..|b| - 1], cInit) {
        if a[|a| - 1] == b[|b| - 1] && Subsequence(a[..|a| - 1], b[..|b| - 1]) {
          SubsequenceTransitive(a[..|a| - 1], b[..|b| - 1], cInit);
        } else {
          SubsequenceTransitive(a, b[..|b| - 1], cInit);
        }
      } else {
        SubsequenceTransitive(a, b, cInit);
      }
    }
  }

  /** A prefix is a subsequence. */
  lemma {:induction false} PrefixSubsequence<T>(a: seq<T>, b: seq<T>)
    requires a <= b
    ensures Subsequence(a, b)
    decreases |b|
  {
    if a == b {
      SubsequenceReflexive(a);
    } else if a != [] {
      PrefixSubsequence(a, b[..|b| - 1]);
    }
  }

  lemma {:induction false} FilterSubsequence<T>(a: seq<T>, b: seq<T>, p: T -> bool)
    requires Subsequence(a, b)
    ensures Subsequence(Filter(a, p), Filter(b, p))
    decreases |b|
  {
    if a != [] {
      var bInit, x := b[..|b| - 1], b[|b| - 1];
      if a[|a| - 1] == x && Subsequence(a[..|a| - 1], bInit) {
        FilterSubsequence(a[..|a| - 1], bInit, p);
        SubsequenceGrow(Filter(a[..|a| - 1], p), Filter(bInit, p), x);
        assert p(x) || (Filter(a, p) == Filter(a[..|a| - 1], p) && Filter(b, p) == Filter(bInit, p));
      } else {
        FilterSubsequence(a, bInit, p);
        SubsequenceGrow(Filter(a, p), Filter(bInit, p), x);
        assert p(x) || Filter(b, p) == Filter(bInit, p);
      }
    }
  }

  ghost predicate NoDuplicates<T>(s: seq<T>) {
    forall i, j :: 0 <= i < j < |s| ==> s[i] != s[j]
  }

  /** Whatever holds at i holds at i + 1. */
  ghost predicate Passes(flags: seq<bool>, i: nat) {
    i + 1 < |flags| && (flags[i] ==> flags[i + 1])
  }

  lemma {:induction false} Carry(flags: seq<bool>, n: nat)
    requires n < |flags| && flags[0] && forall i :: 0 <= i < n ==> Passes(flags, i)
    ensures flags[n]
    decreases n
  {
    if n > 0 {
      Carry(flags, n - 1);
      assert Passes(flags, n - 1);
    }
  }

  lemma FlagsPass(flags: seq<bool>, i: nat, here: bool, there: bool)
    requires i + 1 < |flags| && flags[i] == here && flags[i + 1] == there && (here ==> there)
    ensures Passes(flags, i)
  {
  }

  /** From a state that holds, the next holds exactly if the step is not bad. */
  ghost predicate Decides(flags: seq<bool>, bad: seq<bool>, i: nat) {
    i + 1 < |flags| && i < |bad| && (flags[i] ==> (flags[i + 1] <==> !bad[i]))
  }

  /** What holds at first holds throughout exactly when no step is bad. */
  lemma ThroughoutIff(flags: seq<bool>, bad: seq<bool>, n: nat)
    requires n < |flags| && n <= |bad| && flags[0] && forall i :: 0 <= i < n ==> Decides(flags, bad, i)
    ensures (forall i :: 0 <= i <= n ==> flags[i]) <==> (forall i :: 0 <= i < n ==> !bad[i])
  {
    if forall i :: 0 <= i < n ==> !bad[i] {
      forall i | 0 <= i <= n ensures flags[i] {
        forall j | 0 <= j < i ensures Passes(flags, j) {
          assert Decides(flags, bad, j);
        }
        Carry(flags, i);
      }
    }
    if forall i :: 0 <= i <= n ==> flags[i] {
      forall i | 0 <= i < n ensures !bad[i] {
        assert Decides(flags, bad, i) && flags[i] && flags[i + 1];
      }
    }
  }
}
