/** Order-preserving filtering of sequences and the facts the models use. */
module Seqs {

  /** The elements of `s` that satisfy `p`, in their order in `s`
      (a list comprehension `[x for x in s if p(x)]`). */
  function Keep<T>(s: seq<T>, p: T -> bool): seq<T>
    decreases |s|
  {
    if s == [] then []
    else Keep(s[..|s| - 1], p) + (if p(s[|s| - 1]) then [s[|s| - 1]] else [])
  }

  /** `a` is `b` with some elements left out, the rest in order. */
  predicate Subsequence<T(==)>(a: seq<T>, b: seq<T>)
    decreases |b|
  {
    if a == [] then true
    else if b == [] then false
    else if a[|a| - 1] == b[|b| - 1] then Subsequence(a[..|a| - 1], b[..|b| - 1])
    else Subsequence(a, b[..|b| - 1])
  }

  predicate NoDup<T(==)>(s: seq<T>) {
    forall i, j :: 0 <= i < j < |s| ==> s[i] != s[j]
  }

  /** What is kept satisfies `p`, and every element of `s` satisfying `p`
      is kept as often as it occurs. */
  lemma {:induction false} KeepCount<T>(s: seq<T>, p: T -> bool, x: T)
    ensures multiset(Keep(s, p))[x] == if p(x) then multiset(s)[x] else 0
    decreases |s|
  {
    if s != [] {
      KeepCount(s[..|s| - 1], p, x);
      assert s == s[..|s| - 1] + [s[|s| - 1]];
    }
  }

  lemma KeepMember<T>(s: seq<T>, p: T -> bool, x: T)
    ensures x in Keep(s, p) <==> x in s && p(x)
  {
    KeepCount(s, p, x);
    assert x in Keep(s, p) <==> x in multiset(Keep(s, p));
    assert x in s <==> x in multiset(s);
  }

  lemma {:induction false} KeepLength<T>(s: seq<T>, p: T -> bool)
    ensures |Keep(s, p)| <= |s|
    decreases |s|
  {
    if s != [] {
      KeepLength(s[..|s| - 1], p);
    }
  }

  /** Filtering twice is filtering once by the conjunction. */
  lemma {:induction false} KeepKeep<T>(s: seq<T>, p: T -> bool, q: T -> bool, pq: T -> bool)
    requires forall x :: pq(x) == (p(x) && q(x))
    ensures Keep(Keep(s, p), q) == Keep(s, pq)
    decreases |s|
  {
    if s != [] {
      var init, last := s[..|s| - 1], s[|s| - 1];
      KeepKeep(init, p, q, pq);
      assert pq(last) == (p(last) && q(last));
      assert Keep(s, pq) == Keep(init, pq) + (if pq(last) then [last] else []);
      if p(last) {
        var kp := Keep(init, p) + [last];
        assert Keep(s, p) == kp;
        assert kp[..|kp| - 1] == Keep(init, p) && kp[|kp| - 1] == last;
        assert Keep(kp, q) == Keep(Keep(init, p), q) + (if q(last) then [last] else []);
      } else {
        assert Keep(s, p) == Keep(init, p);
      }
    }
  }

  /** Filters that agree everywhere keep the same elements. */
  lemma {:induction false} KeepSame<T>(s: seq<T>, p: T -> bool, q: T -> bool)
    requires forall x :: p(x) == q(x)
    ensures Keep(s, p) == Keep(s, q)
    decreases |s|
  {
    if s != [] {
      KeepSame(s[..|s| - 1], p, q);
      assert p(s[|s| - 1]) == q(s[|s| - 1]);
    }
  }

  /** Filtering keeps the relative order of the input. */
  lemma {:induction false} KeepSubsequence<T>(s: seq<T>, p: T -> bool)
    ensures Subsequence(Keep(s, p), s)
    decreases |s|
  {
    if s != [] {
      var init, last := s[..|s| - 1], s[|s| - 1];
      KeepSubsequence(init, p);
      assert init + [last] == s;
      if p(last) {
        var k := Keep(init, p) + [last];
        assert Keep(s, p) == k;
        assert k[..|k| - 1] == Keep(init, p) && k[|k| - 1] == last;
        assert Subsequence(k, s);
      } else {
        assert Keep(s, p) == Keep(init, p);
        SubsequenceOfPrefix(Keep(init, p), init, last);
      }
    }
  }

  /** A subsequence of `b` is a subsequence of `b + [y]`. */
  lemma {:induction false} SubsequenceOfPrefix<T>(a: seq<T>, b: seq<T>, y: T)
    requires Subsequence(a, b)
    ensures Subsequence(a, b + [y])
    decreases |b|, 1
  {
    var b' := b + [y];
    assert b'[..|b'| - 1] == b;
    if a != [] && a[|a| - 1] == y {
      SubsequenceDropLast(a, b);
    }
  }

  /** Dropping the last element of a subsequence keeps it one. */
  lemma {:induction false} SubsequenceDropLast<T>(a: seq<T>, b: seq<T>)
    requires a != [] && Subsequence(a, b)
    ensures Subsequence(a[..|a| - 1], b)
    decreases |b|, 0
  {
    var a', b' := a[..|a| - 1], b[..|b| - 1];
    assert b' + [b[|b| - 1]] == b;
    if a[|a| - 1] == b[|b| - 1] {
      SubsequenceOfPrefix(a', b', b[|b| - 1]);
    } else {
      SubsequenceDropLast(a, b');
      SubsequenceOfPrefix(a', b', b[|b| - 1]);
    }
  }

  /** The images `f(x)` of the elements of `s`, each once, in order of
      first appearance. */
  function Distinct<T, K(==)>(s: seq<T>, f: T -> K): seq<K>
    decreases |s|
  {
    if s == [] then []
    else
      var d := Distinct(s[..|s| - 1], f);
      var k := f(s[|s| - 1]);
      if k in d then d else d + [k]
  }

  /** Some element of `s` has image `k`. */
  ghost predicate HasImage<T, K>(s: seq<T>, f: T -> K, k: K) {
    exists i :: 0 <= i < |s| && f(s[i]) == k
  }

  lemma HasImageSnoc<T, K>(s: seq<T>, f: T -> K, k: K)
    requires s != []
    ensures HasImage(s, f, k) <==> HasImage(s[..|s| - 1], f, k) || f(s[|s| - 1]) == k
  {
    var init := s[..|s| - 1];
    if HasImage(s, f, k) {
      var i :| 0 <= i < |s| && f(s[i]) == k;
      if i < |init| {
        assert init[i] == s[i];
      }
    }
    if HasImage(init, f, k) {
      var i :| 0 <= i < |init| && f(init[i]) == k;
      assert s[i] == init[i];
    }
  }

  /** The images are listed without repetition, and are exactly the images
      of the elements. */
  lemma {:induction false} DistinctSpec<T, K>(s: seq<T>, f: T -> K)
    ensures NoDup(Distinct(s, f))
    ensures forall k :: k in Distinct(s, f) <==> HasImage(s, f, k)
    decreases |s|
  {
    if s != [] {
      DistinctSpec(s[..|s| - 1], f);
      forall k ensures k in Distinct(s, f) <==> HasImage(s, f, k) {
        HasImageSnoc(s, f, k);
      }
    }
  }

  /** The elements of `s` whose image under `f` is `k`, in order. */
  function Group<T, K(==)>(s: seq<T>, f: T -> K, k: K): seq<T>
    decreases |s|
  {
    if s == [] then []
    else Group(s[..|s| - 1], f, k) + (if f(s[|s| - 1]) == k then [s[|s| - 1]] else [])
  }

  /** Appending one element extends exactly the group of its image. */
  lemma GroupSnoc<T, K>(s: seq<T>, f: T -> K, x: T)
    ensures forall k :: Group(s + [x], f, k) == Group(s, f, k) + (if f(x) == k then [x] else [])
  {
    assert (s + [x])[..|s + [x]| - 1] == s;
  }

  /** A group holds each element with image `k` as often as `s` does, and
      nothing else. */
  lemma {:induction false} GroupCount<T, K>(s: seq<T>, f: T -> K, k: K, x: T)
    ensures multiset(Group(s, f, k))[x] == if f(x) == k then multiset(s)[x] else 0
    decreases |s|
  {
    if s != [] {
      GroupCount(s[..|s| - 1], f, k, x);
      assert s == s[..|s| - 1] + [s[|s| - 1]];
    }
  }

  lemma GroupMember<T, K>(s: seq<T>, f: T -> K, k: K, x: T)
    ensures x in Group(s, f, k) <==> x in s && f(x) == k
  {
    GroupCount(s, f, k, x);
    assert x in Group(s, f, k) <==> x in multiset(Group(s, f, k));
    assert x in s <==> x in multiset(s);
  }

  /** A group keeps the relative order of `s`. */
  lemma {:induction false} GroupSubsequence<T, K>(s: seq<T>, f: T -> K, k: K)
    ensures Subsequence(Group(s, f, k), s)
    decreases |s|
  {
    if s != [] {
      var init, last := s[..|s| - 1], s[|s| - 1];
      GroupSubsequence(init, f, k);
      assert init + [last] == s;
      if f(last) == k {
        var g := Group(init, f, k) + [last];
        assert Group(s, f, k) == g;
        assert g[..|g| - 1] == Group(init, f, k) && g[|g| - 1] == last;
      } else {
        assert Group(s, f, k) == Group(init, f, k);
        SubsequenceOfPrefix(Group(init, f, k), init, last);
      }
    }
  }
}
