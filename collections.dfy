/** Sequence helpers shared by the route models: the SQL aggregate `COUNT(...)` over the
    rows that satisfy a `WHERE` condition, and the JavaScript `filter`. */
module Collections {

  datatype Option<+T> = None | Some(value: T)

  /** Number of elements of `s` that satisfy `p`. */
  function Count<T>(s: seq<T>, p: T -> bool): (n: nat)
    ensures n <= |s|
  {
    if s == [] then 0 else (if p(s[0]) then 1 else 0) + Count(s[1..], p)
  }

  /** No element satisfies `p` exactly when the count is zero. */
  lemma {:induction false} CountZero<T>(s: seq<T>, p: T -> bool)
    ensures Count(s, p) == 0 <==> forall i :: 0 <= i < |s| ==> !p(s[i])
  {
    if s != [] {
      CountZero(s[1..], p);
      assert forall i :: 1 <= i < |s| ==> s[i] == s[1..][i - 1];
    }
  }

  /** An element that satisfies `p` makes the count positive. */
  lemma CountPositive<T>(s: seq<T>, p: T -> bool, k: nat)
    requires k < |s| && p(s[k])
    ensures Count(s, p) > 0
  {
    CountZero(s, p);
  }

  lemma {:induction false} CountAppend<T>(a: seq<T>, b: seq<T>, p: T -> bool)
    ensures Count(a + b, p) == Count(a, p) + Count(b, p)
  {
    if a == [] {
      assert a + b == b;
    } else {
      assert (a + b)[1..] == a[1..] + b;
      CountAppend(a[1..], b, p);
    }
  }

  /** Counting around one element. */
  lemma {:induction false} CountSplitAt<T>(s: seq<T>, k: nat, p: T -> bool)
    requires k < |s|
    ensures Count(s, p) == Count(s[..k], p) + (if p(s[k]) then 1 else 0) + Count(s[k + 1..], p)
  {
    assert s == s[..k] + ([s[k]] + s[k + 1..]);
    CountAppend(s[..k], [s[k]] + s[k + 1..], p);
    assert ([s[k]] + s[k + 1..])[1..] == s[k + 1..];
  }

  /** A weaker predicate holds of at least as many elements. */
  lemma {:induction false} CountMonotone<T>(s: seq<T>, p: T -> bool, q: T -> bool)
    requires forall x :: p(x) ==> q(x)
    ensures Count(s, p) <= Count(s, q)
  {
    if s != [] {
      CountMonotone(s[1..], p, q);
    }
  }

  /** Predicates that agree on every element count the same. */
  lemma {:induction false} CountSame<T>(s: seq<T>, p: T -> bool, q: T -> bool)
    requires forall i :: 0 <= i < |s| ==> p(s[i]) == q(s[i])
    ensures Count(s, p) == Count(s, q)
  {
    if s != [] {
      assert forall i :: 0 <= i < |s[1..]| ==> s[1..][i] == s[i + 1];
      CountSame(s[1..], p, q);
    }
  }

  /** The elements of `s` that satisfy `p`, in their original order. */
  function Filter<T>(s: seq<T>, p: T -> bool): (r: seq<T>)
    ensures |r| == Count(s, p)
    ensures forall i :: 0 <= i < |r| ==> p(r[i])
  {
    if s == [] then [] else (if p(s[0]) then [s[0]] else []) + Filter(s[1..], p)
  }

  /** Every element kept is an element of `s`, and every element of `s` that satisfies
      `p` is kept. */
  lemma {:induction false} FilterExact<T>(s: seq<T>, p: T -> bool)
    ensures forall x :: x in Filter(s, p) <==> x in s && p(x)
  {
    if s != [] {
      FilterExact(s[1..], p);
      assert s == [s[0]] + s[1..];
    }
  }

  /** A bound that every element of `s` meets is met by every element kept. */
  lemma {:induction false} FilterKeepsBound<T>(s: seq<T>, p: T -> bool, bound: T -> bool)
    requires forall i :: 0 <= i < |s| ==> bound(s[i])
    ensures forall i :: 0 <= i < |Filter(s, p)| ==> bound(Filter(s, p)[i])
  {
    if s != [] {
      assert forall i :: 0 <= i < |s[1..]| ==> bound(s[1..][i]) by {
        forall i | 0 <= i < |s[1..]| ensures bound(s[1..][i]) {
          assert s[1..][i] == s[i + 1];
        }
      }
      FilterKeepsBound(s[1..], p, bound);
    }
  }

  /** Counting what a filter kept: the rows that satisfy both conditions. */
  lemma {:induction false} CountFilter<T>(s: seq<T>, p: T -> bool, q: T -> bool, both: T -> bool)
    requires forall x :: both(x) == (p(x) && q(x))
    ensures Count(Filter(s, p), q) == Count(s, both)
  {
    if s != [] {
      CountFilter(s[1..], p, q, both);
      CountAppend(if p(s[0]) then [s[0]] else [], Filter(s[1..], p), q);
    }
  }

  /** `f` applied to every element, in order (a projection of rows). */
  function Map<A, B>(s: seq<A>, f: A -> B): (r: seq<B>)
    ensures |r| == |s|
    ensures forall i :: 0 <= i < |s| ==> r[i] == f(s[i])
  {
    seq(|s|, i requires 0 <= i < |s| => f(s[i]))
  }

  /** Counting projected rows is counting the rows whose projection qualifies. */
  lemma {:induction false} CountMap<A, B>(s: seq<A>, f: A -> B, p: B -> bool, pf: A -> bool)
    requires forall x :: pf(x) == p(f(x))
    ensures Count(Map(s, f), p) == Count(s, pf)
  {
    if s != [] {
      assert Map(s, f)[1..] == Map(s[1..], f);
      CountMap(s[1..], f, p, pf);
    }
  }

  /** When no two elements both satisfy `p`, at most one does. */
  lemma {:induction false} CountAtMostOne<T>(s: seq<T>, p: T -> bool)
    requires forall i, j :: 0 <= i < j < |s| ==> !(p(s[i]) && p(s[j]))
    ensures Count(s, p) <= 1
  {
    if s != [] {
      var tail := s[1..];
      if p(s[0]) {
        forall i | 0 <= i < |tail| ensures !p(tail[i]) {
          assert tail[i] == s[i + 1];
        }
        CountZero(tail, p);
      } else {
        forall i, j | 0 <= i < j < |tail| ensures !(p(tail[i]) && p(tail[j])) {
          assert tail[i] == s[i + 1] && tail[j] == s[j + 1];
        }
        CountAtMostOne(tail, p);
      }
    }
  }
}
