/** `ORDER BY`: a stable insertion sort parameterised by a "comes no later than" relation,
    and the code-point order on strings used for `ORDER BY name`. Rows that the relation
    ranks equal keep their storage order, which is one of the orders SQL allows. */
module Sorting {
  import opened Collections

  /** `le` is total and transitive: a sort key. */
  ghost predicate TotalPreorder<T(!new)>(le: (T, T) -> bool)
  {
    && (forall a, b :: le(a, b) || le(b, a))
    && (forall a, b, c :: le(a, b) && le(b, c) ==> le(a, c))
  }

  ghost predicate Ordered<T>(s: seq<T>, le: (T, T) -> bool)
  {
    forall i, j :: 0 <= i < j < |s| ==> le(s[i], s[j])
  }

  /** Puts `x` before the first element it comes no later than. */
  function Insert<T>(x: T, s: seq<T>, le: (T, T) -> bool): (r: seq<T>)
    ensures multiset(r) == multiset(s) + multiset{x}
  {
    if s == [] || le(x, s[0]) then [x] + s
    else
      assert s == [s[0]] + s[1..];
      [s[0]] + Insert(x, s[1..], le)
  }

  /** A bound met by `x` and by every element of `s` is met by every element after the
      insertion. */
  lemma {:induction false} InsertKeepsBound<T>(x: T, s: seq<T>, le: (T, T) -> bool, bound: T -> bool)
    requires bound(x) && forall i :: 0 <= i < |s| ==> bound(s[i])
    ensures forall i :: 0 <= i < |Insert(x, s, le)| ==> bound(Insert(x, s, le)[i])
  {
    if s != [] && !le(x, s[0]) {
      assert forall i :: 0 <= i < |s[1..]| ==> bound(s[1..][i]) by {
        forall i | 0 <= i < |s[1..]| ensures bound(s[1..][i]) {
          assert s[1..][i] == s[i + 1];
        }
      }
      InsertKeepsBound(x, s[1..], le, bound);
    }
  }

  lemma {:induction false} InsertOrdered<T(!new)>(x: T, s: seq<T>, le: (T, T) -> bool)
    requires TotalPreorder(le) && Ordered(s, le)
    ensures Ordered(Insert(x, s, le), le)
  {
    if s != [] && !le(x, s[0]) {
      var head, tail := s[0], s[1..];
      assert Ordered(tail, le) by {
        forall i, j | 0 <= i < j < |tail| ensures le(tail[i], tail[j]) {
          assert tail[i] == s[i + 1] && tail[j] == s[j + 1];
        }
      }
      InsertOrdered(x, tail, le);
      forall i | 0 <= i < |tail| ensures le(head, tail[i]) {
        assert tail[i] == s[i + 1];
      }
      InsertKeepsBound(x, tail, le, y => le(head, y));
    }
  }

  function SortBy<T(!new)>(s: seq<T>, le: (T, T) -> bool): (r: seq<T>)
    ensures multiset(r) == multiset(s)
    ensures |r| == |s|
    ensures TotalPreorder(le) ==> Ordered(r, le)
  {
    if s == [] then []
    else
      assert s == [s[0]] + s[1..];
      var tail := SortBy(s[1..], le);
      assert TotalPreorder(le) ==> Ordered(Insert(s[0], tail, le), le) by {
        if TotalPreorder(le) {
          InsertOrdered(s[0], tail, le);
        }
      }
      Insert(s[0], tail, le)
  }

  /** Sorting neither adds nor loses rows that satisfy `p`. */
  lemma {:induction false} CountInsert<T>(x: T, s: seq<T>, le: (T, T) -> bool, p: T -> bool)
    ensures Count(Insert(x, s, le), p) == (if p(x) then 1 else 0) + Count(s, p)
  {
    if s != [] && !le(x, s[0]) {
      CountInsert(x, s[1..], le, p);
      assert ([s[0]] + Insert(x, s[1..], le))[1..] == Insert(x, s[1..], le);
    } else {
      assert ([x] + s)[1..] == s;
    }
  }

  lemma {:induction false} CountSortBy<T(!new)>(s: seq<T>, le: (T, T) -> bool, p: T -> bool)
    ensures Count(SortBy(s, le), p) == Count(s, p)
  {
    if s != [] {
      CountSortBy(s[1..], le, p);
      CountInsert(s[0], SortBy(s[1..], le), le, p);
    }
  }

  /** Filtering an ordered sequence keeps it ordered (the order of a `WHERE` subset). */
  lemma {:induction false} FilterOrdered<T>(s: seq<T>, p: T -> bool, le: (T, T) -> bool)
    requires Ordered(s, le)
    ensures Ordered(Filter(s, p), le)
  {
    if s != [] {
      var tail := s[1..];
      assert Ordered(tail, le) by {
        forall i, j | 0 <= i < j < |tail| ensures le(tail[i], tail[j]) {
          assert tail[i] == s[i + 1] && tail[j] == s[j + 1];
        }
      }
      FilterOrdered(tail, p, le);
      if p(s[0]) {
        var head := s[0];
        forall i | 0 <= i < |tail| ensures le(head, tail[i]) {
          assert tail[i] == s[i + 1];
        }
        FilterKeepsBound(tail, p, y => le(head, y));
      }
    }
  }

  /** Code-point order on strings; a proper prefix comes first. */
  predicate LexLe(a: string, b: string)
  {
    a == [] || (b != [] && (a[0] < b[0] || (a[0] == b[0] && LexLe(a[1..], b[1..]))))
  }

  lemma {:induction false} LexLeTotal(a: string, b: string)
    ensures LexLe(a, b) || LexLe(b, a)
  {
    if a != [] && b != [] && a[0] == b[0] {
      LexLeTotal(a[1..], b[1..]);
    }
  }

  lemma {:induction false} LexLeTransitive(a: string, b: string, c: string)
    requires LexLe(a, b) && LexLe(b, c)
    ensures LexLe(a, c)
  {
    if a != [] && b != [] && c != [] && a[0] == b[0] && b[0] == c[0] {
      LexLeTransitive(a[1..], b[1..], c[1..]);
    }
  }
}
