// Python's code point order on strings, and sorted() with the facts that make
// its result canonical.
module Ordering {
  import opened Common

  // The lexicographic order that Python puts on sequences of ranked items.
  predicate SeqLeq<T>(rank: T -> int, a: seq<T>, b: seq<T>) {
    a == [] ||
    (b != [] && (rank(a[0]) < rank(b[0]) || (rank(a[0]) == rank(b[0]) && SeqLeq(rank, a[1..], b[1..]))))
  }

  lemma {:induction false} SeqLeqTotal<T>(rank: T -> int, a: seq<T>, b: seq<T>)
    ensures SeqLeq(rank, a, b) || SeqLeq(rank, b, a)
  {
    if a != [] && b != [] && rank(a[0]) == rank(b[0]) { SeqLeqTotal(rank, a[1..], b[1..]); }
  }

  lemma {:induction false} SeqLeqTransitive<T>(rank: T -> int, a: seq<T>, b: seq<T>, c: seq<T>)
    requires SeqLeq(rank, a, b) && SeqLeq(rank, b, c)
    ensures SeqLeq(rank, a, c)
  {
    if a != [] && rank(a[0]) == rank(b[0]) && rank(b[0]) == rank(c[0]) { SeqLeqTransitive(rank, a[1..], b[1..], c[1..]); }
  }

  lemma {:induction false} SeqLeqAntisymmetric<T>(rank: T -> int, a: seq<T>, b: seq<T>)
    requires forall x, y :: x in a && y in b && rank(x) == rank(y) ==> x == y
    requires SeqLeq(rank, a, b) && SeqLeq(rank, b, a)
    ensures a == b
  {
    if a != [] {
      SeqLeqAntisymmetric(rank, a[1..], b[1..]);
      assert a == [a[0]] + a[1..] && b == [b[0]] + b[1..];
    }
  }

  // What the order means: the items agree up to a position where `a` ends or has
  // the smaller one.
  lemma {:induction false} LeqFromAgreement<T>(rank: T -> int, a: seq<T>, b: seq<T>, p: nat)
    requires p <= |a| && p <= |b| && a[..p] == b[..p] && (p == |a| || (p < |b| && rank(a[p]) < rank(b[p])))
    ensures SeqLeq(rank, a, b)
  {
    if p > 0 {
      assert a[0] == a[..p][0] == b[..p][0] == b[0];
      assert a[1..][..p - 1] == a[..p][1..] == b[..p][1..] == b[1..][..p - 1];
      LeqFromAgreement(rank, a[1..], b[1..], p - 1);
    }
  }

  lemma {:induction false} AgreementFromLeq<T>(rank: T -> int, a: seq<T>, b: seq<T>) returns (p: nat)
    requires forall x, y :: x in a && y in b && rank(x) == rank(y) ==> x == y
    requires SeqLeq(rank, a, b)
    ensures p <= |a| && p <= |b| && a[..p] == b[..p] && (p == |a| || (p < |b| && rank(a[p]) < rank(b[p])))
  {
    if a == [] || rank(a[0]) < rank(b[0]) {
      p := 0;
    } else {
      var q := AgreementFromLeq(rank, a[1..], b[1..]);
      p := q + 1;
      assert a[..p] == [a[0]] + a[1..][..q] && b[..p] == [b[0]] + b[1..][..q];
    }
  }

  // Python compares strings code point by code point.
  function CodePoint(c: char): int { c as int }

  predicate StrLeq(a: string, b: string) {
    SeqLeq(CodePoint, a, b)
  }

  lemma StrLeqTotal(a: string, b: string)
    ensures StrLeq(a, b) || StrLeq(b, a)
  {
    SeqLeqTotal(CodePoint, a, b);
  }

  lemma StrLeqTransitive(a: string, b: string, c: string)
    requires StrLeq(a, b) && StrLeq(b, c)
    ensures StrLeq(a, c)
  {
    SeqLeqTransitive(CodePoint, a, b, c);
  }

  lemma StrLeqAntisymmetric(a: string, b: string)
    requires StrLeq(a, b) && StrLeq(b, a)
    ensures a == b
  {
    SeqLeqAntisymmetric(CodePoint, a, b);
  }

  // One string comes before another: a proper prefix, or smaller where they first differ.
  ghost predicate StrBefore(a: string, b: string) {
    exists p: nat :: BeforeAt(a, b, p)
  }

  predicate BeforeAt(a: string, b: string, p: nat) {
    p <= |a| && p < |b| && a[..p] == b[..p] && (p == |a| || a[p] as int < b[p] as int)
  }

  lemma StrBeforeExactly(a: string, b: string)
    ensures StrBefore(a, b) <==> StrLeq(a, b) && a != b
  {
    if StrLeq(a, b) && a != b {
      var p := AgreementFromLeq(CodePoint, a, b);
      if p == |a| { assert a == a[..p]; assert b[..|b|] == b; }
      assert BeforeAt(a, b, p);
    }
    if StrBefore(a, b) {
      var p: nat :| BeforeAt(a, b, p);
      LeqFromAgreement(CodePoint, a, b, p);
    }
  }

  // What sorted() needs of the comparison that its key induces.
  ghost predicate TotalPreorder<T(!new)>(leq: (T, T) -> bool) {
    (forall a, b :: leq(a, b) || leq(b, a)) &&
    (forall a, b, c :: leq(a, b) && leq(b, c) ==> leq(a, c))
  }

  lemma StrLeqIsTotalPreorder()
    ensures TotalPreorder(StrLeq)
  {
    forall a, b ensures StrLeq(a, b) || StrLeq(b, a) { StrLeqTotal(a, b); }
    forall a, b, c | StrLeq(a, b) && StrLeq(b, c) ensures StrLeq(a, c) { StrLeqTransitive(a, b, c); }
  }

  ghost predicate Sorted<T>(leq: (T, T) -> bool, s: seq<T>) {
    forall i, j :: 0 <= i < j < |s| ==> leq(s[i], s[j])
  }

  function Insert<T>(leq: (T, T) -> bool, x: T, s: seq<T>): seq<T> {
    if s == [] || leq(x, s[0]) then [x] + s else [s[0]] + Insert(leq, x, s[1..])
  }

  function Sort<T>(leq: (T, T) -> bool, s: seq<T>): seq<T> {
    if s == [] then [] else Insert(leq, s[0], Sort(leq, s[1..]))
  }

  lemma {:induction false} InsertElems<T>(leq: (T, T) -> bool, x: T, s: seq<T>)
    ensures multiset(Insert(leq, x, s)) == multiset(s) + multiset{x}
    ensures forall y :: y in Insert(leq, x, s) ==> y == x || y in s
  {
    if s != [] && !leq(x, s[0]) {
      InsertElems(leq, x, s[1..]);
      assert s == [s[0]] + s[1..];
    }
  }

  lemma SortedCons<T(!new)>(leq: (T, T) -> bool, x: T, s: seq<T>)
    requires Sorted(leq, s) && forall y :: y in s ==> leq(x, y)
    ensures Sorted(leq, [x] + s)
  {
  }

  lemma {:induction false} InsertCorrect<T(!new)>(leq: (T, T) -> bool, x: T, s: seq<T>)
    requires TotalPreorder(leq) && Sorted(leq, s)
    ensures Sorted(leq, Insert(leq, x, s))
    ensures multiset(Insert(leq, x, s)) == multiset(s) + multiset{x}
  {
    InsertElems(leq, x, s);
    if s == [] {
    } else if leq(x, s[0]) {
      forall y | y in s ensures leq(x, y) {
        var i :| 0 <= i < |s| && s[i] == y;
        assert i == 0 || leq(s[0], s[i]);
      }
      SortedCons(leq, x, s);
    } else {
      InsertCorrect(leq, x, s[1..]);
      InsertElems(leq, x, s[1..]);
      forall y | y in Insert(leq, x, s[1..]) ensures leq(s[0], y) {
        if y != x { var i :| 0 <= i < |s[1..]| && s[1..][i] == y; assert leq(s[0], s[i + 1]); }
      }
      SortedCons(leq, s[0], Insert(leq, x, s[1..]));
    }
  }

  lemma {:induction false} SortCorrect<T(!new)>(leq: (T, T) -> bool, s: seq<T>)
    requires TotalPreorder(leq)
    ensures Sorted(leq, Sort(leq, s))
    ensures multiset(Sort(leq, s)) == multiset(s)
  {
    if s != [] {
      SortCorrect(leq, s[1..]);
      InsertCorrect(leq, s[0], Sort(leq, s[1..]));
      assert s == [s[0]] + s[1..];
    }
  }

  // Ties are only between equal elements: the key names the element.
  ghost predicate Keyed<T>(leq: (T, T) -> bool, s: seq<T>) {
    forall x, y :: x in s && y in s && leq(x, y) && leq(y, x) ==> x == y
  }

  lemma SortedTail<T(!new)>(leq: (T, T) -> bool, s: seq<T>)
    requires Sorted(leq, s) && s != []
    ensures Sorted(leq, s[1..]) && multiset(s[1..]) == multiset(s) - multiset{s[0]}
    ensures Keyed(leq, s) ==> Keyed(leq, s[1..])
  {
    assert s == [s[0]] + s[1..];
  }

  lemma SameHead<T(!new)>(leq: (T, T) -> bool, a: seq<T>, b: seq<T>)
    requires TotalPreorder(leq) && Keyed(leq, a)
    requires Sorted(leq, a) && Sorted(leq, b) && multiset(a) == multiset(b) && a != []
    ensures b != [] && a[0] == b[0]
  {
    SameElements(a, b);
    assert a[0] in Elems(b) && b[0] in Elems(a);
    var i :| 0 <= i < |b| && b[i] == a[0];
    var j :| 0 <= j < |a| && a[j] == b[0];
    assert leq(a[0], a[j]) && leq(b[0], b[i]);
  }

  lemma {:induction false} SortedUnique<T(!new)>(leq: (T, T) -> bool, a: seq<T>, b: seq<T>)
    requires TotalPreorder(leq) && Keyed(leq, a)
    requires Sorted(leq, a) && Sorted(leq, b) && multiset(a) == multiset(b)
    ensures a == b
  {
    hide Sorted, Keyed, TotalPreorder, Elems;
    SameElements(a, b);
    if a != [] {
      SameHead(leq, a, b);
      SortedTail(leq, a);
      SortedTail(leq, b);
      SortedUnique(leq, a[1..], b[1..]);
      SameByParts(a, b);
    }
  }

  lemma SameByParts<T>(a: seq<T>, b: seq<T>)
    requires a != [] && b != [] && a[0] == b[0] && a[1..] == b[1..]
    ensures a == b
  {
    assert a == [a[0]] + a[1..] && b == [b[0]] + b[1..];
  }

  lemma {:induction false} SortOfSorted<T(!new)>(leq: (T, T) -> bool, s: seq<T>)
    requires Sorted(leq, s)
    ensures Sort(leq, s) == s
  {
    if s != [] {
      SortOfSorted(leq, s[1..]);
      assert s == [s[0]] + s[1..];
    }
  }

  // The result of sorted() depends only on which elements it is given.
  lemma SortCanonical<T(!new)>(leq: (T, T) -> bool, a: seq<T>, b: seq<T>)
    requires TotalPreorder(leq) && Keyed(leq, a)
    requires multiset(a) == multiset(b)
    ensures Sort(leq, a) == Sort(leq, b)
  {
    SortCorrect(leq, a);
    SortCorrect(leq, b);
    forall x | x in Sort(leq, a) ensures x in a { assert x in multiset(a); }
    SortedUnique(leq, Sort(leq, a), Sort(leq, b));
  }
}
