// Vocabulary shared by the other modules: optional and failing values, and
// sequences without repetition.
module Common {
  datatype Option<+T> = None | Some(value: T)

  datatype Result<+T, +E> = Ok(value: T) | Err(error: E)

  type Id = string

  // White space and NFC come from the Unicode tables, as parameters.
  datatype TextRules = TextRules(isSpace: char -> bool, nfc: string -> string)

  // not s.strip()
  predicate Blank(isSpace: char -> bool, s: string) {
    forall c :: c in s ==> isSpace(c)
  }

  function Elems<T>(s: seq<T>): set<T> {
    set x | x in s
  }

  lemma ElemsCons<T>(s: seq<T>)
    requires s != []
    ensures Elems(s) == {s[0]} + Elems(s[1..])
  {
  }

  lemma ElemsConcat<T>(a: seq<T>, b: seq<T>)
    ensures Elems(a + b) == Elems(a) + Elems(b)
  {
  }

  // Python's uniqueness test: len(set(s)) == len(s).
  predicate Distinct<T(==)>(s: seq<T>) {
    |Elems(s)| == |s|
  }

  predicate UniqueBy<T>(items: seq<T>, id: T -> Id) {
    Distinct(Map(id, items))
  }

  lemma {:induction false} DistinctSnoc<T>(p: seq<T>, z: T)
    ensures Elems(p + [z]) == Elems(p) + {z}
    ensures |Elems(p)| <= |p|
    ensures Distinct(p + [z]) <==> Distinct(p) && z !in p
  {
    assert Elems(p + [z]) == Elems(p) + {z};
    if p != [] {
      DistinctSnoc(p[..|p| - 1], p[|p| - 1]);
      assert p == p[..|p| - 1] + [p[|p| - 1]];
    }
    if z in p { assert Elems(p + [z]) == Elems(p); }
  }

  predicate NoTwoEqual<T(==)>(s: seq<T>) {
    forall i, j :: 0 <= i < j < |s| ==> s[i] != s[j]
  }

  lemma NoTwoEqualSnoc<T>(p: seq<T>, z: T)
    ensures NoTwoEqual(p + [z]) <==> NoTwoEqual(p) && z !in p
  {
    var s := p + [z];
    if NoTwoEqual(s) {
      forall i, j | 0 <= i < j < |p| ensures p[i] != p[j] { assert s[i] != s[j]; }
      forall i | 0 <= i < |p| ensures p[i] != z { assert s[i] != s[|p|]; }
    }
  }

  lemma {:induction false} DistinctIndices<T>(s: seq<T>)
    ensures Distinct(s) <==> forall i, j :: 0 <= i < j < |s| ==> s[i] != s[j]
  {
    assert NoTwoEqual(s) <==> forall i, j :: 0 <= i < j < |s| ==> s[i] != s[j];
    if s != [] {
      var p, z := s[..|s| - 1], s[|s| - 1];
      assert s == p + [z];
      DistinctIndices(p);
      assert NoTwoEqual(p) <==> Distinct(p);
      DistinctSnoc(p, z);
      NoTwoEqualSnoc(p, z);
      hide NoTwoEqual, Distinct;
    }
  }

  lemma {:induction false} DistinctMultiset<T>(s: seq<T>)
    requires Distinct(s)
    ensures multiset(s) == multiset(Elems(s))
  {
    if s != [] {
      var p, z := s[..|s| - 1], s[|s| - 1];
      assert s == p + [z];
      DistinctSnoc(p, z);
      DistinctMultiset(p);
    }
  }

  lemma UniqueByIds<T>(items: seq<T>, id: T -> Id, x: T, y: T)
    requires UniqueBy(items, id) && x in items && y in items && id(x) == id(y)
    ensures x == y
  {
    DistinctIndices(Map(id, items));
    var i :| 0 <= i < |items| && items[i] == x;
    var j :| 0 <= j < |items| && items[j] == y;
    assert Map(id, items)[i] == Map(id, items)[j];
  }

  // A dictionary keyed by the records' own IDs, as a search.
  function FindBy<T>(key: T -> Id, items: seq<T>, id: Id): (r: Option<T>)
    ensures r.Some? ==> r.value in items && key(r.value) == id
    ensures r.None? ==> forall x :: x in items ==> key(x) != id
  {
    if items == [] then None
    else if key(items[0]) == id then Some(items[0])
    else FindBy(key, items[1..], id)
  }

  lemma FindByKey<T>(key: T -> Id, items: seq<T>, x: T)
    requires UniqueBy(items, key) && x in items
    ensures FindBy(key, items, key(x)) == Some(x)
  {
    UniqueByIds(items, key, FindBy(key, items, key(x)).value, x);
  }

  // {item.id: item for item in items}
  function IndexBy<T(==)>(key: T -> Id, items: seq<T>): (r: map<Id, T>)
    requires UniqueBy(items, key)
    ensures forall id :: id in r <==> FindBy(key, items, id).Some?
    ensures forall id :: id in r ==> FindBy(key, items, id) == Some(r[id])
  {
    assert forall x, y :: x in items && y in items && key(x) == key(y) ==> x == y by {
      forall x, y | x in items && y in items && key(x) == key(y) ensures x == y { UniqueByIds(items, key, x, y); }
    }
    assert forall x :: x in items ==> FindBy(key, items, key(x)) == Some(x) by {
      forall x | x in items ensures FindBy(key, items, key(x)) == Some(x) { FindByKey(key, items, x); }
    }
    map x | x in items :: key(x) := x
  }

  lemma SubsetCount<T>(a: set<T>, b: set<T>)
    requires a <= b
    ensures |a| <= |b|
  {
    assert b == a + (b - a);
  }

  function Map<A, B>(f: A -> B, s: seq<A>): (r: seq<B>)
    ensures |r| == |s| && forall i :: 0 <= i < |s| ==> r[i] == f(s[i])
  {
    if s == [] then [] else [f(s[0])] + Map(f, s[1..])
  }

  function Filter<T>(p: T -> bool, s: seq<T>): (r: seq<T>)
    ensures forall x :: x in r ==> x in s && p(x)
    ensures forall x :: x in s && p(x) ==> x in r
  {
    if s == [] then [] else (if p(s[0]) then [s[0]] else []) + Filter(p, s[1..])
  }

  // ---------------------------------------------------------- permutations

  lemma DistinctByMultiset<T>(a: seq<T>, b: seq<T>)
    requires multiset(a) == multiset(b)
    ensures Distinct(a) <==> Distinct(b)
  {
    SameElements(a, b);
  }

  lemma SameElements<T>(a: seq<T>, b: seq<T>)
    requires multiset(a) == multiset(b)
    ensures Elems(a) == Elems(b)
    ensures |a| == |b|
  {
    forall x ensures x in a <==> x in b { assert x in multiset(a) <==> x in multiset(b); }
    assert |multiset(a)| == |a| && |multiset(b)| == |b|;
  }

  // Moves one element of a permutation to the front.
  lemma BringForward<T>(a: seq<T>, b: seq<T>) returns (i: nat)
    requires multiset(a) == multiset(b) && a != []
    ensures i < |b| && b[i] == a[0] && b == b[..i] + [a[0]] + b[i + 1..]
    ensures multiset(a[1..]) == multiset(b[..i] + b[i + 1..])
  {
    SameElements(a, b);
    assert a[0] in Elems(a);
    i :| 0 <= i < |b| && b[i] == a[0];
    assert b == b[..i] + [a[0]] + b[i + 1..];
    assert a == [a[0]] + a[1..];
    assert multiset(a[1..]) == multiset(a) - multiset{a[0]};
    assert multiset(b[..i] + b[i + 1..]) == multiset(b) - multiset{a[0]};
  }

  lemma {:induction false} MapConcat<A, B>(f: A -> B, a: seq<A>, b: seq<A>)
    ensures Map(f, a + b) == Map(f, a) + Map(f, b)
  {
  }

  lemma {:induction false} MapPermutes<A, B>(f: A -> B, a: seq<A>, b: seq<A>)
    requires multiset(a) == multiset(b)
    ensures multiset(Map(f, a)) == multiset(Map(f, b))
  {
    if a == [] {
      SameElements(a, b);
      assert b == [];
    } else {
      var i := BringForward(a, b);
      MapPermutes(f, a[1..], b[..i] + b[i + 1..]);
      MapConcat(f, b[..i], b[i + 1..]);
      MapConcat(f, b[..i] + [a[0]], b[i + 1..]);
      MapConcat(f, b[..i], [a[0]]);
    }
  }

  lemma {:induction false} FilterConcat<T>(p: T -> bool, a: seq<T>, b: seq<T>)
    ensures Filter(p, a + b) == Filter(p, a) + Filter(p, b)
  {
    if a == [] {
      assert a + b == b;
      assert Filter(p, a) + Filter(p, b) == Filter(p, b);
    } else {
      var head := if p(a[0]) then [a[0]] else [];
      calc {
        Filter(p, a + b);
        { assert (a + b)[1..] == a[1..] + b; }
        head + Filter(p, a[1..] + b);
        { FilterConcat(p, a[1..], b); }
        head + (Filter(p, a[1..]) + Filter(p, b));
        Filter(p, a) + Filter(p, b);
      }
    }
  }

  lemma {:induction false} FilterPermutes<T>(p: T -> bool, a: seq<T>, b: seq<T>)
    requires multiset(a) == multiset(b)
    ensures multiset(Filter(p, a)) == multiset(Filter(p, b))
  {
    if a == [] {
      SameElements(a, b);
      assert b == [];
    } else {
      var i := BringForward(a, b);
      FilterPermutes(p, a[1..], b[..i] + b[i + 1..]);
      FilterConcat(p, b[..i], b[i + 1..]);
      FilterConcat(p, b[..i] + [a[0]], b[i + 1..]);
      FilterConcat(p, b[..i], [a[0]]);
    }
  }

  lemma DistinctConcat<T>(a: seq<T>, b: seq<T>)
    ensures Elems(a + b) == Elems(a) + Elems(b)
    ensures Distinct(a + b) <==> Distinct(a) && Distinct(b) && Elems(a) !! Elems(b)
  {
    var x, y := Elems(a), Elems(b);
    ElemsConcat(a, b);
    ElemsCount(a);
    ElemsCount(b);
    assert |x + y| + |x * y| == |x| + |y|;
    if x !! y { assert forall e :: e in x * y ==> e in x && e in y; assert x * y == {}; }
    if |x * y| == 0 {
      assert x * y == {};
      assert forall e :: e in x && e in y ==> e in x * y;
    }
  }

  lemma ElemsCount<T>(s: seq<T>)
    ensures |Elems(s)| <= |s|
  {
    if s != [] { DistinctSnoc(s, s[0]); }
  }

  lemma {:induction false} MapElems<T, K>(key: T -> K, s: seq<T>)
    ensures Elems(Map(key, s)) == set x | x in s :: key(x)
  {
    forall k | k in Elems(Map(key, s)) ensures exists x :: x in s && key(x) == k {
      var i :| 0 <= i < |s| && Map(key, s)[i] == k;
      assert s[i] in s;
    }
    forall x | x in s ensures key(x) in Elems(Map(key, s)) {
      var i :| 0 <= i < |s| && s[i] == x;
      assert Map(key, s)[i] == key(x);
    }
  }

  lemma FilterKeys<T, K>(p: T -> bool, key: T -> K, s: seq<T>)
    ensures Elems(Map(key, Filter(p, s))) <= Elems(Map(key, s))
  {
    MapElems(key, Filter(p, s));
    MapElems(key, s);
  }

  // Filtering keeps distinctness of a key.
  lemma {:induction false} FilterDistinct<T, K>(p: T -> bool, key: T -> K, s: seq<T>)
    requires Distinct(Map(key, s))
    ensures Distinct(Map(key, Filter(p, s)))
  {
    if s != [] {
      var kept := Filter(p, s[1..]);
      DistinctConcat([key(s[0])], Map(key, s[1..]));
      FilterDistinct(p, key, s[1..]);
      if p(s[0]) {
        FilterKeys(p, key, s[1..]);
        DistinctConcat([key(s[0])], Map(key, kept));
        assert Filter(p, s) == [s[0]] + kept;
        assert Map(key, Filter(p, s)) == [key(s[0])] + Map(key, kept);
      } else {
        assert Filter(p, s) == kept;
      }
    }
  }

  // [by_id[i] for i in ids]; an ID without a record contributes nothing.
  function Pick<T>(key: T -> Id, items: seq<T>, ids: seq<Id>): seq<T> {
    if ids == [] then []
    else match FindBy(key, items, ids[0])
      case Some(x) => [x] + Pick(key, items, ids[1..])
      case None => Pick(key, items, ids[1..])
  }

  lemma {:induction false} PickFinds<T>(key: T -> Id, items: seq<T>, ids: seq<Id>)
    requires forall id :: id in ids ==> FindBy(key, items, id).Some?
    ensures Map(key, Pick(key, items, ids)) == ids
    ensures forall x :: x in Pick(key, items, ids) ==> key(x) in ids && FindBy(key, items, key(x)) == Some(x)
  {
    if ids != [] { PickFinds(key, items, ids[1..]); }
  }

  lemma {:induction false} FilterNone<T>(p: T -> bool, s: seq<T>)
    requires forall x :: x in s ==> !p(x)
    ensures Filter(p, s) == []
  {
    if s != [] { FilterNone(p, s[1..]); }
  }

  // tuple(item for item in items if item.id in wanted)
  function KeepIds<T>(key: T -> Id, items: seq<T>, wanted: set<Id>): seq<T> {
    Filter((x: T) => key(x) in wanted, items)
  }

  lemma KeepNone<T>(key: T -> Id, items: seq<T>, wanted: set<Id>)
    requires wanted == {}
    ensures KeepIds(key, items, wanted) == []
  {
    FilterNone((x: T) => key(x) in wanted, items);
  }

  // It keeps exactly the wanted IDs, each once.
  lemma KeptIds<T>(key: T -> Id, items: seq<T>, wanted: set<Id>)
    requires UniqueBy(items, key) && wanted <= Elems(Map(key, items))
    ensures var kept := KeepIds(key, items, wanted);
            UniqueBy(kept, key) && Elems(Map(key, kept)) == wanted && |kept| == |wanted|
  {
    FilterDistinct((x: T) => key(x) in wanted, key, items);
    MapElems(key, KeepIds(key, items, wanted));
    MapElems(key, items);
    assert Elems(Map(key, KeepIds(key, items, wanted))) == wanted;
  }
}
