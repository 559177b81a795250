// What a normalized value means once the order of dictionary members is
// forgotten, and the proof that the canonical text shows exactly that.

module JsonMeaning {
  import opened Common
  import opened Ordering
  import opened JsonText
  import opened JsonPrinter

  datatype Json =
    | JNull | JBool(b: bool) | JInt(i: int) | JStr(s: Text)
    | JList(items: seq<Json>) | JObject(members: map<Text, Json>)

  function Meaning(v: Value): Json {
    match v
    case Null => JNull
    case Bool(b) => JBool(b)
    case Int(i) => JInt(i)
    case Str(s) => JStr(s)
    case List(items) => JList(ItemMeanings(items))
    case Dict(fields) => JObject(MemberMeanings(fields))
  }

  function ItemMeanings(items: seq<Value>): seq<Json> {
    if items == [] then [] else [Meaning(items[0])] + ItemMeanings(items[1..])
  }

  function MemberMeanings(fields: seq<Field>): map<Text, Json> {
    if fields == [] then map[] else MemberMeanings(fields[1..])[fields[0].key := Meaning(fields[0].value)]
  }

  // Every dictionary has each key once.
  predicate KeysOnce(v: Value) {
    match v
    case List(items) => forall x :: x in items ==> KeysOnce(x)
    case Dict(fields) => Distinct(Map(FieldKey, fields)) && forall f :: f in fields ==> KeysOnce(f.value)
    case _ => true
  }

  lemma DistinctTail(fields: seq<Field>)
    requires Distinct(Map(FieldKey, fields)) && fields != []
    ensures Distinct(Map(FieldKey, fields[1..])) && forall f :: f in fields[1..] ==> f.key != fields[0].key
  {
    var keys := Map(FieldKey, fields);
    DistinctIndices(keys);
    DistinctIndices(keys[1..]);
    assert keys[1..] == Map(FieldKey, fields[1..]);
    forall f | f in fields[1..] ensures f.key != fields[0].key {
      var i :| 0 <= i < |fields| - 1 && fields[i + 1] == f;
      assert keys[0] != keys[i + 1];
    }
  }

  // The dictionary holds exactly its members.
  lemma {:induction false} MembersAt(fields: seq<Field>)
    requires Distinct(Map(FieldKey, fields))
    ensures forall f :: f in fields ==> f.key in MemberMeanings(fields) && MemberMeanings(fields)[f.key] == Meaning(f.value)
    ensures forall k :: k in MemberMeanings(fields) ==> exists f :: f in fields && f.key == k
  {
    hide Distinct, Meaning;
    if fields != [] {
      DistinctTail(fields);
      MembersAt(fields[1..]);
      assert fields == [fields[0]] + fields[1..];
    }
  }

  ghost predicate MeansAs(f: Field, fields: seq<Field>) {
    exists g :: g in fields && g.key == f.key && Meaning(g.value) == Meaning(f.value)
  }

  lemma MeansAsAt(f: Field, fields: seq<Field>)
    requires Distinct(Map(FieldKey, fields)) && MeansAs(f, fields)
    ensures f.key in MemberMeanings(fields) && MemberMeanings(fields)[f.key] == Meaning(f.value)
  {
    hide Distinct, Meaning, MemberMeanings;
    MembersAt(fields);
  }

  lemma SameMembers(a: seq<Field>, b: seq<Field>)
    requires Distinct(Map(FieldKey, a)) && Distinct(Map(FieldKey, b))
    requires forall f :: f in a ==> MeansAs(f, b)
    requires forall g :: g in b ==> MeansAs(g, a)
    ensures MemberMeanings(a) == MemberMeanings(b)
  {
    var x, y := MemberMeanings(a), MemberMeanings(b);
    hide Distinct, Meaning, MemberMeanings, MeansAs;
    MembersAt(a);
    MembersAt(b);
    forall k | k in x ensures k in y && x[k] == y[k] {
      var f :| f in a && f.key == k;
      MeansAsAt(f, b);
    }
    forall k | k in y ensures k in x {
      var g :| g in b && g.key == k;
      MeansAsAt(g, a);
    }
  }

  lemma SortedFields(fields: seq<Field>)
    requires Distinct(Map(FieldKey, fields))
    ensures var sorted := Sort(FieldLeq, CanonFields(fields));
            Distinct(Map(FieldKey, sorted)) && multiset(sorted) == multiset(CanonFields(fields)) &&
            Map(FieldKey, CanonFields(fields)) == Map(FieldKey, fields)
  {
    var canon := CanonFields(fields);
    FieldsMapped(fields);
    assert Map(FieldKey, canon) == Map(FieldKey, fields);
    FieldLeqIsTotalPreorder();
    hide FieldLeq;
    SortCorrect(FieldLeq, canon);
    MapPermutes(FieldKey, canon, Sort(FieldLeq, canon));
    DistinctByMultiset(Map(FieldKey, canon), Map(FieldKey, Sort(FieldLeq, canon)));
  }

  lemma {:induction false} CanonKeepsMeaning(v: Value)
    requires KeysOnce(v)
    ensures Meaning(Canon(v)) == Meaning(v) && KeysOnce(Canon(v))
  {
    match v
    case List(items) => CanonItemsKeepMeaning(items);
    case Dict(fields) => CanonDictKeepsMeaning(fields);
    case _ =>
  }

  lemma {:induction false} CanonItemsKeepMeaning(items: seq<Value>)
    requires forall x :: x in items ==> KeysOnce(x)
    ensures ItemMeanings(CanonItems(items)) == ItemMeanings(items)
    ensures forall x :: x in CanonItems(items) ==> KeysOnce(x)
  {
    hide Canon, Meaning, KeysOnce;
    if items != [] {
      CanonKeepsMeaning(items[0]);
      CanonItemsKeepMeaning(items[1..]);
      assert CanonItems(items)[1..] == CanonItems(items[1..]);
    }
  }

  lemma {:induction false} CanonDictKeepsMeaning(fields: seq<Field>)
    requires KeysOnce(Dict(fields))
    ensures Meaning(Canon(Dict(fields))) == Meaning(Dict(fields)) && KeysOnce(Canon(Dict(fields)))
  {
    hide Distinct, FieldLeq, MemberMeanings;
    var canon := CanonFields(fields);
    var sorted := Sort(FieldLeq, canon);
    SortedFields(fields);
    FieldsMapped(fields);
    SameElements(sorted, canon);
    forall f | f in fields ensures MeansAs(f, sorted) && KeysOnce(CanonField(f).value) {
      var i :| 0 <= i < |fields| && fields[i] == f;
      assert canon[i] == CanonField(f);
      assert canon[i] in Elems(canon);
      CanonKeepsMeaning(f.value);
      assert CanonField(f) in sorted;
    }
    forall g | g in sorted ensures MeansAs(g, fields) && KeysOnce(g.value) {
      assert g in Elems(canon);
      var i :| 0 <= i < |canon| && canon[i] == g;
      assert fields[i] in fields && g == CanonField(fields[i]);
      CanonKeepsMeaning(fields[i].value);
    }
    SameMembers(fields, sorted);
  }

  // Equal meanings are equal up to the order of members.
  lemma {:induction false} MeaningDecidesCanon(v: Value, w: Value)
    requires KeysOnce(v) && KeysOnce(w) && Meaning(v) == Meaning(w)
    ensures Canon(v) == Canon(w)
  {
    match v
    case List(items) => MeaningsDecideItems(items, w.items);
    case Dict(fields) => MeaningDecidesDict(fields, w.fields);
    case _ =>
  }

  lemma {:induction false} MeaningsDecideItems(items: seq<Value>, others: seq<Value>)
    requires (forall x :: x in items ==> KeysOnce(x)) && (forall x :: x in others ==> KeysOnce(x))
    requires ItemMeanings(items) == ItemMeanings(others)
    ensures CanonItems(items) == CanonItems(others)
  {
    hide Canon, Meaning, KeysOnce;
    if items == [] {
      assert others == [];
    } else {
      assert others != [];
      assert ItemMeanings(items)[0] == ItemMeanings(others)[0];
      assert ItemMeanings(items)[1..] == ItemMeanings(items[1..]) && ItemMeanings(others)[1..] == ItemMeanings(others[1..]);
      MeaningDecidesCanon(items[0], others[0]);
      MeaningsDecideItems(items[1..], others[1..]);
    }
  }

  lemma {:induction false} MeaningDecidesDict(fields: seq<Field>, others: seq<Field>)
    requires KeysOnce(Dict(fields)) && KeysOnce(Dict(others))
    requires MemberMeanings(fields) == MemberMeanings(others)
    ensures Canon(Dict(fields)) == Canon(Dict(others))
    decreases fields, 1
  {
    hide Distinct, MemberMeanings, Canon, CanonAs;
    forall f | f in fields ensures CanonAs(f, others) { MeaningDecidesField(f, fields, others); }
    forall g | g in others ensures CanonAs(g, fields) { MeaningDecidesOther(g, fields, others); }
    SameCanonFields(fields, others);
  }

  ghost predicate CanonAs(f: Field, fields: seq<Field>) {
    exists g :: g in fields && g.key == f.key && Canon(g.value) == Canon(f.value)
  }

  lemma MeaningDecidesField(f: Field, fields: seq<Field>, others: seq<Field>)
    requires KeysOnce(Dict(fields)) && KeysOnce(Dict(others)) && f in fields
    requires MemberMeanings(fields) == MemberMeanings(others)
    ensures CanonAs(f, others)
    decreases f
  {
    hide Distinct, MemberMeanings, Canon, Meaning;
    MembersAt(fields);
    MembersAt(others);
    var g :| g in others && g.key == f.key;
    MeaningDecidesCanon(f.value, g.value);
  }

  lemma MeaningDecidesOther(g: Field, fields: seq<Field>, others: seq<Field>)
    requires KeysOnce(Dict(fields)) && KeysOnce(Dict(others)) && g in others
    requires MemberMeanings(fields) == MemberMeanings(others)
    ensures CanonAs(g, fields)
    decreases fields, 0
  {
    hide Distinct, MemberMeanings, Canon, Meaning;
    MembersAt(fields);
    MembersAt(others);
    var f :| f in fields && f.key == g.key;
    MeaningDecidesCanon(f.value, g.value);
  }

  lemma SameCanonFields(a: seq<Field>, b: seq<Field>)
    requires Distinct(Map(FieldKey, a)) && Distinct(Map(FieldKey, b))
    requires (forall f :: f in a ==> CanonAs(f, b)) && (forall g :: g in b ==> CanonAs(g, a))
    ensures Canon(Dict(a)) == Canon(Dict(b))
  {
    var x, y := CanonFields(a), CanonFields(b);
    assert Canon(Dict(a)) == Dict(Sort(FieldLeq, x)) && Canon(Dict(b)) == Dict(Sort(FieldLeq, y));
    hide Canon, Distinct, FieldLeq, CanonAs, Elems, Keyed, Sort, TotalPreorder;
    SameCanonElems(a, b);
    SortedFields(a);
    SortedFields(b);
    KeysDistinguish(x);
    KeysDistinguish(y);
    DistinctMultiset(x);
    DistinctMultiset(y);
    FieldLeqIsTotalPreorder();
    SortCanonical(FieldLeq, x, y);
  }

  lemma SameCanonElems(a: seq<Field>, b: seq<Field>)
    requires (forall f :: f in a ==> CanonAs(f, b)) && (forall g :: g in b ==> CanonAs(g, a))
    ensures Elems(CanonFields(a)) == Elems(CanonFields(b))
  {
    hide CanonAs;
    CanonElemsWithin(a, b);
    CanonElemsWithin(b, a);
  }

  lemma CanonElemsWithin(a: seq<Field>, b: seq<Field>)
    requires forall f :: f in a ==> CanonAs(f, b)
    ensures Elems(CanonFields(a)) <= Elems(CanonFields(b))
  {
    FieldsMapped(a);
    FieldsMapped(b);
    MapElems(CanonField, a);
    MapElems(CanonField, b);
    hide Canon, Map;
    forall f | f in a ensures exists g :: g in b && CanonField(g) == CanonField(f) {
      assert CanonAs(f, b);
      var g :| g in b && g.key == f.key && Canon(g.value) == Canon(f.value);
      assert CanonField(g) == CanonField(f);
    }
  }

  // Distinct keys make the fields distinct, and ties in the key order trivial.
  lemma KeysDistinguish(fields: seq<Field>)
    requires Distinct(Map(FieldKey, fields))
    ensures Distinct(fields) && Keyed(FieldLeq, fields)
  {
    DistinctIndices(Map(FieldKey, fields));
    DistinctIndices(fields);
    hide Distinct;
    forall x, y | x in fields && y in fields && FieldLeq(x, y) && FieldLeq(y, x) ensures x == y {
      TextLeqAntisymmetric(x.key, y.key);
      var i :| 0 <= i < |fields| && fields[i] == x;
      var j :| 0 <= j < |fields| && fields[j] == y;
      assert Map(FieldKey, fields)[i] == Map(FieldKey, fields)[j];
    }
  }

  // Two values get the same text exactly when they mean the same.
  lemma SameTextExactly(v: Value, w: Value)
    requires KeysOnce(v) && KeysOnce(w)
    ensures Print(v) == Print(w) <==> Meaning(v) == Meaning(w)
  {
    hide Print, Canon, Meaning, Parse, KeysOnce;
    TextRoundTrip(v);
    TextRoundTrip(w);
    CanonKeepsMeaning(v);
    CanonKeepsMeaning(w);
    if Meaning(v) == Meaning(w) { MeaningDecidesCanon(v, w); }
  }
}
