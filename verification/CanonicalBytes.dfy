// The canonical bytes end to end: what is accepted, when two values get the same
// bytes, and that decoding and encoding again is stable.

module CanonicalBytes {
  import opened Common
  import opened Ordering
  import opened JsonText
  import opened JsonPrinter
  import opened JsonMeaning
  import opened Utf8
  import opened CanonicalJson
  import opened CanonicalTheorems

  // A value has canonical bytes exactly when it unfolds to a finite tree whose
  // normal form repeats no key and holds no lone surrogate.
  lemma AcceptedExactly(nfc: Text -> Text, h: Heap, v: Py)
    requires Closed(h) && Held(h, v)
    ensures Canonical(nfc, h, v).Ok? <==>
            exists t :: Denotes(h, v, t) && KeysOnce(NfcTree(nfc, t)) && ScalarOnly(NfcTree(nfc, t))
    ensures forall t :: Denotes(h, v, t) && Canonical(nfc, h, v).Ok? ==>
              Canonical(nfc, h, v).value == Encoded(Print(NfcTree(nfc, t)))
  {
    hide Norm, Denotes, NfcTree, KeysOnce, Closed, ScalarOnly, Print, Encodable, Encoded;
    forall n | Norm(nfc, h, v, {}) == Ok(n) ensures Encodable(Print(n)) <==> ScalarOnly(n) { EncodableExactly(n); }
    if Norm(nfc, h, v, {}).Ok? {
      var t := NormDenotes(nfc, h, v, {});
      forall u | Denotes(h, v, u) ensures u == t { DenotesOne(h, v, t, u); }
    }
    forall t | Denotes(h, v, t) && KeysOnce(NfcTree(nfc, t)) ensures Norm(nfc, h, v, {}) == Ok(NfcTree(nfc, t)) {
      NormalizesExactly(nfc, h, v, NfcTree(nfc, t));
    }
  }

  // Two accepted values get the same bytes exactly when their normal forms are
  // equal with the members of dictionaries unordered.
  lemma SameBytesExactly(nfc: Text -> Text, h: Heap, v: Py, t: Value, g: Heap, u: Py, s: Value)
    requires Closed(h) && Held(h, v) && Denotes(h, v, t) && Canonical(nfc, h, v).Ok?
    requires Closed(g) && Held(g, u) && Denotes(g, u, s) && Canonical(nfc, g, u).Ok?
    ensures Canonical(nfc, h, v) == Canonical(nfc, g, u) <==> Meaning(NfcTree(nfc, t)) == Meaning(NfcTree(nfc, s))
  {
    hide Norm, Denotes, NfcTree, KeysOnce, Closed, ScalarOnly, Print, Canonical, Encoded, Meaning;
    AcceptedExactly(nfc, h, v);
    AcceptedExactly(nfc, g, u);
    AcceptedTree(nfc, h, v, t);
    AcceptedTree(nfc, g, u, s);
    SameTextExactly(NfcTree(nfc, t), NfcTree(nfc, s));
    if Encoded(Print(NfcTree(nfc, t))) == Encoded(Print(NfcTree(nfc, s))) {
      EncodedInjective(Print(NfcTree(nfc, t)), Print(NfcTree(nfc, s)));
    }
  }

  lemma AcceptedTree(nfc: Text -> Text, h: Heap, v: Py, t: Value)
    requires Closed(h) && Held(h, v) && Denotes(h, v, t) && Canonical(nfc, h, v).Ok?
    ensures KeysOnce(NfcTree(nfc, t)) && ScalarOnly(NfcTree(nfc, t))
  {
    hide Norm, Denotes, NfcTree, KeysOnce, Closed, ScalarOnly, Canonical;
    AcceptedExactly(nfc, h, v);
    var x :| Denotes(h, v, x) && KeysOnce(NfcTree(nfc, x)) && ScalarOnly(NfcTree(nfc, x));
    DenotesOne(h, v, t, x);
  }

  // ------------------------------------------------------------ decode and encode

  ghost predicate Idempotent(nfc: Text -> Text) {
    forall s :: nfc(nfc(s)) == nfc(s)
  }

  // Every string and key is its own normal form.
  predicate InNormalForm(nfc: Text -> Text, t: Value) {
    match t
    case Str(s) => nfc(s) == s
    case List(items) => forall x :: x in items ==> InNormalForm(nfc, x)
    case Dict(fields) => forall f :: f in fields ==> nfc(f.key) == f.key && InNormalForm(nfc, f.value)
    case _ => true
  }

  lemma {:induction false} NormalFormReached(nfc: Text -> Text, t: Value)
    requires Idempotent(nfc)
    ensures InNormalForm(nfc, NfcTree(nfc, t))
  {
    match t
    case List(items) =>
      forall x | x in NfcItems(nfc, items) ensures InNormalForm(nfc, x) {
        var i :| 0 <= i < |items| && NfcItems(nfc, items)[i] == x;
        NormalFormReached(nfc, items[i]);
      }
    case Dict(fields) =>
      forall f | f in NfcFields(nfc, fields) ensures nfc(f.key) == f.key && InNormalForm(nfc, f.value) {
        var i :| 0 <= i < |fields| && NfcFields(nfc, fields)[i] == f;
        NormalFormReached(nfc, fields[i].value);
      }
    case _ =>
  }

  lemma {:induction false} NormalFormStays(nfc: Text -> Text, t: Value)
    requires InNormalForm(nfc, t)
    ensures NfcTree(nfc, t) == t
  {
    match t
    case List(items) =>
      forall i | 0 <= i < |items| ensures NfcItems(nfc, items)[i] == items[i] {
        assert items[i] in items;
        NormalFormStays(nfc, items[i]);
      }
      assert NfcItems(nfc, items) == items;
    case Dict(fields) =>
      forall i | 0 <= i < |fields| ensures NfcFields(nfc, fields)[i] == fields[i] {
        assert fields[i] in fields;
        NormalFormStays(nfc, fields[i].value);
      }
      assert NfcFields(nfc, fields) == fields;
    case _ =>
  }

  lemma {:induction false} CanonInNormalForm(nfc: Text -> Text, t: Value)
    requires InNormalForm(nfc, t)
    ensures InNormalForm(nfc, Canon(t))
  {
    match t
    case List(items) => CanonItemsInNormalForm(nfc, items);
    case Dict(fields) =>
      CanonFieldsInNormalForm(nfc, fields);
      SortHolds(FieldLeq, CanonFields(fields));
      hide FieldLeq, CanonFields;
    case _ =>
  }

  lemma {:induction false} CanonFieldsInNormalForm(nfc: Text -> Text, fields: seq<Field>)
    requires forall f :: f in fields ==> nfc(f.key) == f.key && InNormalForm(nfc, f.value)
    ensures forall f :: f in CanonFields(fields) ==> nfc(f.key) == f.key && InNormalForm(nfc, f.value)
  {
    hide InNormalForm, Canon;
    if fields != [] {
      CanonInNormalForm(nfc, fields[0].value);
      CanonFieldsInNormalForm(nfc, fields[1..]);
    }
  }

  lemma {:induction false} CanonItemsInNormalForm(nfc: Text -> Text, items: seq<Value>)
    requires forall x :: x in items ==> InNormalForm(nfc, x)
    ensures forall x :: x in CanonItems(items) ==> InNormalForm(nfc, x)
  {
    hide InNormalForm, Canon;
    if items != [] {
      CanonInNormalForm(nfc, items[0]);
      CanonItemsInNormalForm(nfc, items[1..]);
    }
  }

  // Parsing the canonical text and encoding the result, however it is laid out in
  // memory, gives the same bytes again.
  lemma ReencodingIsStable(nfc: Text -> Text, h: Heap, v: Py, text: Text, g: Heap, u: Py)
    requires Idempotent(nfc)
    requires Closed(h) && Held(h, v) && Canonical(nfc, h, v) == Ok(Encoded(text))
    requires Closed(g) && Held(g, u) && (Parse(text).Some? ==> Denotes(g, u, Parse(text).value))
    ensures Parse(text).Some? && Canonical(nfc, g, u) == Canonical(nfc, h, v)
  {
    hide Norm, Denotes, NfcTree, KeysOnce, Closed, ScalarOnly, Print, Canonical, Encoded, Parse, Idempotent, InNormalForm, Canon;
    AcceptedExactly(nfc, h, v);
    var t :| Denotes(h, v, t) && KeysOnce(NfcTree(nfc, t)) && ScalarOnly(NfcTree(nfc, t));
    var n := NfcTree(nfc, t);
    EncodedInjective(text, Print(n));
    TextRoundTrip(n);
    NormalFormReached(nfc, t);
    CanonInNormalForm(nfc, n);
    NormalFormStays(nfc, Canon(n));
    CanonKeepsMeaning(n);
    EncodableExactly(n);
    EncodableExactly(Canon(n));
    AcceptedExactly(nfc, g, u);
  }
}
