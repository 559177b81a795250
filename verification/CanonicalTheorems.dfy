// What canonicalization guarantees: which object graphs it accepts, that every
// refusal is real, and that its bytes decide equality.

module CanonicalTheorems {
  import opened Common
  import opened JsonText
  import opened JsonPrinter
  import opened JsonMeaning
  import opened Utf8
  import opened CanonicalJson

  // ---------------------------------------------------------- graphs and trees

  // The object denotes the tree: its finite unfolding. A shared container
  // unfolds wherever it is referenced; an object on a cycle has no unfolding.
  ghost predicate Denotes(h: Heap, v: Py, t: Value)
    decreases t
  {
    match v
    case PyNone => t == Null
    case PyBool(b) => t == Bool(b)
    case PyInt(i) => t == Int(i)
    case PyStr(s) => t == Str(s)
    case PyFloat => false
    case PyOther => false
    case PyRef(a) =>
      a in h && match h[a]
      case ListOf(items) => t.List? && DenoteItems(h, items, t.items)
      case DictOf(entries) => t.Dict? && DenoteEntries(h, entries, t.fields)
  }

  ghost predicate DenoteItems(h: Heap, items: seq<Py>, ts: seq<Value>)
    decreases ts
  {
    |items| == |ts| && forall i :: 0 <= i < |ts| ==> Denotes(h, items[i], ts[i])
  }

  ghost predicate DenoteEntries(h: Heap, entries: seq<Item>, fields: seq<Field>)
    decreases fields
  {
    |entries| == |fields| &&
    forall i :: 0 <= i < |fields| ==>
      entries[i].key == StrKey(fields[i].key) && Denotes(h, entries[i].value, fields[i].value)
  }

  // The tree with every string and key in normal form.
  function NfcTree(nfc: Text -> Text, t: Value): Value {
    match t
    case Str(s) => Str(nfc(s))
    case List(items) => List(NfcItems(nfc, items))
    case Dict(fields) => Dict(NfcFields(nfc, fields))
    case _ => t
  }

  function NfcItems(nfc: Text -> Text, items: seq<Value>): (r: seq<Value>)
    ensures |r| == |items| && forall i :: 0 <= i < |items| ==> r[i] == NfcTree(nfc, items[i])
  {
    if items == [] then [] else [NfcTree(nfc, items[0])] + NfcItems(nfc, items[1..])
  }

  function NfcField(nfc: Text -> Text, f: Field): Field {
    Field(nfc(f.key), NfcTree(nfc, f.value))
  }

  function NfcFields(nfc: Text -> Text, fields: seq<Field>): (r: seq<Field>)
    ensures |r| == |fields| && forall i :: 0 <= i < |fields| ==> r[i] == NfcField(nfc, fields[i])
  {
    if fields == [] then [] else [NfcField(nfc, fields[0])] + NfcFields(nfc, fields[1..])
  }

  function Size(t: Value): (n: nat)
    ensures n > 0
  {
    match t
    case List(items) => 1 + SizeItems(items)
    case Dict(fields) => 1 + SizeFields(fields)
    case _ => 1
  }

  function SizeItems(items: seq<Value>): (n: nat)
    ensures forall i :: 0 <= i < |items| ==> Size(items[i]) <= n
  {
    if items == [] then 0
    else
      assert items == [items[0]] + items[1..];
      Size(items[0]) + SizeItems(items[1..])
  }

  function SizeFields(fields: seq<Field>): (n: nat)
    ensures forall i :: 0 <= i < |fields| ==> Size(fields[i].value) <= n
  {
    if fields == [] then 0
    else
      assert fields == [fields[0]] + fields[1..];
      Size(fields[0].value) + SizeFields(fields[1..])
  }

  lemma {:induction false} DenotesOne(h: Heap, v: Py, t: Value, u: Value)
    requires Denotes(h, v, t) && Denotes(h, v, u)
    ensures t == u
    decreases t
  {
    if v.PyRef? {
      match h[v.addr]
      case ListOf(items) =>
        forall i | 0 <= i < |items| ensures t.items[i] == u.items[i] { DenotesOne(h, items[i], t.items[i], u.items[i]); }
        assert t.items == u.items;
      case DictOf(entries) =>
        forall i | 0 <= i < |entries| ensures t.fields[i] == u.fields[i] {
          DenotesOne(h, entries[i].value, t.fields[i].value, u.fields[i].value);
        }
        assert t.fields == u.fields;
    }
  }

  // ------------------------------------------------ accepted graphs have a tree

  lemma {:induction false} NormDenotes(nfc: Text -> Text, h: Heap, v: Py, active: set<Addr>) returns (t: Value)
    requires Closed(h) && Held(h, v) && Norm(nfc, h, v, active).Ok?
    ensures Denotes(h, v, t) && Norm(nfc, h, v, active) == Ok(NfcTree(nfc, t)) && KeysOnce(NfcTree(nfc, t))
    decreases |h.Keys - active|, 0, 0
  {
    hide Closed, DenoteItems, DenoteEntries, NormItems, NormEntries, NfcItems, NfcFields, Distinct;
    match v
    case PyNone => t := Null;
    case PyBool(b) => t := Bool(b);
    case PyInt(i) => t := Int(i);
    case PyStr(s) => t := Str(s);
    case PyRef(a) =>
      hide Denotes, NfcTree, KeysOnce;
      FewerLeft(h.Keys, active, a);
      ValuesHeld(h, a);
      match h[a] {
        case ListOf(items) =>
          var ts := ItemsDenote(nfc, h, items, active + {a});
          t := List(ts);
          ContainerTree(nfc, h, a, t);
        case DictOf(entries) =>
          var fields := EntriesDenote(nfc, h, entries, active + {a});
          t := Dict(fields);
          ContainerTree(nfc, h, a, t);
      }
  }

  lemma ContainerTree(nfc: Text -> Text, h: Heap, a: Addr, t: Value)
    requires a in h
    ensures
      match h[a]
      case ListOf(items) => Denotes(h, PyRef(a), t) <==> t.List? && DenoteItems(h, items, t.items)
      case DictOf(entries) => Denotes(h, PyRef(a), t) <==> t.Dict? && DenoteEntries(h, entries, t.fields)
    ensures t.List? ==> NfcTree(nfc, t) == List(NfcItems(nfc, t.items))
    ensures t.List? ==> (KeysOnce(NfcTree(nfc, t)) <==> forall x :: x in NfcItems(nfc, t.items) ==> KeysOnce(x))
    ensures t.Dict? ==> NfcTree(nfc, t) == Dict(NfcFields(nfc, t.fields))
  {
    hide DenoteItems, DenoteEntries, NfcItems, NfcFields, Distinct;
  }

  // One more element, in each of the three readings of a container.
  lemma ItemsStep(nfc: Text -> Text, h: Heap, items: seq<Py>, front: seq<Value>, last: Value)
    requires items != [] && |front| == |items| - 1
    ensures DenoteItems(h, items, front + [last]) <==>
            DenoteItems(h, items[..|items| - 1], front) && Denotes(h, items[|items| - 1], last)
    ensures NfcItems(nfc, front + [last]) == NfcItems(nfc, front) + [NfcTree(nfc, last)]
  {
    hide Denotes, NfcTree;
    var ts := front + [last];
    if DenoteItems(h, items, ts) {
      assert forall i :: 0 <= i < |front| ==> ts[i] == front[i];
      assert Denotes(h, items[|front|], ts[|front|]);
    }
  }

  lemma EntriesStep(nfc: Text -> Text, h: Heap, entries: seq<Item>, front: seq<Field>, last: Field)
    requires entries != [] && |front| == |entries| - 1
    ensures var entry := entries[|entries| - 1];
            DenoteEntries(h, entries, front + [last]) <==>
            DenoteEntries(h, entries[..|entries| - 1], front) && entry.key == StrKey(last.key) && Denotes(h, entry.value, last.value)
    ensures NfcFields(nfc, front + [last]) == NfcFields(nfc, front) + [NfcField(nfc, last)]
  {
    hide Denotes, NfcTree;
    var fields := front + [last];
    if DenoteEntries(h, entries, fields) {
      assert forall i :: 0 <= i < |front| ==> fields[i] == front[i];
      assert entries[|front|].key == StrKey(fields[|front|].key) && Denotes(h, entries[|front|].value, fields[|front|].value);
    }
  }

  lemma {:induction false} ItemsDenote(nfc: Text -> Text, h: Heap, items: seq<Py>, active: set<Addr>) returns (ts: seq<Value>)
    requires Closed(h) && (forall v :: v in items ==> Held(h, v)) && NormItems(nfc, h, items, active).Ok?
    ensures DenoteItems(h, items, ts) && NormItems(nfc, h, items, active) == Ok(NfcItems(nfc, ts))
    ensures forall x :: x in NfcItems(nfc, ts) ==> KeysOnce(x)
    decreases |h.Keys - active|, 1, |items|
  {
    if items == [] {
      ts := [];
    } else {
      hide Closed, Norm, Denotes, KeysOnce, NfcTree, DenoteItems, NfcItems;
      var front := ItemsDenote(nfc, h, items[..|items| - 1], active);
      var last := NormDenotes(nfc, h, items[|items| - 1], active);
      ts := front + [last];
      ItemsLength(h, items[..|items| - 1], front);
      ItemsStep(nfc, h, items, front, last);
    }
  }

  lemma ItemsLength(h: Heap, items: seq<Py>, ts: seq<Value>)
    requires DenoteItems(h, items, ts)
    ensures |items| == |ts|
  {
  }

  lemma EntriesLength(h: Heap, entries: seq<Item>, fields: seq<Field>)
    requires DenoteEntries(h, entries, fields)
    ensures |entries| == |fields|
  {
  }

  lemma {:induction false} EntriesDenote(nfc: Text -> Text, h: Heap, entries: seq<Item>, active: set<Addr>)
    returns (fields: seq<Field>)
    requires Closed(h) && (forall e :: e in entries ==> Held(h, e.value)) && NormEntries(nfc, h, entries, active).Ok?
    ensures DenoteEntries(h, entries, fields) && NormEntries(nfc, h, entries, active) == Ok(NfcFields(nfc, fields))
    ensures KeysOnce(Dict(NfcFields(nfc, fields)))
    decreases |h.Keys - active|, 1, |entries|
  {
    if entries == [] {
      fields := [];
      NoFieldsOnce();
    } else {
      hide Closed, Norm, Denotes, NfcTree, AddEntry, KeysOnce, KeysOf, DenoteEntries, NfcFields;
      var entry := entries[|entries| - 1];
      var front := EntriesDenote(nfc, h, entries[..|entries| - 1], active);
      EntriesLength(h, entries[..|entries| - 1], front);
      EntryAdded(nfc, h, NfcFields(nfc, front), entry, active);
      var last := NormDenotes(nfc, h, entry.value, active);
      var field := Field(entry.key.s, last);
      fields := front + [field];
      EntriesStep(nfc, h, entries, front, field);
      KeysOnceSnoc(NfcFields(nfc, front), NfcField(nfc, field));
    }
  }

  lemma EntryAdded(nfc: Text -> Text, h: Heap, front: seq<Field>, entry: Item, active: set<Addr>)
    requires Closed(h) && Held(h, entry.value)
    ensures AddEntry(nfc, h, front, entry, active).Ok? <==>
            entry.key.StrKey? && nfc(entry.key.s) !in KeysOf(front) && Norm(nfc, h, entry.value, active).Ok?
    ensures AddEntry(nfc, h, front, entry, active).Ok? ==>
            AddEntry(nfc, h, front, entry, active).value ==
            front + [Field(nfc(entry.key.s), Norm(nfc, h, entry.value, active).value)]
  {
    hide Closed, Norm, KeysOf;
  }

  lemma NoFieldsOnce()
    ensures KeysOnce(Dict([]))
  {
    assert Elems(Map(FieldKey, [])) == {};
  }

  predicate ValuesOnce(fields: seq<Field>) {
    forall f :: f in fields ==> KeysOnce(f.value)
  }

  lemma KeysOnceSnoc(front: seq<Field>, last: Field)
    ensures KeysOnce(Dict(front + [last])) <==>
            KeysOnce(Dict(front)) && last.key !in KeysOf(front) && KeysOnce(last.value)
  {
    MapConcat(FieldKey, front, [last]);
    DistinctSnoc(Map(FieldKey, front), last.key);
    MapElems(FieldKey, front);
    assert last.key in Map(FieldKey, front) <==> last.key in Elems(Map(FieldKey, front));
    assert Map(FieldKey, front + [last]) == Map(FieldKey, front) + [last.key];
    hide Distinct, Map;
    assert KeysOnce(Dict(front)) <==> Distinct(Map(FieldKey, front)) && ValuesOnce(front);
    assert KeysOnce(Dict(front + [last])) <==> Distinct(Map(FieldKey, front + [last])) && ValuesOnce(front + [last]);
    hide KeysOnce;
    assert last in front + [last] && forall f :: f in front ==> f in front + [last];
    assert ValuesOnce(front + [last]) <==> ValuesOnce(front) && KeysOnce(last.value);
  }

  // ---------------------------------------------- graphs with a tree are accepted

  // Every open container unfolds to something larger.
  ghost predicate OpenAreLarger(h: Heap, active: set<Addr>, n: nat) {
    forall a, u :: a in active && Denotes(h, PyRef(a), u) ==> n < Size(u)
  }

  lemma OpenMore(h: Heap, active: set<Addr>, a: Addr, t: Value, n: nat)
    requires Denotes(h, PyRef(a), t) && OpenAreLarger(h, active, Size(t)) && n < Size(t)
    ensures OpenAreLarger(h, active + {a}, n)
  {
    hide Denotes;
    forall b, u | b in active + {a} && Denotes(h, PyRef(b), u) ensures n < Size(u) {
      if b == a { DenotesOne(h, PyRef(a), t, u); }
    }
  }

  lemma {:induction false} DenotedIsNormalized(nfc: Text -> Text, h: Heap, v: Py, t: Value, active: set<Addr>)
    requires Closed(h) && Held(h, v) && Denotes(h, v, t) && KeysOnce(NfcTree(nfc, t)) && OpenAreLarger(h, active, Size(t))
    ensures Norm(nfc, h, v, active) == Ok(NfcTree(nfc, t))
    decreases t, 0
  {
    hide Closed, KeysOnce;
    if v.PyRef? {
      var a := v.addr;
      assert a !in active;
      FewerLeft(h.Keys, active, a);
      ValuesHeld(h, a);
      match h[a] {
        case ListOf(items) =>
          forall i | 0 <= i < |t.items| ensures OpenAreLarger(h, active + {a}, Size(t.items[i])) {
            OpenMore(h, active, a, t, Size(t.items[i]));
          }
          DictOrListOnce(NfcTree(nfc, t));
          ItemsNormalized(nfc, h, items, t.items, active + {a});
        case DictOf(entries) =>
          forall i | 0 <= i < |t.fields| ensures OpenAreLarger(h, active + {a}, Size(t.fields[i].value)) {
            OpenMore(h, active, a, t, Size(t.fields[i].value));
          }
          EntriesNormalized(nfc, h, entries, t.fields, active + {a});
      }
    }
  }

  lemma DictOrListOnce(t: Value)
    requires KeysOnce(t)
    ensures t.List? ==> forall x :: x in t.items ==> KeysOnce(x)
  {
  }

  lemma {:induction false} ItemsNormalized(nfc: Text -> Text, h: Heap, items: seq<Py>, ts: seq<Value>, active: set<Addr>)
    requires Closed(h) && (forall v :: v in items ==> Held(h, v)) && DenoteItems(h, items, ts)
    requires forall x :: x in NfcItems(nfc, ts) ==> KeysOnce(x)
    requires forall i :: 0 <= i < |ts| ==> OpenAreLarger(h, active, Size(ts[i]))
    ensures NormItems(nfc, h, items, active) == Ok(NfcItems(nfc, ts))
    decreases ts, 0
  {
    ItemsLength(h, items, ts);
    if ts != [] {
      hide Closed, Norm, Denotes, KeysOnce, NfcTree, OpenAreLarger, Size, DenoteItems, NfcItems;
      var front, last := ts[..|ts| - 1], ts[|ts| - 1];
      assert ts == front + [last];
      ItemsStep(nfc, h, items, front, last);
      ItemsNormalized(nfc, h, items[..|ts| - 1], front, active);
      DenotedIsNormalized(nfc, h, items[|ts| - 1], last, active);
    }
  }

  lemma {:induction false} EntriesNormalized(
    nfc: Text -> Text, h: Heap, entries: seq<Item>, fields: seq<Field>, active: set<Addr>)
    requires Closed(h) && (forall e :: e in entries ==> Held(h, e.value)) && DenoteEntries(h, entries, fields)
    requires KeysOnce(Dict(NfcFields(nfc, fields)))
    requires forall i :: 0 <= i < |fields| ==> OpenAreLarger(h, active, Size(fields[i].value))
    ensures NormEntries(nfc, h, entries, active) == Ok(NfcFields(nfc, fields))
    decreases fields, 0
  {
    EntriesLength(h, entries, fields);
    if fields != [] {
      var front, last, entry := fields[..|fields| - 1], fields[|fields| - 1], entries[|fields| - 1];
      hide Closed, Norm, Denotes, KeysOnce, NfcTree, NfcField, OpenAreLarger, Size, KeysOf, AddEntry, DenoteEntries, NfcFields;
      LastEntry(nfc, h, entries, fields);
      EntriesNormalized(nfc, h, entries[..|fields| - 1], front, active);
      DenotedIsNormalized(nfc, h, entry.value, last.value, active);
      EntryAdded(nfc, h, NfcFields(nfc, front), entry, active);
    }
  }

  lemma LastEntry(nfc: Text -> Text, h: Heap, entries: seq<Item>, fields: seq<Field>)
    requires |entries| == |fields| > 0 && DenoteEntries(h, entries, fields) && KeysOnce(Dict(NfcFields(nfc, fields)))
    ensures
      var front, last, entry := fields[..|fields| - 1], fields[|fields| - 1], entries[|fields| - 1];
      DenoteEntries(h, entries[..|fields| - 1], front) && KeysOnce(Dict(NfcFields(nfc, front))) &&
      entry.key == StrKey(last.key) && Denotes(h, entry.value, last.value) &&
      nfc(last.key) !in KeysOf(NfcFields(nfc, front)) && KeysOnce(NfcTree(nfc, last.value)) &&
      NfcFields(nfc, fields) == NfcFields(nfc, front) + [Field(nfc(last.key), NfcTree(nfc, last.value))]
  {
    hide Denotes, KeysOnce, NfcTree, KeysOf, DenoteEntries, NfcFields;
    var front, last := fields[..|fields| - 1], fields[|fields| - 1];
    assert fields == front + [last];
    EntriesStep(nfc, h, entries, front, last);
    KeysOnceSnoc(NfcFields(nfc, front), NfcField(nfc, last));
  }

  // The normalization accepts exactly the graphs with a finite unfolding in which
  // no dictionary has two keys with one normal form, and returns that unfolding.
  lemma NormalizesExactly(nfc: Text -> Text, h: Heap, v: Py, n: Value)
    requires Closed(h) && Held(h, v)
    ensures Norm(nfc, h, v, {}) == Ok(n) <==>
            exists t :: Denotes(h, v, t) && n == NfcTree(nfc, t) && KeysOnce(n)
  {
    hide Norm, Denotes, NfcTree, KeysOnce, Closed;
    if Norm(nfc, h, v, {}) == Ok(n) {
      var t := NormDenotes(nfc, h, v, {});
    }
    if t :| Denotes(h, v, t) && n == NfcTree(nfc, t) && KeysOnce(n) {
      DenotedIsNormalized(nfc, h, v, t, {});
    }
  }
}
