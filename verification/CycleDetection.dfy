// Which walk through the object graph justifies each refusal: a value is
// refused exactly when some walk from it shows a fault, and refused as cyclic,
// content being otherwise valid, exactly when some walk repeats a container.

module CycleDetection {
  import opened Common
  import opened JsonText
  import opened JsonPrinter
  import opened JsonMeaning
  import opened CanonicalJson
  import opened CanonicalTheorems

  // Containers each held by the one before, the first being the value itself.
  ghost predicate Walk(h: Heap, v: Py, w: seq<Addr>) {
    (w != [] ==> v == PyRef(w[0])) && (forall i :: 0 <= i < |w| ==> w[i] in h) &&
    forall i :: 0 <= i < |w| - 1 ==> PyRef(w[i + 1]) in Values(h[w[i]])
  }

  // The walk ends where `x` is to be normalized.
  ghost predicate Reaches(h: Heap, v: Py, w: seq<Addr>, x: Py) {
    Walk(h, v, w) && if w == [] then x == v else x in Values(h[w[|w| - 1]])
  }

  predicate Colliding(nfc: Text -> Text, entries: seq<Item>, key: Text) {
    exists i, j :: 0 <= i < j < |entries| && entries[i].key.StrKey? && entries[j].key.StrKey? &&
      nfc(entries[i].key.s) == key && nfc(entries[j].key.s) == key
  }

  ghost predicate ShowsFault(nfc: Text -> Text, h: Heap, v: Py, w: seq<Addr>, e: Error) {
    Walk(h, v, w) &&
    match e
    case CyclicReference => !Distinct(w)
    case FloatForbidden => Reaches(h, v, w, PyFloat)
    case UnsupportedType => Reaches(h, v, w, PyOther)
    case InvalidKey => w != [] && h[w[|w| - 1]].DictOf? && exists x :: x in h[w[|w| - 1]].entries && x.key.OtherKey?
    case KeyCollision(key) => w != [] && h[w[|w| - 1]].DictOf? && Colliding(nfc, h[w[|w| - 1]].entries, key)
    case NotUnicode => false
  }

  lemma WalkOn(h: Heap, v: Py, w: seq<Addr>, a: Addr)
    requires Reaches(h, v, w, PyRef(a)) && a in h
    ensures Walk(h, v, w + [a]) && Elems(w + [a]) == Elems(w) + {a}
  {
    var longer := w + [a];
    forall i | 0 <= i < |longer| - 1 ensures PyRef(longer[i + 1]) in Values(h[longer[i]]) {
      if i == |w| - 1 { assert longer[i + 1] == a; }
    }
  }

  // -------------------------------------------------------- refusals are real

  lemma {:induction false} FaultFound(nfc: Text -> Text, h: Heap, v: Py, trail: seq<Addr>, x: Py) returns (w: seq<Addr>)
    requires Closed(h) && Held(h, x) && Reaches(h, v, trail, x) && Norm(nfc, h, x, Elems(trail)).Err?
    ensures ShowsFault(nfc, h, v, w, Norm(nfc, h, x, Elems(trail)).error)
    decreases |h.Keys - Elems(trail)|, 0, 0
  {
    hide Closed, Walk;
    w := trail;
    if x.PyRef? {
      var a := x.addr;
      WalkOn(h, v, trail, a);
      if a in Elems(trail) {
        DistinctSnoc(trail, a);
        w := trail + [a];
      } else {
        FewerLeft(h.Keys, Elems(trail), a);
        ValuesHeld(h, a);
        var longer := trail + [a];
        hide Reaches, ShowsFault, Elems;
        match h[a] {
          case ListOf(items) => w := ItemsFault(nfc, h, v, longer, items);
          case DictOf(entries) => w := EntriesFault(nfc, h, v, longer, entries);
        }
      }
    }
  }

  lemma {:induction false} ItemsFault(nfc: Text -> Text, h: Heap, v: Py, trail: seq<Addr>, items: seq<Py>) returns (w: seq<Addr>)
    requires Closed(h) && (forall x :: x in items ==> Held(h, x)) && Walk(h, v, trail) && trail != []
    requires h[trail[|trail| - 1]].ListOf? && items <= h[trail[|trail| - 1]].items
    requires NormItems(nfc, h, items, Elems(trail)).Err?
    ensures ShowsFault(nfc, h, v, w, NormItems(nfc, h, items, Elems(trail)).error)
    decreases |h.Keys - Elems(trail)|, 1, |items|
  {
    var all := h[trail[|trail| - 1]];
    assert Values(all) == all.items;
    hide Closed, Norm, ShowsFault, Elems, Walk, Values;
    var front, last := items[..|items| - 1], items[|items| - 1];
    if NormItems(nfc, h, front, Elems(trail)).Err? {
      w := ItemsFault(nfc, h, v, trail, front);
    } else {
      assert last == all.items[|items| - 1];
      assert Reaches(h, v, trail, last);
      w := FaultFound(nfc, h, v, trail, last);
    }
  }

  // The keys already taken are the normal forms of the entries before.
  lemma {:induction false} TakenKeys(nfc: Text -> Text, h: Heap, entries: seq<Item>, active: set<Addr>)
    requires Closed(h) && (forall x :: x in entries ==> Held(h, x.value)) && NormEntries(nfc, h, entries, active).Ok?
    ensures var fields := NormEntries(nfc, h, entries, active).value;
            |fields| == |entries| &&
            forall i :: 0 <= i < |entries| ==> entries[i].key.StrKey? && fields[i].key == nfc(entries[i].key.s)
  {
    if entries != [] {
      hide Closed, Norm, AddEntry;
      var front := entries[..|entries| - 1];
      TakenKeys(nfc, h, front, active);
      EntryAdded(nfc, h, NormEntries(nfc, h, front, active).value, entries[|entries| - 1], active);
    }
  }

  lemma EntryFails(nfc: Text -> Text, h: Heap, front: seq<Field>, entry: Item, active: set<Addr>)
    requires Closed(h) && Held(h, entry.value) && AddEntry(nfc, h, front, entry, active).Err?
    ensures
      var e := AddEntry(nfc, h, front, entry, active).error;
      (entry.key.OtherKey? && e == InvalidKey) ||
      (entry.key.StrKey? && nfc(entry.key.s) in KeysOf(front) && e == KeyCollision(nfc(entry.key.s))) ||
      Norm(nfc, h, entry.value, active) == Err(e)
  {
    hide Closed, Norm, KeysOf;
  }

  lemma {:induction false} EntriesFault(nfc: Text -> Text, h: Heap, v: Py, trail: seq<Addr>, entries: seq<Item>)
    returns (w: seq<Addr>)
    requires Closed(h) && (forall x :: x in entries ==> Held(h, x.value)) && Walk(h, v, trail) && trail != []
    requires h[trail[|trail| - 1]].DictOf? && entries <= h[trail[|trail| - 1]].entries
    requires NormEntries(nfc, h, entries, Elems(trail)).Err?
    ensures ShowsFault(nfc, h, v, w, NormEntries(nfc, h, entries, Elems(trail)).error)
    decreases |h.Keys - Elems(trail)|, 1, |entries|
  {
    var front, last, active := entries[..|entries| - 1], entries[|entries| - 1], Elems(trail);
    var before, e := NormEntries(nfc, h, front, active), NormEntries(nfc, h, entries, active).error;
    hide Closed, Norm, AddEntry, ShowsFault, Elems, Walk, Values, KeysOf;
    if before.Err? {
      w := EntriesFault(nfc, h, v, trail, front);
    } else {
      hide NormEntries;
      EntryFails(nfc, h, before.value, last, active);
      if Norm(nfc, h, last.value, active) == Err(e) {
        EntryReached(h, v, trail, |entries| - 1);
        w := FaultFound(nfc, h, v, trail, last.value);
      } else {
        w := trail;
        TakenKeys(nfc, h, front, active);
        KeyFault(nfc, h, v, trail, entries, before.value, e);
      }
    }
  }

  lemma EntryReached(h: Heap, v: Py, trail: seq<Addr>, i: nat)
    requires Walk(h, v, trail) && trail != []
    requires h[trail[|trail| - 1]].DictOf? && i < |h[trail[|trail| - 1]].entries|
    ensures Reaches(h, v, trail, h[trail[|trail| - 1]].entries[i].value)
  {
    LastIn(h, v, trail);
    hide Walk;
    var c := h[trail[|trail| - 1]];
    assert Values(c)[i] == c.entries[i].value;
    assert Values(c)[i] in Values(c);
  }

  lemma KeyFault(
    nfc: Text -> Text, h: Heap, v: Py, trail: seq<Addr>, entries: seq<Item>, before: seq<Field>, e: Error)
    requires Walk(h, v, trail) && trail != [] && entries != []
    requires h[trail[|trail| - 1]].DictOf? && entries <= h[trail[|trail| - 1]].entries
    requires |before| == |entries| - 1
    requires forall i :: 0 <= i < |before| ==> entries[i].key.StrKey? && before[i].key == nfc(entries[i].key.s)
    requires
      var key := entries[|entries| - 1].key;
      (key.OtherKey? && e == InvalidKey) || (key.StrKey? && nfc(key.s) in KeysOf(before) && e == KeyCollision(nfc(key.s)))
    ensures ShowsFault(nfc, h, v, trail, e)
  {
    LastIn(h, v, trail);
    hide Walk;
    var all, last := h[trail[|trail| - 1]].entries, entries[|entries| - 1];
    assert all[|entries| - 1] == last;
    if last.key.OtherKey? {
      assert last in all;
    } else {
      var f :| f in before && f.key == nfc(last.key.s);
      var i :| 0 <= i < |before| && before[i] == f;
      assert all[i] == entries[i];
      assert Colliding(nfc, all, nfc(last.key.s));
    }
  }

  // ------------------------------------------- accepted graphs show no fault

  // What the i-th container of a walk unfolds to.
  lemma {:induction false} WalkTree(nfc: Text -> Text, h: Heap, v: Py, t: Value, w: seq<Addr>, i: nat) returns (u: Value)
    requires Denotes(h, v, t) && Walk(h, v, w) && i < |w| && KeysOnce(NfcTree(nfc, t))
    ensures Denotes(h, PyRef(w[i]), u) && Size(u) + i <= Size(t) && KeysOnce(NfcTree(nfc, u))
  {
    hide Denotes, KeysOnce, NfcTree, Size;
    if i == 0 {
      u := t;
    } else {
      var parent := WalkTree(nfc, h, v, t, w, i - 1);
      assert PyRef(w[i - 1 + 1]) in Values(h[w[i - 1]]);
      u := ChildTree(nfc, h, w[i - 1], parent, PyRef(w[i]));
    }
  }

  lemma ChildTree(nfc: Text -> Text, h: Heap, a: Addr, t: Value, x: Py) returns (u: Value)
    requires a in h && Denotes(h, PyRef(a), t) && x in Values(h[a]) && KeysOnce(NfcTree(nfc, t))
    ensures Denotes(h, x, u) && Size(u) < Size(t) && KeysOnce(NfcTree(nfc, u))
  {
    var i :| 0 <= i < |Values(h[a])| && Values(h[a])[i] == x;
    match h[a] {
      case ListOf(items) =>
        u := t.items[i];
        var n := NfcTree(nfc, t);
        assert n.items[i] == NfcTree(nfc, u) && n.items[i] in n.items;
      case DictOf(entries) =>
        u := t.fields[i].value;
        var n := NfcTree(nfc, t);
        assert n.fields[i].value == NfcTree(nfc, u) && n.fields[i] in n.fields;
    }
  }

  lemma NoRepeat(nfc: Text -> Text, h: Heap, v: Py, t: Value, w: seq<Addr>)
    requires Denotes(h, v, t) && Walk(h, v, w) && KeysOnce(NfcTree(nfc, t))
    ensures Distinct(w)
  {
    hide Denotes, KeysOnce, NfcTree, Size, Distinct;
    DistinctIndices(w);
    forall i, j | 0 <= i < j < |w| ensures w[i] != w[j] {
      var x := WalkTree(nfc, h, v, t, w, i);
      var rest := w[i..];
      assert Walk(h, PyRef(w[i]), rest) by {
        forall k | 0 <= k < |rest| - 1 ensures PyRef(rest[k + 1]) in Values(h[rest[k]]) {
          assert PyRef(w[i + k + 1]) in Values(h[w[i + k]]);
        }
      }
      var y := WalkTree(nfc, h, PyRef(w[i]), x, rest, j - i);
      if w[i] == w[j] { DenotesOne(h, PyRef(w[i]), x, y); }
    }
  }

  lemma NoKeyFault(nfc: Text -> Text, h: Heap, a: Addr, t: Value, entries: seq<Item>, key: Text)
    requires a in h && h[a] == DictOf(entries) && Denotes(h, PyRef(a), t) && KeysOnce(NfcTree(nfc, t))
    ensures (forall x :: x in entries ==> x.key.StrKey?) && !Colliding(nfc, entries, key)
  {
    var fields := NfcFields(nfc, t.fields);
    var keys := Map(FieldKey, fields);
    DistinctIndices(keys);
    forall x | x in entries ensures x.key.StrKey? {
      var i :| 0 <= i < |entries| && entries[i] == x;
      assert entries[i].key == StrKey(t.fields[i].key);
    }
    forall i, j | 0 <= i < j < |entries| && entries[i].key.StrKey? && entries[j].key.StrKey?
      ensures nfc(entries[i].key.s) != nfc(entries[j].key.s)
    {
      assert keys[i] != keys[j];
      assert entries[i].key == StrKey(t.fields[i].key) && entries[j].key == StrKey(t.fields[j].key);
    }
  }

  lemma AcceptedShowsNoFault(nfc: Text -> Text, h: Heap, v: Py, w: seq<Addr>, e: Error)
    requires Closed(h) && Held(h, v) && Norm(nfc, h, v, {}).Ok?
    ensures !ShowsFault(nfc, h, v, w, e)
  {
    var t := NormDenotes(nfc, h, v, {});
    hide Closed, Norm, Denotes, KeysOnce, NfcTree, Size, Walk, Distinct, Values, Colliding;
    if Walk(h, v, w) {
      NoRepeat(nfc, h, v, t, w);
      forall x | Reaches(h, v, w, x) ensures x != PyFloat && x != PyOther {
        if w != [] {
          LastIn(h, v, w);
          var last := WalkTree(nfc, h, v, t, w, |w| - 1);
          var u := ChildTree(nfc, h, w[|w| - 1], last, x);
          NoScalarFault(h, x, u);
        } else {
          NoScalarFault(h, x, t);
        }
      }
      if w != [] {
        LastIn(h, v, w);
        if h[w[|w| - 1]].DictOf? {
          var last := WalkTree(nfc, h, v, t, w, |w| - 1);
          NoKeyFault(nfc, h, w[|w| - 1], last, h[w[|w| - 1]].entries, if e.KeyCollision? then e.key else []);
        }
      }
    }
  }

  lemma LastIn(h: Heap, v: Py, w: seq<Addr>)
    requires Walk(h, v, w) && w != []
    ensures w[|w| - 1] in h
  {
  }

  lemma NoScalarFault(h: Heap, x: Py, u: Value)
    requires Denotes(h, x, u)
    ensures x != PyFloat && x != PyOther
  {
  }

  // ---------------------------------------------------------------- the results

  // A value is refused exactly when some walk from it shows a fault, and the
  // error raised is one that a walk shows.
  lemma RefusedExactly(nfc: Text -> Text, h: Heap, v: Py)
    requires Closed(h) && Held(h, v)
    ensures Norm(nfc, h, v, {}).Err? <==> exists w, e :: ShowsFault(nfc, h, v, w, e)
    ensures forall e :: Norm(nfc, h, v, {}) == Err(e) ==> exists w :: ShowsFault(nfc, h, v, w, e)
  {
    assert Elems<Addr>([]) == {};
    assert Reaches(h, v, [], v);
    hide Closed, Norm, ShowsFault, Reaches, Elems;
    if Norm(nfc, h, v, {}).Err? {
      var w := FaultFound(nfc, h, v, [], v);
    } else {
      forall w, e ensures !ShowsFault(nfc, h, v, w, e) { AcceptedShowsNoFault(nfc, h, v, w, e); }
    }
  }

  // With otherwise valid content a cycle is reported exactly when one can be
  // reached; sharing alone is accepted.
  lemma CyclesAreReportedExactly(nfc: Text -> Text, h: Heap, v: Py)
    requires Closed(h) && Held(h, v)
    requires forall w, e :: e != CyclicReference ==> !ShowsFault(nfc, h, v, w, e)
    ensures Norm(nfc, h, v, {}) == Err(CyclicReference) <==> exists w: seq<Addr> :: Walk(h, v, w) && !Distinct(w)
    ensures Norm(nfc, h, v, {}).Ok? <==> forall w: seq<Addr> :: Walk(h, v, w) ==> Distinct(w)
  {
    RefusedExactly(nfc, h, v);
    hide Closed, Norm, Distinct, Walk, Reaches;
    forall w: seq<Addr> ensures ShowsFault(nfc, h, v, w, CyclicReference) <==> Walk(h, v, w) && !Distinct(w) {}
  }
}
