// Canonicalization of an object graph: the depth-first normalization over
// containers that may be shared or cyclic, and the canonical bytes.

module CanonicalJson {
  import opened Common
  import opened JsonText
  import opened JsonPrinter
  import opened Utf8

  // id() of a list or dictionary object.
  type Addr = nat

  // An object whose exact type is none of the accepted ones is PyOther.
  datatype Py =
    | PyNone | PyBool(b: bool) | PyInt(i: int) | PyStr(s: Text) | PyFloat | PyOther | PyRef(addr: Addr)

  datatype PyKey = StrKey(s: Text) | OtherKey

  datatype Item = Item(key: PyKey, value: Py)

  datatype Content = ListOf(items: seq<Py>) | DictOf(entries: seq<Item>)

  type Heap = map<Addr, Content>

  predicate Held(h: Heap, v: Py) {
    v.PyRef? ==> v.addr in h
  }

  function Values(c: Content): seq<Py> {
    match c
    case ListOf(items) => items
    case DictOf(entries) => Map((e: Item) => e.value, entries)
  }

  ghost predicate Closed(h: Heap) {
    forall a, v :: a in h && v in Values(h[a]) ==> Held(h, v)
  }

  datatype Error =
    | FloatForbidden | UnsupportedType | CyclicReference | InvalidKey | KeyCollision(key: Text) | NotUnicode

  function KeysOf(fields: seq<Field>): set<Text> {
    set f | f in fields :: f.key
  }

  lemma FewerLeft(all: set<Addr>, active: set<Addr>, a: Addr)
    requires a in all && a !in active
    ensures |all - (active + {a})| < |all - active|
  {
    assert all - active == (all - (active + {a})) + {a};
  }

  lemma ValuesHeld(h: Heap, a: Addr)
    requires Closed(h) && a in h
    ensures match h[a]
            case ListOf(items) => forall v :: v in items ==> Held(h, v)
            case DictOf(entries) => forall e :: e in entries ==> Held(h, e.value)
  {
    match h[a]
    case ListOf(items) => assert Values(h[a]) == items;
    case DictOf(entries) =>
      forall e | e in entries ensures Held(h, e.value) {
        var i :| 0 <= i < |entries| && entries[i] == e;
        assert Values(h[a])[i] == e.value;
        assert Values(h[a])[i] in Values(h[a]);
      }
  }

  // What the normalization returns while the containers in `active` are open.
  ghost function Norm(nfc: Text -> Text, h: Heap, v: Py, active: set<Addr>): Result<Value, Error>
    requires Closed(h) && Held(h, v)
    decreases |h.Keys - active|, 0, 0
  {
    match v
    case PyNone => Ok(Null)
    case PyBool(b) => Ok(Bool(b))
    case PyInt(i) => Ok(Int(i))
    case PyStr(s) => Ok(Str(nfc(s)))
    case PyFloat => Err(FloatForbidden)
    case PyOther => Err(UnsupportedType)
    case PyRef(a) =>
      if a in active then Err(CyclicReference)
      else
        FewerLeft(h.Keys, active, a);
        ValuesHeld(h, a);
        match h[a]
        case ListOf(items) => ListResult(NormItems(nfc, h, items, active + {a}))
        case DictOf(entries) => DictResult(NormEntries(nfc, h, entries, active + {a}))
  }

  function ListResult(r: Result<seq<Value>, Error>): Result<Value, Error> {
    match r case Ok(items) => Ok(List(items)) case Err(e) => Err(e)
  }

  function DictResult(r: Result<seq<Field>, Error>): Result<Value, Error> {
    match r case Ok(fields) => Ok(Dict(fields)) case Err(e) => Err(e)
  }

  ghost function NormItems(nfc: Text -> Text, h: Heap, items: seq<Py>, active: set<Addr>): Result<seq<Value>, Error>
    requires Closed(h) && forall v :: v in items ==> Held(h, v)
    decreases |h.Keys - active|, 1, |items|
  {
    if items == [] then Ok([])
    else
      match NormItems(nfc, h, items[..|items| - 1], active)
      case Err(e) => Err(e)
      case Ok(front) =>
        match Norm(nfc, h, items[|items| - 1], active)
        case Err(e) => Err(e)
        case Ok(last) => Ok(front + [last])
  }

  ghost function NormEntries(nfc: Text -> Text, h: Heap, entries: seq<Item>, active: set<Addr>): Result<seq<Field>, Error>
    requires Closed(h) && forall e :: e in entries ==> Held(h, e.value)
    decreases |h.Keys - active|, 1, |entries|
  {
    if entries == [] then Ok([])
    else
      match NormEntries(nfc, h, entries[..|entries| - 1], active)
      case Err(e) => Err(e)
      case Ok(front) => AddEntry(nfc, h, front, entries[|entries| - 1], active)
  }

  ghost function AddEntry(nfc: Text -> Text, h: Heap, front: seq<Field>, entry: Item, active: set<Addr>): Result<seq<Field>, Error>
    requires Closed(h) && Held(h, entry.value)
    decreases |h.Keys - active|, 1, 0
  {
    if entry.key.OtherKey? then Err(InvalidKey)
    else if nfc(entry.key.s) in KeysOf(front) then Err(KeyCollision(nfc(entry.key.s)))
    else
      match Norm(nfc, h, entry.value, active)
      case Err(e) => Err(e)
      case Ok(v) => Ok(front + [Field(nfc(entry.key.s), v)])
  }

  lemma {:induction false} ItemsPrefix(nfc: Text -> Text, h: Heap, items: seq<Py>, active: set<Addr>, n: nat)
    requires Closed(h) && forall v :: v in items ==> Held(h, v)
    requires n <= |items| && NormItems(nfc, h, items[..n], active).Err?
    ensures NormItems(nfc, h, items, active) == NormItems(nfc, h, items[..n], active)
    decreases |items|
  {
    hide Norm;
    if n < |items| {
      assert items[..|items| - 1][..n] == items[..n];
      ItemsPrefix(nfc, h, items[..|items| - 1], active, n);
    } else {
      assert items[..n] == items;
    }
  }

  lemma {:induction false} EntriesPrefix(nfc: Text -> Text, h: Heap, entries: seq<Item>, active: set<Addr>, n: nat)
    requires Closed(h) && forall e :: e in entries ==> Held(h, e.value)
    requires n <= |entries| && NormEntries(nfc, h, entries[..n], active).Err?
    ensures NormEntries(nfc, h, entries, active) == NormEntries(nfc, h, entries[..n], active)
    decreases |entries|
  {
    hide AddEntry;
    if n < |entries| {
      assert entries[..|entries| - 1][..n] == entries[..n];
      EntriesPrefix(nfc, h, entries[..|entries| - 1], active, n);
    } else {
      assert entries[..n] == entries;
    }
  }

  // One run of the normalization, with its set of open containers.
  class Normalizer {
    const nfc: Text -> Text
    const heap: Heap
    var active: set<Addr>

    constructor (nfc: Text -> Text, heap: Heap)
      ensures this.nfc == nfc && this.heap == heap && active == {}
    {
      this.nfc, this.heap, active := nfc, heap, {};
    }

    // It always returns, and every exit restores the open containers.
    method Normalize(v: Py) returns (r: Result<Value, Error>)
      requires Closed(heap) && Held(heap, v)
      modifies this`active
      ensures active == old(active)
      ensures r == Norm(nfc, heap, v, old(active))
      decreases |heap.Keys - active|, 0, 0
    {
      match v {
        case PyNone => return Ok(Null);
        case PyBool(b) => return Ok(Bool(b));
        case PyInt(i) => return Ok(Int(i));
        case PyStr(s) => return Ok(Str(nfc(s)));
        case PyFloat => return Err(FloatForbidden);
        case PyOther => return Err(UnsupportedType);
        case PyRef(a) =>
          if a in active { return Err(CyclicReference); }
          FewerLeft(heap.Keys, active, a);
          ValuesHeld(heap, a);
          active := active + {a};
          match heap[a] {
            case ListOf(items) => r := NormalizeList(items);
            case DictOf(entries) => r := NormalizeDict(entries);
          }
          active := active - {a};
      }
    }

    method NormalizeList(items: seq<Py>) returns (r: Result<Value, Error>)
      requires Closed(heap) && forall v :: v in items ==> Held(heap, v)
      modifies this`active
      ensures active == old(active)
      ensures r == ListResult(NormItems(nfc, heap, items, old(active)))
      decreases |heap.Keys - active|, 1, |items|
    {
      hide Norm, Closed;
      var normalized: seq<Value> := [];
      for i := 0 to |items|
        invariant active == old(active)
        invariant NormItems(nfc, heap, items[..i], active) == Ok(normalized)
      {
        assert items[..i + 1][..i] == items[..i];
        var v := Normalize(items[i]);
        if v.Err? {
          ItemsPrefix(nfc, heap, items, active, i + 1);
          return Err(v.error);
        }
        normalized := normalized + [v.value];
      }
      assert items[..|items|] == items;
      return Ok(List(normalized));
    }

    method NormalizeDict(entries: seq<Item>) returns (r: Result<Value, Error>)
      requires Closed(heap) && forall e :: e in entries ==> Held(heap, e.value)
      modifies this`active
      ensures active == old(active)
      ensures r == DictResult(NormEntries(nfc, heap, entries, old(active)))
      decreases |heap.Keys - active|, 1, |entries| + 1
    {
      hide Norm, Closed, AddEntry, KeysOf;
      var normalized: seq<Field> := [];
      var originalKeys: map<Text, Text> := map[];
      assert KeysOf([]) == {} by { NoKeys(); }
      for i := 0 to |entries|
        invariant active == old(active)
        invariant NormEntries(nfc, heap, entries[..i], active) == Ok(normalized)
        invariant originalKeys.Keys == KeysOf(normalized)
      {
        assert entries[..i + 1][..i] == entries[..i];
        var added := NormalizeEntry(entries[i], normalized, originalKeys);
        if added.Err? {
          EntriesPrefix(nfc, heap, entries, active, i + 1);
          return Err(added.error);
        }
        KeysSnoc(normalized, added.value);
        normalized := normalized + [added.value];
        originalKeys := originalKeys[added.value.key := entries[i].key.s];
      }
      assert entries[..|entries|] == entries;
      return Ok(Dict(normalized));
    }

    // One member; the original of a colliding key is always on record.
    method NormalizeEntry(entry: Item, normalized: seq<Field>, originalKeys: map<Text, Text>) returns (r: Result<Field, Error>)
      requires Closed(heap) && Held(heap, entry.value) && originalKeys.Keys == KeysOf(normalized)
      modifies this`active
      ensures active == old(active)
      ensures AddEntry(nfc, heap, normalized, entry, old(active)) ==
              match r case Ok(f) => Ok(normalized + [f]) case Err(e) => Err(e)
      ensures r.Ok? ==> entry.key.StrKey?
      decreases |heap.Keys - active|, 1, 0
    {
      hide Norm, Closed, KeysOf;
      if entry.key.OtherKey? { return Err(InvalidKey); }
      var key := nfc(entry.key.s);
      if key in KeysOf(normalized) {
        var first := originalKeys[key];
        return Err(KeyCollision(key));
      }
      var v := Normalize(entry.value);
      return match v case Ok(value) => Ok(Field(key, value)) case Err(e) => Err(e);
    }
  }

  lemma NoKeys()
    ensures KeysOf([]) == {}
  {
  }

  lemma KeysSnoc(fields: seq<Field>, f: Field)
    ensures KeysOf(fields + [f]) == KeysOf(fields) + {f.key}
  {
    forall k ensures k in KeysOf(fields + [f]) <==> k in KeysOf(fields) + {f.key} {
      if k in KeysOf(fields) { var g :| g in fields && g.key == k; assert g in fields + [f]; }
      if k == f.key { assert f in fields + [f]; }
    }
  }

  // The bytes of a value, or the error that refuses it.
  ghost function Canonical(nfc: Text -> Text, h: Heap, v: Py): Result<seq<Byte>, Error>
    requires Closed(h) && Held(h, v)
  {
    match Norm(nfc, h, v, {})
    case Err(e) => Err(e)
    case Ok(n) => if Encodable(Print(n)) then Ok(Encoded(Print(n))) else Err(NotUnicode)
  }

  method CanonicalJsonBytes(nfc: Text -> Text, h: Heap, v: Py) returns (r: Result<seq<Byte>, Error>)
    requires Closed(h) && Held(h, v)
    ensures r == Canonical(nfc, h, v)
  {
    hide Norm, Closed, Print, Encodable, Encoded;
    var normalizer := new Normalizer(nfc, h);
    var normalized := normalizer.Normalize(v);
    if normalized.Err? { return Err(normalized.error); }
    var text := Print(normalized.value);
    return if Encodable(text) then Ok(Encoded(text)) else Err(NotUnicode);
  }
}
