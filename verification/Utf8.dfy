// UTF-8 encoding of canonical text (RFC 3629, section 3).

module Utf8 {
  import opened Common
  import opened Ordering
  import opened JsonText
  import opened JsonPrinter

  type Byte = b: int | 0 <= b < 256

  predicate Surrogate(c: Code) { 0xD800 <= c <= 0xDFFF }

  predicate Encodable(t: Text) {
    forall c :: c in t ==> !Surrogate(c)
  }

  function EncodedCode(c: Code): seq<Byte> {
    if c < 0x80 then [c]
    else if c < 0x800 then [0xC0 + c / 64, 0x80 + c % 64]
    else if c < 0x10000 then [0xE0 + c / 4096, 0x80 + c / 64 % 64, 0x80 + c % 64]
    else [0xF0 + c / 262144, 0x80 + c / 4096 % 64, 0x80 + c / 64 % 64, 0x80 + c % 64]
  }

  function Encoded(t: Text): seq<Byte> {
    if t == [] then [] else EncodedCode(t[0]) + Encoded(t[1..])
  }

  // The number of bytes that a leading byte announces.
  function Width(lead: Byte): nat {
    if lead < 0x80 then 1 else if lead < 0xE0 then 2 else if lead < 0xF0 then 3 else 4
  }

  lemma LeadAnnouncesWidth(c: Code)
    ensures EncodedCode(c) != [] && Width(EncodedCode(c)[0]) == |EncodedCode(c)|
  {
  }

  function DecodedCode(bytes: seq<int>): int
    requires 0 < |bytes| <= 4
  {
    match |bytes|
    case 1 => bytes[0]
    case 2 => (bytes[0] - 0xC0) * 64 + (bytes[1] - 0x80)
    case 3 => (bytes[0] - 0xE0) * 4096 + (bytes[1] - 0x80) * 64 + (bytes[2] - 0x80)
    case 4 => (bytes[0] - 0xF0) * 262144 + (bytes[1] - 0x80) * 4096 + (bytes[2] - 0x80) * 64 + (bytes[3] - 0x80)
  }

  lemma CodeRoundTrip(c: Code)
    ensures 0 < |EncodedCode(c)| <= 4 && DecodedCode(EncodedCode(c)) == c
  {
    var high, mid, low := c / 4096, c / 64, c % 64;
    assert c == 64 * mid + low && mid == 64 * high + mid % 64 && high == 64 * (high / 64) + high % 64;
    assert high == mid / 64 && high / 64 == c / 262144;
  }

  lemma {:induction false} EncodedInjective(a: Text, b: Text)
    requires Encoded(a) == Encoded(b)
    ensures a == b
  {
    if a == [] || b == [] {
      if a != [] { LeadAnnouncesWidth(a[0]); }
      if b != [] { LeadAnnouncesWidth(b[0]); }
    } else {
      hide EncodedCode, Width, DecodedCode;
      var x, y := EncodedCode(a[0]), EncodedCode(b[0]);
      LeadAnnouncesWidth(a[0]);
      LeadAnnouncesWidth(b[0]);
      assert x[0] == Encoded(a)[0] == Encoded(b)[0] == y[0];
      assert x == Encoded(a)[..|x|] && y == Encoded(b)[..|y|];
      CodeRoundTrip(a[0]);
      CodeRoundTrip(b[0]);
      assert Encoded(a[1..]) == Encoded(a)[|x|..] && Encoded(b[1..]) == Encoded(b)[|y|..];
      EncodedInjective(a[1..], b[1..]);
      assert a == [a[0]] + a[1..] && b == [b[0]] + b[1..];
    }
  }

  // ------------------------------------------------- which values can be encoded

  // No lone surrogate in any string or key.
  predicate ScalarOnly(v: Value) {
    match v
    case Str(s) => Encodable(s)
    case List(items) => forall x :: x in items ==> ScalarOnly(x)
    case Dict(fields) => forall f :: f in fields ==> Encodable(f.key) && ScalarOnly(f.value)
    case _ => true
  }

  lemma EncodableConcat(a: Text, b: Text)
    ensures Encodable(a + b) <==> Encodable(a) && Encodable(b)
  {
    assert forall c :: c in a + b <==> c in a || c in b;
  }

  lemma {:induction false} EncodableQuoted(s: Text)
    ensures Encodable(Quoted(s)) <==> Encodable(s)
  {
    EncodableEscaped(s);
    EncodableConcat([QUOTE], Escaped(s));
    EncodableConcat([QUOTE] + Escaped(s), [QUOTE]);
  }

  lemma {:induction false} EncodableEscaped(s: Text)
    ensures Encodable(Escaped(s)) <==> Encodable(s)
  {
    if s != [] {
      EncodableEscaped(s[1..]);
      EncodableConcat(Escape(s[0]), Escaped(s[1..]));
      EncodableConcat([s[0]], s[1..]);
      assert s == [s[0]] + s[1..];
      EscapeKeepsSurrogates(s[0]);
    }
  }

  lemma EscapeKeepsSurrogates(c: Code)
    ensures Encodable(Escape(c)) <==> !Surrogate(c)
    ensures Encodable([c]) <==> !Surrogate(c)
  {
    if c >= 32 && c != QUOTE && c != BACKSLASH {
      assert Escape(c) == [c];
    } else {
      assert forall d :: d in Escape(c) ==> d < 128;
    }
  }

  lemma EncodableInt(i: int)
    ensures Encodable(IntText(i))
  {
    assert forall c :: c in IntText(i) ==> Digit(c) || c == 45;
  }

  predicate WritableMember(w: Written) { Encodable(w.key) && Encodable(w.text) }

  lemma EncodableMember(w: Written)
    ensures Encodable(Quoted(w.key) + [COLON] + w.text) <==> WritableMember(w)
  {
    EncodableQuoted(w.key);
    EncodableConcat(Quoted(w.key), [COLON]);
    EncodableConcat(Quoted(w.key) + [COLON], w.text);
    EncodableMark(COLON);
    hide Encodable, Quoted;
  }

  function MoreMembers(rest: seq<Written>): Text {
    if rest == [] then [] else [COMMA] + Members(rest)
  }

  lemma EncodableMore(rest: seq<Written>)
    ensures Encodable(MoreMembers(rest)) <==> Encodable(Members(rest))
  {
    EncodableMark(COMMA);
    EncodableConcat([COMMA], Members(rest));
  }

  lemma MembersUnfold(ws: seq<Written>)
    requires ws != []
    ensures Members(ws) == (Quoted(ws[0].key) + [COLON] + ws[0].text) + MoreMembers(ws[1..])
  {
  }

  lemma {:induction false} EncodableMembers(ws: seq<Written>)
    ensures Encodable(Members(ws)) <==> forall w :: w in ws ==> WritableMember(w)
  {
    if ws == [] {
      EncodableNothing();
    } else {
      var first, rest := ws[0], ws[1..];
      EncodableMembers(rest);
      hide Encodable, Members, Quoted, WritableMember, MoreMembers;
      MembersUnfold(ws);
      EncodableMember(first);
      EncodableMore(rest);
      EncodableConcat(Quoted(first.key) + [COLON] + first.text, MoreMembers(rest));
      assert ws == [first] + rest;
    }
  }

  lemma EncodableMark(c: Code)
    requires c < 128
    ensures Encodable([c])
  {
  }

  lemma EncodableNothing()
    ensures Encodable([])
  {
  }

  // A text can be encoded exactly when the value holds no lone surrogate.
  lemma {:induction false} EncodableExactly(v: Value)
    ensures Encodable(Print(v)) <==> ScalarOnly(v)
  {
    match v
    case Null => case Bool(b) =>
    case Int(i) => EncodableInt(i);
    case Str(s) => EncodableQuoted(s);
    case List(items) =>
      hide Encodable;
      EncodableItems(items);
      EncodableConcat([OPEN_LIST], PrintItems(items));
      EncodableConcat([OPEN_LIST] + PrintItems(items), [CLOSE_LIST]);
      EncodableMark(OPEN_LIST);
      EncodableMark(CLOSE_LIST);
    case Dict(fields) =>
      hide Encodable, Members, WrittenLeq;
      var ws := PrintFields(fields);
      var sorted := Sort(WrittenLeq, ws);
      EncodableFields(fields);
      SortHolds(WrittenLeq, ws);
      EncodableMembers(sorted);
      EncodableConcat([OPEN_DICT], Members(sorted));
      EncodableConcat([OPEN_DICT] + Members(sorted), [CLOSE_DICT]);
      EncodableMark(OPEN_DICT);
      EncodableMark(CLOSE_DICT);
  }

  lemma {:induction false} SortHolds<T>(leq: (T, T) -> bool, s: seq<T>)
    ensures multiset(Sort(leq, s)) == multiset(s)
    ensures forall x :: x in s <==> x in Sort(leq, s)
  {
    if s != [] {
      SortHolds(leq, s[1..]);
      InsertElems(leq, s[0], Sort(leq, s[1..]));
      assert s == [s[0]] + s[1..];
    }
    forall x ensures x in s <==> x in Sort(leq, s) { assert x in multiset(s) <==> x in multiset(Sort(leq, s)); }
  }

  lemma {:induction false} EncodableItems(items: seq<Value>)
    ensures Encodable(PrintItems(items)) <==> forall x :: x in items ==> ScalarOnly(x)
  {
    EncodableNothing();
    if items != [] {
      hide Encodable, ScalarOnly, Print;
      EncodableExactly(items[0]);
      EncodableItems(items[1..]);
      var tail := if |items| == 1 then [] else [COMMA] + PrintItems(items[1..]);
      assert PrintItems(items) == Print(items[0]) + tail;
      EncodableConcat(Print(items[0]), tail);
      EncodableConcat([COMMA], PrintItems(items[1..]));
      EncodableMark(COMMA);
      assert items == [items[0]] + items[1..];
    }
  }

  lemma {:induction false} EncodableFields(fields: seq<Field>)
    ensures (forall w :: w in PrintFields(fields) ==> WritableMember(w)) <==>
            forall f :: f in fields ==> Encodable(f.key) && ScalarOnly(f.value)
  {
    if fields != [] {
      hide Encodable, ScalarOnly, Print;
      EncodableExactly(fields[0].value);
      EncodableFields(fields[1..]);
      assert fields == [fields[0]] + fields[1..];
      var first := Written(fields[0].key, Print(fields[0].value));
      assert PrintFields(fields) == [first] + PrintFields(fields[1..]);
      assert WritableMember(first) <==> Encodable(fields[0].key) && ScalarOnly(fields[0].value);
    }
  }
}
