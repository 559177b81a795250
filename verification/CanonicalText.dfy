// The canonical bytes defined a second time, as a relation on characters, and the
// proof that the encoder's output is the only one that meets it.

module CanonicalText {
  import opened Common
  import opened Ordering
  import opened JsonText
  import opened JsonPrinter
  import opened JsonMeaning
  import opened Utf8
  import opened CanonicalJson
  import opened CanonicalTheorems
  import opened CanonicalBytes

  // ------------------------------------------------------------- the definition

  function Ascii(s: string): Text {
    seq(|s|, i requires 0 <= i < |s| => s[i] as int)
  }

  // One character inside a JSON string (RFC 8259, section 7), non-ASCII as it is.
  predicate SpellsChar(t: Text, c: Code) {
    if c == '\"' as int then t == Ascii("\\\"")
    else if c == '\\' as int then t == Ascii("\\\\")
    else if c == '\n' as int then t == Ascii("\\n")
    else if c == '\r' as int then t == Ascii("\\r")
    else if c == '\t' as int then t == Ascii("\\t")
    else if c == 0x08 then t == Ascii("\\b")
    else if c == 0x0C then t == Ascii("\\f")
    else if c < 0x20 then t == Ascii("\\u00") + [if c < 0x10 then '0' as int else '1' as int, "0123456789abcdef"[c % 16] as int]
    else t == [c]
  }

  function Flat(parts: seq<Text>): Text {
    if parts == [] then [] else parts[0] + Flat(parts[1..])
  }

  function Joined(parts: seq<Text>): Text {
    if parts == [] then []
    else if |parts| == 1 then parts[0]
    else parts[0] + Ascii(",") + Joined(parts[1..])
  }

  predicate SpellsChars(parts: seq<Text>, s: Text) {
    |parts| == |s| && forall i :: 0 <= i < |s| ==> SpellsChar(parts[i], s[i])
  }

  ghost predicate SpellsString(t: Text, s: Text) {
    exists parts :: SpellsChars(parts, s) && t == Ascii("\"") + Flat(parts) + Ascii("\"")
  }

  function Decimal(t: Text): int {
    if t == [] then 0 else 10 * Decimal(t[..|t| - 1]) + (t[|t| - 1] - '0' as int)
  }

  // Decimal digits without a leading zero.
  predicate SpellsNat(t: Text, n: int) {
    t != [] && (forall c :: c in t ==> '0' as int <= c <= '9' as int) &&
    (t[0] == '0' as int ==> |t| == 1) && Decimal(t) == n
  }

  predicate SpellsInt(t: Text, i: int) {
    if i < 0 then t != [] && t[0] == '-' as int && SpellsNat(t[1..], -i) else SpellsNat(t, i)
  }

  // Code points agree up to p, where a ends or has the smaller one.
  predicate BelowAt(a: Text, b: Text, p: nat) {
    p <= |a| && p < |b| && a[..p] == b[..p] && (p == |a| || a[p] < b[p])
  }

  ghost predicate Below(a: Text, b: Text) {
    exists p: nat :: BelowAt(a, b, p)
  }

  ghost predicate SpellsMember(t: Text, key: Text, value: Text) {
    exists k :: SpellsString(k, key) && t == k + Ascii(":") + value
  }

  // The members in ascending order of their normalized keys: `order` lists the
  // positions they have in the dictionary.
  ghost predicate SpellsMembers(nfc: Text -> Text, members: seq<Text>, fields: seq<Field>, values: seq<Text>, order: seq<nat>) {
    |members| == |order| == |fields| == |values| &&
    (forall i :: 0 <= i < |order| ==> order[i] < |fields|) &&
    (forall i :: 0 <= i < |order| ==> SpellsMember(members[i], nfc(fields[order[i]].key), values[order[i]])) &&
    (forall i, j :: 0 <= i < j < |order| ==> Below(nfc(fields[order[i]].key), nfc(fields[order[j]].key)))
  }

  ghost predicate SpellsDict(nfc: Text -> Text, t: Text, fields: seq<Field>, values: seq<Text>) {
    exists members, order ::
      SpellsMembers(nfc, members, fields, values, order) && t == Ascii("{") + Joined(members) + Ascii("}")
  }

  // `t` is the canonical JSON text of the tree, strings and keys in NFC.
  ghost predicate Spells(nfc: Text -> Text, t: Text, tree: Value)
    decreases tree
  {
    match tree
    case Null => t == Ascii("null")
    case Bool(b) => t == Ascii(if b then "true" else "false")
    case Int(i) => SpellsInt(t, i)
    case Str(s) => SpellsString(t, nfc(s))
    case List(items) => exists parts :: SpellsItems(nfc, parts, items) && t == Ascii("[") + Joined(parts) + Ascii("]")
    case Dict(fields) => exists values :: SpellsValues(nfc, values, fields) && SpellsDict(nfc, t, fields, values)
  }

  ghost predicate SpellsItems(nfc: Text -> Text, parts: seq<Text>, items: seq<Value>)
    decreases items
  {
    |parts| == |items| && forall i :: 0 <= i < |items| ==> Spells(nfc, parts[i], items[i])
  }

  ghost predicate SpellsValues(nfc: Text -> Text, values: seq<Text>, fields: seq<Field>)
    decreases fields
  {
    |values| == |fields| && forall i :: 0 <= i < |fields| ==> Spells(nfc, values[i], fields[i].value)
  }

  // What a byte carries beside its marker bits.
  function Low(b: Byte, n: nat): int
    requires n > 0
  {
    b % n
  }

  predicate Continues(b: Byte) { 0x80 <= b <= 0xBF }

  // The bytes of one code point, in the shortest form (RFC 3629, section 3).
  predicate EncodesCode(b: seq<Byte>, c: Code) {
    if c <= 0x7F then b == [c]
    else if c <= 0x7FF then
      |b| == 2 && 0xC0 <= b[0] <= 0xDF && Continues(b[1]) && c == 64 * Low(b[0], 32) + Low(b[1], 64)
    else if c <= 0xFFFF then
      |b| == 3 && 0xE0 <= b[0] <= 0xEF && Continues(b[1]) && Continues(b[2]) &&
      c == 4096 * Low(b[0], 16) + 64 * Low(b[1], 64) + Low(b[2], 64)
    else
      |b| == 4 && 0xF0 <= b[0] <= 0xF7 && Continues(b[1]) && Continues(b[2]) && Continues(b[3]) &&
      c == 262144 * Low(b[0], 8) + 4096 * Low(b[1], 64) + 64 * Low(b[2], 64) + Low(b[3], 64)
  }

  function FlatBytes(parts: seq<seq<Byte>>): seq<Byte> {
    if parts == [] then [] else parts[0] + FlatBytes(parts[1..])
  }

  predicate EncodesCodes(parts: seq<seq<Byte>>, t: Text) {
    |parts| == |t| && forall i :: 0 <= i < |t| ==> EncodesCode(parts[i], t[i])
  }

  // Surrogates have no encoding.
  ghost predicate Encodes(bytes: seq<Byte>, t: Text) {
    (forall c :: c in t ==> !(0xD800 <= c <= 0xDFFF)) &&
    exists parts :: EncodesCodes(parts, t) && bytes == FlatBytes(parts)
  }

  // -------------------------------------------------------------------- strings

  lemma CharExactly(t: Text, c: Code)
    ensures SpellsChar(t, c) <==> t == Escape(c)
  {
    assert Ascii("\\u00") == [92, 117, 48, 48];
    if c < 32 { HexExactly(c % 16); }
  }

  lemma HexExactly(d: nat)
    requires d < 16
    ensures "0123456789abcdef"[d] as int == HexDigit(d)
  {
  }

  lemma {:induction false} FlatEscapes(parts: seq<Text>, s: Text)
    requires SpellsChars(parts, s)
    ensures Flat(parts) == Escaped(s)
  {
    hide SpellsChar, Escape;
    if s != [] {
      CharExactly(parts[0], s[0]);
      FlatEscapes(parts[1..], s[1..]);
    }
  }

  function Escapes(s: Text): (r: seq<Text>)
    ensures |r| == |s| && forall i :: 0 <= i < |s| ==> r[i] == Escape(s[i])
  {
    seq(|s|, i requires 0 <= i < |s| => Escape(s[i]))
  }

  lemma StringExactly(t: Text, s: Text)
    ensures SpellsString(t, s) <==> t == Quoted(s)
  {
    hide SpellsChar, Escape;
    assert Ascii("\"") == [QUOTE];
    forall parts | SpellsChars(parts, s) ensures Flat(parts) == Escaped(s) { FlatEscapes(parts, s); }
    forall i | 0 <= i < |s| ensures SpellsChar(Escapes(s)[i], s[i]) { CharExactly(Escapes(s)[i], s[i]); }
    assert SpellsChars(Escapes(s), s);
  }

  // ------------------------------------------------------------------- integers

  lemma OneDigit(t: Text)
    requires |t| == 1
    ensures t[0] == 48 + Decimal(t)
  {
    assert t[..0] == [];
  }

  lemma {:induction false} DigitsSpell(n: nat)
    ensures SpellsNat(Digits(n), n)
  {
    if n >= 10 {
      var front := Digits(n / 10);
      DigitsSpell(n / 10);
      assert Digits(n)[..|front|] == front;
      assert Digits(n)[0] == front[0];
      if |front| == 1 { OneDigit(front); }
    } else {
      assert Digits(n)[..0] == [];
    }
  }

  lemma FrontDigits(t: Text)
    requires |t| > 1 && forall c :: c in t ==> 48 <= c <= 57
    ensures var front := t[..|t| - 1]; front[0] == t[0] && forall c :: c in front ==> 48 <= c <= 57
  {
    var front := t[..|t| - 1];
    forall c | c in front ensures 48 <= c <= 57 {
      var i :| 0 <= i < |front| && front[i] == c;
      assert t[i] in t;
    }
  }

  lemma {:induction false} DecimalPositive(t: Text)
    requires t != [] && (forall c :: c in t ==> 48 <= c <= 57) && t[0] != 48
    ensures Decimal(t) >= 1
  {
    if |t| > 1 {
      FrontDigits(t);
      DecimalPositive(t[..|t| - 1]);
    } else {
      assert Decimal(t[..0]) == 0;
    }
    assert t[|t| - 1] in t;
  }

  lemma {:induction false} NatExactly(t: Text, n: nat)
    requires SpellsNat(t, n)
    ensures t == Digits(n)
  {
    var front, last := t[..|t| - 1], t[|t| - 1];
    assert last in t && t == front + [last];
    if front == [] {
      assert n == last - 48;
    } else {
      FrontDigits(t);
      DecimalPositive(front);
      assert n == 10 * Decimal(front) + (last - 48);
      assert n / 10 == Decimal(front) && n % 10 == last - 48;
      NatExactly(front, n / 10);
    }
  }

  lemma IntExactly(t: Text, i: int)
    ensures SpellsInt(t, i) <==> t == IntText(i)
  {
    var n: nat := if i < 0 then -i else i;
    DigitsSpell(n);
    hide Digits, SpellsNat;
    if i < 0 && t != [] && SpellsNat(t[1..], n) { NatExactly(t[1..], n); }
    if i >= 0 && SpellsNat(t, n) { NatExactly(t, n); }
    if t == [45] + Digits(n) { assert t[1..] == Digits(n); }
    if t != [] && t[0] == 45 && t[1..] == Digits(n) { assert t == [45] + Digits(n); }
  }

  // ----------------------------------------------------------------------- bytes

  lemma LowBits(b: Byte)
    ensures Continues(b) ==> Low(b, 64) == b - 0x80
    ensures 0xC0 <= b <= 0xDF ==> Low(b, 32) == b - 0xC0
    ensures 0xE0 <= b <= 0xEF ==> Low(b, 16) == b - 0xE0
    ensures 0xF0 <= b <= 0xF7 ==> Low(b, 8) == b - 0xF0
  {
  }

  lemma Base64(c: nat, high: nat, low: nat)
    requires low < 64
    ensures c == 64 * high + low <==> high == c / 64 && low == c % 64
  {
  }

  lemma TwoBytes(b: seq<Byte>, c: Code)
    requires |b| == 2 && 0x7F < c <= 0x7FF
    ensures EncodesCode(b, c) <==> b == EncodedCode(c)
  {
    LowBits(b[0]);
    LowBits(b[1]);
    Base64(c, Low(b[0], 32), Low(b[1], 64));
    hide Low;
  }

  lemma ThreeBytes(b: seq<Byte>, c: Code)
    requires |b| == 3 && 0x7FF < c <= 0xFFFF
    ensures EncodesCode(b, c) <==> b == EncodedCode(c)
  {
    LowBits(b[0]);
    LowBits(b[1]);
    LowBits(b[2]);
    Base64(c, 64 * Low(b[0], 16) + Low(b[1], 64), Low(b[2], 64));
    Base64(c / 64, Low(b[0], 16), Low(b[1], 64));
    assert c / 64 / 64 == c / 4096;
    hide Low;
  }

  lemma FourBytes(b: seq<Byte>, c: Code)
    requires |b| == 4 && 0xFFFF < c
    ensures EncodesCode(b, c) <==> b == EncodedCode(c)
  {
    LowBits(b[0]);
    LowBits(b[1]);
    LowBits(b[2]);
    LowBits(b[3]);
    Base64(c, 4096 * Low(b[0], 8) + 64 * Low(b[1], 64) + Low(b[2], 64), Low(b[3], 64));
    Base64(c / 64, 64 * Low(b[0], 8) + Low(b[1], 64), Low(b[2], 64));
    Base64(c / 4096, Low(b[0], 8), Low(b[1], 64));
    assert c / 64 / 64 == c / 4096 && c / 4096 / 64 == c / 262144;
    hide Low;
  }

  lemma CodeExactly(b: seq<Byte>, c: Code)
    ensures EncodesCode(b, c) <==> b == EncodedCode(c)
  {
    if c > 0xFFFF {
      if |b| == 4 { FourBytes(b, c); }
    } else if c > 0x7FF {
      if |b| == 3 { ThreeBytes(b, c); }
    } else if c > 0x7F {
      if |b| == 2 { TwoBytes(b, c); }
    }
  }

  lemma {:induction false} FlatCodes(parts: seq<seq<Byte>>, t: Text)
    requires EncodesCodes(parts, t)
    ensures FlatBytes(parts) == Encoded(t)
  {
    hide EncodesCode, EncodedCode;
    if t != [] {
      CodeExactly(parts[0], t[0]);
      FlatCodes(parts[1..], t[1..]);
    }
  }

  function Codes(t: Text): (r: seq<seq<Byte>>)
    ensures |r| == |t| && forall i :: 0 <= i < |t| ==> r[i] == EncodedCode(t[i])
  {
    seq(|t|, i requires 0 <= i < |t| => EncodedCode(t[i]))
  }

  lemma BytesExactly(bytes: seq<Byte>, t: Text)
    ensures Encodes(bytes, t) <==> Encodable(t) && bytes == Encoded(t)
  {
    hide EncodesCode, EncodedCode;
    forall parts | EncodesCodes(parts, t) ensures FlatBytes(parts) == Encoded(t) { FlatCodes(parts, t); }
    forall i | 0 <= i < |t| ensures EncodesCode(Codes(t)[i], t[i]) { CodeExactly(Codes(t)[i], t[i]); }
    assert EncodesCodes(Codes(t), t);
  }

  // ----------------------------------------------------------------- key order

  // One key sorts before another when the first code point where they differ is
  // the smaller, or when it is a proper prefix.
  lemma BelowExactly(a: Text, b: Text)
    ensures Below(a, b) <==> TextLeq(a, b) && a != b
  {
    if TextLeq(a, b) && a != b {
      var p := AgreementFromLeq(Scalar, a, b);
      if p == |a| { assert a == a[..p]; assert b[..|b|] == b; }
      assert BelowAt(a, b, p);
    }
    if Below(a, b) {
      var p: nat :| BelowAt(a, b, p);
      LeqFromAgreement(Scalar, a, b, p);
    }
  }

  // -------------------------------------------------------------- list and dict

  lemma {:induction false} ItemsJoined(parts: seq<Text>, items: seq<Value>)
    requires |parts| == |items| && forall i :: 0 <= i < |items| ==> parts[i] == Print(items[i])
    ensures Joined(parts) == PrintItems(items)
  {
    hide Print;
    assert Ascii(",") == [COMMA];
    if |items| > 0 { ItemsJoined(parts[1..], items[1..]); }
  }

  function MemberText(w: Written): Text {
    Quoted(w.key) + [COLON] + w.text
  }

  lemma {:induction false} MembersJoined(members: seq<Text>, ws: seq<Written>)
    requires |members| == |ws| && forall i :: 0 <= i < |ws| ==> members[i] == MemberText(ws[i])
    ensures Joined(members) == Members(ws)
  {
    hide Quoted;
    assert Ascii(",") == [COMMA];
    if |ws| > 0 { MembersJoined(members[1..], ws[1..]); }
  }

  lemma MemberExactly(t: Text, key: Text, value: Text)
    ensures SpellsMember(t, key, value) <==> t == MemberText(Written(key, value))
  {
    assert Ascii(":") == [COLON];
    hide SpellsString, Quoted;
    forall k ensures SpellsString(k, key) <==> k == Quoted(key) { StringExactly(k, key); }
  }

  lemma {:induction false} WrittenAt(fields: seq<Field>)
    ensures |PrintFields(fields)| == |fields|
    ensures forall i :: 0 <= i < |fields| ==> PrintFields(fields)[i] == Written(fields[i].key, Print(fields[i].value))
  {
    hide Print;
    if fields != [] { WrittenAt(fields[1..]); }
  }

  function WrittenKey(w: Written): Text { w.key }

  lemma WrittenLeqIsTotalPreorder()
    ensures TotalPreorder(WrittenLeq)
  {
    TextLeqIsTotalPreorder();
    hide TextLeq;
  }

  // Strictly ascending keys, each of a written member.
  ghost predicate Ascending(sorted: seq<Written>) {
    forall i, j :: 0 <= i < j < |sorted| ==> Below(sorted[i].key, sorted[j].key)
  }

  lemma AscendingKeys(sorted: seq<Written>)
    requires Ascending(sorted)
    ensures Sorted(WrittenLeq, sorted) && Distinct(Map(WrittenKey, sorted))
  {
    hide Below, TextLeq, Distinct;
    forall i, j | 0 <= i < j < |sorted| ensures WrittenLeq(sorted[i], sorted[j]) && sorted[i].key != sorted[j].key {
      BelowExactly(sorted[i].key, sorted[j].key);
    }
    DistinctIndices(Map(WrittenKey, sorted));
  }

  lemma AllKeysMet(sorted: seq<Written>, ws: seq<Written>)
    requires |sorted| == |ws| && Elems(sorted) <= Elems(ws) && Distinct(Map(WrittenKey, sorted))
    ensures Distinct(Map(WrittenKey, ws)) && multiset(sorted) == multiset(ws)
  {
    var keys, all := Map(WrittenKey, sorted), Map(WrittenKey, ws);
    MapElems(WrittenKey, sorted);
    MapElems(WrittenKey, ws);
    assert Elems(keys) <= Elems(all) by {
      forall w | w in sorted ensures w in ws { assert w in Elems(sorted); }
    }
    SubsetCount(Elems(keys), Elems(all));
    ElemsCount(all);
    hide Map, Elems;
    DistinctByKey(sorted);
    DistinctByKey(ws);
    SameWhenFull(sorted, ws);
  }

  lemma DistinctByKey(ws: seq<Written>)
    requires Distinct(Map(WrittenKey, ws))
    ensures Distinct(ws) && Keyed(WrittenLeq, ws)
  {
    DistinctIndices(Map(WrittenKey, ws));
    DistinctIndices(ws);
    hide Distinct, TextLeq;
    forall x, y | x in ws && y in ws && WrittenLeq(x, y) && WrittenLeq(y, x) ensures x == y {
      TextLeqAntisymmetric(x.key, y.key);
      var i :| 0 <= i < |ws| && ws[i] == x;
      var j :| 0 <= j < |ws| && ws[j] == y;
      assert Map(WrittenKey, ws)[i] == Map(WrittenKey, ws)[j];
    }
  }

  lemma SameWhenFull<T>(a: seq<T>, b: seq<T>)
    requires |a| == |b| && Elems(a) <= Elems(b) && Distinct(a) && Distinct(b)
    ensures multiset(a) == multiset(b)
  {
    assert Elems(b) == Elems(a) + (Elems(b) - Elems(a));
    assert |Elems(b) - Elems(a)| == 0;
    DistinctMultiset(a);
    DistinctMultiset(b);
  }

  // An ascending list of all members is the sorted list.
  lemma AscendingIsSorted(sorted: seq<Written>, ws: seq<Written>)
    requires |sorted| == |ws| && Elems(sorted) <= Elems(ws) && Ascending(sorted)
    ensures sorted == Sort(WrittenLeq, ws) && Distinct(Map(WrittenKey, ws))
  {
    hide Ascending, WrittenLeq, Elems, Distinct, Map, Keyed, Sorted, TotalPreorder, Sort;
    AscendingKeys(sorted);
    AllKeysMet(sorted, ws);
    DistinctByKey(sorted);
    WrittenLeqIsTotalPreorder();
    SortCorrect(WrittenLeq, ws);
    SortedUnique(WrittenLeq, sorted, Sort(WrittenLeq, ws));
  }

  // And the sorted list is ascending when no key repeats.
  lemma SortedIsAscending(ws: seq<Written>)
    requires Distinct(Map(WrittenKey, ws))
    ensures var sorted := Sort(WrittenLeq, ws);
            Ascending(sorted) && |sorted| == |ws| && Elems(sorted) == Elems(ws)
  {
    var sorted := Sort(WrittenLeq, ws);
    hide WrittenLeq, TotalPreorder, Sort, Below, Distinct, Map;
    WrittenLeqIsTotalPreorder();
    SortCorrect(WrittenLeq, ws);
    SameElements(sorted, ws);
    MapPermutes(WrittenKey, sorted, ws);
    DistinctByMultiset(Map(WrittenKey, sorted), Map(WrittenKey, ws));
    SortedKeysAscend(sorted);
  }

  lemma SortedKeysAscend(sorted: seq<Written>)
    requires Sorted(WrittenLeq, sorted) && Distinct(Map(WrittenKey, sorted))
    ensures Ascending(sorted)
  {
    hide TextLeq, Below, Distinct;
    DistinctIndices(Map(WrittenKey, sorted));
    forall i, j | 0 <= i < j < |sorted| ensures Below(sorted[i].key, sorted[j].key) {
      assert Map(WrittenKey, sorted)[i] != Map(WrittenKey, sorted)[j];
      assert WrittenLeq(sorted[i], sorted[j]);
      BelowExactly(sorted[i].key, sorted[j].key);
    }
  }

  predicate PositionsIn(order: seq<nat>, n: nat) {
    forall i :: 0 <= i < |order| ==> order[i] < n
  }

  function Picked(ws: seq<Written>, order: seq<nat>): (r: seq<Written>)
    requires PositionsIn(order, |ws|)
    ensures |r| == |order| && forall i :: 0 <= i < |order| ==> r[i] == ws[order[i]]
    ensures Elems(r) <= Elems(ws)
  {
    seq(|order|, i requires 0 <= i < |order| => ws[order[i]])
  }

  // `values` are the printed values of the normalized fields.
  predicate Prints(nfc: Text -> Text, fields: seq<Field>, values: seq<Text>, ws: seq<Written>) {
    |values| == |fields| == |ws| &&
    forall i :: 0 <= i < |fields| ==> ws[i] == Written(nfc(fields[i].key), values[i])
  }

  lemma MembersExactly(
    nfc: Text -> Text, members: seq<Text>, fields: seq<Field>, values: seq<Text>, order: seq<nat>, ws: seq<Written>)
    requires Prints(nfc, fields, values, ws)
    ensures SpellsMembers(nfc, members, fields, values, order) <==>
            |members| == |order| == |ws| && PositionsIn(order, |ws|) && Ascending(Picked(ws, order)) &&
            forall i :: 0 <= i < |members| ==> members[i] == MemberText(Picked(ws, order)[i])
  {
    hide SpellsMember, MemberText, Below;
    if |members| == |order| == |ws| && PositionsIn(order, |ws|) {
      forall i | 0 <= i < |order|
        ensures SpellsMember(members[i], nfc(fields[order[i]].key), values[order[i]]) <==> members[i] == MemberText(ws[order[i]])
      {
        MemberExactly(members[i], nfc(fields[order[i]].key), values[order[i]]);
      }
    }
  }

  // Where each element of `a` stands in `b`.
  lemma Positions(a: seq<Written>, b: seq<Written>) returns (order: seq<nat>)
    requires Elems(a) <= Elems(b)
    ensures |order| == |a| && PositionsIn(order, |b|) && Picked(b, order) == a
    decreases |a|
  {
    if a == [] {
      order := [];
    } else {
      assert a[0] in Elems(a);
      var i :| 0 <= i < |b| && b[i] == a[0];
      forall x | x in Elems(a[1..]) ensures x in Elems(b) { assert x in Elems(a); }
      var rest := Positions(a[1..], b);
      order := [i] + rest;
      assert Picked(b, order) == [a[0]] + Picked(b, rest);
    }
  }

  function MemberTexts(ws: seq<Written>): (r: seq<Text>)
    ensures |r| == |ws| && forall i :: 0 <= i < |ws| ==> r[i] == MemberText(ws[i])
  {
    seq(|ws|, i requires 0 <= i < |ws| => MemberText(ws[i]))
  }

  lemma DictSpelled(nfc: Text -> Text, t: Text, fields: seq<Field>, values: seq<Text>, ws: seq<Written>)
    requires Prints(nfc, fields, values, ws) && Distinct(Map(WrittenKey, ws))
    requires t == Ascii("{") + Members(Sort(WrittenLeq, ws)) + Ascii("}")
    ensures SpellsDict(nfc, t, fields, values)
  {
    hide Ascending, Sort, Distinct, Elems, Members, SpellsMembers, MemberText, Joined, Prints, Map;
    var sorted := Sort(WrittenLeq, ws);
    SortedIsAscending(ws);
    var order := Positions(sorted, ws);
    MembersJoined(MemberTexts(sorted), sorted);
    MembersExactly(nfc, MemberTexts(sorted), fields, values, order, ws);
  }

  lemma DictSpelledOnlyThus(nfc: Text -> Text, t: Text, fields: seq<Field>, values: seq<Text>, ws: seq<Written>)
    requires Prints(nfc, fields, values, ws) && SpellsDict(nfc, t, fields, values)
    ensures Distinct(Map(WrittenKey, ws)) && t == Ascii("{") + Members(Sort(WrittenLeq, ws)) + Ascii("}")
  {
    hide Ascending, Sort, Distinct, Elems, Members, SpellsMembers, MemberText, Joined, Prints, Map;
    var members, order :|
      SpellsMembers(nfc, members, fields, values, order) && t == Ascii("{") + Joined(members) + Ascii("}");
    MembersExactly(nfc, members, fields, values, order, ws);
    AscendingIsSorted(Picked(ws, order), ws);
    MembersJoined(members, Picked(ws, order));
  }

  // -------------------------------------------------------------- whole values

  ghost predicate Exactly(nfc: Text -> Text, t: Text, tree: Value) {
    KeysOnce(NfcTree(nfc, tree)) && t == Print(NfcTree(nfc, tree))
  }

  // The printed normal form is the canonical text, and the only one. A tree whose
  // normal form repeats a key has none.
  lemma {:induction false} TextExactly(nfc: Text -> Text, t: Text, tree: Value)
    ensures Spells(nfc, t, tree) <==> KeysOnce(NfcTree(nfc, tree)) && t == Print(NfcTree(nfc, tree))
    decreases tree, 1
  {
    match tree
    case Null => assert Ascii("null") == NULL;
    case Bool(b) => assert Ascii("true") == TRUE && Ascii("false") == FALSE;
    case Int(i) => IntExactly(t, i);
    case Str(s) => StringExactly(t, nfc(s));
    case List(items) => ListExactly(nfc, t, items);
    case Dict(fields) => DictExactly(nfc, t, fields);
  }

  function ItemTexts(nfc: Text -> Text, items: seq<Value>): (r: seq<Text>)
    ensures |r| == |items| && forall i :: 0 <= i < |items| ==> r[i] == Print(NfcTree(nfc, items[i]))
  {
    seq(|items|, i requires 0 <= i < |items| => Print(NfcTree(nfc, items[i])))
  }

  lemma ItemsExactly(nfc: Text -> Text, parts: seq<Text>, items: seq<Value>)
    ensures SpellsItems(nfc, parts, items) <==>
            parts == ItemTexts(nfc, items) && forall x :: x in items ==> KeysOnce(NfcTree(nfc, x))
    decreases items, 0
  {
    hide Print, NfcTree, KeysOnce;
    if |parts| == |items| {
      forall i | 0 <= i < |items|
        ensures Spells(nfc, parts[i], items[i]) <==> KeysOnce(NfcTree(nfc, items[i])) && parts[i] == Print(NfcTree(nfc, items[i]))
      {
        assert items[i] in items;
        TextExactly(nfc, parts[i], items[i]);
      }
      hide Spells;
      if SpellsItems(nfc, parts, items) {
        assert parts == ItemTexts(nfc, items);
        forall x | x in items ensures KeysOnce(NfcTree(nfc, x)) { var i :| 0 <= i < |items| && items[i] == x; }
      }
      if parts == ItemTexts(nfc, items) && forall x :: x in items ==> KeysOnce(NfcTree(nfc, x)) {
        forall i | 0 <= i < |items| ensures Spells(nfc, parts[i], items[i]) { assert items[i] in items; }
      }
    }
  }

  lemma ListExactly(nfc: Text -> Text, t: Text, items: seq<Value>)
    ensures Spells(nfc, t, List(items)) <==> Exactly(nfc, t, List(items))
    decreases items, 1
  {
    var parts := ItemTexts(nfc, items);
    var n := NfcItems(nfc, items);
    ItemsJoined(parts, n);
    assert Ascii("[") == [OPEN_LIST] && Ascii("]") == [CLOSE_LIST];
    forall ps ensures SpellsItems(nfc, ps, items) <==> ps == parts && forall x :: x in items ==> KeysOnce(NfcTree(nfc, x)) {
      ItemsExactly(nfc, ps, items);
    }
    ItemsOnce(nfc, items);
    hide SpellsItems, Joined, PrintItems, KeysOnce, ItemTexts;
    assert Print(List(n)) == [OPEN_LIST] + PrintItems(n) + [CLOSE_LIST];
  }

  lemma ItemsOnce(nfc: Text -> Text, items: seq<Value>)
    ensures KeysOnce(List(NfcItems(nfc, items))) <==> forall x :: x in items ==> KeysOnce(NfcTree(nfc, x))
  {
    hide NfcTree;
    var n := NfcItems(nfc, items);
    if KeysOnce(List(n)) {
      forall x | x in items ensures KeysOnce(NfcTree(nfc, x)) {
        var i :| 0 <= i < |items| && items[i] == x;
        assert n[i] in n;
      }
    }
    if forall x :: x in items ==> KeysOnce(NfcTree(nfc, x)) {
      forall y | y in n ensures KeysOnce(y) {
        var i :| 0 <= i < |n| && n[i] == y;
        assert items[i] in items;
      }
    }
  }

  function ValueTexts(nfc: Text -> Text, fields: seq<Field>): (r: seq<Text>)
    ensures |r| == |fields| && forall i :: 0 <= i < |fields| ==> r[i] == Print(NfcTree(nfc, fields[i].value))
  {
    seq(|fields|, i requires 0 <= i < |fields| => Print(NfcTree(nfc, fields[i].value)))
  }

  lemma ValuesExactly(nfc: Text -> Text, values: seq<Text>, fields: seq<Field>)
    ensures SpellsValues(nfc, values, fields) <==>
            values == ValueTexts(nfc, fields) && forall f :: f in fields ==> KeysOnce(NfcTree(nfc, f.value))
    decreases fields, 0
  {
    hide Print, NfcTree, KeysOnce;
    if |values| == |fields| {
      forall i | 0 <= i < |fields|
        ensures Spells(nfc, values[i], fields[i].value) <==>
                KeysOnce(NfcTree(nfc, fields[i].value)) && values[i] == Print(NfcTree(nfc, fields[i].value))
      {
        assert fields[i] in fields;
        TextExactly(nfc, values[i], fields[i].value);
      }
      hide Spells;
    }
  }

  lemma FieldsOnce(nfc: Text -> Text, fields: seq<Field>)
    ensures KeysOnce(Dict(NfcFields(nfc, fields))) <==>
            Distinct(Map(FieldKey, NfcFields(nfc, fields))) && forall f :: f in fields ==> KeysOnce(NfcTree(nfc, f.value))
  {
    hide NfcTree, Distinct;
    var n := NfcFields(nfc, fields);
    if KeysOnce(Dict(n)) {
      forall f | f in fields ensures KeysOnce(NfcTree(nfc, f.value)) {
        var i :| 0 <= i < |fields| && fields[i] == f;
        assert n[i] in n;
      }
    }
    if Distinct(Map(FieldKey, n)) && forall f :: f in fields ==> KeysOnce(NfcTree(nfc, f.value)) {
      forall g | g in n ensures KeysOnce(g.value) {
        var i :| 0 <= i < |n| && n[i] == g;
        assert fields[i] in fields;
      }
    }
  }

  lemma FieldsPrinted(nfc: Text -> Text, fields: seq<Field>)
    ensures
      var n := NfcFields(nfc, fields);
      Prints(nfc, fields, ValueTexts(nfc, fields), PrintFields(n)) && Map(WrittenKey, PrintFields(n)) == Map(FieldKey, n)
  {
    hide Print, NfcTree, PrintFields;
    WrittenAt(NfcFields(nfc, fields));
  }

  lemma DictExactly(nfc: Text -> Text, t: Text, fields: seq<Field>)
    ensures Spells(nfc, t, Dict(fields)) <==> Exactly(nfc, t, Dict(fields))
    decreases fields, 1
  {
    var values, n := ValueTexts(nfc, fields), NfcFields(nfc, fields);
    var ws := PrintFields(n);
    assert Ascii("{") == [OPEN_DICT] && Ascii("}") == [CLOSE_DICT];
    assert Print(Dict(n)) == [OPEN_DICT] + Members(Sort(WrittenLeq, ws)) + [CLOSE_DICT];
    assert NfcTree(nfc, Dict(fields)) == Dict(n);
    forall vs
      ensures SpellsValues(nfc, vs, fields) <==> vs == values && forall f :: f in fields ==> KeysOnce(NfcTree(nfc, f.value))
    {
      ValuesExactly(nfc, vs, fields);
    }
    FieldsOnce(nfc, fields);
    FieldsPrinted(nfc, fields);
    hide SpellsValues, SpellsDict, ValueTexts, PrintFields, Print, NfcTree, KeysOnce, Members, Sort, Map, Distinct, Prints;
    if Exactly(nfc, t, Dict(fields)) { DictSpelled(nfc, t, fields, values, ws); }
    if SpellsDict(nfc, t, fields, values) { DictSpelledOnlyThus(nfc, t, fields, values, ws); }
  }

  // --------------------------------------------------------------- end to end

  // A value has the canonical bytes `bytes` exactly when it unfolds to a finite
  // tree with a canonical text whose UTF-8 form they are.
  lemma CanonicalExactly(nfc: Text -> Text, h: Heap, v: Py, bytes: seq<Byte>)
    requires CanonicalJson.Closed(h) && CanonicalJson.Held(h, v)
    ensures Canonical(nfc, h, v) == Ok(bytes) <==>
            exists tree, t :: Denotes(h, v, tree) && Spells(nfc, t, tree) && Encodes(bytes, t)
  {
    hide Denotes, Spells, Encodes, KeysOnce, NfcTree, Print, Encoded, Encodable, ScalarOnly, CanonicalJson.Closed, Canonical;
    AcceptedExactly(nfc, h, v);
    if Canonical(nfc, h, v) == Ok(bytes) {
      var tree :| Denotes(h, v, tree) && KeysOnce(NfcTree(nfc, tree)) && ScalarOnly(NfcTree(nfc, tree));
      var t := Print(NfcTree(nfc, tree));
      EncodableExactly(NfcTree(nfc, tree));
      TextExactly(nfc, t, tree);
      BytesExactly(bytes, t);
    }
    if tree, t :| Denotes(h, v, tree) && Spells(nfc, t, tree) && Encodes(bytes, t) {
      TextExactly(nfc, t, tree);
      BytesExactly(bytes, t);
      EncodableExactly(NfcTree(nfc, tree));
    }
  }

  // ---------------------------------------------------------- members in order

  // At every level earlier members have smaller keys, code point by code point.
  ghost predicate MembersAscend(v: Value) {
    match v
    case List(items) => forall x :: x in items ==> MembersAscend(x)
    case Dict(fields) =>
      (forall f :: f in fields ==> MembersAscend(f.value)) &&
      forall i, j :: 0 <= i < j < |fields| ==> AtMost(fields[i].key, fields[j].key)
    case _ => true
  }

  // The keys agree before p, where `a` ends or has the smaller code point.
  predicate AtMostAt(a: Text, b: Text, p: nat) {
    p <= |a| && p <= |b| && a[..p] == b[..p] && (p == |a| || (p < |b| && a[p] < b[p]))
  }

  ghost predicate AtMost(a: Text, b: Text) {
    exists p: nat :: AtMostAt(a, b, p)
  }

  lemma FieldLeqAgrees(f: Field, g: Field)
    requires FieldLeq(f, g)
    ensures AtMost(f.key, g.key)
  {
    var p := AgreementFromLeq(Scalar, f.key, g.key);
    assert AtMostAt(f.key, g.key, p);
  }

  lemma {:induction false} CanonAscends(v: Value)
    ensures MembersAscend(Canon(v))
  {
    match v
    case List(items) =>
      forall x | x in CanonItems(items) ensures MembersAscend(x) { CanonItemAscends(items, x); }
    case Dict(fields) =>
      var sorted := Sort(FieldLeq, CanonFields(fields));
      FieldLeqIsTotalPreorder();
      hide FieldLeq, AtMost;
      SortCorrect(FieldLeq, CanonFields(fields));
      SortHolds(FieldLeq, CanonFields(fields));
      forall i, j | 0 <= i < j < |sorted| ensures AtMost(sorted[i].key, sorted[j].key) {
        FieldLeqAgrees(sorted[i], sorted[j]);
      }
      forall f | f in sorted ensures MembersAscend(f.value) { CanonFieldAscends(fields, f); }
    case _ =>
  }

  lemma {:induction false} CanonItemAscends(items: seq<Value>, x: Value)
    requires x in CanonItems(items)
    ensures MembersAscend(x)
  {
    hide Canon, MembersAscend;
    CanonAscends(items[0]);
    if x != Canon(items[0]) { CanonItemAscends(items[1..], x); }
  }

  lemma {:induction false} CanonFieldAscends(fields: seq<Field>, f: Field)
    requires f in CanonFields(fields)
    ensures MembersAscend(f.value)
  {
    hide Canon, MembersAscend;
    CanonAscends(fields[0].value);
    if f != Field(fields[0].key, Canon(fields[0].value)) { CanonFieldAscends(fields[1..], f); }
  }

  // What a reader of the canonical text finds: members in ascending order of keys.
  lemma ParsedMembersAscend(v: Value)
    ensures Parse(Print(v)).Some? && MembersAscend(Parse(Print(v)).value)
  {
    hide Print, Parse, MembersAscend;
    TextRoundTrip(v);
    CanonAscends(v);
  }
}
