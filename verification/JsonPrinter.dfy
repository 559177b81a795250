// The canonical serializer on normalized values, and a parser that undoes it.

module JsonPrinter {
  import opened Common
  import opened Ordering
  import opened JsonText

  // A normalized value. A dictionary keeps its insertion order.
  datatype Value =
    | Null | Bool(b: bool) | Int(i: int) | Str(s: Text)
    | List(items: seq<Value>) | Dict(fields: seq<Field>)

  datatype Field = Field(key: Text, value: Value)

  function FieldKey(f: Field): Text { f.key }

  predicate FieldLeq(a: Field, b: Field) { TextLeq(a.key, b.key) }

  // --------------------------------------------------------------- the printer

  // A member as the serializer has it: the key, and the text of the value.
  datatype Written = Written(key: Text, text: Text)

  predicate WrittenLeq(a: Written, b: Written) { TextLeq(a.key, b.key) }

  const NULL: Text := [110, 117, 108, 108]
  const TRUE: Text := [116, 114, 117, 101]
  const FALSE: Text := [102, 97, 108, 115, 101]
  const COMMA: Code := 44
  const COLON: Code := 58
  const OPEN_LIST: Code := 91
  const CLOSE_LIST: Code := 93
  const OPEN_DICT: Code := 123
  const CLOSE_DICT: Code := 125

  function Members(ws: seq<Written>): Text {
    if ws == [] then []
    else Quoted(ws[0].key) + [COLON] + ws[0].text + (if |ws| == 1 then [] else [COMMA] + Members(ws[1..]))
  }

  // Members sorted by key, no whitespace.
  function Print(v: Value): Text {
    match v
    case Null => NULL
    case Bool(b) => if b then TRUE else FALSE
    case Int(i) => IntText(i)
    case Str(s) => Quoted(s)
    case List(items) => [OPEN_LIST] + PrintItems(items) + [CLOSE_LIST]
    case Dict(fields) => [OPEN_DICT] + Members(Sort(WrittenLeq, PrintFields(fields))) + [CLOSE_DICT]
  }

  function PrintItems(items: seq<Value>): Text {
    if items == [] then []
    else Print(items[0]) + (if |items| == 1 then [] else [COMMA] + PrintItems(items[1..]))
  }

  function PrintFields(fields: seq<Field>): seq<Written> {
    if fields == [] then []
    else [Written(fields[0].key, Print(fields[0].value))] + PrintFields(fields[1..])
  }

  // --------------------------------------------------- the order put in advance

  // The value with the members of every dictionary sorted.
  function Canon(v: Value): Value {
    match v
    case List(items) => List(CanonItems(items))
    case Dict(fields) => Dict(Sort(FieldLeq, CanonFields(fields)))
    case _ => v
  }

  function CanonItems(items: seq<Value>): seq<Value> {
    if items == [] then [] else [Canon(items[0])] + CanonItems(items[1..])
  }

  function CanonFields(fields: seq<Field>): seq<Field> {
    if fields == [] then [] else [Field(fields[0].key, Canon(fields[0].value))] + CanonFields(fields[1..])
  }

  // Printing in the order given.
  function Plain(v: Value): Text {
    match v
    case List(items) => [OPEN_LIST] + PlainItems(items) + [CLOSE_LIST]
    case Dict(fields) => [OPEN_DICT] + Members(PlainFields(fields)) + [CLOSE_DICT]
    case _ => Print(v)
  }

  function PlainItems(items: seq<Value>): Text {
    if items == [] then []
    else Plain(items[0]) + (if |items| == 1 then [] else [COMMA] + PlainItems(items[1..]))
  }

  function PlainFields(fields: seq<Field>): seq<Written> {
    if fields == [] then []
    else [Written(fields[0].key, Plain(fields[0].value))] + PlainFields(fields[1..])
  }

  function PlainField(f: Field): Written { Written(f.key, Plain(f.value)) }

  function CanonField(f: Field): Field { Field(f.key, Canon(f.value)) }

  lemma {:induction false} FieldsMapped(fields: seq<Field>)
    ensures PlainFields(fields) == Map(PlainField, fields)
    ensures CanonFields(fields) == Map(CanonField, fields)
  {
    if fields != [] { FieldsMapped(fields[1..]); }
  }

  lemma {:induction false} InsertCommutes<A, B>(f: A -> B, leqA: (A, A) -> bool, leqB: (B, B) -> bool, x: A, s: seq<A>)
    requires forall y :: y in s ==> leqA(x, y) == leqB(f(x), f(y))
    ensures Map(f, Insert(leqA, x, s)) == Insert(leqB, f(x), Map(f, s))
  {
    if s != [] && !leqA(x, s[0]) {
      InsertCommutes(f, leqA, leqB, x, s[1..]);
      MapConcat(f, [s[0]], Insert(leqA, x, s[1..]));
      assert Map(f, s)[1..] == Map(f, s[1..]);
    } else {
      MapConcat(f, [x], s);
    }
  }

  // Sorting by a key that a map keeps commutes with the map.
  lemma {:induction false} SortCommutes<A, B>(f: A -> B, leqA: (A, A) -> bool, leqB: (B, B) -> bool, s: seq<A>)
    requires forall x, y :: x in s && y in s ==> leqA(x, y) == leqB(f(x), f(y))
    ensures Map(f, Sort(leqA, s)) == Sort(leqB, Map(f, s))
    ensures forall x :: x in Sort(leqA, s) ==> x in s
  {
    if s != [] {
      SortCommutes(f, leqA, leqB, s[1..]);
      InsertElems(leqA, s[0], Sort(leqA, s[1..]));
      InsertCommutes(f, leqA, leqB, s[0], Sort(leqA, s[1..]));
      assert Map(f, s)[1..] == Map(f, s[1..]);
    }
  }

  // Sorting while printing writes the value whose members were sorted before.
  lemma {:induction false} PrintIsPlain(v: Value)
    ensures Print(v) == Plain(Canon(v))
  {
    match v
    case List(items) => PrintItemsPlain(items);
    case Dict(fields) =>
      hide Members, SeqLeq;
      PrintFieldsPlain(fields);
      FieldsMapped(CanonFields(fields));
      SortCommutes(PlainField, FieldLeq, WrittenLeq, CanonFields(fields));
      FieldsMapped(Sort(FieldLeq, CanonFields(fields)));
    case _ =>
  }

  lemma {:induction false} PrintItemsPlain(items: seq<Value>)
    ensures PrintItems(items) == PlainItems(CanonItems(items))
  {
    hide Print, Plain, Canon;
    if items != [] {
      PrintIsPlain(items[0]);
      PrintItemsPlain(items[1..]);
      assert CanonItems(items)[1..] == CanonItems(items[1..]);
      CanonItemsLength(items);
    }
  }

  lemma {:induction false} CanonItemsLength(items: seq<Value>)
    ensures |CanonItems(items)| == |items|
  {
    if items != [] { CanonItemsLength(items[1..]); }
  }

  lemma {:induction false} PrintFieldsPlain(fields: seq<Field>)
    ensures PrintFields(fields) == PlainFields(CanonFields(fields))
  {
    hide Print, Plain, Canon;
    if fields != [] {
      PrintIsPlain(fields[0].value);
      PrintFieldsPlain(fields[1..]);
      assert CanonFields(fields)[1..] == CanonFields(fields[1..]);
    }
  }

  // Sorting the members again changes nothing.
  lemma {:induction false} CanonAgain(v: Value)
    ensures Canon(Canon(v)) == Canon(v)
  {
    match v
    case List(items) => CanonItemsAgain(items);
    case Dict(fields) =>
      var once := CanonFields(fields);
      CanonFieldsAgain(fields);
      FieldsMapped(once);
      hide SeqLeq;
      SortCommutes(CanonField, FieldLeq, FieldLeq, once);
      FieldsMapped(Sort(FieldLeq, once));
      TextLeqIsTotalPreorder();
      FieldLeqIsTotalPreorder();
      SortCorrect(FieldLeq, once);
      SortOfSorted(FieldLeq, Sort(FieldLeq, once));
    case _ =>
  }

  lemma {:induction false} CanonItemsAgain(items: seq<Value>)
    ensures CanonItems(CanonItems(items)) == CanonItems(items)
  {
    hide Canon;
    if items != [] {
      CanonAgain(items[0]);
      CanonItemsAgain(items[1..]);
      assert CanonItems(items)[1..] == CanonItems(items[1..]);
    }
  }

  lemma {:induction false} CanonFieldsAgain(fields: seq<Field>)
    ensures CanonFields(CanonFields(fields)) == CanonFields(fields)
  {
    hide Canon;
    if fields != [] {
      CanonAgain(fields[0].value);
      CanonFieldsAgain(fields[1..]);
      assert CanonFields(fields)[1..] == CanonFields(fields[1..]);
    }
  }

  lemma FieldLeqIsTotalPreorder()
    ensures TotalPreorder(FieldLeq)
  {
    TextLeqIsTotalPreorder();
    hide TextLeq;
  }

  // ---------------------------------------------------------------- the parser

  predicate Starts(t: Text, word: Text) {
    |word| <= |t| && t[..|word|] == word
  }

  function ReadWord(t: Text, word: Text, v: Value): (r: Option<(Value, Text)>)
    requires word != []
    ensures r.Some? ==> |r.value.1| < |t|
  {
    if Starts(t, word) then Some((v, t[|word|..])) else None
  }

  // One value, and what follows it.
  function ReadValue(t: Text): (r: Option<(Value, Text)>)
    ensures r.Some? ==> |r.value.1| < |t|
    decreases |t|, 0
  {
    if t == [] then None
    else if t[0] == NULL[0] then ReadWord(t, NULL, Null)
    else if t[0] == TRUE[0] then ReadWord(t, TRUE, Bool(true))
    else if t[0] == FALSE[0] then ReadWord(t, FALSE, Bool(false))
    else if t[0] == QUOTE then
      match ReadChars(t[1..])
      case None => None
      case Some((s, rest)) => Some((Str(s), rest))
    else if t[0] == OPEN_LIST then
      if |t| > 1 && t[1] == CLOSE_LIST then Some((List([]), t[2..]))
      else
        match ReadItems(t[1..])
        case None => None
        case Some((items, rest)) => Some((List(items), rest))
    else if t[0] == OPEN_DICT then
      if |t| > 1 && t[1] == CLOSE_DICT then Some((Dict([]), t[2..]))
      else
        match ReadFields(t[1..])
        case None => None
        case Some((fields, rest)) => Some((Dict(fields), rest))
    else
      match ReadInt(t)
      case None => None
      case Some((i, rest)) => Some((Int(i), rest))
  }

  function ReadItems(t: Text): (r: Option<(seq<Value>, Text)>)
    ensures r.Some? ==> |r.value.1| < |t|
    decreases |t|, 1
  {
    match ReadValue(t)
    case None => None
    case Some((v, rest)) =>
      if rest == [] then None
      else if rest[0] == CLOSE_LIST then Some(([v], rest[1..]))
      else if rest[0] == COMMA then
        match ReadItems(rest[1..])
        case None => None
        case Some((items, after)) => Some(([v] + items, after))
      else None
  }

  function ReadFields(t: Text): (r: Option<(seq<Field>, Text)>)
    ensures r.Some? ==> |r.value.1| < |t|
    decreases |t|, 1
  {
    match ReadField(t)
    case None => None
    case Some((f, rest)) =>
      if rest == [] then None
      else if rest[0] == CLOSE_DICT then Some(([f], rest[1..]))
      else if rest[0] == COMMA then
        match ReadFields(rest[1..])
        case None => None
        case Some((fields, after)) => Some(([f] + fields, after))
      else None
  }

  function ReadField(t: Text): (r: Option<(Field, Text)>)
    ensures r.Some? ==> |r.value.1| < |t|
    decreases |t|, 0
  {
    if t == [] || t[0] != QUOTE then None
    else
      match ReadChars(t[1..])
      case None => None
      case Some((key, rest)) =>
        if rest == [] || rest[0] != COLON then None
        else
          match ReadValue(rest[1..])
          case None => None
          case Some((v, after)) => Some((Field(key, v), after))
  }

  function Parse(t: Text): Option<Value> {
    match ReadValue(t)
    case None => None
    case Some((v, rest)) => if rest == [] then Some(v) else None
  }

  // --------------------------------------------------------------- round trips

  predicate Ends(rest: Text) {
    rest == [] || !Digit(rest[0])
  }

  lemma WordRead(word: Text, rest: Text, v: Value)
    requires word != []
    ensures ReadWord(word + rest, word, v) == Some((v, rest))
  {
    assert (word + rest)[..|word|] == word && (word + rest)[|word|..] == rest;
  }

  lemma KeyRead(key: Text, after: Text)
    ensures var t := Quoted(key) + after;
            t != [] && t[0] == QUOTE && ReadChars(t[1..]) == Some((key, after))
  {
    StringRead(key, after);
    assert (Quoted(key) + after)[1..] == Escaped(key) + [QUOTE] + after;
  }

  lemma {:induction false} PlainRead(v: Value, rest: Text)
    requires Ends(rest)
    ensures ReadValue(Plain(v) + rest) == Some((v, rest))
    ensures Plain(v) != [] && Plain(v)[0] != CLOSE_LIST
    decreases v, 0
  {
    match v
    case Null => hide ReadWord; WordRead(NULL, rest, Null);
    case Bool(b) => hide ReadWord; WordRead(if b then TRUE else FALSE, rest, v);
    case Int(i) => IntPlainRead(i, rest);
    case Str(s) => StrRead(s, rest);
    case List(items) => ListRead(items, rest);
    case Dict(fields) => DictRead(fields, rest);
  }

  lemma IntPlainRead(i: int, rest: Text)
    requires Ends(rest)
    ensures ReadValue(IntText(i) + rest) == Some((Int(i), rest))
    ensures IntText(i) != [] && IntText(i)[0] != CLOSE_LIST
  {
    hide ReadInt, IntText;
    IntRead(i, rest);
    IntRead(i, []);
    assert IntText(i) + [] == IntText(i);
    IntNotEmpty(i);
  }

  lemma StrRead(s: Text, rest: Text)
    ensures ReadValue(Quoted(s) + rest) == Some((Str(s), rest))
  {
    hide Quoted, ReadChars;
    KeyRead(s, rest);
  }

  lemma IntNotEmpty(i: int)
    ensures IntText(i) != []
  {
  }

  lemma {:induction false} ListRead(items: seq<Value>, rest: Text)
    ensures ReadValue(Plain(List(items)) + rest) == Some((List(items), rest))
    decreases items, 1
  {
    var t := Plain(List(items)) + rest;
    if items == [] {
      assert t == [OPEN_LIST, CLOSE_LIST] + rest;
      assert t[2..] == rest;
    } else {
      ItemsRead(items, rest);
      FirstItem(items);
      assert t == [OPEN_LIST] + (PlainItems(items) + [CLOSE_LIST] + rest);
      hide Plain, PlainItems, ReadItems;
      assert t[1..] == PlainItems(items) + [CLOSE_LIST] + rest;
    }
  }

  lemma FirstItem(items: seq<Value>)
    requires items != []
    ensures PlainItems(items) != [] && PlainItems(items)[0] != CLOSE_LIST
    decreases items, 0
  {
    PlainRead(items[0], []);
  }

  lemma LastItem(t: Text, v: Value, rest: Text)
    requires ReadValue(t) == Some((v, [CLOSE_LIST] + rest))
    ensures ReadItems(t) == Some(([v], rest))
  {
    hide ReadValue;
    assert ([CLOSE_LIST] + rest)[1..] == rest;
  }

  lemma NextItem(t: Text, v: Value, more: Text, items: seq<Value>, rest: Text)
    requires ReadValue(t) == Some((v, [COMMA] + more)) && ReadItems(more) == Some((items, rest))
    ensures ReadItems(t) == Some(([v] + items, rest))
  {
    hide ReadValue;
    assert ([COMMA] + more)[1..] == more;
  }

  lemma {:induction false} ItemsRead(items: seq<Value>, rest: Text)
    requires items != []
    ensures ReadItems(PlainItems(items) + [CLOSE_LIST] + rest) == Some((items, rest))
    decreases items, 0
  {
    var t := PlainItems(items) + [CLOSE_LIST] + rest;
    var first := Plain(items[0]);
    if |items| == 1 {
      assert t == first + ([CLOSE_LIST] + rest);
      hide Plain, PlainItems, ReadValue, ReadItems;
      PlainRead(items[0], [CLOSE_LIST] + rest);
      LastItem(t, items[0], rest);
      assert [items[0]] == items;
    } else {
      var more := PlainItems(items[1..]) + [CLOSE_LIST] + rest;
      assert t == first + ([COMMA] + more);
      hide Plain, PlainItems, ReadValue, ReadItems;
      PlainRead(items[0], [COMMA] + more);
      ItemsRead(items[1..], rest);
      NextItem(t, items[0], more, items[1..], rest);
      assert [items[0]] + items[1..] == items;
    }
  }

  lemma {:induction false} DictRead(fields: seq<Field>, rest: Text)
    ensures ReadValue(Plain(Dict(fields)) + rest) == Some((Dict(fields), rest))
    decreases fields, 1
  {
    var t := Plain(Dict(fields)) + rest;
    if fields == [] {
      assert t == [OPEN_DICT, CLOSE_DICT] + rest;
      assert t[2..] == rest;
    } else {
      FieldsRead(fields, rest);
      assert Members(PlainFields(fields))[0] == QUOTE;
      assert t == [OPEN_DICT] + (Members(PlainFields(fields)) + [CLOSE_DICT] + rest);
      hide Plain, PlainFields, Members, ReadFields;
      assert t[1..] == Members(PlainFields(fields)) + [CLOSE_DICT] + rest;
    }
  }

  lemma {:induction false} FieldRead(f: Field, rest: Text)
    requires Ends(rest)
    ensures ReadField(Quoted(f.key) + [COLON] + Plain(f.value) + rest) == Some((f, rest))
    decreases f
  {
    var after := [COLON] + (Plain(f.value) + rest);
    assert Quoted(f.key) + [COLON] + Plain(f.value) + rest == Quoted(f.key) + after;
    hide ReadValue, Plain, ReadChars, Quoted;
    KeyRead(f.key, after);
    PlainRead(f.value, rest);
    assert after[1..] == Plain(f.value) + rest;
  }

  lemma LastField(t: Text, f: Field, rest: Text)
    requires ReadField(t) == Some((f, [CLOSE_DICT] + rest))
    ensures ReadFields(t) == Some(([f], rest))
  {
    hide ReadField;
    assert ([CLOSE_DICT] + rest)[1..] == rest;
  }

  lemma NextField(t: Text, f: Field, more: Text, fields: seq<Field>, rest: Text)
    requires ReadField(t) == Some((f, [COMMA] + more)) && ReadFields(more) == Some((fields, rest))
    ensures ReadFields(t) == Some(([f] + fields, rest))
  {
    hide ReadField;
    assert ([COMMA] + more)[1..] == more;
  }

  lemma {:induction false} FieldsRead(fields: seq<Field>, rest: Text)
    requires fields != []
    ensures ReadFields(Members(PlainFields(fields)) + [CLOSE_DICT] + rest) == Some((fields, rest))
    decreases fields, 0
  {
    var t := Members(PlainFields(fields)) + [CLOSE_DICT] + rest;
    var tail := PlainFields(fields[1..]);
    assert PlainFields(fields)[1..] == tail;
    PlainFieldsLength(fields[1..]);
    var first := Quoted(fields[0].key) + [COLON] + Plain(fields[0].value);
    if |fields| == 1 {
      assert t == first + ([CLOSE_DICT] + rest);
      hide Plain, PlainFields, ReadField, ReadFields, Members, Quoted;
      FieldRead(fields[0], [CLOSE_DICT] + rest);
      LastField(t, fields[0], rest);
      assert [fields[0]] == fields;
    } else {
      var more := Members(tail) + [CLOSE_DICT] + rest;
      assert t == first + ([COMMA] + more);
      hide Plain, PlainFields, ReadField, ReadFields, Members, Quoted;
      FieldRead(fields[0], [COMMA] + more);
      FieldsRead(fields[1..], rest);
      NextField(t, fields[0], more, fields[1..], rest);
      assert [fields[0]] + fields[1..] == fields;
    }
  }

  lemma {:induction false} PlainFieldsLength(fields: seq<Field>)
    ensures |PlainFields(fields)| == |fields|
  {
    if fields != [] { PlainFieldsLength(fields[1..]); }
  }

  // Parsing a canonical text gives back the value, members in sorted order, and
  // printing what was parsed gives the text again.
  lemma TextRoundTrip(v: Value)
    ensures Parse(Print(v)) == Some(Canon(v))
    ensures Print(Canon(v)) == Print(v)
  {
    hide Print, Plain, Canon, ReadValue;
    PrintIsPlain(v);
    PlainRead(Canon(v), []);
    assert Plain(Canon(v)) + [] == Plain(Canon(v));
    CanonAgain(v);
    PrintIsPlain(Canon(v));
  }
}
