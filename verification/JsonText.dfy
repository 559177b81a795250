// Scalars of the canonical JSON text (RFC 8259, sections 6 and 7): strings and
// integers as the serializer writes them, and a reader that undoes it.

module JsonText {
  import opened Common
  import opened Ordering

  // Python text: a sequence of code points, lone surrogates included.
  type Code = c: int | 0 <= c < 0x110000

  type Text = seq<Code>

  function Scalar(c: Code): int { c }

  predicate TextLeq(a: Text, b: Text) {
    SeqLeq(Scalar, a, b)
  }

  lemma TextLeqIsTotalPreorder()
    ensures TotalPreorder(TextLeq)
  {
    forall a, b ensures TextLeq(a, b) || TextLeq(b, a) { SeqLeqTotal(Scalar, a, b); }
    forall a, b, c | TextLeq(a, b) && TextLeq(b, c) ensures TextLeq(a, c) { SeqLeqTransitive(Scalar, a, b, c); }
  }

  lemma TextLeqAntisymmetric(a: Text, b: Text)
    requires TextLeq(a, b) && TextLeq(b, a)
    ensures a == b
  {
    SeqLeqAntisymmetric(Scalar, a, b);
  }

  const QUOTE: Code := 34
  const BACKSLASH: Code := 92

  // ------------------------------------------------------------------ strings

  function HexDigit(d: nat): Code
    requires d < 16
  {
    if d < 10 then 48 + d else 87 + d
  }

  function HexValue(c: Code): (r: Option<nat>)
    ensures r.Some? ==> r.value < 16
  {
    if 48 <= c <= 57 then Some(c - 48) else if 97 <= c <= 102 then Some(c - 87) else None
  }

  // Backspace, tab, line feed, form feed and carriage return have short escapes.
  function Escape(c: Code): Text {
    if c == QUOTE || c == BACKSLASH then [BACKSLASH, c]
    else if c == 8 then [BACKSLASH, 98]
    else if c == 9 then [BACKSLASH, 116]
    else if c == 10 then [BACKSLASH, 110]
    else if c == 12 then [BACKSLASH, 102]
    else if c == 13 then [BACKSLASH, 114]
    else if c < 32 then [BACKSLASH, 117, 48, 48, HexDigit(c / 16), HexDigit(c % 16)]
    else [c]
  }

  function Escaped(s: Text): Text {
    if s == [] then [] else Escape(s[0]) + Escaped(s[1..])
  }

  function Quoted(s: Text): Text {
    [QUOTE] + Escaped(s) + [QUOTE]
  }

  // One possibly escaped character. A quote or a raw control character is none.
  function ReadChar(t: Text): (r: Option<(Code, Text)>)
    ensures r.Some? ==> |r.value.1| < |t|
  {
    if t == [] || t[0] == QUOTE || t[0] < 32 then None
    else if t[0] != BACKSLASH then Some((t[0], t[1..]))
    else if |t| < 2 then None
    else if t[1] == QUOTE || t[1] == BACKSLASH then Some((t[1], t[2..]))
    else if t[1] == 98 then Some((8, t[2..]))
    else if t[1] == 116 then Some((9, t[2..]))
    else if t[1] == 110 then Some((10, t[2..]))
    else if t[1] == 102 then Some((12, t[2..]))
    else if t[1] == 114 then Some((13, t[2..]))
    else if t[1] == 117 && |t| >= 6 && t[2] == 48 && t[3] == 48 then
      match (HexValue(t[4]), HexValue(t[5]))
      case (Some(high), Some(low)) => Some((16 * high + low, t[6..]))
      case (_, _) => None
    else None
  }

  // Characters up to the closing quote.
  function ReadChars(t: Text): (r: Option<(Text, Text)>)
    ensures r.Some? ==> |r.value.1| < |t|
    decreases |t|
  {
    if t != [] && t[0] == QUOTE then Some(([], t[1..]))
    else
      match ReadChar(t)
      case None => None
      case Some((c, rest)) =>
        match ReadChars(rest)
        case None => None
        case Some((s, after)) => Some(([c] + s, after))
  }

  lemma CharRead(c: Code, rest: Text)
    ensures ReadChar(Escape(c) + rest) == Some((c, rest))
    ensures (Escape(c) + rest)[0] != QUOTE
  {
    var e := Escape(c);
    assert (e + rest)[|e|..] == rest;
  }

  lemma {:induction false} StringRead(s: Text, rest: Text)
    ensures ReadChars(Escaped(s) + [QUOTE] + rest) == Some((s, rest))
  {
    if s == [] {
      assert [] + [QUOTE] + rest == [QUOTE] + rest;
      assert ([QUOTE] + rest)[1..] == rest;
    } else {
      var tail := Escaped(s[1..]) + [QUOTE] + rest;
      assert Escaped(s) + [QUOTE] + rest == Escape(s[0]) + tail;
      CharRead(s[0], tail);
      StringRead(s[1..], rest);
      assert [s[0]] + s[1..] == s;
    }
  }

  // ----------------------------------------------------------------- integers

  predicate Digit(c: Code) { 48 <= c <= 57 }

  function Digits(n: nat): (t: Text)
    ensures t != [] && forall c :: c in t ==> Digit(c)
  {
    if n < 10 then [48 + n] else Digits(n / 10) + [48 + n % 10]
  }

  function IntText(i: int): Text {
    if i < 0 then [45] + Digits(-i) else Digits(i)
  }

  function DigitRun(t: Text): (n: nat)
    ensures n <= |t| && forall c :: c in t[..n] ==> Digit(c)
  {
    if t == [] || !Digit(t[0]) then 0 else 1 + DigitRun(t[1..])
  }

  function Numeral(t: Text): nat
    requires forall c :: c in t ==> Digit(c)
  {
    if t == [] then 0
    else
      var last := t[|t| - 1];
      assert Digit(last);
      10 * Numeral(t[..|t| - 1]) + (last - 48)
  }

  function ReadNat(t: Text): (r: Option<(int, Text)>)
    ensures r.Some? ==> |r.value.1| < |t|
  {
    var n := DigitRun(t);
    if n == 0 then None else Some((Numeral(t[..n]), t[n..]))
  }

  function ReadInt(t: Text): (r: Option<(int, Text)>)
    ensures r.Some? ==> |r.value.1| < |t|
  {
    if t != [] && t[0] == 45 then
      match ReadNat(t[1..])
      case None => None
      case Some((n, rest)) => Some((-n, rest))
    else ReadNat(t)
  }

  lemma {:induction false} NumeralOfDigits(n: nat)
    ensures Numeral(Digits(n)) == n
  {
    if n >= 10 {
      NumeralOfDigits(n / 10);
      var front := Digits(n / 10);
      assert Digits(n)[..|front|] == front;
    }
  }

  lemma {:induction false} DigitRunStops(ds: Text, rest: Text)
    requires forall c :: c in ds ==> Digit(c)
    requires rest == [] || !Digit(rest[0])
    ensures DigitRun(ds + rest) == |ds|
  {
    if ds == [] {
      assert ds + rest == rest;
    } else {
      assert (ds + rest)[1..] == ds[1..] + rest;
      DigitRunStops(ds[1..], rest);
    }
  }

  lemma NatRead(n: nat, rest: Text)
    requires rest == [] || !Digit(rest[0])
    ensures ReadNat(Digits(n) + rest) == Some((n, rest))
  {
    DigitRunStops(Digits(n), rest);
    NumeralOfDigits(n);
    assert (Digits(n) + rest)[..|Digits(n)|] == Digits(n);
    assert (Digits(n) + rest)[|Digits(n)|..] == rest;
  }

  lemma IntRead(i: int, rest: Text)
    requires rest == [] || !Digit(rest[0])
    ensures ReadInt(IntText(i) + rest) == Some((i, rest))
    ensures (IntText(i) + rest)[0] == 45 || Digit((IntText(i) + rest)[0])
  {
    hide Digits, ReadNat;
    var n: nat := if i < 0 then -i else i;
    NatRead(n, rest);
    assert Digits(n)[0] in Digits(n);
    assert Digit((Digits(n) + rest)[0]);
    if i < 0 { assert (IntText(i) + rest)[1..] == Digits(n) + rest; }
  }
}
