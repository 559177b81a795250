// Literal search at word boundaries. Folding, lower-casing and the Unicode
// tables behind them are parameters; the searches are the code's own.

module LiteralSearch {
  import opened Common

  datatype Category = Letter | Mark | Number | OtherCategory

  datatype Unicode = Unicode(
    fold: string -> string,             // fold_lexical_text
    normalizeStrict: string -> string,  // normalize_strict_literal_text
    isAlnum: char -> bool,
    category: char -> Category)
  {
    predicate IsWord(c: char) {
      c == '_' || isAlnum(c)
    }

    predicate IsStrictWord(c: char) {
      c == '_' || category(c).Letter? || category(c).Mark? || category(c).Number?
    }
  }

  predicate OccursAt(text: string, literal: string, i: int) {
    0 <= i && i + |literal| <= |text| && text[i..i + |literal|] == literal
  }

  // An occurrence must not continue a word at either end.
  predicate Bounded(isWord: char -> bool, text: string, literal: string, i: int)
    requires literal != [] && OccursAt(text, literal, i)
  {
    var end := i + |literal|;
    !(isWord(literal[0]) && i > 0 && isWord(text[i - 1])) &&
    !(isWord(literal[|literal| - 1]) && end < |text| && isWord(text[end]))
  }

  ghost predicate Present(isWord: char -> bool, text: string, literal: string) {
    literal != [] && exists i :: OccursAt(text, literal, i) && Bounded(isWord, text, literal, i)
  }

  // str.find: the least occurrence at or after start.
  method Find(text: string, literal: string, start: nat) returns (r: Option<nat>)
    requires start <= |text|
    ensures r.Some? ==> start <= r.value && OccursAt(text, literal, r.value)
    ensures forall i :: start <= i < (if r.Some? then r.value else |text| + 1) ==> !OccursAt(text, literal, i)
  {
    var i := start;
    while i + |literal| <= |text|
      invariant start <= i
      invariant forall k :: start <= k < i ==> !OccursAt(text, literal, k)
    {
      if text[i..i + |literal|] == literal { return Some(i); }
      i := i + 1;
    }
    return None;
  }

  // The loop both searches run: it only looks at the occurrences that
  // successive finds report.
  method SearchLoop(isWord: char -> bool, text: string, literal: string) returns (present: bool)
    ensures present <==> Present(isWord, text, literal)
    ensures present <==> exists i :: StandsAt(isWord, text, literal, i)
  {
    StandsExactly(isWord, isWord, text, literal);
    if literal == [] { return false; }
    var start := 0;
    while true
      invariant 0 <= start <= |text|
      invariant forall i :: 0 <= i < start && OccursAt(text, literal, i) ==> !Bounded(isWord, text, literal, i)
      decreases |text| - start
    {
      var index := Find(text, literal, start);
      if index.None? { return false; }
      var i := index.value;
      var end := i + |literal|;
      var beforeIsWord := i > 0 && isWord(text[i - 1]);
      var afterIsWord := end < |text| && isWord(text[end]);
      var startsWord := isWord(literal[0]);
      var endsWord := isWord(literal[|literal| - 1]);
      if !(startsWord && beforeIsWord) && !(endsWord && afterIsWord) { return true; }
      start := i + 1;
    }
    assert false;
  }

  // The literal stands at `i`, and no word runs on over either of its ends.
  predicate StandsAt(isWord: char -> bool, text: string, literal: string, i: int) {
    0 <= i && literal != "" && i + |literal| <= |text| && text[i..i + |literal|] == literal &&
    (isWord(literal[0]) && i > 0 ==> !isWord(text[i - 1])) &&
    (isWord(literal[|literal| - 1]) && i + |literal| < |text| ==> !isWord(text[i + |literal|]))
  }

  lemma StandsExactly(isWord: char -> bool, same: char -> bool, text: string, literal: string)
    requires forall c :: isWord(c) == same(c)
    ensures Present(isWord, text, literal) <==> exists i :: StandsAt(same, text, literal, i)
  {
    if literal != "" {
      forall i ensures StandsAt(same, text, literal, i) <==> OccursAt(text, literal, i) && Bounded(isWord, text, literal, i) {}
    }
  }

  method FoldedLiteralPresent(u: Unicode, foldedText: string, literal: string) returns (present: bool)
    ensures present <==> Present(u.IsWord, foldedText, u.fold(literal))
    ensures
      var isWord, folded := (c: char) => c == '_' || u.isAlnum(c), u.fold(literal);
      present <==> exists i :: StandsAt(isWord, foldedText, folded, i)
  {
    present := SearchLoop(u.IsWord, foldedText, u.fold(literal));
    StandsExactly(u.IsWord, c => c == '_' || u.isAlnum(c), foldedText, u.fold(literal));
  }

  method StrictLiteralPresent(u: Unicode, normalizedText: string, literal: string) returns (present: bool)
    ensures present <==> Present(u.IsStrictWord, normalizedText, u.normalizeStrict(literal))
    ensures
      var isWord, strict := (c: char) => c == '_' || u.category(c) != OtherCategory, u.normalizeStrict(literal);
      present <==> exists i :: StandsAt(isWord, normalizedText, strict, i)
  {
    present := SearchLoop(u.IsStrictWord, normalizedText, u.normalizeStrict(literal));
    StandsExactly(u.IsStrictWord, c => c == '_' || u.category(c) != OtherCategory, normalizedText, u.normalizeStrict(literal));
  }

  // --------------------------------------------------- what presence means

  function WordLength(isWord: char -> bool, text: string): (n: nat)
    ensures n <= |text|
    ensures forall i :: 0 <= i < n ==> isWord(text[i])
    ensures n < |text| ==> !isWord(text[n])
  {
    if text == [] || !isWord(text[0]) then 0 else 1 + WordLength(isWord, text[1..])
  }

  // The maximal runs of word characters, in order.
  function Words(isWord: char -> bool, text: string): seq<string>
    decreases |text|
  {
    if text == [] then []
    else if !isWord(text[0]) then Words(isWord, text[1..])
    else
      var n := WordLength(isWord, text);
      [text[..n]] + Words(isWord, text[n..])
  }

  // Dropping a prefix after which no word continues loses only the occurrences
  // that start inside it.
  lemma DropPrefix(isWord: char -> bool, text: string, literal: string, n: nat)
    requires 0 < n <= |text| && literal != [] && isWord(literal[0])
    requires !isWord(text[n - 1]) || (n < |text| ==> !isWord(text[n]))
    ensures Present(isWord, text[n..], literal) <==>
            exists i :: n <= i && OccursAt(text, literal, i) && Bounded(isWord, text, literal, i)
  {
    var rest := text[n..];
    forall i | OccursAt(rest, literal, i)
      ensures OccursAt(text, literal, n + i)
      ensures Bounded(isWord, rest, literal, i) <==> Bounded(isWord, text, literal, n + i)
    {
      assert text[n + i..n + i + |literal|] == rest[i..i + |literal|];
      assert literal[0] == rest[i];
    }
    forall i | n <= i && OccursAt(text, literal, i) ensures OccursAt(rest, literal, i - n) {
      assert text[i..i + |literal|] == rest[i - n..i - n + |literal|];
    }
    if i :| n <= i && OccursAt(text, literal, i) && Bounded(isWord, text, literal, i) {
      assert OccursAt(rest, literal, i - n) && Bounded(isWord, rest, literal, i - n);
    }
  }

  // A literal made of word characters is found exactly when it is one of the
  // text's words: never inside a longer word, and never missed.
  lemma {:induction false} PresentMeansWord(isWord: char -> bool, text: string, literal: string)
    requires literal != [] && forall c :: c in literal ==> isWord(c)
    ensures Present(isWord, text, literal) <==> literal in Words(isWord, text)
    decreases |text|
  {
    if text == [] {
    } else if !isWord(text[0]) {
      PresentMeansWord(isWord, text[1..], literal);
      DropPrefix(isWord, text, literal, 1);
      assert literal[0] in literal;
      assert !OccursAt(text, literal, 0);
    } else {
      var n := WordLength(isWord, text);
      PresentMeansWord(isWord, text[n..], literal);
      DropPrefix(isWord, text, literal, n);
      FirstWord(isWord, text, literal, n);
    }
  }

  // Within the leading word only the word itself is a bounded occurrence.
  lemma FirstWord(isWord: char -> bool, text: string, literal: string, n: nat)
    requires literal != [] && forall c :: c in literal ==> isWord(c)
    requires n == WordLength(isWord, text) && 0 < n
    ensures (exists i :: 0 <= i < n && OccursAt(text, literal, i) && Bounded(isWord, text, literal, i)) <==>
            literal == text[..n]
  {
    if literal == text[..n] {
      assert OccursAt(text, literal, 0) && Bounded(isWord, text, literal, 0);
    }
    forall i | 0 <= i < n && OccursAt(text, literal, i) && Bounded(isWord, text, literal, i)
      ensures literal == text[..n]
    {
      var end := i + |literal|;
      assert literal[0] in literal && literal[|literal| - 1] in literal;
      assert end <= n;
    }
  }
}
