/** When the parser indexes past the end of a command: just when only the closing bracket is missing
    behind a comma (parser.cpp). */
module PastEnd {
  import opened Types
  import opened Numbers
  import opened PatternText
  import opened Parser
  import opened Layout
  import opened Seqs

  // ---- The last character that is no blank -------------------------------------------

  predicate LastAt(s: Bytes, k: int, c: Byte) {
    0 <= k < |s| && s[k] == c && forall i :: k < i < |s| ==> s[i] == ' '
  }

  // The last character of s that is no blank is a comma.
  ghost predicate EndsWithComma(s: Bytes) {
    exists k :: LastAt(s, k, ',')
  }

  // `rest` is the end of s.
  predicate EndOf(rest: Bytes, s: Bytes) {
    |rest| <= |s| && s[|s| - |rest|..] == rest
  }

  lemma EndOfEnd(a: Bytes, b: Bytes, c: Bytes)
    requires EndOf(a, b) && EndOf(b, c)
    ensures EndOf(a, c)
  {
    assert c[|c| - |b|..][|b| - |a|..] == c[|c| - |a|..];
  }

  // The comma is looked for from the first character on that is no blank.
  lemma CommaInEnd(rest: Bytes, s: Bytes)
    requires EndOf(rest, s) && rest != [] && rest[0] != ' '
    ensures EndsWithComma(rest) <==> EndsWithComma(s)
  {
    var n := |s| - |rest|;
    assert s[n] == rest[0];
    forall i | n <= i < |s| ensures s[i] == rest[i - n] {
      assert s[n..][i - n] == s[i];
    }
    if k :| LastAt(s, k, ',') {
      assert k >= n;
      assert LastAt(rest, k - n, ',');
    }
    if k :| LastAt(rest, k, ',') {
      assert LastAt(s, k + n, ',');
    }
  }

  lemma {:induction false} SkippedIsBlank(s: Bytes)
    ensures EndOf(SkipBlanks(s), s)
    ensures forall i :: 0 <= i < |s| - |SkipBlanks(s)| ==> s[i] == ' '
  {
    if s != [] && s[0] == ' ' {
      SkippedIsBlank(s[1..]);
      EndOfEnd(SkipBlanks(s), s[1..], s);
      forall i | 0 <= i < |s| - |SkipBlanks(s)| ensures s[i] == ' ' {
        assert i > 0 ==> s[1..][i - 1] == s[i];
      }
    }
  }

  // Only blanks stand behind this character.
  lemma BlanksBehind(rest: Bytes, s: Bytes)
    requires EndOf(rest, s) && |rest| < |s| && SkipBlanks(rest) == [] && s[|s| - |rest| - 1] != ' '
    ensures EndsWithComma(s) <==> s[|s| - |rest| - 1] == ','
  {
    SkippedIsBlank(rest);
    var k := |s| - |rest| - 1;
    forall i | k < i < |s| ensures s[i] == ' ' {
      assert s[k + 1..][i - k - 1] == s[i];
    }
    if s[k] == ',' {
      assert LastAt(s, k, ',');
    }
  }

  // ---- With a closing bracket behind the text ----------------------------------------

  lemma {:induction false} SkipWith(s: Bytes)
    ensures SkipBlanks(s + CLOSE) == SkipBlanks(s) + CLOSE
  {
    if s == [] {
      assert s + CLOSE == CLOSE;
    } else if s[0] == ' ' {
      assert (s + CLOSE)[1..] == s[1..] + CLOSE;
      SkipWith(s[1..]);
    }
  }

  lemma {:induction false} CountWith(s: Bytes)
    ensures DigitCount(s + CLOSE) == DigitCount(s)
  {
    CountStops(s, CLOSE);
  }

  lemma {:induction false} QuoteWith(s: Bytes)
    ensures var k := IndexOf(s, '"'); IndexOf(s + CLOSE, '"') == if k < |s| then k else |s| + 1
  {
    if s == [] {
      assert s + CLOSE == CLOSE && CLOSE[1..] == [];
    } else if s[0] != '"' {
      assert (s + CLOSE)[1..] == s[1..] + CLOSE;
      QuoteWith(s[1..]);
    }
  }

  // A reader sees the bracket only behind what it reads, ...
  lemma QuotedWith(s: Bytes)
    requires s != []
    ensures Quoted(s).Ok? ==> Quoted(s + CLOSE) == Ok((Quoted(s).value.0, Quoted(s).value.1 + CLOSE))
    ensures Quoted(s).Err? ==> Quoted(s + CLOSE).Err?
  {
    var t, k := s + CLOSE, IndexOf(s[1..], '"');
    assert t[1..] == s[1..] + CLOSE;
    QuoteWith(s[1..]);
    if k < |s| - 1 {
      assert t[1..k + 1] == s[1..k + 1] && t[k + 2..] == s[k + 2..] + CLOSE;
    }
  }

  predicate EndsInNumber(s: Bytes) {
    s != [] && (IsDigit(s[|s| - 1]) || s[|s| - 1] == '.')
  }

  function WithClose(t: Token): Token {
    t.(rest := t.rest + CLOSE)
  }

  lemma {:induction false} AllDigits(s: Bytes)
    ensures forall i :: 0 <= i < DigitCount(s) ==> IsDigit(s[i])
  {
    if s != [] && IsDigit(s[0]) {
      AllDigits(s[1..]);
      forall i | 0 <= i < DigitCount(s) ensures IsDigit(s[i]) {
        assert i > 0 ==> s[1..][i - 1] == s[i];
      }
    }
  }

  // Cut in front of the bracket, a text is cut the same.
  lemma CutWith(s: Bytes, n: nat)
    requires n <= |s|
    ensures (s + CLOSE)[..n] == s[..n] && (s + CLOSE)[n..] == s[n..] + CLOSE
    ensures n < |s| ==> (s + CLOSE)[n] == s[n]
  {
  }

  lemma DecimalWith(ft: FloatText, front: Bytes, s: Bytes)
    ensures var r, closed := DecimalItem(ft, front, s), DecimalItem(ft, front, s + CLOSE);
      && (r.Ok? ==> closed == Ok(WithClose(r.value)))
      && (closed.Ok? && DigitCount(s) < |s| ==> r.Ok?)
  {
    CountWith(s);
    CutWith(s, DigitCount(s));
  }

  lemma IntWith(ft: FloatText, s: Bytes)
    requires s != [] && IsDigit(s[0]) && DigitCount(s) < |s| && s[DigitCount(s)] != '.'
    ensures var r, closed := NumberItem(ft, s), NumberItem(ft, s + CLOSE);
      if r.Ok? then closed == Ok(WithClose(r.value)) else closed.Err?
  {
    var n := DigitCount(s);
    CountWith(s);
    CutWith(s, n);
    assert NumberItem(ft, s) == IntToken(s[..n], s[n..]);
    assert NumberItem(ft, s + CLOSE) == IntToken(s[..n], s[n..] + CLOSE);
  }

  lemma {:induction false} NumberWith(ft: FloatText, s: Bytes)
    requires s != [] && IsDigit(s[0])
    ensures var r, closed := NumberItem(ft, s), NumberItem(ft, s + CLOSE);
      && (r.Ok? ==> closed == Ok(WithClose(r.value)))
      && (closed.Ok? && !EndsInNumber(s) ==> r.Ok?)
  {
    var n := DigitCount(s);
    if n == |s| {
      AllDigits(s);
      assert s[|s| - 1] == s[n - 1];
    } else if s[n] == '.' {
      CountWith(s);
      PointWith(ft, s, n);
      assert (s + CLOSE)[n] == '.';
    } else {
      IntWith(ft, s);
    }
  }

  lemma PointWith(ft: FloatText, s: Bytes, n: nat)
    requires n < |s| && s[n] == '.'
    ensures (s + CLOSE)[..n + 1] == s[..n + 1] && (s + CLOSE)[n + 1..] == s[n + 1..] + CLOSE
    ensures var r, closed := DecimalItem(ft, s[..n + 1], s[n + 1..]), DecimalItem(ft, s[..n + 1], s[n + 1..] + CLOSE);
      && (r.Ok? ==> closed == Ok(WithClose(r.value)))
      && (closed.Ok? && !EndsInNumber(s) ==> r.Ok?)
  {
    var behind := s[n + 1..];
    CutWith(s, n + 1);
    DecimalWith(ft, s[..n + 1], behind);
    if DigitCount(behind) == |behind| {
      AllDigits(behind);
      assert s[|s| - 1] == if behind == [] then s[n] else behind[|behind| - 1];
    }
  }

  lemma ArgumentStartWith(s: Bytes)
    ensures var r, closed := ArgumentStart(s), ArgumentStart(s + CLOSE);
      if r.Ok? then closed == Ok(r.value + CLOSE) else closed.Err?
  {
    SkipWith(s);
    var a := SkipBlanks(s);
    if a != [] {
      assert (a + CLOSE)[1..] == a[1..] + CLOSE;
      SkipWith(a[1..]);
    }
  }

  // ... unless it is what ends the last argument.
  lemma ArgumentEndWith(s: Bytes)
    ensures var r, closed := ArgumentEnd(s), ArgumentEnd(s + CLOSE);
      if r.Ok? then closed == Ok(r.value + CLOSE) else closed.Err? || closed.value == []
  {
    SkipWith(s);
    var c := SkipBlanks(s);
    if c != [] {
      assert (c + CLOSE)[1..] == c[1..] + CLOSE;
    }
  }

  lemma ArgumentWith(s: Bytes)
    ensures var r, closed := Argument(s), Argument(s + CLOSE);
      if r.Ok? then closed == Ok((r.value.0, r.value.1 + CLOSE)) else closed.Err? || closed.value.1 == []
  {
    ArgumentStartWith(s);
    if ArgumentStart(s).Ok? {
      var b := ArgumentStart(s).value;
      QuotedWith(b);
      if Quoted(b).Ok? {
        ArgumentEndWith(Quoted(b).value.1);
      }
    }
  }

  lemma KeywordWith(s: Bytes)
    ensures KeywordOf(s + CLOSE) == KeywordOf(s)
  {
    StartsWith(Name(StringWord), s);
    StartsWith(Name(IntWord), s);
    StartsWith(Name(FloatWord), s);
  }

  lemma StartsWith(word: Bytes, s: Bytes)
    requires word != [] && word[|word| - 1] != ')'
    ensures word <= s + CLOSE <==> word <= s
    ensures word <= s ==> (s + CLOSE)[|word|..] == s[|word|..] + CLOSE
  {
    assert (s + CLOSE)[|s|] == ')';
    if word <= s + CLOSE && |word| <= |s| {
      assert (s + CLOSE)[..|word|] == s[..|word|];
    }
  }

  lemma PatternWith(ft: FloatText, s: Bytes)
    ensures var r, closed := ReadPattern(ft, s), ReadPattern(ft, s + CLOSE);
      if r.Ok? then closed == Ok(WithClose(r.value)) else closed.Err? || closed.value.rest == []
  {
    KeywordWith(s);
    if KeywordOf(s).Some? {
      var word := Name(KeywordOf(s).value);
      StartsWith(word, s);
      ArgumentWith(s[|word|..]);
    }
  }

  lemma ItemWith(ft: FloatText, lang: Language, s: Bytes)
    requires s != []
    ensures var r, closed := ReadItem(ft, lang, s), ReadItem(ft, lang, s + CLOSE);
      && (r.Ok? ==> closed == Ok(WithClose(r.value)))
      && (closed.Ok? && closed.value.rest != [] && !EndsInNumber(s) ==> r.Ok?)
  {
    assert (s + CLOSE)[0] == s[0];
    if lang == Patterns {
      PatternWith(ft, s);
    } else if s[0] == '"' {
      QuotedWith(s);
    } else if IsDigit(s[0]) {
      NumberWith(ft, s);
    }
  }

  // ---- Where an item ends ------------------------------------------------------------

  // An item ends in a quote, a digit, a point or a bracket.
  predicate ItemEnds(s: Bytes, rest: Bytes) {
    |rest| < |s| && EndOf(rest, s) && s[|s| - |rest| - 1] != ',' && s[|s| - |rest| - 1] != ' '
  }

  lemma PointEnds(s: Bytes, n: nat)
    requires n < |s| && s[n] == '.'
    ensures ItemEnds(s, s[n + 1..][DigitCount(s[n + 1..])..])
  {
    var behind := s[n + 1..];
    var m := DigitCount(behind);
    AllDigits(behind);
    if m > 0 {
      EndsFarther(behind[m..], behind, s);
    }
  }

  lemma DigitsEnd(s: Bytes)
    requires s != [] && IsDigit(s[0])
    ensures ItemEnds(s, s[DigitCount(s)..])
  {
    AllDigits(s);
  }

  // How a number is read that ends with the text, at a point, or elsewhere.
  lemma {:induction false} NumberToEnd(ft: FloatText, s: Bytes)
    requires s != [] && IsDigit(s[0]) && DigitCount(s) == |s|
    ensures NumberItem(ft, s).Err?
  {
  }

  lemma {:induction false} NumberToPoint(ft: FloatText, s: Bytes, n: nat)
    requires s != [] && IsDigit(s[0]) && n == DigitCount(s) < |s| && s[n] == '.'
    ensures NumberItem(ft, s) == DecimalItem(ft, s[..n + 1], s[n + 1..])
  {
  }

  lemma {:induction false} NumberToOther(ft: FloatText, s: Bytes, n: nat)
    requires s != [] && IsDigit(s[0]) && n == DigitCount(s) < |s| && s[n] != '.'
    ensures NumberItem(ft, s) == IntToken(s[..n], s[n..])
  {
  }

  lemma DecimalRest(ft: FloatText, front: Bytes, behind: Bytes)
    requires DecimalItem(ft, front, behind).Ok?
    ensures DecimalItem(ft, front, behind).value.rest == behind[DigitCount(behind)..]
  {
  }

  lemma IntRest(text: Bytes, rest: Bytes)
    requires IntToken(text, rest).Ok?
    ensures IntToken(text, rest).value.rest == rest
  {
  }

  lemma NumberEnds(ft: FloatText, s: Bytes)
    requires s != [] && IsDigit(s[0]) && NumberItem(ft, s).Ok?
    ensures ItemEnds(s, NumberItem(ft, s).value.rest)
  {
    var n := DigitCount(s);
    if n == |s| {
      NumberToEnd(ft, s);
    } else if s[n] == '.' {
      NumberToPoint(ft, s, n);
      DecimalRest(ft, s[..n + 1], s[n + 1..]);
      PointEnds(s, n);
    } else {
      NumberToOther(ft, s, n);
      IntRest(s[..n], s[n..]);
      DigitsEnd(s);
    }
  }

  lemma EndsFarther(rest: Bytes, b: Bytes, s: Bytes)
    requires ItemEnds(b, rest) && EndOf(b, s)
    ensures ItemEnds(s, rest)
  {
    EndOfEnd(rest, b, s);
    assert s[|s| - |b|..][|b| - |rest| - 1] == s[|s| - |rest| - 1];
  }

  lemma StartIsEnd(s: Bytes)
    requires ArgumentStart(s).Ok?
    ensures EndOf(ArgumentStart(s).value, s)
  {
    var a := SkipBlanks(s);
    SkippedIsBlank(s);
    SkippedIsBlank(a[1..]);
    EndOfEnd(a[1..], a, s);
    EndOfEnd(SkipBlanks(a[1..]), a[1..], s);
  }

  lemma BracketEnds(s: Bytes)
    requires ArgumentEnd(s).Ok?
    ensures ItemEnds(s, ArgumentEnd(s).value)
  {
    var c := SkipBlanks(s);
    SkippedIsBlank(s);
    assert ItemEnds(c, c[1..]);
    EndsFarther(c[1..], c, s);
  }

  lemma ArgumentEnds(s: Bytes)
    requires Argument(s).Ok?
    ensures ItemEnds(s, Argument(s).value.1)
  {
    StartIsEnd(s);
    var b := ArgumentStart(s).value;
    var end := Quoted(b).value.1;
    BracketEnds(end);
    EndOfEnd(end, b, s);
    EndsFarther(ArgumentEnd(end).value, end, s);
  }

  lemma ItemHasEnd(ft: FloatText, lang: Language, s: Bytes)
    requires s != [] && ReadItem(ft, lang, s).Ok?
    ensures ItemEnds(s, ReadItem(ft, lang, s).value.rest)
  {
    if lang == Patterns {
      var argument := s[|Name(KeywordOf(s).value)|..];
      ArgumentEnds(argument);
      EndsFarther(ReadPattern(ft, s).value.rest, argument, s);
    } else if IsDigit(s[0]) {
      NumberEnds(ft, s);
    }
  }

  // ---- Lists and commands ------------------------------------------------------------

  lemma NumberNeverPastEnd(ft: FloatText, s: Bytes)
    requires s != [] && IsDigit(s[0])
    ensures NumberItem(ft, s) != Err(IndexedPastEnd)
  {
  }

  lemma PatternNeverPastEnd(ft: FloatText, s: Bytes)
    ensures ReadPattern(ft, s) != Err(IndexedPastEnd)
  {
    if KeywordOf(s).Some? {
      var argument := s[|Name(KeywordOf(s).value)|..];
      assert Argument(argument) != Err(IndexedPastEnd);
      if Argument(argument).Ok? {
        ConstructNeverPastEnd(ft, KeywordOf(s).value, Argument(argument).value.0);
      }
    }
  }

  lemma ConstructNeverPastEnd(ft: FloatText, w: Keyword, text: Bytes)
    ensures Construct(ft, w, text) != Err(IndexedPastEnd)
  {
  }

  lemma ItemNeverPastEnd(ft: FloatText, lang: Language, s: Bytes)
    requires s != []
    ensures ReadItem(ft, lang, s) != Err(IndexedPastEnd)
  {
    if lang == Patterns {
      PatternNeverPastEnd(ft, s);
    } else if IsDigit(s[0]) {
      NumberNeverPastEnd(ft, s);
    }
  }

  lemma BehindWith(s: Bytes)
    ensures var r := BehindItem(s); r.Ok? ==> BehindItem(s + CLOSE) == Ok(r.value + CLOSE)
  {
    SkipWith(s);
    var t := SkipBlanks(s);
    if t != [] && t[0] == ',' {
      assert (t + CLOSE)[1..] == t[1..] + CLOSE;
      SkipWith(t[1..]);
    }
  }

  // Behind an item the text goes on with an item, with the bracket, or ends behind a comma.
  lemma BehindIsEnd(s: Bytes)
    requires BehindItem(s).Ok?
    ensures EndOf(BehindItem(s).value, s)
    ensures BehindItem(s).value == [] ==> EndsWithComma(s)
    ensures BehindItem(s).value != [] ==> BehindItem(s).value[0] != ' '
  {
    var t := SkipBlanks(s);
    SkippedIsBlank(s);
    if t[0] == ',' {
      SkippedIsBlank(t[1..]);
      EndOfEnd(t[1..], t, s);
      EndOfEnd(SkipBlanks(t[1..]), t[1..], s);
      if SkipBlanks(t[1..]) == [] {
        BlanksBehind(t[1..], t);
        CommaInEnd(t, s);
      }
    }
  }

  // An item that was read is read from the closed text too, and so is what stands behind it.
  lemma StepWith(ft: FloatText, lang: Language, s: Bytes)
    requires s != [] && s[0] != ')' && ReadItem(ft, lang, s).Ok? && BehindItem(ReadItem(ft, lang, s).value.rest).Ok?
    ensures var t := ReadItem(ft, lang, s).value; var next := BehindItem(t.rest).value;
      && ReadItems(ft, lang, s) == Cons(t.item, ReadItems(ft, lang, next))
      && ReadItems(ft, lang, s + CLOSE) == Cons(t.item, ReadItems(ft, lang, next + CLOSE))
  {
    ItemWith(ft, lang, s);
    BehindWith(ReadItem(ft, lang, s).value.rest);
    assert (s + CLOSE)[0] == s[0];
  }

  // A list that is complete stays so.
  lemma {:induction false} ListWith(ft: FloatText, lang: Language, s: Bytes)
    requires ReadItems(ft, lang, s).Ok?
    ensures var l := ReadItems(ft, lang, s).value; ReadItems(ft, lang, s + CLOSE) == Ok(List(l.items, l.rest + CLOSE))
    decreases |s|
  {
    if s[0] == ')' {
      assert (s + CLOSE)[1..] == s[1..] + CLOSE;
    } else {
      StepWith(ft, lang, s);
      ListWith(ft, lang, BehindItem(ReadItem(ft, lang, s).value.rest).value);
    }
  }

  // What the item and the delimiter behind it leave of s.
  lemma NextIsEnd(ft: FloatText, lang: Language, s: Bytes)
    requires s != [] && ReadItem(ft, lang, s).Ok? && BehindItem(ReadItem(ft, lang, s).value.rest).Ok?
    ensures var next := BehindItem(ReadItem(ft, lang, s).value.rest).value;
      && |next| < |s|
      && (if next == [] then EndsWithComma(s) else EndsWithComma(next) <==> EndsWithComma(s))
  {
    var rest := ReadItem(ft, lang, s).value.rest;
    ItemHasEnd(ft, lang, s);
    BehindIsEnd(rest);
    var next := BehindItem(rest).value;
    EndOfEnd(next, rest, s);
    if next == [] {
      CommaStays(rest, s);
    } else {
      CommaInEnd(next, s);
    }
  }

  lemma CommaStays(rest: Bytes, s: Bytes)
    requires EndOf(rest, s) && EndsWithComma(rest)
    ensures EndsWithComma(s)
  {
    var n := |s| - |rest|;
    forall i | n <= i < |s| ensures s[i] == rest[i - n] {
      assert s[n..][i - n] == s[i];
    }
    var k :| LastAt(rest, k, ',');
    assert LastAt(s, k + n, ',');
  }

  // Past the end: only the bracket was missing.
  lemma {:induction false} PastEndOfList(ft: FloatText, lang: Language, s: Bytes)
    requires ReadItems(ft, lang, s) == Err(IndexedPastEnd)
    ensures ReadItems(ft, lang, s + CLOSE).Ok? && ReadItems(ft, lang, s + CLOSE).value.rest == []
    ensures s != [] ==> EndsWithComma(s)
    decreases |s|
  {
    if s == [] {
      assert s + CLOSE == CLOSE && CLOSE[1..] == [];
    } else {
      ItemNeverPastEnd(ft, lang, s);
      StepWith(ft, lang, s);
      NextIsEnd(ft, lang, s);
      PastEndOfList(ft, lang, BehindItem(ReadItem(ft, lang, s).value.rest).value);
    }
  }

  lemma CommaIsNoNumber(s: Bytes)
    requires EndsWithComma(s)
    ensures s != [] && !EndsInNumber(s)
  {
    var k :| LastAt(s, k, ',');
  }

  lemma DelimiterWith(rest: Bytes, s: Bytes)
    requires EndsWithComma(s) && ItemEnds(s, rest) && BehindItem(rest + CLOSE).Ok?
    ensures BehindItem(rest).Ok?
  {
    SkipWith(rest);
    if SkipBlanks(rest) == [] {
      BlanksBehind(rest, s);
      assert false;
    }
  }

  // The first item of a list that lacks only the bracket.
  lemma ItemBeforeComma(ft: FloatText, lang: Language, s: Bytes)
    requires EndsWithComma(s) && s != []
    requires var r := ReadItem(ft, lang, s + CLOSE); r.Ok? && r.value.rest != [] && BehindItem(r.value.rest).Ok?
    ensures ReadItem(ft, lang, s).Ok? && BehindItem(ReadItem(ft, lang, s).value.rest).Ok?
  {
    CommaIsNoNumber(s);
    ItemWith(ft, lang, s);
    ItemHasEnd(ft, lang, s);
    DelimiterWith(ReadItem(ft, lang, s).value.rest, s);
  }

  lemma {:induction false} CommaIsPastEnd(ft: FloatText, lang: Language, s: Bytes)
    requires s == [] || EndsWithComma(s)
    requires ReadItems(ft, lang, s + CLOSE).Ok?
    ensures ReadItems(ft, lang, s).Ok? || ReadItems(ft, lang, s) == Err(IndexedPastEnd)
    decreases |s|
  {
    if s != [] && s[0] != ')' {
      assert (s + CLOSE)[0] == s[0];
      ItemBeforeComma(ft, lang, s);
      StepWith(ft, lang, s);
      NextIsEnd(ft, lang, s);
      CommaIsPastEnd(ft, lang, BehindItem(ReadItem(ft, lang, s).value.rest).value);
    }
  }

  // Brackets: where the first item starts.
  lemma OpenWith(s: Bytes)
    ensures var r := BehindOpen(s);
      && (r.Ok? ==> BehindOpen(s + CLOSE) == Ok(r.value + CLOSE) && EndOf(r.value, s))
      && (r.Ok? ==> r.value != [] && r.value[0] != ' ')
      && (r.Err? && EndsWithComma(s) ==> BehindOpen(s + CLOSE).Err?)
      && r != Err(IndexedPastEnd)
  {
    SkipWith(s);
    SkippedIsBlank(s);
    var a := SkipBlanks(s);
    if a != [] {
      assert (a + CLOSE)[1..] == a[1..] + CLOSE;
      SkipWith(a[1..]);
      SkippedIsBlank(a[1..]);
      EndOfEnd(a[1..], a, s);
      EndOfEnd(SkipBlanks(a[1..]), a[1..], s);
      if SkipBlanks(a[1..]) == [] && a[0] == '(' {
        BlanksBehind(a[1..], a);
        CommaInEnd(a, s);
      }
    }
  }

  // With a bracket behind it the text is a list that ends at this bracket.
  predicate ClosesAtEnd(ft: FloatText, lang: Language, s: Bytes) {
    var r := ReadList(ft, lang, s + CLOSE);
    r.Ok? && r.value.rest == []
  }

  lemma OperandPastEnd(ft: FloatText, lang: Language, s: Bytes)
    ensures ReadOperand(ft, lang, s) == Err(IndexedPastEnd) <==> EndsWithComma(s) && ClosesAtEnd(ft, lang, s)
  {
    OpenWith(s);
    if BehindOpen(s).Ok? {
      var b := BehindOpen(s).value;
      CommaInEnd(b, s);
      if ReadItems(ft, lang, b).Ok? {
        ListWith(ft, lang, b);
      } else if ReadItems(ft, lang, b) == Err(IndexedPastEnd) {
        PastEndOfList(ft, lang, b);
      } else if EndsWithComma(b) && ReadItems(ft, lang, b + CLOSE).Ok? {
        CommaIsPastEnd(ft, lang, b);
      }
    }
  }

  lemma BehindWord(word: Bytes, s: Bytes)
    requires word != [] && word[|word| - 1] != ')' && word[|word| - 1] != ',' && word[|word| - 1] != ' ' && word <= s
    ensures word <= s + CLOSE && (s + CLOSE)[|word|..] == s[|word|..] + CLOSE
    ensures EndsWithComma(s) <==> EndsWithComma(s[|word|..])
  {
    StartsWith(word, s);
    var rest, n := s[|word|..], |word|;
    if EndsWithComma(rest) {
      CommaStays(rest, s);
    }
    if k :| LastAt(s, k, ',') {
      assert s[n - 1] == word[n - 1];
      assert k >= n;
      assert LastAt(rest, k - n, ',');
    }
  }

  // A command as text: what its word asks for, and its operand.
  function OperandOf(s: Bytes): Option<(Language, Bytes)> {
    if READ <= s then Some((Patterns, s[4..]))
    else if OUTPUT <= s then Some((Elems, s[6..]))
    else if INPUT <= s then Some((Patterns, s[5..]))
    else None
  }

  /** The parser indexes past the end of a command (undefined behaviour) just when the last character
      that is no blank is a comma and only the closing bracket is missing: put behind the text, it
      ends the list of the operand. */
  lemma PastEndIff(ft: FloatText, s: Bytes)
    ensures ReadLine(ft, s) == Err(IndexedPastEnd) <==>
            && EndsWithComma(s)
            && OperandOf(s).Some? && var (lang, operand) := OperandOf(s).value; ClosesAtEnd(ft, lang, operand)
  {
    if OperandOf(s).Some? {
      BehindWord(if READ <= s then READ else if OUTPUT <= s then OUTPUT else INPUT, s);
      OperandPastEnd(ft, OperandOf(s).value.0, OperandOf(s).value.1);
    }
  }

  // ---- Commands with the bracket missing ---------------------------------------------

  function Word(op: Byte): Bytes {
    if op == Codec.OP_LINDA_READ then READ else if op == Codec.OP_LINDA_WRITE then OUTPUT else INPUT
  }

  /** Every command whose items are all read and followed by commas, without the bracket, does it. */
  lemma OpenCommandIsPastEnd(ft: FloatText, op: Byte, texts: seq<Bytes>, rs: seq<Result<Item>>,
                             lead: nat, inner: nat, gaps: seq<Gap>)
    requires |gaps| == |texts| > 0 && Collect(rs).Ok?
    requires AllReadAs(ft, if op == Codec.OP_LINDA_WRITE then Elems else Patterns, texts, rs)
    ensures ReadLine(ft, Word(op) + Bracketed(lead, inner, OpenListText(texts, gaps))) == Err(IndexedPastEnd)
  {
    var lang := if op == Codec.OP_LINDA_WRITE then Elems else Patterns;
    var list := Bracketed(lead, inner, OpenListText(texts, gaps));
    EndBehindComma(ft, lang, texts, rs, gaps);
    BracketIsRead(ft, lang, lead, inner, OpenListText(texts, gaps));
    DropBehind(Word(op), list);
    assert (Word(op) + list)[0] == Word(op)[0];
  }
}
