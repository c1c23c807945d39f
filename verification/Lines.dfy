/** What lines mean, written out: which word calls which constructor, how elements are written, and
    which error each wrong text is (parser.cpp). */
module Lines {
  import opened Types
  import opened Numbers
  import opened PatternText
  import opened Parser
  import opened Layout
  import opened Seqs
  import Codec

  lemma {:induction false} BlanksAreSpaces(n: nat)
    ensures Blanks(n) == seq(n, _ => ' ')
  {
    if n > 0 {
      BlanksAreSpaces(n - 1);
      assert seq(n, _ => ' ') == [' '] + seq(n - 1, _ => ' ');
    }
  }

  // How many blanks stand in each of the places of a list of one pattern.
  datatype Gaps = Gaps(lead: nat, inner: nat, a: nat, b: nat, c: nat, d: nat, tail: nat)

  function Spaces(n: nat): Bytes {
    seq(n, _ => ' ')
  }

  // ` ( word ( "text" ) ) `
  function OnePattern(word: Bytes, text: Bytes, g: Gaps): Bytes {
    Spaces(g.lead) + ("(" + (Spaces(g.inner) + (word + (Spaces(g.a) + ("(" + (Spaces(g.b) + ("\"" + text + "\"" +
    (Spaces(g.c) + (")" + (Spaces(g.d) + (")" + Spaces(g.tail))))))))))))
  }

  lemma OnePatternIsList(w: Keyword, text: Bytes, g: Gaps)
    ensures var cell := PatternCell(w, text, g.a, g.b, g.c);
      OnePattern(Name(w), text, g) ==
      Bracketed(g.lead, g.inner, ListText(CellTexts([cell]), [Gap(g.d, 0)], Spaces(g.tail)))
  {
    var cell := PatternCell(w, text, g.a, g.b, g.c);
    var rest := Blanks(g.d) + (CLOSE + Spaces(g.tail));
    BlanksAreSpaces(g.lead);
    BlanksAreSpaces(g.inner);
    BlanksAreSpaces(g.a);
    BlanksAreSpaces(g.b);
    BlanksAreSpaces(g.c);
    BlanksAreSpaces(g.d);
    assert ListText([CellText(cell)], [Gap(g.d, 0)], Spaces(g.tail)) == CellText(cell) + rest;
    assert CellTexts([cell]) == [CellText(cell)];
    CellWithRest(cell, rest);
  }

  lemma OnePatternIsRead(ft: FloatText, w: Keyword, text: Bytes, g: Gaps)
    requires '"' !in text
    ensures var list, cell := OnePattern(Name(w), text, g), PatternCell(w, text, g.a, g.b, g.c);
      var r := Collect([Built(ft, cell)]);
      ReadLine(ft, READ + list) == ToLine(Codec.OP_LINDA_READ, r) &&
      ReadLine(ft, INPUT + list) == ToLine(Codec.OP_LINDA_INPUT, r)
  {
    var cell := PatternCell(w, text, g.a, g.b, g.c);
    OnePatternIsList(w, text, g);
    PatternListIsBuilt(ft, [cell], g.lead, g.inner, [Gap(g.d, 0)], Spaces(g.tail));
    BlanksAreSpaces(g.tail);
    OnlyBlanks(g.tail);
    assert AllBuilt(ft, [cell]) == [Built(ft, cell)];
  }

  lemma OneIsCollected(r: Result<Item>)
    ensures Collect([r]) == match r case Err(e) => Err(e) case Ok(item) => Ok([item])
  {
    var none: seq<Result<Item>> := [r][1..];
    assert none == [] && Collect(none) == Ok([]);
    if r.Ok? {
      assert [r.value] + [] == [r.value];
    }
  }

  // The keyword with this name.
  function Called(word: Bytes): (w: Keyword)
    requires word == "String" || word == "Int" || word == "Float"
    ensures Name(w) == word
  {
    if word == "String" then StringWord else if word == "Int" then IntWord else FloatWord
  }

  /** `String("...")` is what the constructor of string patterns makes of the text, `Int("...")` what that
      of integers, and `Float("...")` what that of doubles, in any layout, behind `read` and `input`. */
  lemma WordMeans(ft: FloatText, verb: Bytes, word: Bytes, text: Bytes, g: Gaps)
    requires verb == "read" || verb == "input"
    requires word == "String" || word == "Int" || word == "Float"
    requires '"' !in text
    ensures ReadLine(ft, verb + OnePattern(word, text, g)) ==
      match (if word == "String" then StringPattern(text)
             else if word == "Int" then IntPattern(text)
             else FloatPattern(ft, text))
      case Err(e) => Err(e)
      case Ok(p) => Ok(Line(if verb == "read" then 128 as char else 64 as char, [PatternItem(p)]))
  {
    OnePatternIsRead(ft, Called(word), text, g);
    OneIsCollected(Built(ft, PatternCell(Called(word), text, g.a, g.b, g.c)));
  }

  lemma WithoutBlanks(word: Bytes, text: Bytes)
    ensures OnePattern(word, text, Gaps(0, 0, 0, 0, 0, 0, 0)) == "(" + word + "(\"" + text + "\"))"
  {
    assert Spaces(0) == [];
  }

  // ---- Tuples ------------------------------------------------------------------------

  lemma OneElementIsRead(ft: FloatText, e: TupleElem, text: Bytes, tail: Bytes)
    requires ReadsAs(ft, Elems, text, Ok(ElemItem(e)))
    ensures ReadLine(ft, OUTPUT + (OPEN + (text + (CLOSE + tail)))) == Ok(Line(Codec.OP_LINDA_WRITE, [ElemItem(e)]))
  {
    var list := OPEN + (text + (CLOSE + tail));
    OperandIsRead(ft, Elems, [text], [Ok(ElemItem(e))], 0, 0, [Gap(0, 0)], tail);
    OneIsCollected(Ok(ElemItem(e)));
    OneText(text, tail);
    OutputIsRead(ft, list);
  }

  lemma OneText(text: Bytes, tail: Bytes)
    ensures Bracketed(0, 0, ListText([text], [Gap(0, 0)], tail)) == OPEN + (text + (CLOSE + tail))
  {
    var none: seq<Bytes> := [text][1..];
    assert none == [];
    assert ListText([text], [Gap(0, 0)], tail) == text + (CLOSE + tail);
  }

  lemma OutputIsRead(ft: FloatText, list: Bytes)
    ensures ReadLine(ft, OUTPUT + list) == ToLine(Codec.OP_LINDA_WRITE, ReadOperand(ft, Elems, list))
  {
    DropBehind(OUTPUT, list);
    assert (OUTPUT + list)[0] == 'o';
  }

  /** In brackets behind `output`, whatever follows, digits are an integer, ... */
  lemma DigitsMean(ft: FloatText, n: Int32, tail: Bytes)
    requires n >= 0
    ensures ReadLine(ft, "output" + ("(" + (IntText(n) + (")" + tail)))) ==
            Ok(Line(32 as char, [ElemItem(IntElem(n))]))
  {
    ElemIsRead(ft, IntElem(n));
    OneElementIsRead(ft, IntElem(n), IntText(n), tail);
  }

  /** ... digits around a point the double that `std::stod` reads, ... */
  lemma DecimalMeans(ft: FloatText, text: Bytes, d: Double, tail: Bytes)
    requires IsDecimal(text) && ft.scan(text) == Some(d)
    ensures ReadLine(ft, "output" + ("(" + (text + (")" + tail)))) == Ok(Line(32 as char, [ElemItem(FloatElem(d))]))
  {
    assert IsDigit(text[0]);
    forall rest | Delimited(rest)
      ensures ReadItem(ft, Elems, text + rest) == TokenOf(Ok(ElemItem(FloatElem(d))), rest)
    {
      FloatIsRead(ft, text, rest);
    }
    OneElementIsRead(ft, FloatElem(d), text, tail);
  }

  /** ... and a text in quotes is a string. */
  lemma QuotesMean(ft: FloatText, s: Bytes, tail: Bytes)
    requires '"' !in s
    ensures ReadLine(ft, "output" + ("(" + (("\"" + s + "\"") + (")" + tail)))) ==
            Ok(Line(32 as char, [ElemItem(StrElem(s))]))
  {
    ElemIsRead(ft, StrElem(s));
    OneElementIsRead(ft, StrElem(s), InQuotes(s), tail);
  }

  /** Items keep their order: the integers m and n written one behind the other. */
  lemma PairMeans(ft: FloatText, m: Int32, n: Int32)
    requires m >= 0 && n >= 0
    ensures ReadLine(ft, "output" + ("(" + (IntText(m) + ("," + (IntText(n) + ")"))))) ==
            Ok(Line(32 as char, [ElemItem(IntElem(m)), ElemItem(IntElem(n))]))
  {
    var t := [IntElem(m), IntElem(n)];
    var gaps := [Gap(0, 0), Gap(0, 0)];
    TupleLayoutIsRead(ft, t, 0, 0, gaps, []);
    TwoTexts(IntText(m), IntText(n));
    assert t[1..] == [IntElem(n)] && ElemTexts(ft, t) == [IntText(m), IntText(n)];
    assert ElemItems(t) == [ElemItem(IntElem(m)), ElemItem(IntElem(n))];
  }

  lemma TwoTexts(a: Bytes, b: Bytes)
    ensures Bracketed(0, 0, ListText([a, b], [Gap(0, 0), Gap(0, 0)], [])) == "(" + (a + ("," + (b + ")")))
  {
    assert [a, b][1..] == [b] && [Gap(0, 0), Gap(0, 0)][1..] == [Gap(0, 0)];
    assert ListText([b], [Gap(0, 0)], []) == b + ")";
  }

  // ---- Wrong texts -------------------------------------------------------------------

  /** Which error is which: no known word in front; no opening bracket behind it; nothing behind that;
      neither comma nor bracket behind an item; no item where one has to stand; text behind the list
      of a pattern. */
  lemma WrongLines(ft: FloatText, s: Bytes, k: nat, c: Byte)
    requires c != ' '
    ensures !("read" <= s) && !("output" <= s) && !("input" <= s) ==> ReadLine(ft, s) == Err(UnrecognizedCommand)
    ensures c != '(' ==> ReadOperand(ft, Elems, Spaces(k) + ([c] + s)) == Err(NotFoundOpen)
    ensures c != '(' ==> ReadOperand(ft, Patterns, Spaces(k) + ([c] + s)) == Err(NotFoundOpen)
    ensures ReadOperand(ft, Elems, Spaces(k)) == ReadOperand(ft, Patterns, Spaces(k)) == Err(NotFoundOpen)
  {
    BlanksAreSpaces(k);
    SkipTo(k, [c] + s);
    OnlyBlanks(k);
  }

  lemma WrongItems(ft: FloatText, s: Bytes, k: nat, c: Byte)
    requires c != ' '
    ensures c != '"' && !('0' <= c <= '9') ==> ReadTupleElem(ft, [c] + s) == Err(NotDefinedTupleElem)
    ensures !("String" <= s) && !("Int" <= s) && !("Float" <= s) ==> ReadPattern(ft, s) == Err(NotDefinedPattern)
    ensures c != ',' && c != ')' ==> BehindItem(Spaces(k) + ([c] + s)) == Err(UnexpectedCharacter)
    ensures BehindItem(Spaces(k)) == Err(NotFoundClose)
    ensures ReadOperand(ft, Patterns, "()" + ([c] + s)) == Err(UnexpectedTail)
    ensures ReadOperand(ft, Elems, "()" + ([c] + s)) == Ok([])
    ensures ReadOperand(ft, Elems, "(" + Spaces(k)) == Err(NotFoundClose)
  {
    BlanksAreSpaces(k);
    SkipTo(k, [c] + s);
    OnlyBlanks(k);
    EmptyList(ft, Patterns, [c] + s);
    EmptyList(ft, Elems, [c] + s);
    assert ("(" + Spaces(k))[1..] == Spaces(k);
  }

  /** The argument of a pattern: no opening bracket; no quote behind it; no closing quote; no closing bracket
      behind that. */
  lemma WrongArguments(text: Bytes, s: Bytes, c: Byte)
    requires '"' !in text && c != ' '
    ensures c != '(' ==> Argument([c] + s) == Err(NotFoundOpen)
    ensures c != '"' ==> Argument("(" + ([c] + s)) == Err(NotFoundText)
    ensures Argument("(" + ("\"" + text)) == Err(NotFoundEndText)
  {
    assert (OPEN + ([c] + s))[1..] == [c] + s;
    var open := QUOTE + text;
    assert (OPEN + open)[1..] == open && open[1..] == text;
    NoQuote(text);
  }

  lemma WrongEnd(text: Bytes, s: Bytes, c: Byte)
    requires '"' !in text && c != ' ' && c != ')'
    ensures Argument("(" + (("\"" + text + "\"") + ([c] + s))) == Err(NotFoundEndPattern)
  {
    var quoted := InQuotes(text) + ([c] + s);
    assert (OPEN + quoted)[1..] == quoted && quoted[0] == '"';
    QuotedIsRead(text, [c] + s);
  }

  lemma {:induction false} NoQuote(s: Bytes)
    requires '"' !in s
    ensures IndexOf(s, '"') == |s|
  {
    if s != [] {
      NoQuote(s[1..]);
    }
  }

  lemma EmptyList(ft: FloatText, lang: Language, tail: Bytes)
    ensures ReadList(ft, lang, "()" + tail) == Ok(List([], tail))
  {
    var s := "()" + tail;
    assert s[1..] == ")" + tail;
    ClosedList(ft, lang, tail);
    assert SkipBlanks(s) == s && SkipBlanks(s[1..]) == s[1..];
  }
}
