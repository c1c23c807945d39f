/** What texts the parser reads: every layout of a list gives the same items. */
module Layout {
  import opened Types
  import opened Numbers
  import opened PatternText
  import opened Parser
  import opened Seqs

  // Texts as bytes.
  const OPEN: Bytes := "("
  const CLOSE: Bytes := ")"
  const COMMA: Bytes := ","
  const QUOTE: Bytes := ['"']
  const READ: Bytes := "read"
  const INPUT: Bytes := "input"
  const OUTPUT: Bytes := "output"

  function Blanks(n: nat): Bytes {
    if n == 0 then [] else [' '] + Blanks(n - 1)
  }

  lemma {:induction false} SkipOver(n: nat, s: Bytes)
    ensures SkipBlanks(Blanks(n) + s) == SkipBlanks(s)
  {
    if n == 0 {
      assert Blanks(0) + s == s;
    } else {
      assert (Blanks(n) + s)[0] == ' ' && (Blanks(n) + s)[1..] == Blanks(n - 1) + s;
      SkipOver(n - 1, s);
    }
  }

  // Blanks in front of a character that is none.
  lemma SkipTo(n: nat, s: Bytes)
    requires s != [] && s[0] != ' '
    ensures SkipBlanks(Blanks(n) + s) == s
  {
    SkipOver(n, s);
  }

  lemma OnlyBlanks(n: nat)
    ensures SkipBlanks(Blanks(n)) == []
  {
    SkipOver(n, []);
    assert Blanks(n) + [] == Blanks(n);
  }

  // ---- Lists -------------------------------------------------------------------------

  // What can stand behind an item.
  predicate Delimited(rest: Bytes) {
    rest != [] && (rest[0] == ' ' || rest[0] == ',' || rest[0] == ')')
  }

  function TokenOf(r: Result<Item>, rest: Bytes): Result<Token> {
    match r
    case Err(e) => Err(e)
    case Ok(item) => Ok(Token(item, rest))
  }

  // The text is read as r wherever it stands in a list.
  ghost predicate ReadsAs(ft: FloatText, lang: Language, text: Bytes, r: Result<Item>) {
    && text != [] && text[0] != ' ' && text[0] != ')'
    && forall rest :: Delimited(rest) ==> ReadItem(ft, lang, text + rest) == TokenOf(r, rest)
  }

  // The blanks in front of and behind a comma; only the former count behind the last item.
  datatype Gap = Gap(before: nat, behind: nat)

  // The items with their commas, the closing bracket, and the text behind it.
  function ListText(texts: seq<Bytes>, gaps: seq<Gap>, tail: Bytes): Bytes
    requires |gaps| == |texts|
    decreases |texts|, 0
  {
    if texts == [] then CLOSE + tail
    else texts[0] + (Blanks(gaps[0].before) + BehindText(texts[1..], gaps[1..], gaps[0].behind, tail))
  }

  function BehindText(texts: seq<Bytes>, gaps: seq<Gap>, behind: nat, tail: Bytes): Bytes
    requires |gaps| == |texts|
    decreases |texts|, 1
  {
    if texts == [] then CLOSE + tail
    else COMMA + (Blanks(behind) + ListText(texts, gaps, tail))
  }

  // All items, or the first error.
  function Collect(rs: seq<Result<Item>>): Result<seq<Item>> {
    if rs == [] then Ok([])
    else
      match rs[0]
      case Err(e) => Err(e)
      case Ok(item) =>
        match Collect(rs[1..])
        case Err(e) => Err(e)
        case Ok(items) => Ok([item] + items)
  }

  function ListOf(r: Result<seq<Item>>, rest: Bytes): Result<List> {
    match r
    case Err(e) => Err(e)
    case Ok(items) => Ok(List(items, rest))
  }

  ghost predicate AllReadAs(ft: FloatText, lang: Language, texts: seq<Bytes>, rs: seq<Result<Item>>) {
    |rs| == |texts| && forall i :: 0 <= i < |texts| ==> ReadsAs(ft, lang, texts[i], rs[i])
  }

  lemma AllReadTail(ft: FloatText, lang: Language, texts: seq<Bytes>, rs: seq<Result<Item>>)
    requires texts != [] && AllReadAs(ft, lang, texts, rs)
    ensures ReadsAs(ft, lang, texts[0], rs[0]) && AllReadAs(ft, lang, texts[1..], rs[1..])
  {
    forall i | 0 <= i < |texts[1..]| ensures ReadsAs(ft, lang, texts[1..][i], rs[1..][i]) {
      assert ReadsAs(ft, lang, texts[i + 1], rs[i + 1]);
    }
  }

  lemma StartsWithItem(text: Bytes, more: Bytes)
    requires text != [] && text[0] != ' '
    ensures text + more != [] && (text + more)[0] == text[0]
  {
  }

  // An item is read at the front of the text, and then what stands behind it.
  lemma FirstItem(ft: FloatText, lang: Language, text: Bytes, r: Result<Item>, rest: Bytes)
    requires ReadsAs(ft, lang, text, r) && Delimited(rest)
    ensures r.Err? ==> ReadItems(ft, lang, text + rest) == Err(r.error)
    ensures r.Ok? && BehindItem(rest).Ok? ==>
      ReadItems(ft, lang, text + rest) == Cons(r.value, ReadItems(ft, lang, BehindItem(rest).value))
  {
    StartsWithItem(text, rest);
    assert ReadItem(ft, lang, text + rest) == TokenOf(r, rest);
  }

  lemma DelimiterBehind(n: nat, c: Byte, more: Bytes)
    requires c == ',' || c == ')'
    ensures Delimited(Blanks(n) + ([c] + more))
    ensures SkipBlanks(Blanks(n) + ([c] + more)) == [c] + more
  {
    SkipTo(n, [c] + more);
    if n > 0 {
      assert Blanks(n)[0] == ' ';
    } else {
      assert Blanks(0) + ([c] + more) == [c] + more;
    }
  }

  /** A list is read as its items, whatever blanks stand around its commas and brackets, or fails
      with the error of its first wrong item. */
  lemma {:induction false} ListIsRead(ft: FloatText, lang: Language, texts: seq<Bytes>, rs: seq<Result<Item>>,
                                      gaps: seq<Gap>, tail: Bytes)
    requires AllReadAs(ft, lang, texts, rs) && |gaps| == |texts|
    ensures ReadItems(ft, lang, ListText(texts, gaps, tail)) == ListOf(Collect(rs), tail)
    ensures ListText(texts, gaps, tail) != [] && ListText(texts, gaps, tail)[0] != ' '
    decreases |texts|
  {
    if texts == [] {
      ClosedList(ft, lang, tail);
    } else {
      AllReadTail(ft, lang, texts, rs);
      ListIsRead(ft, lang, texts[1..], rs[1..], gaps[1..], tail);
      var rest := Blanks(gaps[0].before) + BehindText(texts[1..], gaps[1..], gaps[0].behind, tail);
      SeparatorIsRead(texts[1..], gaps[1..], gaps[0], tail);
      FirstItem(ft, lang, texts[0], rs[0], rest);
      StartsWithItem(texts[0], rest);
    }
  }

  lemma ClosedList(ft: FloatText, lang: Language, tail: Bytes)
    ensures var s := CLOSE + tail; s != [] && s[0] == ')' && ReadItems(ft, lang, s) == Ok(List([], tail))
  {
    assert (CLOSE + tail)[1..] == tail;
  }

  lemma SeparatorIsRead(texts: seq<Bytes>, gaps: seq<Gap>, g: Gap, tail: Bytes)
    requires |gaps| == |texts|
    requires ListText(texts, gaps, tail) != [] && ListText(texts, gaps, tail)[0] != ' '
    ensures var rest := Blanks(g.before) + BehindText(texts, gaps, g.behind, tail);
      Delimited(rest) && BehindItem(rest) == Ok(ListText(texts, gaps, tail))
  {
    if texts == [] {
      DelimiterBehind(g.before, ')', tail);
    } else {
      var next := ListText(texts, gaps, tail);
      var more := Blanks(g.behind) + next;
      DelimiterBehind(g.before, ',', more);
      assert (COMMA + more)[1..] == more;
      SkipTo(g.behind, next);
    }
  }

  // The whole list: blanks, the opening bracket, blanks, items.
  function Bracketed(lead: nat, inner: nat, list: Bytes): Bytes {
    Blanks(lead) + (OPEN + (Blanks(inner) + list))
  }

  lemma BracketIsRead(ft: FloatText, lang: Language, lead: nat, inner: nat, list: Bytes)
    requires list != [] && list[0] != ' '
    ensures ReadList(ft, lang, Bracketed(lead, inner, list)) == ReadItems(ft, lang, list)
  {
    var more := Blanks(inner) + list;
    SkipTo(lead, OPEN + more);
    assert (OPEN + more)[1..] == more;
    SkipTo(inner, list);
  }

  /** The same in brackets. parseTupleElem ignores what follows; parsePattern allows blanks only. */
  lemma OperandIsRead(ft: FloatText, lang: Language, texts: seq<Bytes>, rs: seq<Result<Item>>,
                      lead: nat, inner: nat, gaps: seq<Gap>, tail: Bytes)
    requires AllReadAs(ft, lang, texts, rs) && |gaps| == |texts|
    ensures ReadOperand(ft, lang, Bracketed(lead, inner, ListText(texts, gaps, tail))) ==
            if lang == Patterns && Collect(rs).Ok? && SkipBlanks(tail) != [] then Err(UnexpectedTail) else Collect(rs)
  {
    ListIsRead(ft, lang, texts, rs, gaps, tail);
    BracketIsRead(ft, lang, lead, inner, ListText(texts, gaps, tail));
  }

  // Items with a comma behind each of them, and only blanks behind the last comma.
  function OpenListText(texts: seq<Bytes>, gaps: seq<Gap>): Bytes
    requires |gaps| == |texts|
  {
    if texts == [] then []
    else texts[0] + (Blanks(gaps[0].before) + (COMMA + (Blanks(gaps[0].behind) + OpenListText(texts[1..], gaps[1..]))))
  }

  /** A text that ends behind a comma makes the parser index past its end. */
  lemma {:induction false} EndBehindComma(ft: FloatText, lang: Language, texts: seq<Bytes>, rs: seq<Result<Item>>,
                                          gaps: seq<Gap>)
    requires AllReadAs(ft, lang, texts, rs) && |gaps| == |texts|
    requires Collect(rs).Ok?
    ensures ReadItems(ft, lang, OpenListText(texts, gaps)) == Err(IndexedPastEnd)
    ensures texts != [] ==> OpenListText(texts, gaps) != [] && OpenListText(texts, gaps)[0] != ' '
    decreases |texts|
  {
    if texts != [] {
      AllReadTail(ft, lang, texts, rs);
      EndBehindComma(ft, lang, texts[1..], rs[1..], gaps[1..]);
      var next := OpenListText(texts[1..], gaps[1..]);
      var more := Blanks(gaps[0].behind) + next;
      var rest := Blanks(gaps[0].before) + (COMMA + more);
      DelimiterBehind(gaps[0].before, ',', more);
      assert (COMMA + more)[1..] == more;
      if next == [] {
        OnlyBlanks(gaps[0].behind);
        assert more == Blanks(gaps[0].behind);
      } else {
        SkipTo(gaps[0].behind, next);
      }
      assert BehindItem(rest) == Ok(next);
      FirstItem(ft, lang, texts[0], rs[0], rest);
      StartsWithItem(texts[0], rest);
    }
  }

  // ---- Texts in quotes ---------------------------------------------------------------

  predicate QuoteFree(s: Bytes) {
    '"' !in s
  }

  lemma {:induction false} IndexBehindPlain(s: Bytes, rest: Bytes)
    requires QuoteFree(s)
    ensures IndexOf(s + (QUOTE + rest), '"') == |s|
  {
    if s == [] {
      assert s + (QUOTE + rest) == QUOTE + rest;
    } else {
      assert (s + (QUOTE + rest))[1..] == s[1..] + (QUOTE + rest);
      IndexBehindPlain(s[1..], rest);
    }
  }

  function InQuotes(s: Bytes): Bytes {
    QUOTE + s + QUOTE
  }

  lemma QuotedIsRead(s: Bytes, rest: Bytes)
    requires QuoteFree(s)
    ensures Quoted(InQuotes(s) + rest) == Ok((s, rest))
  {
    var text := InQuotes(s) + rest;
    assert text[1..] == s + (QUOTE + rest);
    IndexBehindPlain(s, rest);
    assert text[1..|s| + 1] == s && text[|s| + 2..] == rest;
  }

  // ---- Patterns ----------------------------------------------------------------------

  // A pattern and the blanks inside it.
  datatype PatternCell = PatternCell(word: Keyword, text: Bytes, a: nat, b: nat, c: nat)

  function CellText(cell: PatternCell): Bytes {
    Name(cell.word)
    + (Blanks(cell.a) + (OPEN + (Blanks(cell.b) + (InQuotes(cell.text) + (Blanks(cell.c) + CLOSE)))))
  }

  function Built(ft: FloatText, cell: PatternCell): Result<Item> {
    match Construct(ft, cell.word, cell.text)
    case Err(e) => Err(e)
    case Ok(p) => Ok(PatternItem(p))
  }

  lemma ArgumentIsRead(a: nat, b: nat, c: nat, text: Bytes, rest: Bytes)
    requires QuoteFree(text)
    ensures Argument(Blanks(a) + (OPEN + (Blanks(b) + (InQuotes(text) + (Blanks(c) + (CLOSE + rest))))))
            == Ok((text, rest))
  {
    var end := Blanks(c) + (CLOSE + rest);
    var quoted := InQuotes(text) + end;
    var inner := Blanks(b) + quoted;
    assert quoted[0] == '"';
    SkipTo(a, OPEN + inner);
    SkipTo(b, quoted);
    QuotedIsRead(text, end);
    SkipTo(c, CLOSE + rest);
  }

  lemma CellWithRest(cell: PatternCell, rest: Bytes)
    ensures CellText(cell) + rest ==
            Name(cell.word)
            + (Blanks(cell.a) + (OPEN + (Blanks(cell.b) + (InQuotes(cell.text) + (Blanks(cell.c) + (CLOSE + rest))))))
  {
    var e := Blanks(cell.c) + CLOSE;
    Assoc(Blanks(cell.c), CLOSE, rest);
    Assoc(InQuotes(cell.text), e, rest);
    Assoc(Blanks(cell.b), InQuotes(cell.text) + e, rest);
    Assoc(OPEN, Blanks(cell.b) + (InQuotes(cell.text) + e), rest);
    var d := OPEN + (Blanks(cell.b) + (InQuotes(cell.text) + e));
    Assoc(Blanks(cell.a), d, rest);
    Assoc(Name(cell.word), Blanks(cell.a) + d, rest);
  }

  lemma WordIsRead(w: Keyword, rest: Bytes)
    ensures KeywordOf(Name(w) + rest) == Some(w) && (Name(w) + rest)[|Name(w)|..] == rest
  {
    var s := Name(w) + rest;
    DropBehind(Name(w), rest);
    assert s[0] == Name(w)[0];
  }

  lemma CellIsRead(ft: FloatText, cell: PatternCell)
    requires QuoteFree(cell.text)
    ensures ReadsAs(ft, Patterns, CellText(cell), Built(ft, cell))
  {
    assert CellText(cell)[0] == Name(cell.word)[0];
    forall rest | Delimited(rest)
      ensures ReadItem(ft, Patterns, CellText(cell) + rest) == TokenOf(Built(ft, cell), rest)
    {
      CellWithRest(cell, rest);
      var argument :=
        Blanks(cell.a) + (OPEN + (Blanks(cell.b) + (InQuotes(cell.text) + (Blanks(cell.c) + (CLOSE + rest)))));
      WordIsRead(cell.word, argument);
      ArgumentIsRead(cell.a, cell.b, cell.c, cell.text, rest);
    }
  }

  function CellTexts(cells: seq<PatternCell>): (ts: seq<Bytes>)
    ensures |ts| == |cells| && forall i :: 0 <= i < |cells| ==> ts[i] == CellText(cells[i])
  {
    seq(|cells|, i requires 0 <= i < |cells| => CellText(cells[i]))
  }

  function AllBuilt(ft: FloatText, cells: seq<PatternCell>): (rs: seq<Result<Item>>)
    ensures |rs| == |cells| && forall i :: 0 <= i < |cells| ==> rs[i] == Built(ft, cells[i])
  {
    seq(|cells|, i requires 0 <= i < |cells| => Built(ft, cells[i]))
  }

  /** A list of patterns is read as what their constructors make of the texts, in order, however it
      is laid out; the first text that its constructor refuses is the error. */
  lemma PatternListIsBuilt(ft: FloatText, cells: seq<PatternCell>, lead: nat, inner: nat, gaps: seq<Gap>, tail: Bytes)
    requires |gaps| == |cells| && forall c :: c in cells ==> QuoteFree(c.text)
    ensures var list := Bracketed(lead, inner, ListText(CellTexts(cells), gaps, tail));
      var built := Collect(AllBuilt(ft, cells));
      var r := if built.Ok? && SkipBlanks(tail) != [] then Err(UnexpectedTail) else built;
      && ReadLine(ft, READ + list) == ToLine(Codec.OP_LINDA_READ, r)
      && ReadLine(ft, INPUT + list) == ToLine(Codec.OP_LINDA_INPUT, r)
  {
    forall i | 0 <= i < |cells|
      ensures ReadsAs(ft, Patterns, CellTexts(cells)[i], AllBuilt(ft, cells)[i])
    {
      CellIsRead(ft, cells[i]);
    }
    OperandIsRead(ft, Patterns, CellTexts(cells), AllBuilt(ft, cells), lead, inner, gaps, tail);
    var list := Bracketed(lead, inner, ListText(CellTexts(cells), gaps, tail));
    DropBehind(READ, list);
    DropBehind(INPUT, list);
    assert (INPUT + list)[0] == 'i';
  }

  // ---- Tuples ------------------------------------------------------------------------

  // How `show` and a user write an element.
  function ElemText(ft: FloatText, e: TupleElem): Bytes {
    match e
    case StrElem(s) => InQuotes(s)
    case IntElem(i) => IntText(i)
    case FloatElem(d) => ft.format(d)
  }

  // Digits, a point, digits or nothing.
  predicate IsDecimal(s: Bytes) {
    var n := DigitCount(s);
    0 < n < |s| && s[n] == '.' && n + 1 + DigitCount(s[n + 1..]) == |s|
  }

  // The element is read back from its text.
  predicate Readable(ft: FloatText, e: TupleElem) {
    match e
    case StrElem(s) => QuoteFree(s)
    case IntElem(i) => i >= 0
    case FloatElem(d) => IsDecimal(ft.format(d)) && ft.scan(ft.format(d)) == Some(d)
  }

  lemma {:induction false} CountStops(s: Bytes, rest: Bytes)
    requires DigitCount(s) < |s| || (rest != [] ==> !IsDigit(rest[0]))
    ensures DigitCount(s + rest) == DigitCount(s)
  {
    if s == [] {
      assert s + rest == rest;
    } else {
      assert (s + rest)[1..] == s[1..] + rest;
      if IsDigit(s[0]) {
        CountStops(s[1..], rest);
      }
    }
  }

  lemma IntIsRead(ft: FloatText, i: Int32, rest: Bytes)
    requires i >= 0 && Delimited(rest)
    ensures ReadTupleElem(ft, IntText(i) + rest) == Ok(Token(ElemItem(IntElem(i)), rest))
  {
    var text := Digits(i);
    var s := text + rest;
    assert s[0] == text[0] && IsDigit(s[0]);
    DigitCountOf(text, rest);
    DropBehind(text, rest);
    assert s[|text|] == rest[0];
    IntTextRoundTrip(i);
  }

  lemma CutBehind(text: Bytes, rest: Bytes, n: nat)
    requires n <= |text|
    ensures (text + rest)[..n] == text[..n] && (text + rest)[n..] == text[n..] + rest
    ensures text[..n] + text[n..] == text
  {
  }

  // The digits behind the point.
  lemma FractionIsRead(ft: FloatText, front: Bytes, behind: Bytes, rest: Bytes)
    requires DigitCount(behind) == |behind| && Delimited(rest)
    ensures DecimalItem(ft, front, behind + rest) == FloatToken(ft, front + behind, rest)
  {
    CountStops(behind, rest);
    DropBehind(behind, rest);
  }

  lemma FloatIsRead(ft: FloatText, text: Bytes, rest: Bytes)
    requires IsDecimal(text) && Delimited(rest)
    ensures ReadTupleElem(ft, text + rest) == FloatToken(ft, text, rest)
  {
    var n := DigitCount(text);
    assert IsDigit((text + rest)[0]);
    CountStops(text, rest);
    CutBehind(text, rest, n + 1);
    FractionIsRead(ft, text[..n + 1], text[n + 1..], rest);
  }

  lemma ElemIsRead(ft: FloatText, e: TupleElem)
    requires Readable(ft, e)
    ensures ReadsAs(ft, Elems, ElemText(ft, e), Ok(ElemItem(e)))
  {
    var text := ElemText(ft, e);
    if e.IntElem? {
      assert IsDigit(text[0]);
    } else if e.FloatElem? {
      assert IsDigit(text[0]);
    }
    forall rest | Delimited(rest)
      ensures ReadItem(ft, Elems, text + rest) == TokenOf(Ok(ElemItem(e)), rest)
    {
      match e
      case StrElem(s) =>
        QuotedIsRead(s, rest);
        assert (text + rest)[0] == '"';
      case IntElem(i) => IntIsRead(ft, i, rest);
      case FloatElem(d) => FloatIsRead(ft, text, rest);
    }
  }

  function ElemTexts(ft: FloatText, t: Tuple): (ts: seq<Bytes>)
    ensures |ts| == |t| && forall i :: 0 <= i < |t| ==> ts[i] == ElemText(ft, t[i])
  {
    if t == [] then [] else [ElemText(ft, t[0])] + ElemTexts(ft, t[1..])
  }

  function ElemItems(t: Tuple): (items: seq<Item>)
    ensures |items| == |t| && forall i :: 0 <= i < |t| ==> items[i] == ElemItem(t[i])
  {
    if t == [] then [] else [ElemItem(t[0])] + ElemItems(t[1..])
  }

  function AllOk(items: seq<Item>): (rs: seq<Result<Item>>)
    ensures |rs| == |items| && forall i :: 0 <= i < |rs| ==> rs[i] == Ok(items[i])
  {
    seq(|items|, i requires 0 <= i < |items| => Ok(items[i]))
  }

  lemma {:induction false} CollectOk(items: seq<Item>)
    ensures Collect(AllOk(items)) == Ok(items)
  {
    if items != [] {
      assert AllOk(items)[1..] == AllOk(items[1..]);
      CollectOk(items[1..]);
      assert items == [items[0]] + items[1..];
    }
  }

  /** A tuple is read from any layout of the texts of its elements, whatever follows it. */
  lemma TupleLayoutIsRead(ft: FloatText, t: Tuple, lead: nat, inner: nat, gaps: seq<Gap>, tail: Bytes)
    requires |gaps| == |t| && forall e :: e in t ==> Readable(ft, e)
    ensures ReadLine(ft, OUTPUT + Bracketed(lead, inner, ListText(ElemTexts(ft, t), gaps, tail)))
            == Ok(Line(Codec.OP_LINDA_WRITE, ElemItems(t)))
  {
    var texts, rs := ElemTexts(ft, t), AllOk(ElemItems(t));
    forall i | 0 <= i < |texts| ensures ReadsAs(ft, Elems, texts[i], rs[i]) {
      ElemIsRead(ft, t[i]);
    }
    OperandIsRead(ft, Elems, texts, rs, lead, inner, gaps, tail);
    CollectOk(ElemItems(t));
    var list := Bracketed(lead, inner, ListText(texts, gaps, tail));
    DropBehind(OUTPUT, list);
    assert (OUTPUT + list)[0] == 'o';
  }
}
