/** `show` (parser.cpp), and which tuples the parser reads back from what it writes. */
module Show {
  import opened Types
  import opened Numbers
  import opened Parser
  import opened Layout
  import opened Seqs

  const OPENING: Bytes := "( "
  const BETWEEN: Bytes := " , "

  function ShownElems(ft: FloatText, t: Tuple): Bytes {
    if t == [] then [] else ElemText(ft, t[0]) + BETWEEN + ShownElems(ft, t[1..])
  }

  // The last two characters are replaced.
  function Shown(ft: FloatText, t: Tuple): Bytes {
    var s := OPENING + ShownElems(ft, t);
    s[..|s| - 2] + CLOSE
  }

  lemma {:induction false} ShownElemsAppend(ft: FloatText, t: Tuple, e: TupleElem)
    ensures ShownElems(ft, t + [e]) == ShownElems(ft, t) + (ElemText(ft, e) + BETWEEN)
  {
    if t == [] {
      assert t + [e] == [e] && [e][1..] == [];
      assert ShownElems(ft, [e]) == ElemText(ft, e) + BETWEEN + [];
    } else {
      assert (t + [e])[0] == t[0] && (t + [e])[1..] == t[1..] + [e];
      ShownElemsAppend(ft, t[1..], e);
      Assoc(ElemText(ft, t[0]) + BETWEEN, ShownElems(ft, t[1..]), ElemText(ft, e) + BETWEEN);
    }
  }

  method Show(ft: FloatText, data: Tuple) returns (result: Bytes)
    ensures result == Shown(ft, data)
  {
    result := OPENING;
    for i := 0 to |data|
      invariant result == OPENING + ShownElems(ft, data[..i])
    {
      assert data[..i + 1] == data[..i] + [data[i]];
      ShownElemsAppend(ft, data[..i], data[i]);
      Assoc(OPENING, ShownElems(ft, data[..i]), ElemText(ft, data[i]) + BETWEEN);
      ghost var before := result;
      match data[i] {
        case StrElem(s) => result := result + (QUOTE + s + QUOTE);
        case IntElem(n) => result := result + IntText(n);
        case FloatElem(d) => result := result + ft.format(d);
      }
      Assoc(before, ElemText(ft, data[i]), BETWEEN);
      result := result + BETWEEN;
    }
    assert data[..|data|] == data;
    result := result[..|result| - 2] + CLOSE;
  }

  function ShowGaps(n: nat): (gaps: seq<Gap>)
    ensures |gaps| == n
  {
    if n == 0 then [] else [Gap(1, 1)] + ShowGaps(n - 1)
  }

  // Text, blank, comma, blank, and the rest of the list.
  lemma BetweenIsGap(text: Bytes, list: Bytes)
    ensures Blanks(1) == [' ']
    ensures text + BETWEEN + list == text + (Blanks(1) + (COMMA + (Blanks(1) + list)))
    ensures (text + BETWEEN)[..|text + BETWEEN| - 2] + CLOSE == text + (Blanks(1) + (CLOSE + []))
  {
    assert Blanks(1) == [' '] + Blanks(0) == [' '];
  }

  // What `show` writes behind the opening bracket.
  lemma {:induction false} ShownIsLayout(ft: FloatText, t: Tuple)
    requires t != []
    ensures |ShownElems(ft, t)| >= 2
    ensures var s := ShownElems(ft, t); s[..|s| - 2] + CLOSE == ListText(ElemTexts(ft, t), ShowGaps(|t|), [])
  {
    var text, rest := ElemText(ft, t[0]), t[1..];
    assert ElemTexts(ft, t) == [text] + ElemTexts(ft, rest) && ShowGaps(|t|) == [Gap(1, 1)] + ShowGaps(|rest|);
    ShownList(text, ElemTexts(ft, rest), ShowGaps(|rest|));
    if rest == [] {
      assert ShownElems(ft, t) == text + BETWEEN;
    } else {
      ShownIsLayout(ft, rest);
    }
  }

  lemma ShownList(text: Bytes, texts: seq<Bytes>, gaps: seq<Gap>)
    requires |gaps| == |texts|
    ensures ListText([text] + texts, [Gap(1, 1)] + gaps, []) ==
            if texts == [] then (text + BETWEEN)[..|text + BETWEEN| - 2] + CLOSE
            else text + BETWEEN + ListText(texts, gaps, [])
  {
    assert ([text] + texts)[1..] == texts && ([Gap(1, 1)] + gaps)[1..] == gaps;
    BetweenIsGap(text, ListText(texts, gaps, []));
  }

  lemma ShownText(ft: FloatText, t: Tuple)
    requires t != []
    ensures Shown(ft, t) == Bracketed(0, 1, ListText(ElemTexts(ft, t), ShowGaps(|t|), []))
  {
    ShownIsLayout(ft, t);
    var list := ListText(ElemTexts(ft, t), ShowGaps(|t|), []);
    BetweenIsGap([], []);
    assert OPENING + list == [] + (OPEN + ([' '] + list));
  }

  /** A shown tuple is read back ... */
  lemma ShownTupleIsReadBack(ft: FloatText, t: Tuple)
    requires t != [] && forall e :: e in t ==> Readable(ft, e)
    ensures ReadLine(ft, OUTPUT + Shown(ft, t)) == Ok(Line(Codec.OP_LINDA_WRITE, ElemItems(t)))
  {
    ShownText(ft, t);
    TupleLayoutIsRead(ft, t, 0, 1, ShowGaps(|t|), []);
  }

  // The element is read as another one, or not at all.
  lemma UnreadableElem(ft: FloatText, e: TupleElem, rest: Bytes)
    requires !e.FloatElem? && !Readable(ft, e) && Delimited(rest)
    ensures var s := ElemText(ft, e) + rest; s != [] && s[0] != ' ' && s[0] != ')'
    ensures var r := ReadTupleElem(ft, ElemText(ft, e) + rest); r.Err? || r.value.item != ElemItem(e)
  {
    var s := ElemText(ft, e) + rest;
    match e
    case IntElem(i) => assert s[0] == '-';
    case StrElem(v) =>
      assert s[0] == '"' && s[1..] == v + (QUOTE + rest);
      var k :| 0 <= k < |v| && v[k] == '"';
      assert s[1..][k] == '"';
      assert IndexOf(s[1..], '"') <= k;
  }

  lemma PlainStart(ft: FloatText, t: Tuple, gaps: seq<Gap>, tail: Bytes)
    requires |gaps| == |t| && forall e :: e in t ==> !e.FloatElem?
    ensures var s := ListText(ElemTexts(ft, t), gaps, tail); s != [] && s[0] != ' '
  {
    if t != [] {
      assert t[0] in t;
      StartsWithItem(ElemText(ft, t[0]),
                     Blanks(gaps[0].before) + BehindText(ElemTexts(ft, t)[1..], gaps[1..], gaps[0].behind, tail));
    }
  }

  // These items were read, whatever is left.
  ghost predicate Yields(r: Result<List>, items: seq<Item>) {
    r.Ok? && r.value.items == items
  }

  lemma {:induction false} ReadBackIsReadable(ft: FloatText, t: Tuple, gaps: seq<Gap>, tail: Bytes)
    requires |gaps| == |t| && forall e :: e in t ==> !e.FloatElem?
    requires Yields(ReadItems(ft, Elems, ListText(ElemTexts(ft, t), gaps, tail)), ElemItems(t))
    ensures forall e :: e in t ==> Readable(ft, e)
    decreases |t|
  {
    if t != [] {
      var e, t1, texts1, gaps1 := t[0], t[1..], ElemTexts(ft, t[1..]), gaps[1..];
      assert e in t && ElemTexts(ft, t)[1..] == texts1;
      var rest := Blanks(gaps[0].before) + BehindText(texts1, gaps1, gaps[0].behind, tail);
      FirstIsReadable(ft, e, t1, rest);
      ElemIsRead(ft, e);
      FirstItem(ft, Elems, ElemText(ft, e), Ok(ElemItem(e)), rest);
      PlainStart(ft, t1, gaps1, tail);
      SeparatorIsRead(texts1, gaps1, gaps[0], tail);
      TailOfCons(ElemItem(e), ReadItems(ft, Elems, ListText(texts1, gaps1, tail)), ElemItems(t1));
      ReadBackIsReadable(ft, t1, gaps1, tail);
    }
  }

  lemma TailOfCons(item: Item, r: Result<List>, items: seq<Item>)
    requires Yields(Cons(item, r), [item] + items)
    ensures Yields(r, items)
  {
    assert ([item] + r.value.items)[1..] == r.value.items && ([item] + items)[1..] == items;
  }

  lemma FirstIsReadable(ft: FloatText, e: TupleElem, t: Tuple, rest: Bytes)
    requires !e.FloatElem? && Delimited(rest)
    requires Yields(ReadItems(ft, Elems, ElemText(ft, e) + rest), [ElemItem(e)] + ElemItems(t))
    ensures Readable(ft, e)
  {
    assert ReadItems(ft, Elems, ElemText(ft, e) + rest).value.items[0] == ElemItem(e);
    if !Readable(ft, e) {
      UnreadableElem(ft, e, rest);
    }
  }

  /** ... and, without doubles, exactly the tuples of nonnegative integers and strings without
      quotes are. */
  lemma ShowRoundTrip(ft: FloatText, t: Tuple)
    requires t != [] && forall e :: e in t ==> !e.FloatElem?
    ensures ReadLine(ft, OUTPUT + Shown(ft, t)) == Ok(Line(Codec.OP_LINDA_WRITE, ElemItems(t)))
            <==> forall e :: e in t ==> Readable(ft, e)
  {
    if forall e :: e in t ==> Readable(ft, e) {
      ShownTupleIsReadBack(ft, t);
    }
    if ReadLine(ft, OUTPUT + Shown(ft, t)) == Ok(Line(Codec.OP_LINDA_WRITE, ElemItems(t))) {
      var list := ListText(ElemTexts(ft, t), ShowGaps(|t|), []);
      ShownText(ft, t);
      DropBehind(OUTPUT, Shown(ft, t));
      assert (OUTPUT + Shown(ft, t))[0] == 'o';
      PlainStart(ft, t, ShowGaps(|t|), []);
      BracketIsRead(ft, Elems, 0, 1, list);
      ReadBackIsReadable(ft, t, ShowGaps(|t|), []);
    }
  }

  // The shown text but for its last two characters.
  lemma ShownFront(ft: FloatText, t: Tuple, e: TupleElem)
    ensures Shown(ft, t + [e]) == "( " + (ShownElems(ft, t) + (ElemText(ft, e) + " )"))
  {
    ShownElemsAppend(ft, t, e);
    var text := ElemText(ft, e);
    var front := OPENING + (ShownElems(ft, t) + (text + " "));
    assert BETWEEN == " " + ", ";
    Assoc(text, " ", ", ");
    Assoc(ShownElems(ft, t), text + " ", ", ");
    Assoc(OPENING, ShownElems(ft, t) + (text + " "), ", ");
    DropBehind(front, ", ");
    Closed(ShownElems(ft, t), text);
  }

  lemma Closed(elems: Bytes, text: Bytes)
    ensures OPENING + (elems + (text + " ")) + CLOSE == "( " + (elems + (text + " )"))
  {
  }

  /** The shown text, written out: of no elements the closing bracket only, else the elements between
      brackets and blanks, ... */
  lemma ShowsOne(ft: FloatText, e: TupleElem)
    ensures Shown(ft, []) == ")"
    ensures Shown(ft, [e]) == "( " + (ElemText(ft, e) + " )")
  {
    ShownFront(ft, [], e);
    assert [] + [e] == [e] && [] + (ElemText(ft, e) + " )") == ElemText(ft, e) + " )";
  }

  /** ... with commas between them; ... */
  lemma ShowsNext(ft: FloatText, t: Tuple, d: TupleElem, e: TupleElem)
    ensures var s := Shown(ft, t + [d]);
      |s| >= 2 && Shown(ft, t + [d] + [e]) == s[..|s| - 1] + (", " + (ElemText(ft, e) + " )"))
  {
    ShownFront(ft, t, d);
    ShownFront(ft, t + [d], e);
    ShownElemsAppend(ft, t, d);
    Longer(ShownElems(ft, t), ElemText(ft, d), ElemText(ft, e) + " )");
  }

  lemma Longer(elems: Bytes, text: Bytes, more: Bytes)
    ensures var s := OPENING + (elems + (text + " )"));
      |s| >= 2 && OPENING + ((elems + (text + BETWEEN)) + more) == s[..|s| - 1] + (", " + more)
  {
    var front := OPENING + (elems + (text + " "));
    Closed(elems, text);
    DropBehind(front, CLOSE);
    assert OPENING + ((elems + (text + BETWEEN)) + more) == front + (", " + more);
  }

  /** ... integers in decimal, strings in quotes. */
  lemma ElementTexts(ft: FloatText, e: TupleElem)
    ensures ElemText(ft, e) == match e
      case IntElem(n) => IntText(n)
      case FloatElem(d) => ft.format(d)
      case StrElem(s) => "\"" + s + "\""
  {
  }
}
