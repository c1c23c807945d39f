/** The text of commands (parser.hpp, parser.cpp): what is read, and how tuples are shown. */
module Parser {
  import opened Types
  import opened Numbers
  import opened PatternText
  import Codec
  import Seqs

  // std::variant<TupleElem, Pattern>
  datatype Item = ElemItem(elem: TupleElem) | PatternItem(pattern: Pattern)

  // What an item list holds.
  datatype Language = Elems | Patterns

  // linda::Command: the operation and its items.
  datatype Line = Line(op: Byte, items: seq<Item>)

  // ---- What is read ------------------------------------------------------------------

  // std::string::find: the first position of c, or the length of s.
  function IndexOf(s: Bytes, c: Byte): (k: nat)
    ensures k <= |s| && (k < |s| ==> s[k] == c)
    ensures forall i :: 0 <= i < k ==> s[i] != c
  {
    if s == [] || s[0] == c then 0 else 1 + IndexOf(s[1..], c)
  }

  // An item and the text behind it.
  datatype Token = Token(item: Item, rest: Bytes)

  // A text in quotes, and what follows it.
  function Quoted(s: Bytes): (r: Result<(Bytes, Bytes)>)
    requires s != []
    ensures r.Ok? ==> |r.value.1| < |s|
  {
    var k := IndexOf(s[1..], '"');
    if k == |s| - 1 then Err(NotFoundEndText) else Ok((s[1..k + 1], s[k + 2..]))
  }

  function IntToken(text: Bytes, rest: Bytes): Result<Token> {
    match Stoi(text)
    case Err(e) => Err(e)
    case Ok(i) => Ok(Token(ElemItem(IntElem(i)), rest))
  }

  function FloatToken(ft: FloatText, text: Bytes, rest: Bytes): Result<Token> {
    match ft.scan(text)
    case None => Err(InvalidArgument)
    case Some(d) => Ok(Token(ElemItem(FloatElem(d)), rest))
  }

  // Digits and a point, and what stands behind the point.
  function DecimalItem(ft: FloatText, front: Bytes, behind: Bytes): (r: Result<Token>)
    ensures r.Ok? ==> |r.value.rest| <= |behind|
  {
    var m := DigitCount(behind);
    if m == |behind| then Err(NotFoundClose) else FloatToken(ft, front + behind[..m], behind[m..])
  }

  function NumberItem(ft: FloatText, s: Bytes): (r: Result<Token>)
    requires s != [] && IsDigit(s[0])
    ensures r.Ok? ==> |r.value.rest| < |s|
  {
    var n := DigitCount(s);
    if n == |s| then Err(NotFoundClose)
    else if s[n] == '.' then DecimalItem(ft, s[..n + 1], s[n + 1..])
    else IntToken(s[..n], s[n..])
  }

  function ReadTupleElem(ft: FloatText, s: Bytes): (r: Result<Token>)
    requires s != []
    ensures r.Ok? ==> |r.value.rest| < |s|
  {
    if s[0] == '"' then
      match Quoted(s)
      case Err(e) => Err(e)
      case Ok((text, rest)) => Ok(Token(ElemItem(StrElem(text)), rest))
    else if IsDigit(s[0]) then NumberItem(ft, s)
    else Err(NotDefinedTupleElem)
  }

  // The argument of a pattern is `("text")`. From the opening quote on, ...
  function ArgumentStart(s: Bytes): (r: Result<Bytes>)
    ensures r.Ok? ==> r.value != [] && |r.value| < |s|
  {
    var a := SkipBlanks(s);
    if a == [] || a[0] != '(' then Err(NotFoundOpen)
    else
      var b := SkipBlanks(a[1..]);
      if b == [] || b[0] != '"' then Err(NotFoundText) else Ok(b)
  }

  // ... and behind the closing quote.
  function ArgumentEnd(s: Bytes): (r: Result<Bytes>)
    ensures r.Ok? ==> |r.value| < |s|
  {
    var c := SkipBlanks(s);
    if c == [] || c[0] != ')' then Err(NotFoundEndPattern) else Ok(c[1..])
  }

  // The text, and what follows the argument.
  function Argument(s: Bytes): (r: Result<(Bytes, Bytes)>)
    ensures r.Ok? ==> |r.value.1| < |s|
  {
    match ArgumentStart(s)
    case Err(e) => Err(e)
    case Ok(b) =>
      match Quoted(b)
      case Err(e) => Err(e)
      case Ok((text, rest)) =>
        match ArgumentEnd(rest)
        case Err(e) => Err(e)
        case Ok(end) => Ok((text, end))
  }

  // The three kinds of pattern and their constructors.
  datatype Keyword = StringWord | IntWord | FloatWord

  function Name(w: Keyword): Bytes {
    match w
    case StringWord => "String"
    case IntWord => "Int"
    case FloatWord => "Float"
  }

  function Construct(ft: FloatText, w: Keyword, text: Bytes): Result<Pattern> {
    match w
    case StringWord => StringPattern(text)
    case IntWord => IntPattern(text)
    case FloatWord => FloatPattern(ft, text)
  }

  function KeywordOf(s: Bytes): (w: Option<Keyword>)
    ensures w.Some? ==> Name(w.value) <= s
  {
    if "String" <= s then Some(StringWord)
    else if "Int" <= s then Some(IntWord)
    else if "Float" <= s then Some(FloatWord)
    else None
  }

  function PatternToken(ft: FloatText, w: Keyword, text: Bytes, rest: Bytes): Result<Token> {
    match Construct(ft, w, text)
    case Err(e) => Err(e)
    case Ok(p) => Ok(Token(PatternItem(p), rest))
  }

  // A keyword and its argument; the constructor runs when both have been read.
  function ReadPattern(ft: FloatText, s: Bytes): (r: Result<Token>)
    ensures r.Ok? ==> |r.value.rest| < |s|
  {
    match KeywordOf(s)
    case None => Err(NotDefinedPattern)
    case Some(w) =>
      match Argument(s[|Name(w)|..])
      case Err(e) => Err(e)
      case Ok((text, rest)) => PatternToken(ft, w, text, rest)
  }

  function ReadItem(ft: FloatText, lang: Language, s: Bytes): (r: Result<Token>)
    requires s != []
    ensures r.Ok? ==> |r.value.rest| < |s|
  {
    if lang == Elems then ReadTupleElem(ft, s) else ReadPattern(ft, s)
  }

  // Behind an item: where the next item starts, or the closing bracket.
  function BehindItem(s: Bytes): (r: Result<Bytes>)
    ensures r.Ok? ==> |r.value| <= |s|
  {
    var t := SkipBlanks(s);
    if t == [] then Err(NotFoundClose)
    else if t[0] == ',' then Ok(SkipBlanks(t[1..]))
    else if t[0] == ')' then Ok(t)
    else Err(UnexpectedCharacter)
  }

  // The items up to the closing bracket, and the text behind it.
  datatype List = List(items: seq<Item>, rest: Bytes)

  function Cons(item: Item, r: Result<List>): Result<List> {
    match r
    case Err(e) => Err(e)
    case Ok(l) => Ok(List([item] + l.items, l.rest))
  }

  // The code reads on behind a comma without a test for the end of the text.
  function ReadItems(ft: FloatText, lang: Language, s: Bytes): Result<List>
    decreases |s|
  {
    if s == [] then Err(IndexedPastEnd)
    else if s[0] == ')' then Ok(List([], s[1..]))
    else
      match ReadItem(ft, lang, s)
      case Err(e) => Err(e)
      case Ok(t) =>
        match BehindItem(t.rest)
        case Err(e) => Err(e)
        case Ok(next) => Cons(t.item, ReadItems(ft, lang, next))
  }

  // Behind the opening bracket: where the first item starts, or the closing bracket.
  function BehindOpen(s: Bytes): (r: Result<Bytes>) {
    var a := SkipBlanks(s);
    if a == [] || a[0] != '(' then Err(NotFoundOpen)
    else
      var b := SkipBlanks(a[1..]);
      if b == [] then Err(NotFoundClose) else Ok(b)
  }

  // A list in brackets.
  function ReadList(ft: FloatText, lang: Language, s: Bytes): Result<List> {
    match BehindOpen(s)
    case Err(e) => Err(e)
    case Ok(b) => ReadItems(ft, lang, b)
  }

  // parseTupleElem ignores what follows the list; parsePattern allows blanks only.
  function ReadOperand(ft: FloatText, lang: Language, s: Bytes): Result<seq<Item>> {
    match ReadList(ft, lang, s)
    case Err(e) => Err(e)
    case Ok(l) => if lang == Patterns && SkipBlanks(l.rest) != [] then Err(UnexpectedTail) else Ok(l.items)
  }

  function ToLine(op: Byte, r: Result<seq<Item>>): Result<Line> {
    match r
    case Err(e) => Err(e)
    case Ok(items) => Ok(Line(op, items))
  }

  function ReadLine(ft: FloatText, s: Bytes): Result<Line> {
    if "read" <= s then ToLine(Codec.OP_LINDA_READ, ReadOperand(ft, Patterns, s[4..]))
    else if "output" <= s then ToLine(Codec.OP_LINDA_WRITE, ReadOperand(ft, Elems, s[6..]))
    else if "input" <= s then ToLine(Codec.OP_LINDA_INPUT, ReadOperand(ft, Patterns, s[5..]))
    else Err(UnrecognizedCommand)
  }

  // ---- The cursor --------------------------------------------------------------------

  // data.find_first_not_of(' ', from); the length of data stands for npos.
  method FindNotBlank(data: Bytes, from: nat) returns (found: nat)
    requires from <= |data|
    ensures from <= found <= |data| && data[found..] == SkipBlanks(data[from..])
  {
    found := from;
    while found < |data| && data[found] == ' '
      invariant from <= found <= |data|
      invariant SkipBlanks(data[from..]) == SkipBlanks(data[found..])
    {
      found := found + 1;
    }
  }

  // data.find('"', from)
  method FindQuote(data: Bytes, from: nat) returns (found: nat)
    requires from <= |data|
    ensures found == from + IndexOf(data[from..], '"')
  {
    found := from;
    while found < |data| && data[found] != '"'
      invariant from <= found <= |data|
      invariant from + IndexOf(data[from..], '"') == found + IndexOf(data[found..], '"')
    {
      found := found + 1;
    }
  }

  // data.find_first_not_of("1234567890", from)
  method FindNotDigit(data: Bytes, from: nat) returns (found: nat)
    requires from <= |data|
    ensures found == from + DigitCount(data[from..])
  {
    found := from;
    while found < |data| && IsDigit(data[found])
      invariant from <= found <= |data|
      invariant from + DigitCount(data[from..]) == found + DigitCount(data[found..])
    {
      found := found + 1;
    }
  }

  // The item and the position behind it are what `spec` says of the text at the cursor.
  ghost predicate AtCursor(spec: Result<Token>, data: Bytes, r: Result<Item>, found: nat) {
    match spec
    case Err(e) => r == Err(e)
    case Ok(t) => r == Ok(t.item) && found <= |data| && data[found..] == t.rest
  }

  method ParseQuoted(data: Bytes, start: nat) returns (r: Result<Bytes>, found: nat)
    requires start < |data|
    ensures match Quoted(data[start..])
            case Err(e) => r == Err(e)
            case Ok((text, rest)) => r == Ok(text) && start < found <= |data| && data[found..] == rest
  {
    var endString := FindQuote(data, start + 1);
    if endString == |data| {
      return Err(NotFoundEndText), |data|;
    }
    ghost var k := endString - (start + 1);
    assert data[start..][1..k + 1] == data[start + 1..endString];
    return Ok(data[start + 1..endString]), endString + 1;
  }

  // The text from the cursor on, cut at a later position.
  lemma CutAt(data: Bytes, start: nat, found: nat, s: Bytes, k: nat)
    requires start <= found <= |data| && s == data[start..] && k == found - start
    ensures k <= |s| && s[..k] == data[start..found] && s[k..] == data[found..]
    ensures found < |data| ==> k < |s| && s[k] == data[found]
  {
  }

  lemma IntegerAt(ft: FloatText, data: Bytes, start: nat, found: nat)
    requires start < |data| && IsDigit(data[start]) && found == start + DigitCount(data[start..])
    requires found < |data| && data[found] != '.'
    ensures NumberItem(ft, data[start..]) == IntToken(data[start..found], data[found..])
  {
    var s := data[start..];
    CutAt(data, start, found, s, DigitCount(s));
  }

  lemma PointAt(ft: FloatText, data: Bytes, start: nat, point: nat)
    requires start < |data| && IsDigit(data[start]) && point == start + DigitCount(data[start..])
    requires point < |data| && data[point] == '.'
    ensures NumberItem(ft, data[start..]) == DecimalItem(ft, data[start..point + 1], data[point + 1..])
  {
    var s := data[start..];
    CutAt(data, start, point, s, DigitCount(s));
    CutAt(data, start, point + 1, s, DigitCount(s) + 1);
  }

  lemma DecimalAt(ft: FloatText, data: Bytes, start: nat, point: nat, found: nat)
    requires start <= point < |data| && found == point + 1 + DigitCount(data[point + 1..])
    ensures DecimalItem(ft, data[start..point + 1], data[point + 1..]) ==
            if found == |data| then Err(NotFoundClose) else FloatToken(ft, data[start..found], data[found..])
  {
    var behind := data[point + 1..];
    CutAt(data, point + 1, found, behind, DigitCount(behind));
    assert data[start..point + 1] + data[point + 1..found] == data[start..found];
  }

  // The first position behind the digits at `start`.
  method EndOfDigits(data: Bytes, start: nat) returns (found: nat)
    requires start < |data| && IsDigit(data[start])
    ensures found == start + DigitCount(data[start..]) <= |data|
  {
    found := FindNotDigit(data, start + 1);
  }

  method ParseDecimals(ft: FloatText, data: Bytes, start: nat, point: nat) returns (r: Result<Item>, found: nat)
    requires start <= point < |data|
    ensures AtCursor(DecimalItem(ft, data[start..point + 1], data[point + 1..]), data, r, found)
  {
    found := FindNotDigit(data, point + 1);
    DecimalAt(ft, data, start, point, found);
    if found == |data| {
      return Err(NotFoundClose), |data|;
    }
    var d := ft.scan(data[start..found]);
    r := if d.None? then Err(InvalidArgument) else Ok(ElemItem(FloatElem(d.value)));
  }

  method ParseNumber(ft: FloatText, data: Bytes, start: nat) returns (r: Result<Item>, found: nat)
    requires start < |data| && IsDigit(data[start])
    ensures AtCursor(NumberItem(ft, data[start..]), data, r, found)
  {
    found := EndOfDigits(data, start);
    if found == |data| {
      return Err(NotFoundClose), |data|;
    }
    if data[found] == '.' {
      PointAt(ft, data, start, found);
      r, found := ParseDecimals(ft, data, start, found);
    } else {
      IntegerAt(ft, data, start, found);
      var i := Stoi(data[start..found]);
      r := if i.Err? then Err(i.error) else Ok(ElemItem(IntElem(i.value)));
    }
  }

  method ParseElem(ft: FloatText, data: Bytes, start: nat) returns (r: Result<Item>, found: nat)
    requires start < |data|
    ensures AtCursor(ReadTupleElem(ft, data[start..]), data, r, found)
  {
    if data[start] == '"' {
      var text;
      text, found := ParseQuoted(data, start);
      r := if text.Err? then Err(text.error) else Ok(ElemItem(StrElem(text.value)));
    } else if IsDigit(data[start]) {
      r, found := ParseNumber(ft, data, start);
    } else {
      r, found := Err(NotDefinedTupleElem), start;
    }
  }

  method ParseArgumentStart(data: Bytes, start: nat) returns (r: Result<nat>)
    requires start <= |data|
    ensures match ArgumentStart(data[start..])
            case Err(e) => r == Err(e)
            case Ok(s) => r.Ok? && r.value < |data| && data[r.value..] == s
  {
    var found := FindNotBlank(data, start);
    if found == |data| || data[found] != '(' {
      return Err(NotFoundOpen);
    }
    found := FindNotBlank(data, found + 1);
    if found == |data| || data[found] != '"' {
      return Err(NotFoundText);
    }
    return Ok(found);
  }

  method ParseArgumentEnd(data: Bytes, start: nat) returns (r: Result<nat>)
    requires start <= |data|
    ensures match ArgumentEnd(data[start..])
            case Err(e) => r == Err(e)
            case Ok(s) => r.Ok? && r.value <= |data| && data[r.value..] == s
  {
    var endPattern := FindNotBlank(data, start);
    if endPattern == |data| || data[endPattern] != ')' {
      return Err(NotFoundEndPattern);
    }
    return Ok(endPattern + 1);
  }

  method ParseArgument(data: Bytes, start: nat) returns (r: Result<Bytes>, found: nat)
    requires start <= |data|
    ensures match Argument(data[start..])
            case Err(e) => r == Err(e)
            case Ok((text, rest)) => r == Ok(text) && found <= |data| && data[found..] == rest
  {
    var open := ParseArgumentStart(data, start);
    if open.Err? {
      return Err(open.error), start;
    }
    r, found := ParseQuoted(data, open.value);
    if r.Err? {
      return;
    }
    var end := ParseArgumentEnd(data, found);
    if end.Err? {
      return Err(end.error), found;
    }
    found := end.value;
  }

  method ParseOnePattern(ft: FloatText, data: Bytes, start: nat) returns (r: Result<Item>, found: nat)
    requires start < |data|
    ensures AtCursor(ReadPattern(ft, data[start..]), data, r, found)
  {
    var keyword := KeywordOf(data[start..]);
    if keyword.None? {
      return Err(NotDefinedPattern), start;
    }
    var text;
    text, found := ParseArgument(data, start + |Name(keyword.value)|);
    if text.Err? {
      return Err(text.error), found;
    }
    assert ReadPattern(ft, data[start..]) == PatternToken(ft, keyword.value, text.value, data[found..]);
    var p := Construct(ft, keyword.value, text.value);
    r := if p.Err? then Err(p.error) else Ok(PatternItem(p.value));
  }

  // The same for either language.
  method ParseItem(ft: FloatText, lang: Language, data: Bytes, start: nat) returns (r: Result<Item>, found: nat)
    requires start < |data|
    ensures AtCursor(ReadItem(ft, lang, data[start..]), data, r, found)
  {
    if lang == Elems {
      r, found := ParseElem(ft, data, start);
    } else {
      r, found := ParseOnePattern(ft, data, start);
    }
  }

  // The separator: the position of the next item, or of the closing bracket.
  method ParseSeparator(data: Bytes, start: nat) returns (r: Result<nat>)
    requires start <= |data|
    ensures match BehindItem(data[start..])
            case Err(e) => r == Err(e)
            case Ok(next) => r.Ok? && start <= r.value <= |data| && data[r.value..] == next
  {
    var found := FindNotBlank(data, start);
    if found == |data| {
      return Err(NotFoundClose);
    }
    if data[found] == ',' {
      found := FindNotBlank(data, found + 1);
    } else if data[found] != ')' {
      return Err(UnexpectedCharacter);
    }
    return Ok(found);
  }

  // The list read from s is `result` and then what is read at the cursor.
  ghost predicate Underway(ft: FloatText, lang: Language, all: Result<List>, result: seq<Item>, s: Bytes) {
    all == match ReadItems(ft, lang, s)
           case Err(e) => Err(e)
           case Ok(l) => Ok(List(result + l.items, l.rest))
  }

  lemma UnderwayNext(ft: FloatText, lang: Language, all: Result<List>, result: seq<Item>, s: Bytes)
    requires Underway(ft, lang, all, result, s) && s != [] && s[0] != ')'
    ensures match ReadItem(ft, lang, s)
            case Err(e) => all == Err(e)
            case Ok(t) =>
              match BehindItem(t.rest)
              case Err(e) => all == Err(e)
              case Ok(next) => Underway(ft, lang, all, result + [t.item], next)
  {
    var r := ReadItem(ft, lang, s);
    if r.Ok? && BehindItem(r.value.rest).Ok? {
      var l := ReadItems(ft, lang, BehindItem(r.value.rest).value);
      if l.Ok? {
        Seqs.Assoc(result, [r.value.item], l.value.items);
      }
    }
  }

  lemma UnderwayStart(ft: FloatText, lang: Language, s: Bytes)
    ensures Underway(ft, lang, ReadItems(ft, lang, s), [], s)
  {
    var r := ReadItems(ft, lang, s);
    if r.Ok? {
      assert [] + r.value.items == r.value.items;
    }
  }

  lemma UnderwayEnd(ft: FloatText, lang: Language, all: Result<List>, result: seq<Item>, s: Bytes)
    requires Underway(ft, lang, all, result, s) && (s == [] || s[0] == ')')
    ensures all == if s == [] then Err(IndexedPastEnd) else Ok(List(result, s[1..]))
  {
    assert result + [] == result;
  }

  method ParseOpen(data: Bytes) returns (r: Result<nat>)
    ensures match BehindOpen(data)
            case Err(e) => r == Err(e)
            case Ok(s) => r.Ok? && r.value < |data| && data[r.value..] == s
  {
    assert data[0..] == data;
    var found := FindNotBlank(data, 0);
    if found == |data| || data[found] != '(' {
      return Err(NotFoundOpen);
    }
    found := FindNotBlank(data, found + 1);
    if found == |data| {
      return Err(NotFoundClose);
    }
    return Ok(found);
  }

  // The items and the position behind the closing bracket are what `spec` says.
  ghost predicate AtEnd(spec: Result<List>, data: Bytes, r: Result<seq<Item>>, found: nat) {
    match spec
    case Err(e) => r == Err(e)
    case Ok(l) => r == Ok(l.items) && found <= |data| && data[found..] == l.rest
  }

  // The loop of parseTupleElem and of parsePattern; the cursor moves on with every item.
  method ParseItems(ft: FloatText, lang: Language, data: Bytes, start: nat) returns (r: Result<seq<Item>>, found: nat)
    requires start <= |data|
    ensures AtEnd(ReadItems(ft, lang, data[start..]), data, r, found)
  {
    found := start;
    ghost var s := data[found..];
    ghost var all := ReadItems(ft, lang, s);
    var result: seq<Item> := [];
    UnderwayStart(ft, lang, s);
    while found < |data| && data[found] != ')'
      invariant found <= |data| && s == data[found..] && Underway(ft, lang, all, result, s)
      decreases |data| - found
    {
      UnderwayNext(ft, lang, all, result, s);
      var item, next := ParseItem(ft, lang, data, found);
      if item.Err? {
        return Err(item.error), found;
      }
      var separator := ParseSeparator(data, next);
      if separator.Err? {
        return Err(separator.error), found;
      }
      result := result + [item.value];
      found := separator.value;
      s := data[found..];
    }
    UnderwayEnd(ft, lang, all, result, s);
    if found == |data| {
      return Err(IndexedPastEnd), found;
    }
    return Ok(result), found + 1;
  }

  // parseTupleElem
  method ParseTupleElem(ft: FloatText, data: Bytes) returns (r: Result<seq<Item>>)
    ensures r == ReadOperand(ft, Elems, data)
  {
    var start := ParseOpen(data);
    if start.Err? {
      return Err(start.error);
    }
    var found;
    r, found := ParseItems(ft, Elems, data, start.value);
  }

  // parsePattern
  method ParsePattern(ft: FloatText, data: Bytes) returns (r: Result<seq<Item>>)
    ensures r == ReadOperand(ft, Patterns, data)
  {
    var start := ParseOpen(data);
    if start.Err? {
      return Err(start.error);
    }
    var found;
    r, found := ParseItems(ft, Patterns, data, start.value);
    if r.Ok? {
      var tail := FindNotBlank(data, found);
      if tail != |data| {
        return Err(UnexpectedTail);
      }
    }
  }

  method Parse(ft: FloatText, data: Bytes) returns (r: Result<Line>)
    ensures r == ReadLine(ft, data)
  {
    if "read" <= data {
      var items := ParsePattern(ft, data[4..]);
      r := ToLine(Codec.OP_LINDA_READ, items);
    } else if "output" <= data {
      var items := ParseTupleElem(ft, data[6..]);
      r := ToLine(Codec.OP_LINDA_WRITE, items);
    } else if "input" <= data {
      var items := ParsePattern(ft, data[5..]);
      r := ToLine(Codec.OP_LINDA_INPUT, items);
    } else {
      r := Err(UnrecognizedCommand);
    }
  }
}
