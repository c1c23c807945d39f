/** Patterns as text (tuple.cpp): the constructors `String`, `Int` and `Float`, and the text of a
    pattern that is sent over the wire (serializer.cpp). */
module PatternText {
  import opened Types
  import opened Patterns
  import opened Numbers

  // std::string::operator[], which answers NUL at the end of the string.
  function CharAt(s: Bytes, i: nat): Byte {
    if i < |s| then s[i] else '\0'
  }

  function SkipBlanks(s: Bytes): (r: Bytes)
    ensures |r| <= |s| && (r != [] ==> r[0] != ' ')
  {
    if s != [] && s[0] == ' ' then SkipBlanks(s[1..]) else s
  }

  // Pattern::operatorToString
  function OperatorText(op: Operator): Bytes {
    match op
    case All => "*"
    case Equal => "=="
    case NotEqual => "!="
    case GreaterThan => ">"
    case LessThan => "<"
    case NotGreaterThan => "<="
    case NotLessThan => ">="
  }

  // The operator at the front of a pattern text, and what follows it.
  function SplitOperator(text: Bytes): (r: Result<(Operator, Bytes)>) {
    if "==" <= text then Ok((Equal, text[2..]))
    else if "!=" <= text then Ok((NotEqual, text[2..]))
    else if CharAt(text, 0) == '>' then
      if CharAt(text, 1) == '=' then Ok((NotLessThan, text[2..])) else Ok((GreaterThan, text[1..]))
    else if CharAt(text, 0) == '<' then
      if CharAt(text, 1) == '=' then Ok((NotGreaterThan, text[2..])) else Ok((LessThan, text[1..]))
    else Err(NotDefinedPattern)
  }

  function StringPattern(text: Bytes): Result<Pattern> {
    if text == "*" then Ok(Pattern(StrElem(""), All))
    else
      match SplitOperator(text)
      case Err(e) => Err(e)
      case Ok((op, rest)) =>
        if SkipBlanks(rest) == [] then Err(OutOfRange) else Ok(Pattern(StrElem(SkipBlanks(rest)), op))
  }

  function IntPattern(text: Bytes): Result<Pattern> {
    if text == "*" then Ok(Pattern(IntElem(0), All))
    else
      match SplitOperator(text)
      case Err(e) => Err(e)
      case Ok((op, rest)) =>
        match Stoi(rest)
        case Err(e) => Err(e)
        case Ok(i) => Ok(Pattern(IntElem(i), op))
  }

  function FloatPattern(ft: FloatText, text: Bytes): Result<Pattern> {
    if text == "*" then Ok(Pattern(FloatElem(0), All))
    else
      match SplitOperator(text)
      case Err(e) => Err(e)
      case Ok((op, rest)) =>
        match ft.scan(rest)
        case None => Err(InvalidArgument)
        case Some(d) => Ok(Pattern(FloatElem(d), op))
  }

  // The text that goes over the wire.
  function ValueText(ft: FloatText, v: TupleElem): Bytes {
    match v
    case IntElem(i) => IntText(i)
    case FloatElem(d) => ft.format(d)
    case StrElem(s) => s
  }

  function WireText(ft: FloatText, p: Pattern): Bytes {
    if p.op == All then OperatorText(All) else OperatorText(p.op) + ValueText(ft, p.value)
  }

  // What the receiver builds from the text of p.
  function Rebuilt(ft: FloatText, p: Pattern): Result<Pattern> {
    match p.value
    case IntElem(_) => IntPattern(WireText(ft, p))
    case FloatElem(_) => FloatPattern(ft, WireText(ft, p))
    case StrElem(_) => StringPattern(WireText(ft, p))
  }

  // An operator that is a prefix of another one takes the `=` of its value for its own.
  predicate Ambiguous(op: Operator, value: Bytes) {
    (op == GreaterThan || op == LessThan) && CharAt(value, 0) == '='
  }

  /** The operator is found again unless its value makes it ambiguous. */
  lemma OperatorRoundTrip(op: Operator, value: Bytes)
    requires op != All
    ensures OperatorText(op) + value != "*"
    ensures SplitOperator(OperatorText(op) + value) == Ok((op, value)) <==> !Ambiguous(op, value)
  {
    var o := OperatorText(op);
    var text := o + value;
    assert text[0] == o[0] && text[|o|..] == value;
    if |o| == 2 {
      assert text[1] == o[1] && text[..2] == o;
    } else {
      assert CharAt(text, 1) == CharAt(value, 0);
      if SplitOperator(text) == Ok((op, value)) {
      } else {
        assert text[1] == '=' && value[0] == '=';
      }
    }
  }

  lemma OtherOperator(op: Operator, value: Bytes)
    requires Ambiguous(op, value)
    ensures SplitOperator(OperatorText(op) + value).Ok?
    ensures SplitOperator(OperatorText(op) + value).value.0 != op
  {
    var text := OperatorText(op) + value;
    assert text[0] == OperatorText(op)[0] && text[1] == value[0];
  }

  lemma SkipBlanksIsIdentity(s: Bytes)
    ensures SkipBlanks(s) == s <==> CharAt(s, 0) != ' '
  {
  }

  /** A string pattern survives its text exactly when its value is nonempty, does not start with a
      blank, and does not start with `=` behind `>` or `<`. */
  lemma StringPatternRoundTrip(op: Operator, value: Bytes)
    requires op != All
    ensures StringPattern(OperatorText(op) + value) == Ok(Pattern(StrElem(value), op))
            <==> value != [] && value[0] != ' ' && !Ambiguous(op, value)
  {
    OperatorRoundTrip(op, value);
    if Ambiguous(op, value) {
      OtherOperator(op, value);
    } else {
      SkipBlanksIsIdentity(value);
    }
  }

  /** Of the patterns a user can build, exactly those written `>` or `<`, blanks, `=` are changed
      on their way to the server. */
  lemma BuiltStringPatternSurvives(ft: FloatText, text: Bytes)
    requires StringPattern(text).Ok?
    ensures Rebuilt(ft, StringPattern(text).value) == StringPattern(text)
            <==> !(CharAt(text, 0) in {'>', '<'} && CharAt(text, 1) == ' ' && CharAt(SkipBlanks(text[1..]), 0) == '=')
  {
    if text != "*" {
      var p := StringPattern(text).value;
      StringPatternRoundTrip(p.op, p.value.s);
      if (p.op == GreaterThan || p.op == LessThan) {
        assert text[1..][0] == CharAt(text, 1);
        SkipBlanksIsIdentity(text[1..]);
      }
    }
  }

  /** An integer pattern always survives: same operator, same value (0 for `*`). */
  lemma IntPatternRoundTrip(ft: FloatText, op: Operator, i: Int32)
    ensures Rebuilt(ft, Pattern(IntElem(i), op)) == Ok(Pattern(IntElem(if op == All then 0 else i), op))
    ensures forall e :: Matches(Rebuilt(ft, Pattern(IntElem(i), op)).value, e) <==> Matches(Pattern(IntElem(i), op), e)
  {
    if op != All {
      OperatorRoundTrip(op, IntText(i));
      IntTextRoundTrip(i);
    }
  }

  /** A float pattern survives its text exactly when its number does and the text does not start with
      `=` behind `>` or `<`; of an All pattern only the operator does. */
  lemma FloatPatternRoundTrip(ft: FloatText, op: Operator, d: Double)
    ensures op == All ==> Rebuilt(ft, Pattern(FloatElem(d), op)) == Ok(Pattern(FloatElem(0), All))
    ensures op != All ==>
      (Rebuilt(ft, Pattern(FloatElem(d), op)) == Ok(Pattern(FloatElem(d), op))
       <==> ft.scan(ft.format(d)) == Some(d) && !Ambiguous(op, ft.format(d)))
  {
    if op != All {
      OperatorRoundTrip(op, ft.format(d));
      if Ambiguous(op, ft.format(d)) {
        OtherOperator(op, ft.format(d));
      }
    }
  }
}
