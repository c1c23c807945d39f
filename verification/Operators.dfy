/** What the texts of patterns mean: the operator in front, and the elements that are matched. */
module Operators {
  import opened Types
  import opened Patterns
  import opened Numbers
  import opened PatternText

  // The text in front of the value is taken for the operator.
  lemma OperatorIsFound(op: Operator, prefix: Bytes, s: Bytes)
    requires op != All && prefix == OperatorText(op) && !Ambiguous(op, s)
    ensures prefix + s != "*" && SplitOperator(prefix + s) == Ok((op, s))
  {
    OperatorRoundTrip(op, s);
  }

  lemma IntIsBuilt(op: Operator, prefix: Bytes, s: Bytes, n: Int32, e: TupleElem)
    requires op != All && prefix == OperatorText(op) && Stoi(s) == Ok(n)
    ensures var r := IntPattern(prefix + s);
      r.Ok? && (Matches(r.value, e) <==> e.IntElem? && Compares(op, e, IntElem(n)))
  {
    assert CharAt(s, 0) != '=';
    OperatorIsFound(op, prefix, s);
    OperatorsMean(op, IntElem(n), e);
  }

  // The operator with this text.
  function Called(prefix: Bytes): (op: Operator)
    requires prefix == "==" || prefix == "!=" || prefix == ">" || prefix == "<" || prefix == "<=" || prefix == ">="
    ensures op != All && OperatorText(op) == prefix
  {
    if prefix == "==" then Equal
    else if prefix == "!=" then NotEqual
    else if prefix == ">" then GreaterThan
    else if prefix == "<" then LessThan
    else if prefix == "<=" then NotGreaterThan
    else NotLessThan
  }

  /** `Int("<7")` matches the integers below 7 and nothing else, and so on for every operator; the number
      is whatever stoi reads. */
  lemma IntPatternMeans(prefix: Bytes, s: Bytes, n: Int32, e: TupleElem)
    requires prefix == "==" || prefix == "!=" || prefix == ">" || prefix == "<" || prefix == "<=" || prefix == ">="
    requires Stoi(s) == Ok(n)
    ensures var r := IntPattern(prefix + s);
      r.Ok? && (Matches(r.value, e) <==>
        e.IntElem? &&
          if prefix == "==" then e.i == n
          else if prefix == "!=" then e.i != n
          else if prefix == ">" then e.i > n
          else if prefix == "<" then e.i < n
          else if prefix == "<=" then e.i <= n
          else e.i >= n)
  {
    IntIsBuilt(Called(prefix), prefix, s, n, e);
  }

  /** The same with the number written as `std::to_string` does. */
  lemma IntTextMeans(n: Int32, prefix: Bytes, x: Int32)
    requires prefix == "==" || prefix == "!=" || prefix == ">" || prefix == "<" || prefix == "<=" || prefix == ">="
    ensures var r := IntPattern(prefix + IntText(n));
      r.Ok? && (Matches(r.value, IntElem(x)) <==>
        if prefix == "==" then x == n
        else if prefix == "!=" then x != n
        else if prefix == ">" then x > n
        else if prefix == "<" then x < n
        else if prefix == "<=" then x <= n
        else x >= n)
  {
    IntTextRoundTrip(n);
    IntPatternMeans(prefix, IntText(n), n, IntElem(x));
  }

  lemma DoubleIsBuilt(ft: FloatText, op: Operator, prefix: Bytes, s: Bytes, d: Double, e: TupleElem)
    requires op != All && prefix == OperatorText(op) && ft.scan(s) == Some(d)
    requires op == GreaterThan || op == LessThan ==> CharAt(s, 0) != '='
    ensures var r := FloatPattern(ft, prefix + s);
      r.Ok? && (Matches(r.value, e) <==> e.FloatElem? && Compares(op, e, FloatElem(d)))
  {
    OperatorIsFound(op, prefix, s);
    OperatorsMean(op, FloatElem(d), e);
  }

  /** The same for `Float`, with numbers as `std::stod` reads them. A NaN is neither alike nor below. */
  lemma FloatPatternMeans(ft: FloatText, prefix: Bytes, s: Bytes, d: Double, e: TupleElem)
    requires prefix == "==" || prefix == "!=" || prefix == ">" || prefix == "<" || prefix == "<=" || prefix == ">="
    requires ft.scan(s) == Some(d) && (s != [] && s[0] == '=' ==> |prefix| == 2)
    ensures var r, v := FloatPattern(ft, prefix + s), FloatElem(d);
      r.Ok? && (Matches(r.value, e) <==>
        e.FloatElem? &&
          if prefix == "==" then Alike(e, v)
          else if prefix == "!=" then !Alike(e, v)
          else if prefix == ">" then Below(v, e)
          else if prefix == "<" then Below(e, v)
          else if prefix == "<=" then Below(e, v) || Alike(e, v)
          else Below(v, e) || Alike(e, v))
  {
    DoubleIsBuilt(ft, Called(prefix), prefix, s, d, e);
  }

  /** What stands to a double how: no NaN, and the values below each other or the same. */
  lemma DoublesStand(x: Double, y: Double)
    ensures Alike(FloatElem(x), FloatElem(y)) <==>
            CompareDouble(x, x) == Same && CompareDouble(y, y) == Same && Numeric(x) == Numeric(y)
    ensures Below(FloatElem(x), FloatElem(y)) <==>
            CompareDouble(x, x) == Same && CompareDouble(y, y) == Same && Numeric(x) < Numeric(y)
  {
    DoubleOrderIsNumeric(x, x);
    DoubleOrderIsNumeric(y, y);
  }

  lemma {:induction false} BlanksAreSkipped(k: nat, s: Bytes)
    requires s != [] && s[0] != ' '
    ensures SkipBlanks(seq(k, _ => ' ') + s) == s
  {
    if k == 0 {
      assert seq(0, _ => ' ') + s == s;
    } else {
      BlanksAreSkipped(k - 1, s);
      assert (seq(k, _ => ' ') + s)[1..] == seq(k - 1, _ => ' ') + s;
    }
  }

  lemma StringIsBuilt(op: Operator, prefix: Bytes, k: nat, s: Bytes, e: TupleElem)
    requires op != All && prefix == OperatorText(op) && s != [] && s[0] != ' '
    requires k > 0 || s[0] != '=' || (op != GreaterThan && op != LessThan)
    ensures var r := StringPattern(prefix + (seq(k, _ => ' ') + s));
      r.Ok? && (Matches(r.value, e) <==> e.StrElem? && Compares(op, e, StrElem(s)))
  {
    BlanksAreSkipped(k, s);
    OperatorIsFound(op, prefix, seq(k, _ => ' ') + s);
    OperatorsMean(op, StrElem(s), e);
  }

  /** The same for `String`, in the lexicographic order; blanks in front of the value do not count. */
  lemma StringPatternMeans(prefix: Bytes, k: nat, s: Bytes, e: TupleElem)
    requires prefix == "==" || prefix == "!=" || prefix == ">" || prefix == "<" || prefix == "<=" || prefix == ">="
    requires s != [] && s[0] != ' ' && (k == 0 && s[0] == '=' ==> |prefix| == 2)
    ensures var r, v := StringPattern(prefix + (seq(k, _ => ' ') + s)), StrElem(s);
      r.Ok? && (Matches(r.value, e) <==>
        e.StrElem? &&
          if prefix == "==" then e.s == s
          else if prefix == "!=" then e.s != s
          else if prefix == ">" then Below(v, e)
          else if prefix == "<" then Below(e, v)
          else if prefix == "<=" then Below(e, v) || e.s == s
          else Below(v, e) || e.s == s)
  {
    StringIsBuilt(Called(prefix), prefix, k, s, e);
  }

  /** A star matches whatever has the type. */
  lemma StarsMatchAll(ft: FloatText, e: TupleElem)
    ensures IntPattern("*").Ok? && (Matches(IntPattern("*").value, e) <==> e.IntElem?)
    ensures FloatPattern(ft, "*").Ok? && (Matches(FloatPattern(ft, "*").value, e) <==> e.FloatElem?)
    ensures StringPattern("*").Ok? && (Matches(StringPattern("*").value, e) <==> e.StrElem?)
  {
    OperatorsMean(All, IntElem(0), e);
    OperatorsMean(All, FloatElem(0), e);
    OperatorsMean(All, StrElem(""), e);
  }

  /** A string is below another one if it is a proper prefix or has the smaller byte where they first
      differ. */
  lemma StringsStand(a: Bytes, b: Bytes)
    ensures Below(StrElem(a), StrElem(b)) <==>
            exists k: nat :: k <= |a| && k < |b| && a[..k] == b[..k] && (k == |a| || a[k] < b[k])
  {
  }

  /** A text without an operator in front is refused, ... */
  lemma WrongPatternTexts(ft: FloatText, s: Bytes)
    ensures s != "*" && !("==" <= s) && !("!=" <= s) && !(">" <= s) && !("<" <= s) ==>
      StringPattern(s) == IntPattern(s) == FloatPattern(ft, s) == Err(NotDefinedPattern)
  {
    if s != [] && (s[0] == '>' || s[0] == '<') {
      assert [s[0]] <= s;
    }
  }

  /** ... and one without a value behind it. */
  lemma WrongValues(ft: FloatText, prefix: Bytes, s: Bytes, k: nat)
    requires prefix == "==" || prefix == "!=" || prefix == ">" || prefix == "<" || prefix == "<=" || prefix == ">="
    requires s != [] && s[0] == '=' ==> |prefix| == 2
    ensures StringPattern(prefix + seq(k, _ => ' ')) == Err(OutOfRange)
    ensures Stoi(s).Err? ==> IntPattern(prefix + s) == Err(Stoi(s).error)
    ensures ft.scan(s) == None ==> FloatPattern(ft, prefix + s) == Err(InvalidArgument)
  {
    OperatorIsFound(Called(prefix), prefix, seq(k, _ => ' '));
    OnlyBlanksAreSkipped(k);
    OperatorIsFound(Called(prefix), prefix, s);
  }

  lemma {:induction false} OnlyBlanksAreSkipped(k: nat)
    ensures SkipBlanks(seq(k, _ => ' ')) == []
  {
    if k > 0 {
      OnlyBlanksAreSkipped(k - 1);
      assert seq(k, _ => ' ')[1..] == seq(k - 1, _ => ' ');
    }
  }
}
