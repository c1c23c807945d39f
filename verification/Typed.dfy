/** What a user gets who types a command, from the text to the reply and the database. */
module Typed {
  import opened Types
  import opened Numbers
  import opened PatternText
  import opened TupleSpace
  import opened Others
  import opened Parser
  import opened Delivery
  import opened Session
  import opened Lines

  // `read(Int("==5"))` or `input(Int("==5"))`
  function Asking(verb: Bytes, n: Int32): Bytes {
    verb + ("(Int(\"==" + IntText(n) + "\"))")
  }

  // `output(5)`
  function Telling(n: Int32): Bytes {
    "output(" + IntText(n) + ")"
  }

  lemma EqualIsBuilt(n: Int32)
    ensures IntPattern("==" + IntText(n)) == Ok(Pattern(IntElem(n), Equal))
  {
    OperatorRoundTrip(Equal, IntText(n));
    IntTextRoundTrip(n);
  }

  lemma NoQuoteIn(n: Int32)
    ensures '"' !in "==" + IntText(n)
  {
    var ds := Digits(Magnitude(n));
    assert forall c :: c in ds ==> IsDigit(c);
  }

  lemma AskingText(verb: Bytes, n: Int32)
    ensures Asking(verb, n) == verb + Lines.OnePattern("Int", "==" + IntText(n), Gaps(0, 0, 0, 0, 0, 0, 0))
  {
    WithoutBlanks("Int", "==" + IntText(n));
    Inside(IntText(n));
  }

  lemma Inside(text: Bytes)
    ensures "(" + "Int" + "(\"" + ("==" + text) + "\"))" == "(Int(\"==" + text + "\"))"
  {
  }

  lemma AskingIsRead(ft: FloatText, verb: Bytes, n: Int32)
    requires verb == "read" || verb == "input"
    ensures ReadLine(ft, Asking(verb, n)) ==
            Ok(Line(if verb == "read" then 128 as char else 64 as char, [PatternItem(Pattern(IntElem(n), Equal))]))
  {
    NoQuoteIn(n);
    EqualIsBuilt(n);
    AskingText(verb, n);
    WordMeans(ft, verb, "Int", "==" + IntText(n), Gaps(0, 0, 0, 0, 0, 0, 0));
  }

  lemma AskingIsUnderstood(ft: FloatText, verb: Bytes, n: Int32)
    requires verb == "read" || verb == "input"
    ensures var p := [Pattern(IntElem(n), Equal)];
      Understood(ft, Asking(verb, n)) == Ok(if verb == "read" then Read(p) else Input(p))
  {
    var p := Pattern(IntElem(n), Equal);
    AskingIsRead(ft, verb, n);
    OneItem([PatternItem(p)], p);
  }

  lemma OneItem(items: seq<Item>, p: Pattern)
    requires items == [PatternItem(p)]
    ensures AllPatterns(items) && PatternsOf(items) == [p]
    ensures CommandOf(Line(128 as char, items)) == Some(Read([p]))
    ensures CommandOf(Line(64 as char, items)) == Some(Input([p]))
  {
  }

  lemma TellingIsUnderstood(ft: FloatText, n: Int32)
    requires n >= 0
    ensures Understood(ft, Telling(n)) == Ok(Write([IntElem(n)]))
  {
    DigitsMean(ft, n, []);
    TellingText(IntText(n));
    OneElement([ElemItem(IntElem(n))], IntElem(n));
  }

  lemma TellingText(text: Bytes)
    ensures "output(" + text + ")" == "output" + ("(" + (text + (")" + [])))
  {
  }

  lemma OneElement(items: seq<Item>, e: TupleElem)
    requires items == [ElemItem(e)]
    ensures CommandOf(Line(32 as char, items)) == Some(Write([e]))
  {
    assert AllElems(items) && ElemsOf(items) == [e];
  }

  // Undisturbed, an understood line is the command alone.
  lemma LineAlone(ft: FloatText, s: Space, line: Bytes, cmd: Command)
    requires Understood(ft, line) == Ok(cmd) && HeardAs(ft, cmd) == cmd
    ensures var (s1, answer) := Perform(s, cmd);
      PerformLine(ft, s, line, Turn([], [])) == (s1, if answer.Some? then ReplyTo(cmd, answer.value) else NoReply)
  {
    UndisturbedIsPerform(s, cmd);
  }

  lemma AskingIsHeard(ft: FloatText, n: Int32)
    ensures RebuiltPatterns(ft, [Pattern(IntElem(n), Equal)]) == [Pattern(IntElem(n), Equal)]
  {
    IntPatternRoundTrip(ft, Equal, n);
  }

  lemma OnlyItself(n: Int32, x: Tuple)
    ensures MatchesTuple([Pattern(IntElem(n), Equal)], x) <==> x == [IntElem(n)]
  {
    MatchesElementwise([Pattern(IntElem(n), Equal)], x);
  }

  lemma FirstIs(store: seq<Tuple>, n: Int32, k: nat)
    requires k <= |store| && (k < |store| ==> store[k] == [IntElem(n)])
    requires forall j :: 0 <= j < k ==> store[j] != [IntElem(n)]
    ensures MatchIndex(store, [Pattern(IntElem(n), Equal)]) == k
  {
    forall j | 0 <= j < |store|
      ensures MatchesTuple([Pattern(IntElem(n), Equal)], store[j]) <==> store[j] == [IntElem(n)]
    {
      OnlyItself(n, store[j]);
    }
  }

  // A typed request on its own.
  lemma AskingAlone(ft: FloatText, s: Space, verb: Bytes, n: Int32)
    requires verb == "read" || verb == "input"
    ensures var p := [Pattern(IntElem(n), Equal)];
      var (s1, answer) := Perform(s, if verb == "read" then Read(p) else Input(p));
      PerformLine(ft, s, Asking(verb, n), Turn([], [])) ==
      (s1, if answer.Some? then Result(answer.value) else NoReply)
  {
    var p := [Pattern(IntElem(n), Equal)];
    AskingIsHeard(ft, n);
    AskingIsUnderstood(ft, verb, n);
    LineAlone(ft, s, Asking(verb, n), if verb == "read" then Read(p) else Input(p));
  }

  /** `read` of a stored integer replies with it and leaves the database alone; `input` takes it out, and
      leaves the others in their order. */
  lemma StoredIsFound(ft: FloatText, s: Space, verb: Bytes, n: Int32, k: nat)
    requires verb == "read" || verb == "input"
    requires k < |s.store| && s.store[k] == [IntElem(n)] && forall j :: 0 <= j < k ==> s.store[j] != [IntElem(n)]
    ensures PerformLine(ft, s, Asking(verb, n), Turn([], [])) ==
            (Space(if verb == "read" then s.store else s.store[..k] + s.store[k + 1..], s.waiting),
             Result([IntElem(n)]))
  {
    FoundAt(s, n, k);
    AskingAlone(ft, s, verb, n);
  }

  lemma FoundAt(s: Space, n: Int32, k: nat)
    requires k < |s.store| && s.store[k] == [IntElem(n)] && forall j :: 0 <= j < k ==> s.store[j] != [IntElem(n)]
    ensures Perform(s, Read([Pattern(IntElem(n), Equal)])) == (s, Some([IntElem(n)]))
    ensures Perform(s, Input([Pattern(IntElem(n), Equal)])) ==
            (Space(s.store[..k] + s.store[k + 1..], s.waiting), Some([IntElem(n)]))
  {
    FirstIs(s.store, n, k);
  }

  /** If it is not stored, the user waits, last in the queue. */
  lemma MissingIsAwaited(ft: FloatText, s: Space, verb: Bytes, n: Int32)
    requires verb == "read" || verb == "input"
    requires [IntElem(n)] !in s.store
    ensures PerformLine(ft, s, Asking(verb, n), Turn([], [])) ==
            (Space(s.store, s.waiting + [Request([Pattern(IntElem(n), Equal)], verb == "input")]), NoReply)
  {
    NotFound(s, n);
    AskingAlone(ft, s, verb, n);
  }

  lemma NotFound(s: Space, n: Int32)
    requires [IntElem(n)] !in s.store
    ensures var p := [Pattern(IntElem(n), Equal)];
      && Perform(s, Read(p)) == (Space(s.store, s.waiting + [Request(p, false)]), None)
      && Perform(s, Input(p)) == (Space(s.store, s.waiting + [Request(p, true)]), None)
  {
    FirstIs(s.store, n, |s.store|);
  }

  lemma HoldsOnlyItself(store: seq<Tuple>, n: Int32)
    ensures Holding(store, [IntElem(n)]) <==> [IntElem(n)] in store
  {
    forall y | y in store ensures SameTuple(y, [IntElem(n)]) <==> y == [IntElem(n)] {
      SameElementwise(y, [IntElem(n)]);
    }
  }

  /** `output` of an integer that nobody waits for stores it behind all others, unless it is there
      already. */
  lemma WrittenIsStored(ft: FloatText, s: Space, n: Int32)
    requires n >= 0 && s.waiting == []
    ensures PerformLine(ft, s, Telling(n), Turn([], [])) ==
            (Space(if [IntElem(n)] in s.store then s.store else s.store + [[IntElem(n)]], []), Success)
  {
    HoldsOnlyItself(s.store, n);
    TellingIsUnderstood(ft, n);
    LineAlone(ft, s, Telling(n), Write([IntElem(n)]));
    assert Remaining(s.waiting, Served(s.waiting, [IntElem(n)])) == [];
  }

  /** `output` of an integer wakes those that wait for it, up to the first that takes it: here a read and
      an input; then it is not stored, and whoever waits behind goes on waiting. */
  lemma WaitersAreServed(ft: FloatText, s: Space, n: Int32, rest: seq<Request>)
    requires n >= 0 && var p := [Pattern(IntElem(n), Equal)]; s.waiting == [Request(p, false), Request(p, true)] + rest
    ensures PerformLine(ft, s, Telling(n), Turn([], [])) == (Space(s.store, rest), Success)
  {
    TellingIsUnderstood(ft, n);
    LineAlone(ft, s, Telling(n), Write([IntElem(n)]));
    TwoAreServed(s.waiting, n);
    assert s.waiting[2..] == rest;
  }

  lemma TwoAreServed(rs: seq<Request>, n: Int32)
    requires |rs| >= 2 && !rs[0].isInput && rs[1].isInput
    requires rs[0].pattern == rs[1].pattern == [Pattern(IntElem(n), Equal)]
    ensures FirstTaker(rs, [IntElem(n)]) == 1 && Remaining(rs, Served(rs, [IntElem(n)])) == rs[2..]
  {
    var x := [IntElem(n)];
    OnlyItself(n, x);
    assert TupleSpace.Takes(rs[1], x) && !TupleSpace.Takes(rs[0], x);
    var marks := Served(rs, x);
    assert ServedAt(rs, x, 0) && ServedAt(rs, x, 1);
    assert marks[0] && marks[1];
    assert Unmarked(rs, marks, 0) == [];
    assert Unmarked(rs, marks, 1) == [];
    assert Unmarked(rs, marks, 2) == [];
    UnmarkedSplit(rs, marks, 2, |rs|);
  }
}
