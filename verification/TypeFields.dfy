/** The braces around the fields of a type: once the fields are filtered, they are found again. */
module TypeFields {
  import opened Scanner
  import opened Resplit
  import opened Wrappers

  const FIELD_ENDS := {',', ';'}

  // ----- the brace span

  /** What `FindTopLevelBraceSpan` returns. */
  ghost predicate IsSpan(input: string, span: Option<(nat, nat)>)
  {
    match span
    case Some((open, close)) =>
      && open <= close < |input| && Opens(input, open) && Closes(input, close)
      && (forall i | open < i <= close :: !Opens(input, i))
      && (forall i, j | 0 <= i <= j < close :: !(Opens(input, i) && Closes(input, j)))
    case None => forall i, j | 0 <= i <= j < |input| :: !(Opens(input, i) && Closes(input, j))
  }

  lemma SpanUnique(input: string, a: Option<(nat, nat)>, b: Option<(nat, nat)>)
    requires IsSpan(input, a) && IsSpan(input, b)
    ensures a == b
  {
    if a.Some? && b.Some? {
      assert a.value.1 == b.value.1;
    }
  }

  // ----- one brace deeper

  function Up(s: Scan): Scan { s.(brace := s.brace + 1) }

  /** A closing brace in code that nothing read since opened. */
  predicate Under(s: Scan, c: char) { c == '}' && !s.Ignored() && s.brace == 0 }

  predicate NoUnder(s: Scan, text: string)
    decreases |text|
  {
    text == [] || (!Under(s, text[0]) && NoUnder(Step(s, text[0]), text[1..]))
  }

  lemma {:induction false} RunUp(s: Scan, text: string)
    requires NoUnder(s, text)
    ensures Run(Up(s), text) == Up(Run(s, text))
    decreases |text|
  {
    if text != [] {
      assert Step(Up(s), text[0]) == Up(Step(s, text[0]));
      RunUp(Step(s, text[0]), text[1..]);
    }
  }

  lemma {:induction false} NoUnderAppend(s: Scan, a: string, b: string)
    ensures NoUnder(s, a + b) <==> NoUnder(s, a) && NoUnder(Run(s, a), b)
    decreases |a|
  {
    if a == [] {
      assert a + b == b;
    } else {
      assert (a + b)[1..] == a[1..] + b;
      NoUnderAppend(Step(s, a[0]), a[1..], b);
    }
  }

  lemma NoUnderAsInitial(s: Scan, p: string)
    requires Neutral(s)
    ensures NoUnder(s, p) == NoUnder(INIT, p)
  {
    if p != [] { assert Step(s, p[0]) == Step(INIT, p[0]); }
  }

  lemma {:induction false} NoUnderBlanks(s: Scan, w: string)
    requires AllSpace(w)
    ensures NoUnder(s, w)
    decreases |w|
  {
    if w != [] {
      assert IsSpace(w[0]);
      NoUnderBlanks(Step(s, w[0]), w[1..]);
    }
  }

  // ----- the fields of a balanced body

  /** Scanned on its own: closes no outer brace and ends at top level, in code. */
  predicate Balanced(p: string)
  {
    NoUnder(INIT, p) && Closed(Run(INIT, p)) && !EndsInLineComment(p)
  }

  lemma BalancedSegment(s0: Scan, segment: string, delims: set<char>)
    requires Neutral(s0) && NoCut(s0, segment, delims) && NoUnder(s0, segment) && NoLine(s0, segment)
    requires Closed(Run(s0, segment)) && Trim(segment) != []
    ensures Balanced(Trim(segment))
  {
    var w1, w2 := TrimParts(segment);
    var p := Trim(segment);
    GoodSegment(s0, segment, delims);
    NoLineEnd(s0, segment);
    assert Neutral(Run(s0, segment).(previous := None));
    NoUnderAppend(s0, w1 + p, w2);
    NoUnderAppend(s0, w1, p);
    NeutralOverBlanks(s0, w1);
    NoUnderAsInitial(Run(s0, w1), p);
  }

  lemma {:induction false} BalancedFrom(s0: Scan, segment: string, text: string, delims: set<char>)
    requires Plain(delims) && Neutral(s0) && NoCut(s0, segment, delims)
    requires NoUnder(s0, segment + text) && NoLine(s0, segment + text) && Closed(Run(s0, segment + text))
    ensures forall p | p in SplitFrom(Run(s0, segment), segment, text, delims) :: Balanced(p)
    decreases |text|
  {
    var s := Run(s0, segment);
    RunSane(s0, segment);
    NoUnderAppend(s0, segment, text);
    NoLinePrefix(s0, segment, text);
    RunAppend(s0, segment, text);
    if text == [] {
      assert segment + text == segment;
      if Trim(segment) != [] { BalancedSegment(s0, segment, delims); }
    } else {
      var c := text[0];
      if Cut(s, c, delims) {
        if Trim(segment) != [] { BalancedSegment(s0, segment, delims); }
        assert [] + text[1..] == text[1..];
        BalancedFrom(Step(s, c), [], text[1..], delims);
      } else {
        RunExtend(s0, segment, c);
        NoCutAppend(s0, segment, [c], delims);
        assert NoCut(s, [c], delims);
        assert segment + text == (segment + [c]) + text[1..];
        BalancedFrom(s0, segment + [c], text[1..], delims);
      }
    }
  }

  lemma {:induction false} BalancedJoin(s: Scan, parts: seq<string>)
    requires Neutral(s) && forall p | p in parts :: Balanced(p)
    ensures NoUnder(s, Join(parts, ", "))
    ensures var e := Run(s, Join(parts, ", ")); Closed(e) && !e.line
    decreases |parts|
  {
    if parts != [] {
      var p := parts[0];
      BalancedPart(s, p);
      if |parts| > 1 {
        var rest := Join(parts[1..], ", ");
        var e := Run(s, p);
        var s' := Run(e, ", ");
        AfterSeparator(e);
        BalancedJoin(s', parts[1..]);
        assert p + ", " + rest == p + (", " + rest);
        NoUnderAppend(s, p, ", " + rest);
        NoUnderAppend(e, ", ", rest);
        RunAppend(s, p, ", " + rest);
        RunAppend(e, ", ", rest);
      }
    }
  }

  lemma BalancedPart(s: Scan, p: string)
    requires Neutral(s) && Balanced(p)
    ensures NoUnder(s, p) && Closed(Run(s, p)) && !Run(s, p).line
  {
    NoUnderAsInitial(s, p);
    if p != [] { NeutralAsInitial(s, p, {}); }
  }

  lemma AfterSeparator(e: Scan)
    requires Closed(e) && !e.line
    ensures NoUnder(e, ", ") && Neutral(Run(e, ", "))
  {
    assert ", "[1..] == " " && " "[1..] == "";
    assert Run(e, ", ") == Run(Step(e, ','), " ") == Step(Step(e, ','), ' ');
    assert NoUnder(Step(e, ','), " ");
  }

  /** Filtering a balanced body leaves a balanced body. */
  lemma FilterBodyBalanced(inner: string, keep: string -> bool)
    requires NoLine(INIT, inner) && Balanced(inner)
    ensures Balanced(FilterBody(inner, keep, ", ", FIELD_ENDS))
  {
    assert [] + inner == inner;
    BalancedFrom(INIT, [], inner, FIELD_ENDS);
    FilterKeeps(Split(inner, FIELD_ENDS), keep);
    BalancedJoin(INIT, Filter(Split(inner, FIELD_ENDS), keep));
  }

  // ----- the span of the rewritten text

  lemma OpensPrefix(t: string, u: string, n: nat, i: nat)
    requires i < n <= |t| && n <= |u| && t[..n] == u[..n]
    ensures Opens(t, i) == Opens(u, i) && Closes(t, i) == Closes(u, i)
  {
    assert t[..i] == t[..n][..i] && u[..i] == u[..n][..i];
    assert t[..i + 1] == t[..n][..i + 1] && u[..i + 1] == u[..n][..i + 1];
    assert t[i] == t[..n][i] && u[i] == u[..n][i];
  }

  const OPENED := INIT.(previous := Some('{'))

  /** The state just inside a top-level opening brace. */
  lemma InsideBrace(t: string, open: nat)
    requires open < |t| && Opens(t, open)
    ensures Run(INIT, t[..open + 1]) == Up(OPENED)
  {
    RunSane(INIT, t[..open]);
    RunExtend(INIT, t[..open], '{');
    assert t[..open + 1] == t[..open] + ['{'];
  }

  lemma NoUnderPrefix(inner: string, k: nat)
    requires NoUnder(INIT, inner) && k <= |inner|
    ensures NoUnder(OPENED, inner[..k])
  {
    NoUnderAsInitial(OPENED, inner);
    assert inner == inner[..k] + inner[k..];
    NoUnderAppend(OPENED, inner[..k], inner[k..]);
  }

  lemma RunInside(a: string, x: string)
    requires Run(INIT, a) == Up(OPENED) && NoUnder(OPENED, x)
    ensures Run(INIT, a + x) == Up(Run(OPENED, x))
  {
    RunAppend(INIT, a, x);
    RunUp(OPENED, x);
  }

  /** Between the braces of a body that closes no outer brace the scanner never is at top level. */
  lemma InsideNotTop(t: string, a: string, inner: string, b: string, k: nat)
    requires t == a + (inner + b) && Run(INIT, a) == Up(OPENED)
    requires NoUnder(INIT, inner) && |a| <= k <= |a| + |inner|
    ensures Run(INIT, t[..k]) == Up(Run(OPENED, inner[..k - |a|])) && !Run(INIT, t[..k]).TopLevel()
  {
    NoUnderPrefix(inner, k - |a|);
    assert t[..k] == a + inner[..k - |a|];
    RunInside(a, inner[..k - |a|]);
  }

  /** What the span of a text says about the text between its braces. */
  lemma SpanBody(t: string, open: nat, close: nat)
    requires IsSpan(t, Some((open, close)))
    ensures open < close
    ensures NoUnder(INIT, t[open + 1..close]) && NoLine(INIT, t[open + 1..close]) ==> Balanced(t[open + 1..close])
  {
    var a, inner, b := t[..open + 1], t[open + 1..close], t[close..];
    if NoUnder(INIT, inner) && NoLine(INIT, inner) {
      InsideBrace(t, open);
      assert t == a + (inner + b);
      InsideNotTop(t, a, inner, b, close);
      assert inner[..close - |a|] == inner;
      var e := Run(OPENED, inner);
      RunSane(OPENED, inner);
      RunExtend(INIT, t[..close], '}');
      assert t[..close + 1] == t[..close] + ['}'];
      assert Step(Up(e), '}').TopLevel() && !Step(Up(e), '}').Ignored();
      if inner != [] { NeutralAsInitial(OPENED, inner, {}); }
    }
  }

  /** With another balanced body between the same braces, the same opening brace is found, and the span
      ends right after the new body. */
  lemma SpanAgain(t: string, open: nat, close: nat, inner: string)
    requires IsSpan(t, Some((open, close))) && open < close && Balanced(inner)
    ensures IsSpan(t[..open + 1] + inner + t[close..], Some((open, open + 1 + |inner|)))
  {
    var a, b := t[..open + 1], t[close..];
    var u, close' := a + inner + b, open + 1 + |inner|;
    assert u == a + (inner + b) && u[..open + 1] == a == t[..open + 1] && u[close'] == '}';
    OpensPrefix(t, u, open + 1, open);
    InsideBrace(t, open);
    forall i | open < i < close' ensures !Opens(u, i) { InsideNotTop(u, a, inner, b, i); }
    forall j | open < j < close' ensures !Closes(u, j) { InsideNotTop(u, a, inner, b, j + 1); }
    forall i, j | 0 <= i <= j < close' ensures !(Opens(u, i) && Closes(u, j)) {
      if j <= open {
        OpensPrefix(t, u, open + 1, i);
        OpensPrefix(t, u, open + 1, j);
      }
    }
    ClosesAfter(u, a, inner, b);
  }

  lemma ClosesAfter(u: string, a: string, inner: string, b: string)
    requires u == a + (inner + b) && b != [] && b[0] == '}' && Run(INIT, a) == Up(OPENED)
    requires Balanced(inner)
    ensures Closes(u, |a| + |inner|)
  {
    NoUnderAsInitial(OPENED, inner);
    BalancedPart(OPENED, inner);
    RunInside(a, inner);
    var k := |a| + |inner|;
    assert u[..k] == a + inner && u[k] == '}';
    ClosesAt(u, k, Run(OPENED, inner));
  }

  lemma ClosesAt(u: string, k: nat, e: Scan)
    requires k < |u| && u[k] == '}' && Run(INIT, u[..k]) == Up(e) && Closed(e) && !e.line
    ensures Closes(u, k)
  {
    RunExtend(INIT, u[..k], '}');
    assert u[..k + 1] == u[..k] + ['}'];
    ClosingBrace(e);
  }

  lemma ClosingBrace(e: Scan)
    requires Closed(e) && !e.line
    ensures Step(Up(e), '}').TopLevel() && !Step(Up(e), '}').Ignored()
  {
  }

  /** With its fields filtered a body has the same opening brace, and filtering again changes nothing. */
  lemma {:induction false} SpanFiltered(body: string, keep: string -> bool, open: nat, close: nat)
    requires IsSpan(body, Some((open, close)))
    requires NoLine(INIT, body[open + 1..close]) && NoUnder(INIT, body[open + 1..close])
    ensures var inner := FilterBody(body[open + 1..close], keep, ", ", FIELD_ENDS);
      && IsSpan(body[..open + 1] + inner + body[close..], Some((open, open + 1 + |inner|)))
      && FilterBody(inner, keep, ", ", FIELD_ENDS) == inner
  {
    var inner := body[open + 1..close];
    SpanBody(body, open, close);
    FilterBodyBalanced(inner, keep);
    SpanAgain(body, open, close, FilterBody(inner, keep, ", ", FIELD_ENDS));
    FilterBodyIdempotent(inner, keep, ", ", 0, FIELD_ENDS);
  }
}
