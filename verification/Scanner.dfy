/** The hand-written TypeScript scanner and the split it drives. */
module Scanner {
  import opened Syntax
  import opened Wrappers

  /** The value of a `ScanState`: four bracket depths, the open string's quote, the escape and
      comment flags, and the previous character. */
  datatype Scan = Scan(brace: nat, bracket: nat, paren: nat, angle: nat,
                       quote: Option<char>, escape: bool, block: bool, line: bool,
                       previous: Option<char>)
  {
    predicate Ignored() { quote.Some? || block || line }

    predicate TopLevel() { brace == 0 && bracket == 0 && paren == 0 && angle == 0 }
  }

  const INIT := Scan(0, 0, 0, 0, None, false, false, false, None)

  function Pred(n: nat): nat { if n == 0 then 0 else n - 1 }

  function Step(s: Scan, c: char): Scan
  {
    var s' := s.(previous := Some(c));
    if s.line then s'.(line := c != '\n')
    else if s.block then
      if s.previous == Some('*') && c == '/' then s.(block := false, previous := None) else s'
    else if s.quote.Some? then
      if s.escape then s'.(escape := false)
      else if c == '\\' then s'.(escape := true)
      else if c == s.quote.value then s'.(quote := None)
      else s'
    else if s.previous == Some('/') && c == '/' then s'.(line := true)
    else if s.previous == Some('/') && c == '*' then s'.(block := true)
    else match c
      case '\"' => s'.(quote := Some(c))
      case '\'' => s'.(quote := Some(c))
      case '{' => s'.(brace := s.brace + 1)
      case '}' => s'.(brace := Pred(s.brace))
      case '[' => s'.(bracket := s.bracket + 1)
      case ']' => s'.(bracket := Pred(s.bracket))
      case '(' => s'.(paren := s.paren + 1)
      case ')' => s'.(paren := Pred(s.paren))
      case '<' => s'.(angle := s.angle + 1)
      case '>' => s'.(angle := Pred(s.angle))
      case _ => s'
  }

  function Run(s: Scan, text: string): Scan
    decreases |text|
  {
    if text == [] then s else Run(Step(s, text[0]), text[1..])
  }

  lemma {:induction false} RunAppend(s: Scan, a: string, b: string)
    ensures Run(s, a + b) == Run(Run(s, a), b)
    decreases |a|
  {
    if a == [] {
      assert a + b == b;
    } else {
      assert (a + b)[1..] == a[1..] + b;
      RunAppend(Step(s, a[0]), a[1..], b);
    }
  }

  lemma RunExtend(s: Scan, a: string, c: char)
    ensures Run(s, a + [c]) == Step(Run(s, a), c)
  {
    RunAppend(s, a, [c]);
    assert Run(Run(s, a), [c]) == Run(Step(Run(s, a), c), []);
  }

  /** Every reachable state: one mode at a time, and an escape is pending only inside a string. */
  predicate Sane(s: Scan)
  {
    && (s.escape ==> s.quote.Some?)
    && (s.quote.Some? ==> !s.block && !s.line && s.quote.value in "\"'")
    && !(s.block && s.line)
  }

  lemma {:induction false} RunSane(s: Scan, text: string)
    requires Sane(s)
    ensures Sane(Run(s, text))
    decreases |text|
  {
    if text != [] { RunSane(Step(s, text[0]), text[1..]); }
  }

  // ----- what the state says about the text

  /** The positions at which the scanner is in no string and no comment. */
  function Outside(t: string): set<nat>
  {
    set i: nat | i <= |t| && !Run(INIT, t[..i]).Ignored()
  }

  /** The modes are those of the text. */
  ghost predicate ModesAt(t: string, i: nat)
    requires i <= |t|
  {
    var s, code := Run(INIT, t[..i]), Outside(t);
    && (s.line <==> InLine(t, code, i)) && (s.block <==> InBlock(t, code, i))
    && (s.quote.Some? <==> InString(t, code, i))
    && forall j: nat | StringFrom(t, code, j, i) :: s.quote == Some(t[j]) && s.escape == Escaped(t, j, i)
  }

  /** The previous character is remembered, but for the slash that ends a block comment. */
  predicate PreviousAt(t: string, i: nat)
    requires i <= |t|
  {
    var s, code := Run(INIT, t[..i]), Outside(t);
    if i == 0 then s.previous.None?
    else if s.previous.None? then t[i - 1] == '/' && i - 1 !in code && !s.Ignored()
    else s.previous.value == t[i - 1] && (t[i - 1] == '/' && !s.Ignored() ==> i - 1 in code)
  }

  ghost predicate DepthsAt(t: string, i: nat)
    requires i <= |t|
  {
    var s, code := Run(INIT, t[..i]), Outside(t);
    && s.brace == Depth(t, code, i, '{', '}') && s.bracket == Depth(t, code, i, '[', ']')
    && s.paren == Depth(t, code, i, '(', ')') && s.angle == Depth(t, code, i, '<', '>')
  }

  lemma StateNext(t: string, i: nat)
    requires i < |t|
    ensures Run(INIT, t[..i + 1]) == Step(Run(INIT, t[..i]), t[i]) && Sane(Run(INIT, t[..i]))
    ensures i in Outside(t) <==> !Run(INIT, t[..i]).Ignored()
  {
    assert t[..i + 1] == t[..i] + [t[i]];
    RunExtend(INIT, t[..i], t[i]);
    RunSane(INIT, t[..i]);
  }

  lemma PreviousNext(t: string, i: nat)
    requires i < |t| && PreviousAt(t, i)
    ensures PreviousAt(t, i + 1)
  {
    StateNext(t, i);
  }

  lemma DepthsNext(t: string, i: nat)
    requires i < |t| && PreviousAt(t, i) && DepthsAt(t, i)
    ensures DepthsAt(t, i + 1)
  {
    StateNext(t, i);
  }

  lemma LineModeNext(t: string, i: nat)
    requires i < |t| && PreviousAt(t, i) && ModesAt(t, i)
    ensures Run(INIT, t[..i + 1]).line <==> InLine(t, Outside(t), i + 1)
  {
    StateNext(t, i);
    if i > 0 { StateNext(t, i - 1); }
    LineNext(t, Outside(t), i);
  }

  lemma BlockModeNext(t: string, i: nat)
    requires i < |t| && PreviousAt(t, i) && ModesAt(t, i)
    ensures Run(INIT, t[..i + 1]).block <==> InBlock(t, Outside(t), i + 1)
  {
    StateNext(t, i);
    if i > 0 { StateNext(t, i - 1); }
    BlockNext(t, Outside(t), i);
  }

  lemma StringModeNext(t: string, i: nat)
    requires i < |t| && PreviousAt(t, i) && ModesAt(t, i)
    ensures Run(INIT, t[..i + 1]).quote.Some? <==> InString(t, Outside(t), i + 1)
    ensures forall j: nat | StringFrom(t, Outside(t), j, i + 1) ::
      var s := Run(INIT, t[..i + 1]); s.quote == Some(t[j]) && s.escape == Escaped(t, j, i + 1)
  {
    var s, code, n := Run(INIT, t[..i]), Outside(t), i + 1;
    StateNext(t, i);
    forall j: nat | StringFrom(t, code, j, n)
      ensures s.quote.Some? || j == i
      ensures Step(s, t[i]).quote == Some(t[j]) && Step(s, t[i]).escape == Escaped(t, j, n)
    {
      StringNext(t, code, j, i);
    }
    if s.quote.Some? {
      var j: nat :| StringFrom(t, code, j, i);
      StringNext(t, code, j, i);
    } else {
      StringNext(t, code, i, i);
    }
  }

  lemma {:induction false} StateIsSyntax(t: string, i: nat)
    requires i <= |t|
    ensures PreviousAt(t, i) && DepthsAt(t, i) && ModesAt(t, i)
  {
    if i == 0 {
      assert t[..0] == [];
    } else {
      StateIsSyntax(t, i - 1);
      PreviousNext(t, i - 1);
      DepthsNext(t, i - 1);
      LineModeNext(t, i - 1);
      BlockModeNext(t, i - 1);
      StringModeNext(t, i - 1);
    }
  }

  /** The scanner finds the code of the text, and its depths are those of the text's brackets. */
  lemma {:induction false} ScannerIsSyntax(t: string)
    ensures IsCode(t, Outside(t))
    ensures forall i: nat | i <= |t| :: DepthsAt(t, i)
  {
    forall i: nat | i <= |t| ensures DepthsAt(t, i) && (i in Outside(t) <==> Free(t, Outside(t), i)) {
      StateIsSyntax(t, i);
    }
  }

  /** `ScanState` itself, updated in place. */
  class ScanState {
    var brace: nat
    var bracket: nat
    var paren: nat
    var angle: nat
    var stringDelim: Option<char>
    var escape: bool
    var blockComment: bool
    var lineComment: bool
    var previousChar: Option<char>

    function View(): Scan
      reads this
    {
      Scan(brace, bracket, paren, angle, stringDelim, escape, blockComment, lineComment, previousChar)
    }

    constructor ()
      ensures View() == INIT
    {
      brace, bracket, paren, angle := 0, 0, 0, 0;
      stringDelim, previousChar := None, None;
      escape, blockComment, lineComment := false, false, false;
    }

    method Observe(ch: char)
      modifies this
      ensures View() == Step(old(View()), ch)
    {
      if lineComment {
        if ch == '\n' { lineComment := false; }
        previousChar := Some(ch);
        return;
      }
      if blockComment {
        if previousChar == Some('*') && ch == '/' {
          blockComment := false;
          previousChar := None;
        } else {
          previousChar := Some(ch);
        }
        return;
      }
      if stringDelim.Some? {
        if escape {
          escape := false;
        } else if ch == '\\' {
          escape := true;
        } else if ch == stringDelim.value {
          stringDelim := None;
        }
        previousChar := Some(ch);
        return;
      }
      if previousChar == Some('/') && ch == '/' {
        lineComment := true;
      } else if previousChar == Some('/') && ch == '*' {
        blockComment := true;
      } else if ch == '\"' || ch == '\'' {
        stringDelim := Some(ch);
      } else if ch == '{' {
        brace := brace + 1;
      } else if ch == '}' {
        brace := Pred(brace);
      } else if ch == '[' {
        bracket := bracket + 1;
      } else if ch == ']' {
        bracket := Pred(bracket);
      } else if ch == '(' {
        paren := paren + 1;
      } else if ch == ')' {
        paren := Pred(paren);
      } else if ch == '<' {
        angle := angle + 1;
      } else if ch == '>' {
        if angle > 0 { angle := angle - 1; }
      }
      previousChar := Some(ch);
    }
  }

  // ----- trimming

  /** `char::is_whitespace`. */
  predicate IsSpace(c: char)
  {
    '\t' <= c <= '\r' || c == ' ' || c == '\U{0085}' || c == '\U{00A0}' || c == '\U{1680}'
    || '\U{2000}' <= c <= '\U{200A}' || c == '\U{2028}' || c == '\U{2029}' || c == '\U{202F}'
    || c == '\U{205F}' || c == '\U{3000}'
  }

  predicate AllSpace(s: string) { forall i | 0 <= i < |s| :: IsSpace(s[i]) }

  function TrimStart(s: string): string
  {
    if s != [] && IsSpace(s[0]) then TrimStart(s[1..]) else s
  }

  function TrimEnd(s: string): string
  {
    if s != [] && IsSpace(s[|s| - 1]) then TrimEnd(s[..|s| - 1]) else s
  }

  function Trim(s: string): string { TrimEnd(TrimStart(s)) }

  predicate Trimmed(s: string)
  {
    s != [] && !IsSpace(s[0]) && !IsSpace(s[|s| - 1])
  }

  // ----- splitting

  predicate Cut(s: Scan, c: char, delims: set<char>)
  {
    !s.Ignored() && s.TopLevel() && c in delims
  }

  function Emit(segment: string): seq<string>
  {
    if Trim(segment) == [] then [] else [Trim(segment)]
  }

  /** The parts still to come, when the scanner is in `s` and `segment` was read since the last cut. */
  function SplitFrom(s: Scan, segment: string, text: string, delims: set<char>): seq<string>
    decreases |text|
  {
    if text == [] then Emit(segment)
    else if Cut(s, text[0], delims) then Emit(segment) + SplitFrom(Step(s, text[0]), [], text[1..], delims)
    else SplitFrom(Step(s, text[0]), segment + [text[0]], text[1..], delims)
  }

  function Split(text: string, delims: set<char>): seq<string>
  {
    SplitFrom(INIT, [], text, delims)
  }

  /** One character of the loop. */
  lemma SplitNext(s: Scan, input: string, start: nat, index: nat, delims: set<char>)
    requires start <= index < |input|
    ensures SplitFrom(s, input[start..index], input[index..], delims) ==
      if Cut(s, input[index], delims)
      then Emit(input[start..index]) + SplitFrom(Step(s, input[index]), input[index + 1..index + 1],
                                                 input[index + 1..], delims)
      else SplitFrom(Step(s, input[index]), input[start..index + 1], input[index + 1..], delims)
  {
    assert input[index..][1..] == input[index + 1..];
    assert input[start..index + 1] == input[start..index] + [input[index]];
    assert input[index + 1..index + 1] == [];
  }

  /** The pieces trimmed, blank ones left out. */
  function Tidy(pieces: seq<string>): seq<string>
  {
    if pieces == [] then [] else Emit(pieces[0]) + Tidy(pieces[1..])
  }

  /** `parts` are the tidied pieces of `t` between the delimiters in its code that stand in no bracket. */
  ghost predicate SplitAtDelimiters(t: string, delims: set<char>, parts: seq<string>)
  {
    exists code, cuts :: IsCode(t, code) && CutsOf(t, code, delims, cuts) && parts == Tidy(Pieces(t, 0, cuts))
  }

  /** The cuts from `i` on, by the scanner's state. */
  function CutsFrom(t: string, delims: set<char>, i: nat): (cuts: seq<nat>)
    requires i <= |t|
    ensures forall k | 0 <= k < |cuts| :: i <= cuts[k] < |t|
    ensures forall k, l | 0 <= k < l < |cuts| :: cuts[k] < cuts[l]
    ensures forall k: nat :: k in cuts <==> i <= k < |t| && Cut(Run(INIT, t[..k]), t[k], delims)
    decreases |t| - i
  {
    if i == |t| then []
    else
      var later := CutsFrom(t, delims, i + 1);
      if Cut(Run(INIT, t[..i]), t[i], delims) then [i] + later else later
  }

  lemma CutIsOutermost(t: string, delims: set<char>, i: nat)
    requires i < |t|
    ensures Cut(Run(INIT, t[..i]), t[i], delims) <==> Outermost(t, Outside(t), i) && t[i] in delims
  {
    StateIsSyntax(t, i);
  }

  lemma TidyLast(t: string, start: nat)
    requires start <= |t|
    ensures Tidy(Pieces(t, start, [])) == Emit(t[start..|t|])
  {
    var pieces := Pieces(t, start, []);
    assert pieces[1..] == [] && t[start..|t|] == t[start..];
  }

  lemma TidyNext(t: string, start: nat, i: nat, cuts: seq<nat>, later: seq<nat>)
    requires start <= i < |t| && cuts == [i] + later
    requires forall k | 0 <= k < |later| :: i < later[k] < |t|
    requires forall k, l | 0 <= k < l < |later| :: later[k] < later[l]
    ensures Tidy(Pieces(t, start, cuts)) == Emit(t[start..i]) + Tidy(Pieces(t, i + 1, later))
  {
    assert cuts[1..] == later;
    var pieces := Pieces(t, start, cuts);
    assert pieces[1..] == Pieces(t, i + 1, later);
  }

  lemma {:induction false} SplitIsPieces(t: string, start: nat, i: nat, delims: set<char>)
    requires start <= i <= |t|
    ensures SplitFrom(Run(INIT, t[..i]), t[start..i], t[i..], delims) == Tidy(Pieces(t, start, CutsFrom(t, delims, i)))
    decreases |t| - i
  {
    if i == |t| {
      TidyLast(t, start);
    } else {
      StateNext(t, i);
      SplitNext(Run(INIT, t[..i]), t, start, i, delims);
      if Cut(Run(INIT, t[..i]), t[i], delims) {
        SplitIsPieces(t, i + 1, i + 1, delims);
        TidyNext(t, start, i, CutsFrom(t, delims, i), CutsFrom(t, delims, i + 1));
      } else {
        SplitIsPieces(t, start, i + 1, delims);
      }
    }
  }

  /** So splitting is described by the text alone. */
  lemma {:induction false} SplitIsSyntax(t: string, delims: set<char>)
    ensures SplitAtDelimiters(t, delims, Split(t, delims))
  {
    var cuts := CutsFrom(t, delims, 0);
    ScannerIsSyntax(t);
    assert CutsOf(t, Outside(t), delims, cuts) by {
      forall i: nat ensures i in cuts <==> i < |t| && Outermost(t, Outside(t), i) && t[i] in delims {
        if i < |t| { CutIsOutermost(t, delims, i); }
      }
    }
    SplitIsPieces(t, 0, 0, delims);
    assert t[..0] == [] && t[0..] == t && t[0..0] == [];
  }

  method SplitTopLevelMulti(input: string, delims: set<char>) returns (parts: seq<string>)
    ensures parts == Split(input, delims)
    ensures SplitAtDelimiters(input, delims, parts)
  {
    SplitIsSyntax(input, delims);
    var state := new ScanState();
    var start := 0;
    parts := [];
    for index := 0 to |input|
      invariant 0 <= start <= index
      invariant parts + SplitFrom(state.View(), input[start..index], input[index..], delims) == Split(input, delims)
    {
      var ch := input[index];
      ghost var before := state.View();
      SplitNext(before, input, start, index, delims);
      if !state.View().Ignored() && state.View().TopLevel() && ch in delims {
        parts := PushTrimmed(parts, input[start..index]);
        start := index + 1;
      }
      state.Observe(ch);
    }
    assert input[start..|input|] == input[start..];
    parts := PushTrimmed(parts, input[start..]);
  }

  /** Keeps a segment unless it is blank. */
  method PushTrimmed(parts: seq<string>, segment: string) returns (r: seq<string>)
    ensures r == parts + Emit(segment)
    ensures forall rest: seq<string> :: r + rest == parts + (Emit(segment) + rest)
  {
    var part := Trim(segment);
    if part == [] {
      return parts;
    }
    r := parts + [part];
  }

  /** Index `i` opens a top-level brace. */
  predicate Opens(input: string, i: nat)
    requires i < |input|
  {
    var s := Run(INIT, input[..i]);
    !s.Ignored() && input[i] == '{' && s.TopLevel()
  }

  /** Index `i` is a brace after which the scanner is back at top level. */
  predicate Closes(input: string, i: nat)
    requires i < |input|
  {
    var s := Run(INIT, input[..i + 1]);
    !s.Ignored() && input[i] == '}' && s.TopLevel()
  }

  /** These are the braces in code that open where no bracket is open, and that leave none open. */
  lemma {:induction false} BracesAre(input: string, i: nat)
    requires i < |input|
    ensures IsCode(input, Outside(input))
    ensures Opens(input, i) <==> input[i] == '{' && Outermost(input, Outside(input), i)
    ensures Closes(input, i) <==> input[i] == '}' && i in Outside(input) && Outermost(input, Outside(input), i + 1)
  {
    ScannerIsSyntax(input);
    StateNext(input, i);
    StateIsSyntax(input, i);
    StateIsSyntax(input, i + 1);
  }

  /** The span runs from the last top-level opening brace to the first brace that closes back to the
      top level after one; no span means no such pair. */
  method FindTopLevelBraceSpan(input: string) returns (span: Option<(nat, nat)>)
    ensures span.Some? ==>
      && var (open, close) := span.value;
      && open <= close < |input| && Opens(input, open) && Closes(input, close)
      && (forall i | open < i <= close :: !Opens(input, i))
      && (forall i, j | 0 <= i <= j < close :: !(Opens(input, i) && Closes(input, j)))
    ensures span.None? ==> forall i, j | 0 <= i <= j < |input| :: !(Opens(input, i) && Closes(input, j))
  {
    var state := new ScanState();
    var openIndex: Option<nat> := None;
    for index := 0 to |input|
      invariant state.View() == Run(INIT, input[..index])
      invariant openIndex.None? ==> forall i | 0 <= i < index :: !Opens(input, i)
      invariant openIndex.Some? ==>
        && openIndex.value < index && Opens(input, openIndex.value)
        && forall i | openIndex.value < i < index :: !Opens(input, i)
      invariant forall i, j | 0 <= i <= j < index :: !(Opens(input, i) && Closes(input, j))
    {
      var ch := input[index];
      if !state.View().Ignored() && ch == '{' && state.View().TopLevel() {
        openIndex := Some(index);
      }
      RunExtend(INIT, input[..index], ch);
      assert input[..index + 1] == input[..index] + [ch];
      state.Observe(ch);
      if !state.View().Ignored() && ch == '}' && state.View().TopLevel() && openIndex.Some? {
        return Some((openIndex.value, index));
      }
    }
    return None;
  }
}
