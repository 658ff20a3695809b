/** Filtering the parts of a split text and joining them again: the joined text splits into exactly
    the kept parts, unless one of them ends inside a line comment. */
module Resplit {
  import opened Scanner
  import opened Sequences
  import opened Wrappers

  /** Delimiters the export uses are neither blank nor characters the scanner reacts to. */
  predicate Plain(delims: set<char>)
  {
    forall c | c in delims :: !IsSpace(c) && c !in "\"'{}[]()<>/*"
  }

  function Filter(parts: seq<string>, keep: string -> bool): seq<string>
  {
    if parts == [] then []
    else (if keep(parts[0]) then [parts[0]] else []) + Filter(parts[1..], keep)
  }

  function Join(parts: seq<string>, sep: string): string
  {
    if parts == [] then "" else if |parts| == 1 then parts[0] else parts[0] + sep + Join(parts[1..], sep)
  }

  /** Filtering selects exactly the parts to be kept, in order. */
  lemma {:induction false} FilterSelects(parts: seq<string>, keep: string -> bool) returns (at: seq<nat>)
    ensures Positions(parts, keep, at) && Selects(parts, Filter(parts, keep), at)
  {
    if parts == [] {
      at := [];
    } else {
      var rest := FilterSelects(parts[1..], keep);
      PositionsCons(parts, keep, rest);
      var later := Filter(parts[1..], keep);
      SelectsMoved(parts, later, rest);
      assert Filter(parts, keep) == if keep(parts[0]) then [parts[0]] + later else later;
      at := if keep(parts[0]) then [0] + Moved(rest) else Moved(rest);
    }
  }

  /** A join string: one delimiter with blanks around it, such as " | " or ", ". */
  ghost predicate Separator(sep: string, at: nat, delims: set<char>)
  {
    at < |sep| && sep[at] in delims && forall i | 0 <= i < |sep| && i != at :: sep[i] == ' '
  }

  // ----- scanner states

  /** As initial, up to the previous character, which is not a slash. */
  predicate Neutral(s: Scan)
  {
    s.TopLevel() && !s.Ignored() && !s.escape && s.previous != Some('/')
  }

  /** Where trimming may leave the scanner: at top level, possibly in a line comment. */
  predicate Closed(s: Scan)
  {
    s.TopLevel() && s.quote.None? && !s.block && !s.escape
  }

  /** The scanner's state at the end of a part scanned on its own. */
  predicate EndsInLineComment(part: string) { Run(INIT, part).line }

  predicate NoCut(s: Scan, text: string, delims: set<char>)
    decreases |text|
  {
    text == [] || (!Cut(s, text[0], delims) && NoCut(Step(s, text[0]), text[1..], delims))
  }

  predicate NoLine(s: Scan, text: string)
    decreases |text|
  {
    !s.line && (text == [] || NoLine(Step(s, text[0]), text[1..]))
  }

  lemma {:induction false} NoCutAppend(s: Scan, a: string, b: string, delims: set<char>)
    ensures NoCut(s, a + b, delims) <==> NoCut(s, a, delims) && NoCut(Run(s, a), b, delims)
    decreases |a|
  {
    if a == [] {
      assert a + b == b;
    } else {
      assert (a + b)[1..] == a[1..] + b;
      NoCutAppend(Step(s, a[0]), a[1..], b, delims);
    }
  }

  lemma {:induction false} NoLineEnd(s: Scan, text: string)
    requires NoLine(s, text)
    ensures !Run(s, text).line
    decreases |text|
  {
    if text != [] { NoLineEnd(Step(s, text[0]), text[1..]); }
  }

  lemma {:induction false} NoLinePrefix(s: Scan, a: string, b: string)
    requires NoLine(s, a + b)
    ensures NoLine(s, a) && NoLine(Run(s, a), b)
    decreases |a|
  {
    if a == [] {
      assert a + b == b;
    } else {
      assert (a + b)[1..] == a[1..] + b;
      NoLinePrefix(Step(s, a[0]), a[1..], b);
    }
  }

  /** From any neutral state a text is scanned as from the initial one. */
  lemma NeutralAsInitial(s: Scan, p: string, delims: set<char>)
    requires Neutral(s) && p != []
    ensures NoCut(s, p, delims) == NoCut(INIT, p, delims) && Run(s, p) == Run(INIT, p)
  {
    assert Step(s, p[0]) == Step(INIT, p[0]);
  }

  lemma {:induction false} NeutralOverBlanks(s: Scan, w: string)
    requires Neutral(s) && AllSpace(w)
    ensures Neutral(Run(s, w))
    decreases |w|
  {
    if w != [] {
      assert IsSpace(w[0]);
      NeutralOverBlanks(Step(s, w[0]), w[1..]);
    }
  }

  /** Blanks cannot leave a string or a block comment, only a line comment. */
  lemma {:induction false} ClosedBeforeBlanks(s: Scan, w: string)
    requires Sane(s) && Closed(Run(s, w)) && AllSpace(w)
    ensures Closed(s)
    decreases |w|
  {
    if w != [] {
      assert IsSpace(w[0]);
      ClosedBeforeBlanks(Step(s, w[0]), w[1..]);
    }
  }

  // ----- trimming

  lemma {:induction false} TrimStartParts(s: string) returns (w: string)
    ensures s == w + TrimStart(s) && AllSpace(w)
    ensures TrimStart(s) != [] ==> !IsSpace(TrimStart(s)[0])
  {
    w := [];
    if s != [] && IsSpace(s[0]) {
      var w' := TrimStartParts(s[1..]);
      w := [s[0]] + w';
      assert s == [s[0]] + s[1..];
    }
  }

  lemma {:induction false} TrimEndParts(s: string) returns (w: string)
    ensures s == TrimEnd(s) + w && AllSpace(w)
    ensures TrimEnd(s) != [] ==> !IsSpace(TrimEnd(s)[|TrimEnd(s)| - 1])
  {
    w := [];
    if s != [] && IsSpace(s[|s| - 1]) {
      var w' := TrimEndParts(s[..|s| - 1]);
      w := w' + [s[|s| - 1]];
      assert s == s[..|s| - 1] + [s[|s| - 1]];
    }
  }

  lemma TrimParts(s: string) returns (w1: string, w2: string)
    ensures s == w1 + Trim(s) + w2 && AllSpace(w1) && AllSpace(w2)
    ensures Trim(s) != [] ==> Trimmed(Trim(s))
  {
    w1 := TrimStartParts(s);
    w2 := TrimEndParts(TrimStart(s));
    assert TrimStart(s) == Trim(s) + w2;
  }

  lemma {:induction false} TrimStartBlanks(w: string, s: string)
    requires AllSpace(w) && s != [] && !IsSpace(s[0])
    ensures TrimStart(w + s) == s
  {
    if w == [] {
      assert w + s == s;
    } else {
      assert (w + s)[1..] == w[1..] + s;
      TrimStartBlanks(w[1..], s);
    }
  }

  lemma {:induction false} TrimEndBlanks(s: string, w: string)
    requires AllSpace(w) && s != [] && !IsSpace(s[|s| - 1])
    ensures TrimEnd(s + w) == s
  {
    if w == [] {
      assert s + w == s;
    } else {
      assert (s + w)[..|s + w| - 1] == s + w[..|w| - 1];
      TrimEndBlanks(s, w[..|w| - 1]);
    }
  }

  lemma {:induction false} TrimBlanks(w: string)
    requires AllSpace(w)
    ensures Trim(w) == []
  {
    if w != [] { TrimBlanks(w[1..]); }
  }

  lemma TrimAround(w1: string, p: string, w2: string)
    requires AllSpace(w1) && AllSpace(w2) && Trimmed(p)
    ensures Trim(w1 + p + w2) == p
  {
    assert w1 + p + w2 == w1 + (p + w2);
    TrimStartBlanks(w1, p + w2);
    TrimEndBlanks(p, w2);
  }

  lemma {:induction false} TrimEndKeeps(s: string, i: nat)
    requires i < |s| && !IsSpace(s[i])
    ensures |TrimEnd(s)| > i
  {
    if IsSpace(s[|s| - 1]) {
      TrimEndKeeps(s[..|s| - 1], i);
    }
  }

  // ----- what a split produces

  /** Segments with the delimiters that separate them. */
  function Weave(segments: seq<string>, cuts: seq<char>): string
    requires |segments| == |cuts| + 1
    decreases |cuts|
  {
    if cuts == [] then segments[0] else segments[0] + [cuts[0]] + Weave(segments[1..], cuts[1..])
  }

  /** The trimmed segments that are not blank. */
  function Kept(segments: seq<string>): seq<string>
  {
    if segments == [] then [] else Emit(segments[0]) + Kept(segments[1..])
  }

  function CutCount(s: Scan, text: string, delims: set<char>): nat
    decreases |text|
  {
    if text == [] then 0
    else (if Cut(s, text[0], delims) then 1 else 0) + CutCount(Step(s, text[0]), text[1..], delims)
  }

  lemma {:induction false} SplitFromCovers(s: Scan, segment: string, text: string, delims: set<char>)
    returns (segments: seq<string>, cuts: seq<char>)
    ensures |segments| == |cuts| + 1 && Weave(segments, cuts) == segment + text
    ensures Kept(segments) == SplitFrom(s, segment, text, delims)
    ensures |cuts| == CutCount(s, text, delims) && forall c | c in cuts :: c in delims
    decreases |text|
  {
    if text == [] {
      segments, cuts := [segment], [];
      assert segment + text == segment;
      assert Kept([]) == [] && [segment][1..] == [];
    } else if Cut(s, text[0], delims) {
      var ss, cs := SplitFromCovers(Step(s, text[0]), [], text[1..], delims);
      segments, cuts := [segment] + ss, [text[0]] + cs;
      assert segments[1..] == ss && cuts[1..] == cs;
      assert segment + [text[0]] + ([] + text[1..]) == segment + text;
    } else {
      segments, cuts := SplitFromCovers(Step(s, text[0]), segment + [text[0]], text[1..], delims);
      assert (segment + [text[0]]) + text[1..] == segment + text;
    }
  }

  /** A split loses nothing: the text is its segments with one delimiter between each two, cut at
      every top-level delimiter, and the parts are the segments trimmed, blank ones left out. */
  lemma {:induction false} SplitCovers(text: string, delims: set<char>)
    ensures exists segments: seq<string>, cuts: seq<char> ::
      && |segments| == |cuts| + 1 && Weave(segments, cuts) == text && Kept(segments) == Split(text, delims)
      && |cuts| == CutCount(INIT, text, delims) && forall c | c in cuts :: c in delims
  {
    var segments, cuts := SplitFromCovers(INIT, [], text, delims);
    assert [] + text == text;
  }

  predicate GoodPart(p: string, delims: set<char>)
  {
    Trimmed(p) && NoCut(INIT, p, delims)
  }

  /** Trimmed, without a top-level delimiter, and all but the last ending at top level. */
  predicate GoodParts(parts: seq<string>, delims: set<char>)
  {
    && (forall i | 0 <= i < |parts| :: GoodPart(parts[i], delims))
    && (forall i | 0 <= i < |parts| - 1 :: Closed(Run(INIT, parts[i])))
  }

  lemma GoodSegment(s0: Scan, segment: string, delims: set<char>)
    requires Neutral(s0) && NoCut(s0, segment, delims) && Trim(segment) != []
    ensures GoodPart(Trim(segment), delims)
    ensures Neutral(Run(s0, segment).(previous := None)) ==> Closed(Run(INIT, Trim(segment)))
    ensures NoLine(s0, segment) ==> !EndsInLineComment(Trim(segment))
  {
    var w1, w2 := TrimParts(segment);
    var p := Trim(segment);
    NoCutAppend(s0, w1 + p, w2, delims);
    NoCutAppend(s0, w1, p, delims);
    RunAppend(s0, w1 + p, w2);
    RunAppend(s0, w1, p);
    NeutralOverBlanks(s0, w1);
    NeutralAsInitial(Run(s0, w1), p, delims);
    RunSane(INIT, p);
    if Neutral(Run(s0, segment).(previous := None)) {
      ClosedBeforeBlanks(Run(INIT, p), w2);
    }
    if NoLine(s0, segment) {
      NoLinePrefix(s0, w1 + p, w2);
      NoLineEnd(s0, w1 + p);
    }
  }

  lemma {:induction false} SplitFromGood(s0: Scan, segment: string, text: string, delims: set<char>)
    requires Plain(delims) && Neutral(s0) && NoCut(s0, segment, delims)
    ensures GoodParts(SplitFrom(Run(s0, segment), segment, text, delims), delims)
    ensures NoLine(s0, segment + text) ==>
      forall p | p in SplitFrom(Run(s0, segment), segment, text, delims) :: !EndsInLineComment(p)
    decreases |text|
  {
    var s := Run(s0, segment);
    RunSane(s0, segment);
    if Trim(segment) != [] { GoodSegment(s0, segment, delims); }
    if text == [] {
      assert segment + text == segment;
    } else {
      var c := text[0];
      if NoLine(s0, segment + text) { NoLinePrefix(s0, segment, text); }
      if Cut(s, c, delims) {
        assert [] + text[1..] == text[1..];
        SplitFromGood(Step(s, c), [], text[1..], delims);
      } else {
        RunExtend(s0, segment, c);
        NoCutAppend(s0, segment, [c], delims);
        assert NoCut(s, [c], delims);
        assert segment + text == (segment + [c]) + text[1..];
        SplitFromGood(s0, segment + [c], text[1..], delims);
      }
    }
  }

  /** Wherever the split cuts, the scanner is as it started, up to the previous character. */
  lemma CutFindsInitialState(text: string, i: nat, delims: set<char>)
    requires i < |text| && Cut(Run(INIT, text[..i]), text[i], delims)
    ensures Run(INIT, text[..i]) == INIT.(previous := Run(INIT, text[..i]).previous)
  {
    RunSane(INIT, text[..i]);
  }

  /** Every part of a split is trimmed and uncut, and all but the last end at top level. */
  lemma {:induction false} SplitGood(text: string, delims: set<char>)
    requires Plain(delims)
    ensures GoodParts(Split(text, delims), delims)
    ensures NoLine(INIT, text) ==> forall p | p in Split(text, delims) :: !EndsInLineComment(p)
  {
    assert [] + text == text;
    SplitFromGood(INIT, [], text, delims);
  }

  lemma {:induction false} FilterGood(parts: seq<string>, keep: string -> bool, delims: set<char>)
    requires GoodParts(parts, delims)
    ensures GoodParts(Filter(parts, keep), delims)
    ensures forall p | p in Filter(parts, keep) :: p in parts && keep(p)
  {
    if parts != [] {
      FilterGood(parts[1..], keep, delims);
      var rest := Filter(parts[1..], keep);
      if |parts| == 1 { assert rest == []; }
      if rest != [] { assert rest[0] in parts[1..]; }
    }
  }

  // ----- splitting a joined text

  lemma {:induction false} ScanPart(s: Scan, segment: string, p: string, rest: string, delims: set<char>)
    requires NoCut(s, p, delims)
    ensures SplitFrom(s, segment, p + rest, delims) == SplitFrom(Run(s, p), segment + p, rest, delims)
    decreases |p|
  {
    if p == [] {
      assert p + rest == rest && segment + p == segment;
    } else {
      assert (p + rest)[1..] == p[1..] + rest;
      assert segment + p == (segment + [p[0]]) + p[1..];
      ScanPart(Step(s, p[0]), segment + [p[0]], p[1..], rest, delims);
    }
  }

  lemma {:induction false} NoCutBlanks(s: Scan, w: string, delims: set<char>)
    requires Plain(delims) && AllSpace(w)
    ensures NoCut(s, w, delims)
    decreases |w|
  {
    if w != [] {
      assert IsSpace(w[0]);
      NoCutBlanks(Step(s, w[0]), w[1..], delims);
    }
  }

  lemma {:induction false} NoCutInLine(s: Scan, w: string, delims: set<char>)
    requires s.line && '\n' !in w
    ensures NoCut(s, w, delims)
    decreases |w|
  {
    if w != [] { NoCutInLine(Step(s, w[0]), w[1..], delims); }
  }

  /** However the text goes on, the segment read so far begins the next part. */
  lemma {:induction false} FirstPart(s: Scan, segment: string, text: string, delims: set<char>) returns (more: string)
    requires Trim(segment) != [] && forall more :: Trim(segment + more) != []
    ensures var parts := SplitFrom(s, segment, text, delims); |parts| > 0 && parts[0] == Trim(segment + more)
    decreases |text|
  {
    more := [];
    assert segment + [] == segment;
    if text != [] && !Cut(s, text[0], delims) {
      forall more ensures Trim(segment + [text[0]] + more) != [] {
        assert segment + [text[0]] + more == segment + ([text[0]] + more);
      }
      assert segment + [text[0]] + [] == segment + [text[0]];
      var m := FirstPart(Step(s, text[0]), segment + [text[0]], text[1..], delims);
      more := [text[0]] + m;
      assert segment + [text[0]] + m == segment + more;
    }
  }

  lemma LongerThanPart(lead: string, p: string, tail: string, i: nat)
    requires AllSpace(lead) && Trimmed(p) && i < |tail| && !IsSpace(tail[i])
    ensures |Trim(lead + p + tail)| > |p|
  {
    assert lead + p + tail == lead + (p + tail);
    TrimStartBlanks(lead, p + tail);
    TrimEndKeeps(p + tail, |p| + i);
  }

  lemma SwallowedScan(s: Scan, lead: string, p: string, sep: string, at: nat, rest: string, delims: set<char>)
    requires Plain(delims) && Separator(sep, at, delims) && Neutral(s)
    requires GoodPart(p, delims) && EndsInLineComment(p)
    ensures SplitFrom(s, lead, p + sep + rest, delims) == SplitFrom(Run(s, p + sep), lead + p + sep, rest, delims)
  {
    NeutralAsInitial(s, p, delims);
    NoCutAppend(s, p, sep, delims);
    assert '\n' !in sep;
    NoCutInLine(Run(s, p), sep, delims);
    ScanPart(s, lead, p + sep, rest, delims);
    assert lead + (p + sep) == lead + p + sep;
  }

  lemma SwallowedDelimiter(s: Scan, lead: string, p: string, sep: string, at: nat, rest: string, delims: set<char>)
    requires Plain(delims) && Separator(sep, at, delims) && AllSpace(lead) && Neutral(s)
    requires GoodPart(p, delims) && EndsInLineComment(p)
    ensures var parts := SplitFrom(s, lead, p + sep + rest, delims); parts != [] && parts[0] != p
  {
    SwallowedScan(s, lead, p, sep, at, rest, delims);
    var segment := lead + p + sep;
    forall more ensures |Trim(segment + more)| > |p| {
      assert segment + more == lead + p + (sep + more);
      LongerThanPart(lead, p, sep + more, at);
    }
    assert segment + [] == segment;
    var more := FirstPart(Run(s, p + sep), segment, rest, delims);
    assert parts: SplitFrom(s, lead, p + sep + rest, delims)[0] == Trim(segment + more);
  }

  lemma CleanPart(s: Scan, lead: string, p: string, pre: string, rest: string, delims: set<char>)
    requires Plain(delims) && AllSpace(pre) && AllSpace(lead) && Neutral(s) && rest != [] && rest[0] in delims
    requires GoodPart(p, delims) && Closed(Run(INIT, p)) && !EndsInLineComment(p)
    ensures var u := Run(s, p + pre); Closed(u) && !u.line
    ensures var u := Run(s, p + pre);
      SplitFrom(s, lead, p + pre + rest, delims) == [p] + SplitFrom(Step(u, rest[0]), [], rest[1..], delims)
  {
    PartThenBlanks(s, p, pre, delims);
    ScanPart(s, lead, p + pre, rest, delims);
    assert lead + (p + pre) == lead + p + pre;
    TrimAround(lead, p, pre);
    CutHere(Run(s, p + pre), lead + (p + pre), p, rest, delims);
  }

  lemma PartThenBlanks(s: Scan, p: string, pre: string, delims: set<char>)
    requires Plain(delims) && AllSpace(pre) && Neutral(s)
    requires GoodPart(p, delims) && Closed(Run(INIT, p)) && !EndsInLineComment(p)
    ensures NoCut(s, p + pre, delims)
    ensures var u := Run(s, p + pre); Closed(u) && !u.line
  {
    NeutralAsInitial(s, p, delims);
    NoCutAppend(s, p, pre, delims);
    NoCutBlanks(Run(s, p), pre, delims);
    RunAppend(s, p, pre);
    NeutralButSlash(Run(s, p), pre);
  }

  lemma CutHere(u: Scan, segment: string, p: string, rest: string, delims: set<char>)
    requires Closed(u) && !u.line && rest != [] && rest[0] in delims && Trim(segment) == p != []
    ensures SplitFrom(u, segment, rest, delims) == [p] + SplitFrom(Step(u, rest[0]), [], rest[1..], delims)
  {
  }

  lemma CleanDelimiter(s: Scan, lead: string, p: string, sep: string, at: nat, rest: string, delims: set<char>)
    returns (s': Scan)
    requires Plain(delims) && Separator(sep, at, delims) && AllSpace(lead) && Neutral(s)
    requires GoodPart(p, delims) && Closed(Run(INIT, p)) && !EndsInLineComment(p)
    ensures Neutral(s')
    ensures SplitFrom(s, lead, p + sep + rest, delims) == [p] + SplitFrom(s', sep[at + 1..], rest, delims)
  {
    var pre, d, post := sep[..at], sep[at], sep[at + 1..];
    var tail := [d] + (post + rest);
    assert p + sep + rest == p + pre + tail;
    CleanPart(s, lead, p, pre, tail, delims);
    var v := Step(Run(s, p + pre), d);
    assert tail[1..] == post + rest;
    NeutralOverBlanks(v, post);
    NoCutBlanks(v, post, delims);
    ScanPart(v, [], post, rest, delims);
    assert [] + post == post;
    s' := Run(v, post);
  }

  lemma {:induction false} NeutralButSlash(s: Scan, w: string)
    requires Closed(s) && !s.line && AllSpace(w)
    ensures Closed(Run(s, w)) && !Run(s, w).line
    decreases |w|
  {
    if w != [] {
      assert IsSpace(w[0]);
      NeutralButSlash(Step(s, w[0]), w[1..]);
    }
  }

  predicate NoSwallow(parts: seq<string>)
  {
    forall i | 0 <= i < |parts| - 1 :: !EndsInLineComment(parts[i])
  }

  lemma {:induction false} ResplitFrom(s: Scan, lead: string, parts: seq<string>, sep: string, at: nat,
                                       delims: set<char>)
    requires Plain(delims) && Separator(sep, at, delims) && AllSpace(lead) && Neutral(s) && GoodParts(parts, delims)
    ensures SplitFrom(s, lead, Join(parts, sep), delims) == parts <==> NoSwallow(parts)
    decreases |parts|
  {
    if parts == [] {
      TrimBlanks(lead);
    } else {
      var p := parts[0];
      if |parts| == 1 {
        NeutralAsInitial(s, p, delims);
        ScanPart(s, lead, p, [], delims);
        assert p + [] == p && lead + p + [] == lead + p;
        TrimAround(lead, p, []);
      } else {
        var rest := Join(parts[1..], sep);
        assert parts == [p] + parts[1..];
        if EndsInLineComment(p) {
          SwallowedDelimiter(s, lead, p, sep, at, rest, delims);
        } else {
          var s' := CleanDelimiter(s, lead, p, sep, at, rest, delims);
          ResplitFrom(s', sep[at + 1..], parts[1..], sep, at, delims);
          NoSwallowTail(parts);
        }
      }
    }
  }

  lemma NoSwallowTail(parts: seq<string>)
    requires |parts| > 1 && !EndsInLineComment(parts[0])
    ensures NoSwallow(parts) <==> NoSwallow(parts[1..])
  {
    if NoSwallow(parts[1..]) {
      forall i | 0 <= i < |parts| - 1 ensures !EndsInLineComment(parts[i]) {
        if i > 0 { assert parts[i] == parts[1..][i - 1]; }
      }
    }
    if NoSwallow(parts) {
      forall i | 0 <= i < |parts[1..]| - 1 ensures !EndsInLineComment(parts[1..][i]) {
        assert parts[1..][i] == parts[i + 1];
      }
    }
  }

  /** Split, filter, join, split again: the kept parts come back, in order and unchanged, exactly
      when none of them but the last ends inside a line comment. */
  lemma {:induction false} ResplitExactly(text: string, keep: string -> bool, sep: string, at: nat, delims: set<char>)
    requires Plain(delims) && Separator(sep, at, delims)
    ensures var kept := Filter(Split(text, delims), keep);
      Split(Join(kept, sep), delims) == kept <==> NoSwallow(kept)
  {
    SplitGood(text, delims);
    FilterGood(Split(text, delims), keep, delims);
    ResplitFrom(INIT, [], Filter(Split(text, delims), keep), sep, at, delims);
  }

  function FilterBody(text: string, keep: string -> bool, sep: string, delims: set<char>): string
  {
    Join(Filter(Split(text, delims), keep), sep)
  }

  lemma {:induction false} FilterAll(parts: seq<string>, keep: string -> bool)
    requires forall p | p in parts :: keep(p)
    ensures Filter(parts, keep) == parts
  {
    if parts != [] {
      assert parts == [parts[0]] + parts[1..];
      FilterAll(parts[1..], keep);
    }
  }

  lemma {:induction false} FilterKeeps(parts: seq<string>, keep: string -> bool)
    ensures forall p | p in Filter(parts, keep) :: p in parts
  {
    if parts != [] { FilterKeeps(parts[1..], keep); }
  }

  /** Text in which no line comment ever starts: filtering it twice is filtering it once. */
  lemma {:induction false} FilterBodyIdempotent(text: string, keep: string -> bool, sep: string, at: nat,
                                                delims: set<char>)
    requires Plain(delims) && Separator(sep, at, delims) && NoLine(INIT, text)
    ensures var once := FilterBody(text, keep, sep, delims);
      && Split(once, delims) == Filter(Split(text, delims), keep)
      && FilterBody(once, keep, sep, delims) == once
  {
    var kept := Filter(Split(text, delims), keep);
    SplitGood(text, delims);
    FilterGood(Split(text, delims), keep, delims);
    assert forall i | 0 <= i < |kept| :: kept[i] in kept;
    ResplitExactly(text, keep, sep, at, delims);
    FilterAll(kept, keep);
  }

  // ----- a part that ends in a line comment

  lemma ScanNext(s: Scan, c: char, rest: string, delims: set<char>)
    ensures Run(s, [c] + rest) == Run(Step(s, c), rest)
    ensures NoCut(s, [c] + rest, delims) <==> !Cut(s, c, delims) && NoCut(Step(s, c), rest, delims)
  {
    assert ([c] + rest)[1..] == rest;
  }

  lemma CommentedArm()
    ensures EndsInLineComment("a//")
    ensures NoCut(INIT, "a//\n", {'|'}) && Closed(Run(INIT, "a//\n")) && !EndsInLineComment("a//\n")
  {
    var s1 := Step(INIT, 'a');
    var s2 := Step(s1, '/');
    var s3 := Step(s2, '/');
    ScanNext(INIT, 'a', "//\n", {'|'});
    ScanNext(s1, '/', "/\n", {'|'});
    ScanNext(s2, '/', "\n", {'|'});
    ScanNext(s3, '\n', "", {'|'});
    RunExtend(INIT, "a//", '\n');
  }

  lemma OnePart(s: Scan, q: string, delims: set<char>)
    requires Plain(delims) && Neutral(s) && GoodPart(q, delims)
    ensures SplitFrom(s, [], q, delims) == [q]
  {
    NeutralAsInitial(s, q, delims);
    ScanPart(s, [], q, [], delims);
    assert q + [] == q && [] + q == q;
    TrimAround([], q, []);
    assert [] + q + [] == q;
  }

  lemma FirstOfTwo(p: string, w: string, segment: string, rest: string, delims: set<char>)
    requires Trimmed(p) && AllSpace(w) && segment == p + w && rest != [] && rest[0] in delims
    requires NoCut(INIT, segment, delims) && Closed(Run(INIT, segment)) && !EndsInLineComment(segment)
    ensures Split(segment + rest, delims) == [p] + SplitFrom(Step(Run(INIT, segment), rest[0]), [], rest[1..], delims)
  {
    UncutStart(segment, rest, delims);
    assert [] + p + w == segment;
    TrimAround([], p, w);
    CutHere(Run(INIT, segment), segment, p, rest, delims);
  }

  lemma UncutStart(segment: string, rest: string, delims: set<char>)
    requires NoCut(INIT, segment, delims)
    ensures Split(segment + rest, delims) == SplitFrom(Run(INIT, segment), segment, rest, delims)
  {
    ScanPart(INIT, [], segment, rest, delims);
    assert [] + segment == segment;
  }

  lemma NeutralAfterCut(u: Scan, d: char, delims: set<char>)
    requires Plain(delims) && d in delims && Closed(u) && !u.line
    ensures Neutral(Step(u, d))
  {
  }

  /** Two uncut parts with a delimiter between them are split there. */
  lemma TwoParts(p: string, w: string, segment: string, d: char, q: string, delims: set<char>)
    requires Plain(delims) && d in delims && Trimmed(p) && AllSpace(w) && segment == p + w && GoodPart(q, delims)
    requires NoCut(INIT, segment, delims) && Closed(Run(INIT, segment)) && !EndsInLineComment(segment)
    ensures Split(segment + ([d] + q), delims) == [p, q]
  {
    var rest := [d] + q;
    assert rest[1..] == q;
    FirstOfTwo(p, w, segment, rest, delims);
    NeutralAfterCut(Run(INIT, segment), d, delims);
    OnePart(Step(Run(INIT, segment), d), q, delims);
  }

  lemma CommentedArms()
    ensures Split("a//\n|b", {'|'}) == ["a//", "b"]
  {
    CommentedArm();
    assert "a//" + "\n" == "a//\n" && "a//\n|b" == "a//\n" + (['|'] + "b");
    ScanNext(INIT, 'b', "", {'|'});
    TwoParts("a//", "\n", "a//\n", '|', "b", {'|'});
  }

  /** The assumption is needed: keeping both parts of this text and joining them gives a text that does
      not split into them again, because the first ends inside a line comment. */
  lemma {:induction false} LineCommentSwallows(keep: string -> bool)
    requires keep("a//") && keep("b")
    ensures var kept := Filter(Split("a//\n|b", {'|'}), keep);
      kept == ["a//", "b"] && Split(Join(kept, " | "), {'|'}) != kept
  {
    CommentedArms();
    FilterAll(["a//", "b"], keep);
    CommentedArm();
    ResplitFails("a//\n|b", keep, " | ", 1, {'|'});
  }

  lemma ResplitFails(text: string, keep: string -> bool, sep: string, at: nat, delims: set<char>)
    requires Plain(delims) && Separator(sep, at, delims)
    requires var kept := Filter(Split(text, delims), keep); |kept| > 1 && EndsInLineComment(kept[0])
    ensures var kept := Filter(Split(text, delims), keep); Split(Join(kept, sep), delims) != kept
  {
    Swallowed(Filter(Split(text, delims), keep));
    ResplitExactly(text, keep, sep, at, delims);
  }

  lemma Swallowed(parts: seq<string>)
    requires |parts| > 1 && EndsInLineComment(parts[0])
    ensures !NoSwallow(parts)
  {
  }
}
