/** `prune_unused_type_imports`: drops the imports of single types that the filtered type no longer
    mentions. */
module Imports {
  import opened Text
  import opened Scanner
  import opened Resplit
  import opened Wrappers

  const IMPORT := "import type {"
  const FROM := "} from "

  // ----- lines

  function WithoutReturn(line: string): string
  {
    if line != [] && line[|line| - 1] == '\r' then line[..|line| - 1] else line
  }

  /** `str::lines`: a carriage return goes with the newline that ends a line. */
  function Lines(s: string): seq<string>
    decreases |s|
  {
    if s == [] then []
    else
      var i := FirstIndex(s, '\n');
      if i == |s| then [s] else [WithoutReturn(s[..i])] + Lines(s[i + 1..])
  }

  /** `parse_imported_type_name`. */
  function ImportedName(line: string): Option<string>
  {
    var t := Trim(line);
    if !(IMPORT <= t) then None
    else
      var rest := t[|IMPORT|..];
      var at := FindFrom(rest, FROM, 0);
      if at.None? then None
      else
        var name := Trim(rest[..at.value]);
        if name == [] || ',' in name || Contains(name, " as ") then None else Some(name)
  }

  predicate Used(line: string, scope: string)
  {
    var name := ImportedName(line);
    name.None? || Contains(scope, name.value)
  }

  function Ending(content: string): string
  {
    if content != [] && content[|content| - 1] == '\n' then "\n" else ""
  }

  function KeepLines(content: string, keep: string -> bool): string
  {
    Join(Filter(Lines(content), keep), "\n") + Ending(content)
  }

  function PruneImports(content: string, scope: string): string { KeepLines(content, l => Used(l, scope)) }

  lemma FilterStep(all: seq<string>, i: nat, keep: string -> bool)
    requires i < |all|
    ensures Filter(all[i..], keep)
         == if keep(all[i]) then [all[i]] + Filter(all[i + 1..], keep) else Filter(all[i + 1..], keep)
  {
    assert all[i..][1..] == all[i + 1..];
  }

  method PruneUnusedTypeImports(content: string, scope: string) returns (rewritten: string)
    ensures rewritten == PruneImports(content, scope)
  {
    var lines := UsedOf(Lines(content), scope);
    rewritten := Join(lines, "\n");
    if content != [] && content[|content| - 1] == '\n' { rewritten := rewritten + "\n"; }
  }

  method UsedOf(all: seq<string>, scope: string) returns (lines: seq<string>)
    ensures lines == Filter(all, l => Used(l, scope))
  {
    ghost var keep := l => Used(l, scope);
    lines := [];
    for i := 0 to |all|
      invariant lines + Filter(all[i..], keep) == Filter(all, keep)
    {
      FilterStep(all, i, keep);
      assert lines + ([all[i]] + Filter(all[i + 1..], keep)) == lines + [all[i]] + Filter(all[i + 1..], keep);
      if Used(all[i], scope) { lines := lines + [all[i]]; }
    }
  }

  // ----- a file whose imports come first

  /** A text made of whole lines. */
  predicate WholeLines(s: string) { s == [] || s[|s| - 1] == '\n' }

  /** The whole lines before position `n`. */
  function LinesBefore(s: string, n: nat): (head: string)
    requires n <= |s|
    ensures |head| <= n && head == s[..|head|]
  {
    s[..LastIndex(s[..n], '\n') + 1]
  }

  lemma LinesBeforeWhole(s: string, n: nat)
    requires n <= |s|
    ensures WholeLines(LinesBefore(s, n))
  {
    LastIndexIsLast(s[..n], '\n');
  }

  /** Its lines that are kept, each with its newline. */
  function KeptLines(head: string, keep: string -> bool): string
    decreases |head|
  {
    var i := FirstIndex(head, '\n');
    if i == |head| then head
    else if keep(head[..i]) then head[..i] + ("\n" + KeptLines(head[i + 1..], keep))
    else KeptLines(head[i + 1..], keep)
  }

  lemma LinesNext(line: string, rest: string)
    requires '\n' !in line && '\r' !in line
    ensures Lines(line + ("\n" + rest)) == [line] + Lines(rest)
    ensures rest != [] ==> Ending(line + ("\n" + rest)) == Ending(rest)
  {
    var s := line + ("\n" + rest);
    FirstIndexAt(line, '\n', rest);
    assert s[..|line|] == line && s[|line| + 1..] == rest && WithoutReturn(line) == line;
  }

  lemma KeptLinesNext(line: string, rest: string, keep: string -> bool)
    requires '\n' !in line
    ensures KeptLines(line + ("\n" + rest), keep)
         == if keep(line) then line + ("\n" + KeptLines(rest, keep)) else KeptLines(rest, keep)
  {
    var s := line + ("\n" + rest);
    FirstIndexAt(line, '\n', rest);
    assert s[..|line|] == line && s[|line| + 1..] == rest;
  }

  /** The first line of a text, and what follows its newline. */
  lemma FirstLine(s: string) returns (line: string, rest: string)
    requires '\n' in s
    ensures s == line + ("\n" + rest) && '\n' !in line && |rest| < |s|
    ensures WholeLines(s) ==> WholeLines(rest)
  {
    var i := FirstIndex(s, '\n');
    assert s[..|s|] == s;
    line, rest := s[..i], s[i + 1..];
    assert rest != [] ==> rest[|rest| - 1] == s[|s| - 1];
  }

  lemma JoinNext(line: string, lines: seq<string>)
    requires lines != []
    ensures Join([line] + lines, "\n") == line + "\n" + Join(lines, "\n")
  {
    assert ([line] + lines)[1..] == lines;
  }

  lemma OnlyLine(s: string)
    requires s != [] && '\n' !in s
    ensures Lines(s) == [s] && Ending(s) == ""
  {
    assert s[FirstIndex(s, '\n')..] == [];
    assert s[|s| - 1] in s;
  }

  lemma {:induction false} LinesJoined(s: string)
    requires '\r' !in s && s != []
    ensures Lines(s) != [] && Join(Lines(s), "\n") + Ending(s) == s
    decreases |s|
  {
    if '\n' !in s {
      OnlyLine(s);
    } else {
      var line, rest := FirstLine(s);
      if rest == [] { LastLine(line); } else { LinesJoined(rest); LineJoined(line, rest); }
    }
  }

  lemma LastLine(line: string)
    requires '\n' !in line && '\r' !in line
    ensures Lines(line + ("\n" + [])) == [line] && Ending(line + ("\n" + [])) == "\n"
  {
    LinesNext(line, []);
    assert [line] + [] == [line];
  }

  lemma LineJoined(line: string, rest: string)
    requires '\n' !in line && '\r' !in line && Lines(rest) != [] && Join(Lines(rest), "\n") + Ending(rest) == rest
    requires rest != []
    ensures var s := line + ("\n" + rest); Lines(s) != [] && Join(Lines(s), "\n") + Ending(s) == s
  {
    LinesNext(line, rest);
    JoinNext(line, Lines(rest));
    Regroup(line, Join(Lines(rest), "\n"), Ending(rest));
  }

  lemma FilterNext(line: string, lines: seq<string>, keep: string -> bool)
    ensures Filter([line] + lines, keep) == if keep(line) then [line] + Filter(lines, keep) else Filter(lines, keep)
  {
    assert ([line] + lines)[1..] == lines;
  }

  lemma KeepLinesNext(line: string, rest: string, keep: string -> bool)
    requires '\n' !in line && '\r' !in line && rest != [] && Filter(Lines(rest), keep) != []
    ensures Filter(Lines(line + ("\n" + rest)), keep) != []
    ensures KeepLines(line + ("\n" + rest), keep)
         == if keep(line) then line + "\n" + KeepLines(rest, keep) else KeepLines(rest, keep)
  {
    LinesNext(line, rest);
    FilterNext(line, Lines(rest), keep);
    if keep(line) {
      JoinNext(line, Filter(Lines(rest), keep));
      assert line + "\n" + Join(Filter(Lines(rest), keep), "\n") + Ending(rest) == line + "\n" + KeepLines(rest, keep);
    }
  }

  lemma KeepAllLines(rest: string, keep: string -> bool)
    requires '\r' !in rest && rest != [] && forall l | l in Lines(rest) :: keep(l)
    ensures Filter(Lines(rest), keep) != [] && KeepLines(rest, keep) == rest
  {
    LinesJoined(rest);
    FilterAll(Lines(rest), keep);
  }

  /** Keeping lines goes through the whole lines in front and leaves the rest alone, if every line there
      is kept. */
  lemma {:induction false} KeepHead(head: string, rest: string, keep: string -> bool)
    requires '\r' !in head && '\r' !in rest && rest != [] && WholeLines(head)
    requires forall l | l in Lines(rest) :: keep(l)
    ensures Filter(Lines(head + rest), keep) != []
    ensures KeepLines(head + rest, keep) == KeptLines(head, keep) + rest
    decreases |head|
  {
    if head == [] {
      assert head + rest == rest && KeptLines(head, keep) + rest == rest;
      KeepAllLines(rest, keep);
    } else {
      assert head[|head| - 1] in head;
      var line, head' := FirstLine(head);
      assert forall c | c in line || c in head' :: c in head;
      KeepHead(head', rest, keep);
      KeepHeadNext(line, head', rest, keep);
    }
  }

  lemma KeepHeadNext(line: string, head: string, rest: string, keep: string -> bool)
    requires '\n' !in line && '\r' !in line && rest != []
    requires Filter(Lines(head + rest), keep) != [] && KeepLines(head + rest, keep) == KeptLines(head, keep) + rest
    ensures Filter(Lines(line + ("\n" + head) + rest), keep) != []
    ensures KeepLines(line + ("\n" + head) + rest, keep) == KeptLines(line + ("\n" + head), keep) + rest
  {
    Regroup(line, head, rest);
    KeepLinesNext(line, head + rest, keep);
    KeptLinesNext(line, head, keep);
    Regroup(line, KeptLines(head, keep), rest);
  }

  lemma Regroup(line: string, head: string, rest: string)
    ensures line + ("\n" + head) + rest == line + ("\n" + (head + rest))
    ensures line + "\n" + (head + rest) == line + "\n" + head + rest == line + ("\n" + (head + rest))
  {
  }

  lemma {:induction false} KeptLinesTwice(head: string, keep: string -> bool)
    requires WholeLines(head)
    ensures KeptLines(KeptLines(head, keep), keep) == KeptLines(head, keep)
    decreases |head|
  {
    if head != [] {
      assert head[|head| - 1] in head;
      var line, head' := FirstLine(head);
      KeptLinesTwice(head', keep);
      KeptLinesNext(line, head', keep);
      if keep(line) { KeptLinesNext(line, KeptLines(head', keep), keep); }
    }
  }

  lemma {:induction false} KeptLinesWhole(head: string, keep: string -> bool)
    requires WholeLines(head)
    ensures WholeLines(KeptLines(head, keep))
    ensures forall c | c in KeptLines(head, keep) :: c in head
    decreases |head|
  {
    if head != [] {
      assert head[|head| - 1] in head;
      var line, head' := FirstLine(head);
      KeptLinesWhole(head', keep);
      KeptLinesNext(line, head', keep);
    }
  }

  // ----- text without imports

  lemma Shift(before: string, a: string, x: string, b: string)
    ensures before + (a + x + b) == (before + a) + x + b
  {
  }

  lemma ImportsContain(line: string)
    requires ImportedName(line).Some?
    ensures Contains(line, IMPORT)
  {
    var w1, w2 := TrimParts(line);
    ContainedInside(w1, Trim(line), w2, IMPORT);
  }

  /** In text that mentions no type import every line is used. */
  lemma {:induction false} NoImportUsed(rest: string, scope: string)
    requires '\r' !in rest && !Contains(rest, IMPORT)
    ensures forall l | l in Lines(rest) :: Used(l, scope)
    decreases |rest|
  {
    if rest == [] {
    } else if '\n' !in rest {
      OnlyLine(rest);
      NotImported(rest, scope);
    } else {
      var line, later := FirstLine(rest);
      ApartLines(line, later);
      LinesNext(line, later);
      NotImported(line, scope);
      NoImportUsed(later, scope);
    }
  }

  lemma NotImported(line: string, scope: string)
    requires !Contains(line, IMPORT)
    ensures Used(line, scope)
  {
    if ImportedName(line).Some? { ImportsContain(line); }
  }

  lemma ApartLines(line: string, rest: string)
    requires !Contains(line + ("\n" + rest), IMPORT)
    ensures !Contains(line, IMPORT) && !Contains(rest, IMPORT)
  {
    if Contains(line, IMPORT) || Contains(rest, IMPORT) { ContainedInLines(line, rest, IMPORT); }
  }

  /** So pruning only goes through the lines in front of such a text. */
  lemma PruneFront(head: string, rest: string, scope: string)
    requires '\r' !in head && '\r' !in rest && rest != [] && WholeLines(head) && !Contains(rest, IMPORT)
    ensures PruneImports(head + rest, scope) == KeptLines(head, l => Used(l, scope)) + rest
  {
    NoImportUsed(rest, scope);
    KeepHead(head, rest, l => Used(l, scope));
  }

  /** And pruning again changes nothing. */
  lemma PruneFrontTwice(head: string, rest: string, scope: string)
    requires '\r' !in head && '\r' !in rest && rest != [] && WholeLines(head) && !Contains(rest, IMPORT)
    ensures PruneImports(PruneImports(head + rest, scope), scope) == PruneImports(head + rest, scope)
  {
    var keep := l => Used(l, scope);
    PruneFront(head, rest, scope);
    KeptLinesWhole(head, keep);
    KeptLinesTwice(head, keep);
    PruneFront(KeptLines(head, keep), rest, scope);
  }

  // ----- filtering mentions nothing new

  lemma EmittedInside(segment: string, text: string, p: string) returns (a: string, b: string)
    requires p in Emit(segment)
    ensures segment + text == a + p + b
  {
    a, b := TrimParts(segment);
    b := b + text;
  }

  lemma {:induction false} PartInside(s: Scan, segment: string, text: string, delims: set<char>, p: string)
    returns (a: string, b: string)
    requires p in SplitFrom(s, segment, text, delims)
    ensures segment + text == a + p + b
    decreases |text|
  {
    if p in Emit(segment) {
      a, b := EmittedInside(segment, text, p);
    } else if Cut(s, text[0], delims) {
      a, b := PartInside(Step(s, text[0]), [], text[1..], delims, p);
      Shift(segment + [text[0]], a, p, b);
      a := segment + [text[0]] + a;
      Rejoined(segment, text);
    } else {
      a, b := PartInside(Step(s, text[0]), segment + [text[0]], text[1..], delims, p);
      Rejoined(segment, text);
    }
  }

  lemma Rejoined(segment: string, text: string)
    requires text != []
    ensures segment + [text[0]] + text[1..] == segment + text
    ensures segment + [text[0]] + ([] + text[1..]) == segment + text
  {
  }

  /** A pattern that a join string cannot take part in. */
  ghost predicate Unjoined(pat: string, sep: string, at: nat)
  {
    && at < |sep| && sep[at] !in pat && (forall i | 0 <= i < |sep| && i != at :: sep[i] == ' ')
    && pat != [] && pat[0] != ' ' && pat[|pat| - 1] != ' '
  }

  lemma {:induction false} JoinContains(parts: seq<string>, sep: string, at: nat, pat: string)
    requires Unjoined(pat, sep, at) && Contains(Join(parts, sep), pat)
    ensures exists p :: p in parts && Contains(p, pat)
  {
    if |parts| > 1 {
      var p, later := parts[0], Join(parts[1..], sep);
      var w1, w2 := sep[..at], sep[at + 1..];
      assert p + sep + later == (p + w1) + [sep[at]] + (w2 + later);
      ContainedBeside(p + w1, sep[at], w2 + later, pat);
      if Contains(p + w1, pat) {
        assert [] + p + w1 == p + w1;
        ContainedBetween([], p, w1, pat);
        assert p in parts;
      } else {
        assert w2 + later + [] == w2 + later;
        ContainedBetween(w2, later, [], pat);
        JoinContains(parts[1..], sep, at, pat);
      }
    } else if |parts| == 1 {
      assert parts[0] in parts;
    }
  }

  lemma FilterBodyContains(text: string, keep: string -> bool, sep: string, at: nat, delims: set<char>, pat: string)
    requires Unjoined(pat, sep, at) && Contains(FilterBody(text, keep, sep, delims), pat)
    ensures Contains(text, pat)
  {
    JoinContains(Filter(Split(text, delims), keep), sep, at, pat);
    var p :| p in Filter(Split(text, delims), keep) && Contains(p, pat);
    FilterKeeps(Split(text, delims), keep);
    var a, b := PartInside(INIT, [], text, delims, p);
    assert [] + text == text;
    ContainedInside(a, p, b, pat);
  }

  lemma {:induction false} ContainsChar(s: string, c: char)
    ensures Contains(s, [c]) <==> c in s
  {
    if s != [] {
      assert [c] <= s <==> s[0] == c;
      ContainsChar(s[1..], c);
      assert s == [s[0]] + s[1..];
    }
  }

  lemma FilterBodyChar(text: string, keep: string -> bool, sep: string, at: nat, delims: set<char>, c: char)
    requires Unjoined([c], sep, at) && c in FilterBody(text, keep, sep, delims)
    ensures c in text
  {
    ContainsChar(FilterBody(text, keep, sep, delims), c);
    FilterBodyContains(text, keep, sep, at, delims, [c]);
    ContainsChar(text, c);
  }

  lemma ContainedInLines(line: string, rest: string, pat: string)
    requires Contains(line, pat) || Contains(rest, pat)
    ensures Contains(line + ("\n" + rest), pat)
  {
    if Contains(line, pat) {
      ContainedInside([], line, "\n" + rest, pat);
      assert [] + line + ("\n" + rest) == line + ("\n" + rest);
    } else {
      ContainedInside(line + "\n", rest, [], pat);
      assert line + "\n" + rest + [] == line + ("\n" + rest);
    }
  }

  lemma OnOneLine(line: string, rest: string, pat: string)
    requires '\n' !in pat && Contains(line + ("\n" + rest), pat)
    ensures Contains(line, pat) || Contains(rest, pat)
  {
    assert line + ("\n" + rest) == line + ['\n'] + rest;
    ContainedBeside(line, '\n', rest, pat);
  }

  /** Keeping lines makes nothing appear that stood on no single line. */
  lemma {:induction false} KeptContains(head: string, keep: string -> bool, pat: string)
    requires WholeLines(head) && '\n' !in pat && pat != [] && Contains(KeptLines(head, keep), pat)
    ensures Contains(head, pat)
    decreases |head|
  {
    if head != [] {
      assert head[|head| - 1] in head;
      var line, head' := FirstLine(head);
      KeptLinesNext(line, head', keep);
      if keep(line) { OnOneLine(line, KeptLines(head', keep), pat); }
      if Contains(KeptLines(head', keep), pat) { KeptContains(head', keep, pat); }
      ContainedInLines(line, head', pat);
    }
  }

  // ----- what lines and imports are

  /** `raw` are the lines of `s` between its newlines; behind a final newline no line begins. */
  ghost predicate LinesOf(s: string, raw: seq<string>, ended: bool)
  {
    && (forall l | l in raw :: '\n' !in l)
    && (ended ==> raw != []) && (!ended && raw != [] ==> raw[|raw| - 1] != "")
    && s == Join(raw, "\n") + if ended then "\n" else ""
  }

  lemma OneLine(s: string)
    requires s != [] && '\n' !in s
    ensures LinesOf(s, [s], false)
  {
    assert s + "" == s;
  }

  lemma OneMoreLine(s: string, line: string, rest: string, raw: seq<string>, later: seq<string>, ended: bool)
    requires '\n' !in line && LinesOf(rest, later, ended) && s == line + ("\n" + rest) && raw == [line] + later
    ensures LinesOf(s, raw, later == [] || ended)
  {
    assert raw[1..] == later;
    if later == [] {
      assert s == line + "\n";
    } else {
      var end := if ended then "\n" else "";
      assert line + ("\n" + (Join(later, "\n") + end)) == line + "\n" + Join(later, "\n") + end;
      assert raw[|raw| - 1] == later[|later| - 1];
    }
  }

  lemma CutAtNewline(s: string, i: nat)
    requires i < |s| && s[i] == '\n'
    ensures s == s[..i] + ("\n" + s[i + 1..])
  {
  }

  /** The lines are the raw ones, each without the carriage return before its newline. */
  predicate WithoutReturns(lines: seq<string>, raw: seq<string>, ended: bool)
  {
    && |lines| == |raw|
    && forall i | 0 <= i < |raw| :: lines[i] == if i < |raw| - 1 || ended then WithoutReturn(raw[i]) else raw[i]
  }

  lemma WithoutReturnsNext(line: string, lines: seq<string>, later: seq<string>, ended: bool)
    requires WithoutReturns(lines, later, ended)
    ensures WithoutReturns([WithoutReturn(line)] + lines, [line] + later, later == [] || ended)
  {
  }

  /** `raw` are the lines before their carriage returns are taken off. */
  ghost predicate RawLines(s: string, raw: seq<string>, ended: bool)
  {
    LinesOf(s, raw, ended) && WithoutReturns(Lines(s), raw, ended)
  }

  lemma RawTextNext(s: string, i: nat, later: seq<string>, more: bool)
    requires i == FirstIndex(s, '\n') && i < |s| && LinesOf(s[i + 1..], later, more)
    ensures LinesOf(s, [s[..i]] + later, later == [] || more)
  {
    CutAtNewline(s, i);
    var line, rest := s[..i], s[i + 1..];
    OneMoreLine(s, line, rest, [line] + later, later, more);
  }

  lemma RawShapeNext(s: string, i: nat, later: seq<string>, more: bool)
    requires i == FirstIndex(s, '\n') && i < |s| && WithoutReturns(Lines(s[i + 1..]), later, more)
    ensures WithoutReturns(Lines(s), [s[..i]] + later, later == [] || more)
  {
    WithoutReturnsNext(s[..i], Lines(s[i + 1..]), later, more);
  }

  lemma RawLinesLast(s: string)
    requires s != [] && '\n' !in s
    ensures RawLines(s, [s], false)
  {
    OneLine(s);
    assert s[FirstIndex(s, '\n')..] == [];
  }

  lemma {:induction false} LinesAre(s: string) returns (raw: seq<string>, ended: bool)
    ensures RawLines(s, raw, ended)
    decreases |s|
  {
    var i := FirstIndex(s, '\n');
    if s == [] {
      raw, ended := [], false;
    } else if i == |s| {
      raw, ended := [s], false;
      assert s[..i] == s;
      RawLinesLast(s);
    } else {
      var later, more := LinesAre(s[i + 1..]);
      RawTextNext(s, i, later, more);
      RawShapeNext(s, i, later, more);
      raw, ended := [s[..i]] + later, later == [] || more;
    }
  }

  /** Blanks around a text that neither begins nor ends with one. */
  ghost predicate Stripped(s: string, t: string)
  {
    && (exists a, b :: AllSpace(a) && AllSpace(b) && s == a + t + b)
    && (t == "" || Trimmed(t))
  }

  lemma TrimIs(s: string)
    ensures Stripped(s, Trim(s))
  {
    var a, b := TrimParts(s);
    assert s == a + Trim(s) + b;
  }

  /** The line imports this one type: `import type {`, the name with blanks around it, and the first
      `} from ` behind it. */
  ghost predicate ImportsOne(line: string, name: string)
  {
    exists x, rest :: ImportsWith(line, name, x, rest)
  }

  ghost predicate ImportsWith(line: string, name: string, x: string, rest: string)
  {
    && Stripped(line, "import type {" + (x + "} from " + rest))
    && (forall j | 0 <= j < |x| :: !OccursAt(x + "} from " + rest, "} from ", j))
    && Stripped(x, name) && name != "" && ',' !in name && !Contains(name, " as ")
  }

  lemma StrippedUnique(s: string, t: string)
    requires Stripped(s, t)
    ensures Trim(s) == t
  {
    var a, b :| AllSpace(a) && AllSpace(b) && s == a + t + b;
    if t == "" {
      assert s == a + b;
      TrimBlanks(s);
    } else {
      assert s == a + (t + b);
      TrimStartBlanks(a, t + b);
      TrimEndBlanks(t, b);
    }
  }

  lemma FoundFirst(x: string, rest: string)
    requires forall j | 0 <= j < |x| :: !OccursAt(x + FROM + rest, FROM, j)
    ensures FindFrom(x + FROM + rest, FROM, 0) == Some(|x|)
  {
    var s := x + FROM + rest;
    assert s[|x|..|x| + |FROM|] == FROM;
    FindIs(s, FROM, |x|);
  }

  lemma ReadIsOne(line: string, name: string) returns (x: string, rest: string)
    requires ImportedName(line) == Some(name)
    ensures ImportsWith(line, name, x, rest)
  {
    var t := Trim(line);
    TrimIs(line);
    var behind := t[|IMPORT|..];
    var at := FindFrom(behind, FROM, 0).value;
    x, rest := behind[..at], behind[at + |FROM|..];
    assert behind == x + FROM + rest;
    assert t == IMPORT + behind;
    TrimIs(x);
  }

  lemma OneIsRead(line: string, name: string, x: string, rest: string)
    requires ImportsWith(line, name, x, rest)
    ensures ImportedName(line) == Some(name)
  {
    var behind := x + FROM + rest;
    StrippedUnique(line, IMPORT + behind);
    StrippedUnique(x, name);
    FoundFirst(x, rest);
    assert (IMPORT + behind)[|IMPORT|..] == behind && behind[..|x|] == x;
  }

  /** The name read off a line is the one type it imports, if it imports one. */
  lemma {:induction false} ImportedNameIs(line: string, name: string)
    ensures ImportedName(line) == Some(name) <==> ImportsOne(line, name)
  {
    if ImportedName(line) == Some(name) {
      var x, rest := ReadIsOne(line, name);
    }
    if x, rest :| ImportsWith(line, name, x, rest) { OneIsRead(line, name, x, rest); }
  }

  lemma {:induction false} OccursIn(s: string, pat: string)
    ensures Contains(s, pat) <==> exists a, b :: s == a + pat + b
  {
    if Contains(s, pat) {
      var i := WhereContained(s, pat);
      assert s == s[..i] + pat + s[i + |pat|..];
    }
    if a, b :| s == a + pat + b { ContainedAt(s, pat, |a|); }
  }

  /** A line is dropped exactly when the one type it imports occurs nowhere in the scope. */
  lemma {:induction false} DroppedIff(line: string, scope: string)
    ensures Used(line, scope) <==> forall name | ImportsOne(line, name) :: exists a, b :: scope == a + name + b
  {
    var name := ImportedName(line);
    if name.Some? {
      ImportedNameIs(line, name.value);
      OccursIn(scope, name.value);
    }
    forall n | ImportsOne(line, n) ensures name == Some(n) { ImportedNameIs(line, n); }
  }
}
