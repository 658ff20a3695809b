/** `filter_experimental_type_fields_ts_contents`: the brace span of the type is found, the fields between
    the braces are filtered, the file is put together again and unused imports are dropped. */
module TypeFile {
  import opened Text
  import opened Scanner
  import opened Resplit
  import opened TypeAlias
  import opened Imports
  import opened TypeFields
  import opened Wrappers

  const INTERFACE := "export interface"

  /** Where the mark that starts the type sits, and its length: the first '=', or else the first
      "export interface". */
  function Mark(content: string): (r: Option<(nat, nat)>)
    ensures r.Some? ==> r.value.0 + r.value.1 <= |content|
  {
    var eq := FirstIndex(content, '=');
    if eq < |content| then Some((eq, 1))
    else
      var at := FindFrom(content, INTERFACE, 0);
      if at.None? then None else Some((at.value, |INTERFACE|))
  }

  /** `type_body_brace_span` looks for the braces from here on. */
  function BodyStart(content: string): (r: Option<nat>)
    ensures r.Some? ==> r.value <= |content|
  {
    var mark := Mark(content);
    if mark.None? then None else Some(mark.value.0 + mark.value.1)
  }

  /** The body with the fields between its braces filtered. */
  function Rewritten(body: string, keep: string -> bool, open: nat, close: nat): string
    requires open < close <= |body|
  {
    body[..open + 1] + FilterBody(body[open + 1..close], keep, ", ", FIELD_ENDS) + body[close..]
  }

  /** What an import must be mentioned in to stay. */
  function Scope(filtered: string, inner: string): string
  {
    match SplitTypeAlias(filtered)
    case Some(Alias(_, body, _)) => body
    case None => inner
  }

  /** The outcome of filtering, for the span that was found. */
  ghost predicate Filtered(content: string, keep: string -> bool, r: string, span: Option<(nat, nat)>)
  {
    match BodyStart(content)
    case None => r == content && span.None?
    case Some(start) =>
      && IsSpan(content[start..], span)
      && match span
         case None => r == content
         case Some((open, close)) =>
           && open < close
           && var filtered := content[..start] + Rewritten(content[start..], keep, open, close);
           && var inner := FilterBody(content[start..][open + 1..close], keep, ", ", FIELD_ENDS);
           r == PruneImports(filtered, Scope(filtered, inner))
  }

  method FilterTypeFields(content: string, keep: string -> bool) returns (r: string)
    ensures exists span :: Filtered(content, keep, r, span)
  {
    var start := BodyStart(content);
    if start.None? {
      assert Filtered(content, keep, content, None);
      return content;
    }
    var body := content[start.value..];
    var found := FindTopLevelBraceSpan(body);
    if found.None? {
      assert Filtered(content, keep, content, None);
      return content;
    }
    var (open, close) := found.value;
    SpanBody(body, open, close);
    var fields := SplitTopLevelMulti(body[open + 1..close], FIELD_ENDS);
    var inner := Join(Filter(fields, keep), ", ");
    var filtered := content[..start.value] + (body[..open + 1] + inner + body[close..]);
    r := PruneUnusedTypeImports(filtered, Scope(filtered, inner));
    assert Filtered(content, keep, r, found);
  }

  // ----- the parts of a file

  /** A file as whole lines in front, the start of the line of the mark, the mark and the body. */
  function File(head: string, lead: string, mark: string, body: string): string { head + FromMark(lead, mark, body) }

  function FromMark(lead: string, mark: string, body: string): string { lead + mark + body }

  /** The mark is the first there is. */
  ghost predicate Marked(head: string, lead: string, mark: string, body: string)
  {
    WholeLines(head) && (ByEquals(head, lead, mark) || ByInterface(head, lead, mark, body))
  }

  predicate ByEquals(head: string, lead: string, mark: string)
  {
    mark == "=" && '=' !in head && '=' !in lead
  }

  ghost predicate ByInterface(head: string, lead: string, mark: string, body: string)
  {
    && mark == INTERFACE && '=' !in head && '=' !in FromMark(lead, mark, body) && !Contains(head, INTERFACE)
    && forall j | 0 <= j < |lead| :: !OccursAt(lead + mark, mark, j)
  }

  lemma AliasMark(head: string, lead: string, body: string)
    requires '=' !in head && '=' !in lead
    ensures Mark(File(head, lead, "=", body)) == Some((|head| + |lead|, 1))
  {
    assert File(head, lead, "=", body) == (head + lead) + (['='] + body);
    FirstIndexAt(head + lead, '=', body);
  }

  lemma InterfaceMark(head: string, lead: string, body: string)
    requires Marked(head, lead, INTERFACE, body) && INTERFACE != "="
    ensures Mark(File(head, lead, INTERFACE, body)) == Some((|head| + |lead|, |INTERFACE|))
  {
    var s, at := File(head, lead, INTERFACE, body), |head| + |lead|;
    assert '=' !in s;
    NoEquals(s);
    assert s == (head + lead) + INTERFACE + body;
    assert s[at..at + |INTERFACE|] == INTERFACE;
    forall j | 0 <= j < at ensures !OccursAt(s, INTERFACE, j) { NotEarlier(head, lead, body, j); }
    FindIs(s, INTERFACE, at);
  }

  lemma OccursAfterHead(head: string, lead: string, body: string, j: nat)
    requires |head| <= j < |head| + |lead| && OccursAt(File(head, lead, INTERFACE, body), INTERFACE, j)
    ensures OccursAt(lead + INTERFACE, INTERFACE, j - |head|)
  {
    var s, m := File(head, lead, INTERFACE, body), j + |INTERFACE|;
    assert (lead + INTERFACE)[j - |head|..m - |head|] == s[j..m];
  }

  lemma OccursInHead(head: string, lead: string, body: string, j: nat)
    requires WholeLines(head) && j < |head| && OccursAt(File(head, lead, INTERFACE, body), INTERFACE, j)
    ensures Contains(head, INTERFACE)
  {
    var s, m := File(head, lead, INTERFACE, body), j + |INTERFACE|;
    OccursChars(s, INTERFACE, j);
    assert s[|head| - 1] == '\n' && '\n' !in INTERFACE;
    assert head[j..m] == s[j..m];
    ContainedAt(head, INTERFACE, j);
  }

  lemma NotEarlier(head: string, lead: string, body: string, j: nat)
    requires Marked(head, lead, INTERFACE, body) && INTERFACE != "=" && j < |head| + |lead|
    ensures !OccursAt(File(head, lead, INTERFACE, body), INTERFACE, j)
  {
    if OccursAt(File(head, lead, INTERFACE, body), INTERFACE, j) {
      if j < |head| { OccursInHead(head, lead, body, j); } else { OccursAfterHead(head, lead, body, j); }
    }
  }

  /** So the body of such a file starts right after the mark. */
  lemma MarkAt(head: string, lead: string, mark: string, body: string)
    requires Marked(head, lead, mark, body)
    ensures Mark(File(head, lead, mark, body)) == Some((|head| + |lead|, |mark|))
    ensures BodyStart(File(head, lead, mark, body)) == Some(|head| + |lead| + |mark|)
  {
    assert INTERFACE[0] == 'e' && "="[0] == '=';
    if mark == "=" { AliasMark(head, lead, body); } else { InterfaceMark(head, lead, body); }
  }

  /** The whole lines before the line of the mark. */
  function ImportLines(content: string): string
    requires Mark(content).Some?
  {
    LinesBefore(content, Mark(content).value.0)
  }

  /** No import stands on the line of the mark or after it. */
  predicate ImportsFirst(content: string)
    requires Mark(content).Some?
  {
    !Contains(content[|ImportLines(content)|..], IMPORT)
  }

  lemma NoEquals(s: string)
    requires '=' !in s
    ensures FirstIndex(s, '=') == |s|
  {
  }

  lemma InterfaceAt(content: string, at: nat)
    requires '=' !in content && Mark(content) == Some((at, |INTERFACE|))
    ensures OccursAt(content, INTERFACE, at) && forall j | 0 <= j < at :: !OccursAt(content, INTERFACE, j)
  {
    NoEquals(content);
  }

  lemma OccursWithin(s: string, a: nat, b: nat, pat: string, i: nat)
    requires a <= b <= |s| && OccursAt(s[a..b], pat, i)
    ensures OccursAt(s, pat, a + i)
  {
    var found := s[a..b][i..i + |pat|];
    assert forall k | 0 <= k < |pat| :: found[k] == s[a + i..a + i + |pat|][k];
  }

  lemma FirstInterface(content: string, at: nat, h: nat)
    requires '=' !in content && Mark(content) == Some((at, |INTERFACE|)) && h <= at
    ensures at + |INTERFACE| <= |content| && content[at..at + |INTERFACE|] == INTERFACE
    ensures !Contains(content[..h], INTERFACE)
    ensures forall j | 0 <= j < at - h :: !OccursAt(content[h..at] + INTERFACE, INTERFACE, j)
  {
    InterfaceAt(content, at);
    if Contains(content[..h], INTERFACE) {
      var i := WhereContained(content[..h], INTERFACE);
      assert content[0..h] == content[..h];
      OccursWithin(content, 0, h, INTERFACE, i);
    }
    assert content[h..at] + INTERFACE == content[h..at + |INTERFACE|];
    forall j | 0 <= j < at - h ensures !OccursAt(content[h..at] + INTERFACE, INTERFACE, j) {
      var t := content[h..at + |INTERFACE|];
      if OccursAt(t, INTERFACE, j) { OccursWithin(content, h, at + |INTERFACE|, INTERFACE, j); }
    }
  }

  lemma FileParts(content: string) returns (head: string, lead: string, mark: string, body: string)
    requires Mark(content).Some?
    ensures content == File(head, lead, mark, body) && Marked(head, lead, mark, body)
    ensures head == ImportLines(content) && body == content[BodyStart(content).value..]
  {
    var (at, len) := Mark(content).value;
    LinesBeforeWhole(content, at);
    head := ImportLines(content);
    lead, mark, body := Slices(content, |head|, at, len);
  }

  lemma Slices(content: string, h: nat, at: nat, len: nat) returns (lead: string, mark: string, body: string)
    requires h <= at && Mark(content) == Some((at, len)) && WholeLines(content[..h])
    ensures content == File(content[..h], lead, mark, body) && Marked(content[..h], lead, mark, body)
    ensures body == content[at + len..]
  {
    lead, mark, body := content[h..at], content[at..at + len], content[at + len..];
    Reassembled(content, h, at, len);
    PartsMarked(content, h);
  }

  lemma Reassembled(content: string, h: nat, at: nat, len: nat)
    requires h <= at && at + len <= |content|
    ensures content == File(content[..h], content[h..at], content[at..at + len], content[at + len..])
  {
  }

  lemma AliasMarked(content: string, h: nat, at: nat)
    requires FirstIndex(content, '=') == at < |content| && h <= at
    ensures ByEquals(content[..h], content[h..at], content[at..at + 1])
  {
    NoneBefore(content, '=', h, at);
    assert content[at..at + 1] == "=";
  }

  lemma NoneBefore(s: string, c: char, h: nat, at: nat)
    requires h <= at <= |s| && c !in s[..at]
    ensures c !in s[..h] && c !in s[h..at]
  {
    assert s[..h] == s[..at][..h] && s[h..at] == s[..at][h..];
  }

  lemma InterfaceMarked(content: string, h: nat, at: nat)
    requires '=' !in content && Mark(content) == Some((at, |INTERFACE|)) && h <= at && WholeLines(content[..h])
    ensures at + |INTERFACE| <= |content|
    ensures Marked(content[..h], content[h..at], content[at..at + |INTERFACE|], content[at + |INTERFACE|..])
  {
    FirstInterface(content, at, h);
    assert '=' !in content[..h];
    assert FromMark(content[h..at], INTERFACE, content[at + |INTERFACE|..]) == content[h..];
  }

  lemma PartsMarked(content: string, h: nat)
    requires Mark(content).Some? && h <= Mark(content).value.0 && WholeLines(content[..h])
    ensures var (at, len) := Mark(content).value;
      Marked(content[..h], content[h..at], content[at..at + len], content[at + len..])
  {
    var (at, len) := Mark(content).value;
    if FirstIndex(content, '=') < |content| {
      AliasMarked(content, h, at);
    } else {
      assert content[..|content|] == content;
      InterfaceMarked(content, h, at);
    }
  }

  // ----- one pass

  /** What the scope comes down to: the body up to its last semicolon, or the fields. */
  function ScopeOf(mark: string, body: string, inner: string): string
  {
    if mark == "=" && ';' in body then body[..LastPlace(body)] else inner
  }

  function LastPlace(body: string): (i: nat)
    ensures i <= |body|
  {
    if LastIndex(body, ';') < 0 then 0 else LastIndex(body, ';')
  }

  lemma LastSemicolon(front: string, body: string)
    ensures var semi := LastIndex(front + "=" + body, ';');
      if ';' in body then semi == |front| + 1 + LastPlace(body) else semi <= |front|
  {
    LastIndexAfter(front + "=", ';', body);
    LastIndexIsLast(body, ';');
  }

  lemma ScopeBetween(s: string, eq: nat, semi: int, inner: string) returns (scope: string)
    requires eq == FirstIndex(s, '=') < |s| && semi == LastIndex(s, ';')
    ensures scope == Scope(s, inner) == if semi <= eq then inner else s[eq + 1..semi]
  {
    scope := Scope(s, inner);
  }

  lemma FirstEquals(front: string, body: string)
    requires '=' !in front
    ensures FirstIndex(front + "=" + body, '=') == |front|
  {
    assert front + "=" + body == front + (['='] + body);
    FirstIndexAt(front, '=', body);
  }

  lemma ScopeAfter(s: string, front: string, body: string, inner: string)
    requires '=' !in front && s == front + "=" + body
    ensures Scope(s, inner) == ScopeOf("=", body, inner)
  {
    FirstEquals(front, body);
    LastSemicolon(front, body);
    UpToPlace(front, body, LastPlace(body));
    var scope := ScopeBetween(s, |front|, LastIndex(s, ';'), inner);
  }

  lemma UpToPlace(front: string, body: string, k: nat)
    requires k <= |body|
    ensures (front + "=" + body)[|front| + 1..|front| + 1 + k] == body[..k]
  {
  }

  lemma ScopeIs(head: string, lead: string, mark: string, body: string, inner: string)
    requires Marked(head, lead, mark, body)
    ensures Scope(File(head, lead, mark, body), inner) == ScopeOf(mark, body, inner)
  {
    if mark == "=" {
      assert File(head, lead, mark, body) == (head + lead) + "=" + body;
      ScopeAfter(File(head, lead, mark, body), head + lead, body, inner);
    } else {
      NoEquals(File(head, lead, mark, body));
    }
  }

  lemma RewrittenChar(body: string, keep: string -> bool, open: nat, close: nat, c: char)
    requires open < close <= |body| && c !in ", " && c in Rewritten(body, keep, open, close)
    ensures c in body
  {
    if c in FilterBody(body[open + 1..close], keep, ", ", FIELD_ENDS) {
      FilterBodyChar(body[open + 1..close], keep, ", ", 0, FIELD_ENDS, c);
    }
  }

  lemma BracedImports(a: string, inner: string, inner': string, b: string)
    requires Contains(inner', IMPORT) ==> Contains(inner, IMPORT)
    requires Contains(a + ['{'] + (inner' + ['}'] + b), IMPORT)
    ensures Contains(a + ['{'] + inner + (['}'] + b), IMPORT)
  {
    ContainedUpTo(a, '{', inner' + ['}'] + b, IMPORT);
    if Contains(inner' + ['}'] + b, IMPORT) { ContainedBeside(inner', '}', b, IMPORT); }
    InThreeParts(a + ['{'], inner, ['}'] + b, b);
  }

  lemma Braced(front: string, body: string, open: nat, close: nat, inner: string)
    requires open < close < |body| && body[open] == '{' && body[close] == '}'
    ensures front + (body[..open + 1] + inner + body[close..])
         == (front + body[..open]) + ['{'] + (inner + ['}'] + body[close + 1..])
    ensures (front + body[..open]) + ['{'] + body[open + 1..close] + (['}'] + body[close + 1..]) == front + body
  {
    assert body == body[..open] + ['{'] + body[open + 1..close] + (['}'] + body[close + 1..]);
  }

  /** Filtering fields adds no import. */
  lemma RewrittenImports(front: string, body: string, keep: string -> bool, open: nat, close: nat)
    requires open < close < |body| && body[open] == '{' && body[close] == '}'
    requires Contains(front + Rewritten(body, keep, open, close), IMPORT)
    ensures Contains(front + body, IMPORT)
  {
    var inner := body[open + 1..close];
    var inner' := FilterBody(inner, keep, ", ", FIELD_ENDS);
    if Contains(inner', IMPORT) { FilterBodyContains(inner, keep, ", ", 0, FIELD_ENDS, IMPORT); }
    Braced(front, body, open, close, inner');
    BracedImports(front + body[..open], inner, inner', body[close + 1..]);
  }

  lemma InThreeParts(a: string, x: string, b: string, tail: string)
    requires Contains(a, IMPORT) || Contains(x, IMPORT) || Contains(tail, IMPORT)
    requires b == ['}'] + tail
    ensures Contains(a + x + b, IMPORT)
  {
    if Contains(a, IMPORT) {
      ContainedInside([], a, x + b, IMPORT);
      assert [] + a + (x + b) == a + x + b;
    } else if Contains(x, IMPORT) {
      ContainedInside(a, x, b, IMPORT);
    } else {
      ContainedInside(a + x + ['}'], tail, [], IMPORT);
      assert a + x + ['}'] + tail + [] == a + x + b;
    }
  }

  /** A file whose parts can be filtered: its lines end in plain newlines, and its imports stand in front. */
  ghost predicate Plainly(head: string, lead: string, mark: string, body: string)
  {
    && Marked(head, lead, mark, body)
    && '\r' !in head && '\r' !in FromMark(lead, mark, body) && !Contains(FromMark(lead, mark, body), IMPORT)
  }

  lemma StillPlainly(head: string, lead: string, mark: string, body: string, keep: string -> bool, open: nat,
                     close: nat)
    requires Plainly(head, lead, mark, body) && open < close < |body| && body[open] == '{' && body[close] == '}'
    ensures Plainly(head, lead, mark, Rewritten(body, keep, open, close))
  {
    var body' := Rewritten(body, keep, open, close);
    if '\r' in body' { RewrittenChar(body, keep, open, close, '\r'); }
    if '=' in body' { RewrittenChar(body, keep, open, close, '='); }
    if Contains(FromMark(lead, mark, body'), IMPORT) { RewrittenImports(lead + mark, body, keep, open, close); }
  }

  lemma PlainlyKept(head: string, lead: string, mark: string, body: string, used: string -> bool)
    requires Plainly(head, lead, mark, body)
    ensures Plainly(KeptLines(head, used), lead, mark, body)
  {
    KeptLinesWhole(head, used);
    if Contains(KeptLines(head, used), INTERFACE) { KeptContains(head, used, INTERFACE); }
  }

  lemma FileBody(head: string, lead: string, mark: string, body: string, body': string)
    ensures var s, start := File(head, lead, mark, body), |head| + |lead| + |mark|;
      s[start..] == body && s[..start] + body' == File(head, lead, mark, body')
  {
  }

  function InnerOf(body: string, keep: string -> bool, open: nat, close: nat): string
    requires open < close <= |body|
  {
    FilterBody(body[open + 1..close], keep, ", ", FIELD_ENDS)
  }

  lemma FilteredIs(content: string, keep: string -> bool, start: nat, body: string, open: nat, close: nat,
                   filtered: string, r: string, span: Option<(nat, nat)>)
    requires BodyStart(content) == Some(start) && content[start..] == body
    requires IsSpan(body, Some((open, close))) && open < close && Filtered(content, keep, r, span)
    requires filtered == content[..start] + Rewritten(body, keep, open, close)
    ensures span == Some((open, close))
    ensures r == PruneImports(filtered, Scope(filtered, InnerOf(body, keep, open, close)))
  {
    SpanUnique(body, span, Some((open, close)));
  }

  /** The lines in front that pruning keeps. */
  function Mentioned(head: string, scope: string): string { KeptLines(head, l => Used(l, scope)) }

  /** Dropping unused imports keeps what the scope mentions of the lines in front, and the rest. */
  lemma PrunedFile(head: string, lead: string, mark: string, body: string, filtered: string, inner: string)
    requires Plainly(head, lead, mark, body) && filtered == File(head, lead, mark, body)
    ensures PruneImports(filtered, Scope(filtered, inner))
         == File(Mentioned(head, ScopeOf(mark, body, inner)), lead, mark, body)
  {
    ScopeIs(head, lead, mark, body, inner);
    Pruned(head, lead, mark, body, ScopeOf(mark, body, inner));
  }

  lemma Pruned(head: string, lead: string, mark: string, body: string, scope: string)
    requires Plainly(head, lead, mark, body)
    ensures PruneImports(File(head, lead, mark, body), scope)
         == Mentioned(head, scope) + FromMark(lead, mark, body)
  {
    assert FromMark(lead, mark, body) != [] by { assert mark == "=" || mark == INTERFACE; }
    PruneFront(head, FromMark(lead, mark, body), scope);
  }

  /** A filtered file is ready for the second pass, and nothing is left to do in it. */
  lemma ReadyAgain(body: string, keep: string -> bool, open: nat, close: nat)
    returns (body': string, inner: string, close': nat)
    requires open < close < |body| && IsSpan(body, Some((open, close)))
    requires NoLine(INIT, body[open + 1..close]) && NoUnder(INIT, body[open + 1..close])
    ensures body' == Rewritten(body, keep, open, close) && inner == InnerOf(body, keep, open, close)
    ensures open < close' < |body'| && body'[open] == '{' && body'[close'] == '}' && IsSpan(body', Some((open, close')))
    ensures InnerOf(body', keep, open, close') == inner && Rewritten(body', keep, open, close') == body'
  {
    body', inner := Rewritten(body, keep, open, close), InnerOf(body, keep, open, close);
    close' := open + 1 + |inner|;
    SpanFiltered(body, keep, open, close);
    RewrittenAgain(body, keep, open, close);
  }

  lemma MentionedTwice(head: string, lead: string, mark: string, body: string, scope: string)
    requires Plainly(head, lead, mark, body)
    ensures Plainly(Mentioned(head, scope), lead, mark, body)
    ensures Mentioned(Mentioned(head, scope), scope) == Mentioned(head, scope)
  {
    PlainlyKept(head, lead, mark, body, l => Used(l, scope));
    KeptLinesTwice(head, l => Used(l, scope));
  }

  lemma RewrittenAgain(body: string, keep: string -> bool, open: nat, close: nat)
    requires open < close <= |body|
    requires FilterBody(InnerOf(body, keep, open, close), keep, ", ", FIELD_ENDS) == InnerOf(body, keep, open, close)
    ensures var body', close' := Rewritten(body, keep, open, close), open + 1 + |InnerOf(body, keep, open, close)|;
      && close' <= |body'| && InnerOf(body', keep, open, close') == InnerOf(body, keep, open, close)
      && Rewritten(body', keep, open, close') == body'
  {
    var body', inner := Rewritten(body, keep, open, close), InnerOf(body, keep, open, close);
    assert body'[open + 1..open + 1 + |inner|] == inner;
    assert body'[..open + 1] == body[..open + 1] && body'[open + 1 + |inner|..] == body[close..];
  }

  /** Filtering a type's file, imports and all, is idempotent, and the second pass finds the same opening
      brace, when no line comment starts between the braces and no brace there closes an outer one, the
      imports stand before the type and lines end in plain newlines. */
  lemma {:induction false} TypeFieldsIdempotent(content: string, keep: string -> bool, once: string,
                                                span: Option<(nat, nat)>)
    requires Filtered(content, keep, once, span) && '\r' !in content
    requires span.Some? ==>
      && var inner := content[BodyStart(content).value..][span.value.0 + 1..span.value.1];
      NoLine(INIT, inner) && NoUnder(INIT, inner) && ImportsFirst(content)
    ensures forall twice, again | Filtered(once, keep, twice, again) ::
      twice == once && again.Some? == span.Some? && (again.Some? ==> again.value.0 == span.value.0)
  {
    forall twice, again | Filtered(once, keep, twice, again)
      ensures twice == once && again.Some? == span.Some? && (again.Some? ==> again.value.0 == span.value.0)
    {
      if span.None? {
        if BodyStart(content).Some? { SpanUnique(content[BodyStart(content).value..], span, again); }
      } else {
        FilteredAgain(content, keep, span.value.0, span.value.1, once, twice, again);
      }
    }
  }

  lemma FilteredAgain(content: string, keep: string -> bool, open: nat, close: nat, once: string, twice: string,
                      again: Option<(nat, nat)>)
    requires Filtered(content, keep, once, Some((open, close))) && '\r' !in content && ImportsFirst(content)
    requires var inner := content[BodyStart(content).value..][open + 1..close];
      NoLine(INIT, inner) && NoUnder(INIT, inner)
    requires Filtered(once, keep, twice, again)
    ensures twice == once && again.Some? && again.value.0 == open
  {
    var start := BodyStart(content).value;
    var body := content[start..];
    var filtered := content[..start] + Rewritten(body, keep, open, close);
    FilteredIs(content, keep, start, body, open, close, filtered, once, Some((open, close)));
    Settled(content, keep, start, body, open, close, filtered, once);
  }

  /** After one pass only the same outcome is possible. */
  lemma Settled(content: string, keep: string -> bool, start: nat, body: string, open: nat, close: nat,
                filtered: string, once: string)
    requires BodyStart(content) == Some(start) && body == content[start..] && ImportsFirst(content) && '\r' !in content
    requires open < close < |body| && body[open] == '{' && body[close] == '}' && IsSpan(body, Some((open, close)))
    requires NoLine(INIT, body[open + 1..close]) && NoUnder(INIT, body[open + 1..close])
    requires filtered == content[..start] + Rewritten(body, keep, open, close)
    requires once == PruneImports(filtered, Scope(filtered, InnerOf(body, keep, open, close)))
    ensures forall twice, again | Filtered(once, keep, twice, again) ::
      twice == once && again.Some? && again.value.0 == open
  {
    var body', inner, close' := ReadyAgain(body, keep, open, close);
    var start' := NothingLeft(content, keep, start, body, open, close, filtered, inner, once);
    Only(once, keep, start', body', open, close', inner);
  }

  lemma Only(once: string, keep: string -> bool, start: nat, body: string, open: nat, close: nat, inner: string)
    requires BodyStart(once) == Some(start) && once[start..] == body && PruneImports(once, Scope(once, inner)) == once
    requires open < close < |body| && IsSpan(body, Some((open, close)))
    requires Rewritten(body, keep, open, close) == body && InnerOf(body, keep, open, close) == inner
    ensures forall twice, again | Filtered(once, keep, twice, again) :: twice == once && again == Some((open, close))
  {
    forall twice, again | Filtered(once, keep, twice, again) ensures twice == once && again == Some((open, close)) {
      SecondTime(once, keep, start, body, open, close, inner, twice, again);
    }
  }

  lemma SecondTime(once: string, keep: string -> bool, start: nat, body: string, open: nat, close: nat, inner: string,
                   twice: string, again: Option<(nat, nat)>)
    requires BodyStart(once) == Some(start) && once[start..] == body && PruneImports(once, Scope(once, inner)) == once
    requires open < close < |body| && IsSpan(body, Some((open, close)))
    requires Rewritten(body, keep, open, close) == body && InnerOf(body, keep, open, close) == inner
    requires Filtered(once, keep, twice, again)
    ensures twice == once && again == Some((open, close))
  {
    FromStart(once, start, body);
    FilteredIs(once, keep, start, body, open, close, once, twice, again);
  }

  lemma FromStart(s: string, start: nat, body: string)
    requires start <= |s| && s[start..] == body
    ensures s == s[..start] + body
  {
  }

  /** After one pass the body starts where its lines in front end, and the imports left are used. */
  lemma NothingLeft(content: string, keep: string -> bool, start: nat, body: string, open: nat, close: nat,
                    filtered: string, inner: string, once: string)
    returns (start': nat)
    requires BodyStart(content) == Some(start) && body == content[start..] && ImportsFirst(content) && '\r' !in content
    requires open < close < |body| && body[open] == '{' && body[close] == '}'
    requires filtered == content[..start] + Rewritten(body, keep, open, close)
    requires once == PruneImports(filtered, Scope(filtered, inner))
    ensures BodyStart(once) == Some(start') && once[start'..] == Rewritten(body, keep, open, close)
    ensures PruneImports(once, Scope(once, inner)) == once
  {
    var head, lead, mark, rest := FileParts(content);
    FromHead(content, head, lead, mark, rest);
    var begin := StartOf(content, head, lead, mark, rest);
    OtherBody(content, start, head, lead, mark, rest, Rewritten(body, keep, open, close), filtered);
    StillPlainly(head, lead, mark, rest, keep, open, close);
    start' := PrunedOnce(head, lead, mark, Rewritten(body, keep, open, close), inner, filtered, once);
  }

  lemma PrunedOnce(head: string, lead: string, mark: string, body: string, inner: string, filtered: string,
                   once: string)
    returns (start: nat)
    requires Plainly(head, lead, mark, body) && filtered == File(head, lead, mark, body)
    requires once == PruneImports(filtered, Scope(filtered, inner))
    ensures BodyStart(once) == Some(start) && once[start..] == body
    ensures PruneImports(once, Scope(once, inner)) == once
  {
    var scope := ScopeOf(mark, body, inner);
    var head' := Mentioned(head, scope);
    PrunedFile(head, lead, mark, body, filtered, inner);
    MentionedTwice(head, lead, mark, body, scope);
    PrunedFile(head', lead, mark, body, once, inner);
    start := StartOf(once, head', lead, mark, body);
  }

  lemma OtherBody(content: string, start: nat, head: string, lead: string, mark: string, body: string, body': string,
                  filtered: string)
    requires content == File(head, lead, mark, body) && start == |head| + |lead| + |mark|
    requires filtered == content[..start] + body'
    ensures filtered == File(head, lead, mark, body')
  {
    FileBody(head, lead, mark, body, body');
  }

  lemma StartOf(file: string, head: string, lead: string, mark: string, body: string) returns (start: nat)
    requires Marked(head, lead, mark, body) && file == File(head, lead, mark, body)
    ensures BodyStart(file) == Some(start) && start == |head| + |lead| + |mark| && file[start..] == body
  {
    MarkAt(head, lead, mark, body);
    FileBody(head, lead, mark, body, body);
    start := |head| + |lead| + |mark|;
  }

  lemma FromHead(content: string, head: string, lead: string, mark: string, body: string)
    requires content == File(head, lead, mark, body) && Marked(head, lead, mark, body) && '\r' !in content
    requires Mark(content).Some? && head == ImportLines(content) && ImportsFirst(content)
    ensures Plainly(head, lead, mark, body)
  {
    assert content[|head|..] == FromMark(lead, mark, body);
  }
}
