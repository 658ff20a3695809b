/** `filter_client_request_ts_contents`: drops arms of the request union and then unused imports. */
module ClientRequest {
  import opened Text
  import opened Scanner
  import opened Resplit
  import opened TypeAlias
  import opened Imports
  import opened Wrappers

  const ARMS := {'|'}

  function FilterArms(content: string, keep: string -> bool): string
  {
    match SplitTypeAlias(content)
    case None => content
    case Some(Alias(prefix, body, suffix)) => prefix + FilterBody(body, keep, " | ", ARMS) + suffix
  }

  function FilterClientRequest(content: string, keep: string -> bool): string
  {
    match SplitTypeAlias(content)
    case None => content
    case Some(Alias(_, body, _)) =>
      var filtered := FilterArms(content, keep);
      var scope :=
        match SplitTypeAlias(filtered)
        case Some(Alias(_, filteredBody, _)) => filteredBody
        case None => FilterBody(body, keep, " | ", ARMS);
      PruneImports(filtered, scope)
  }

  /** The whole lines before the one that holds the first '='. */
  function ImportLines(content: string): string
  {
    LinesBefore(content, FirstIndex(content, '='))
  }

  /** No import stands on the line of the first '=' or after it. */
  predicate ImportsFirst(content: string)
  {
    !Contains(content[|ImportLines(content)|..], IMPORT)
  }

  lemma ImportLinesWhole(content: string)
    ensures WholeLines(ImportLines(content)) && |ImportLines(content)| <= FirstIndex(content, '=')
    ensures content == ImportLines(content) + content[|ImportLines(content)|..]
  {
    LinesBeforeWhole(content, FirstIndex(content, '='));
  }

  /** From the line of the first '=' on. */
  function FromAlias(lead: string, body: string, tail: string): string { lead + "=" + body + (";" + tail) }

  lemma Regrouped(head: string, lead: string, body: string, tail: string)
    ensures head + (lead + "=") + body + (";" + tail) == head + FromAlias(lead, body, tail)
    ensures (head + lead) + "=" + body + (";" + tail) == head + FromAlias(lead, body, tail)
    ensures (head + lead) + "=" == head + (lead + "=")
  {
  }

  lemma AliasAfter(head: string, lead: string, body: string, tail: string)
    requires '=' !in head && '=' !in lead && ';' !in tail
    ensures SplitTypeAlias(head + FromAlias(lead, body, tail)) == Some(Alias(head + (lead + "="), body, ";" + tail))
  {
    Regrouped(head, lead, body, tail);
    AliasOf(head + lead, body, tail);
  }

  lemma Pieces(content: string, h: nat, eq: nat, semi: nat)
    requires h <= eq < semi < |content| && content[eq] == '=' && content[semi] == ';'
    ensures content == content[..h] + FromAlias(content[h..eq], content[eq + 1..semi], content[semi + 1..])
  {
    assert content[eq..] == "=" + content[eq + 1..semi] + (";" + content[semi + 1..]);
    assert content[h..] == content[h..eq] + content[eq..];
  }

  lemma AliasAt(content: string) returns (eq: nat, semi: nat)
    requires SplitTypeAlias(content).Some?
    ensures eq < semi < |content| && content[eq] == '=' && content[semi] == ';' && eq == FirstIndex(content, '=')
    ensures '=' !in content[..eq] && forall k | semi < k < |content| :: content[k] != ';'
    ensures SplitTypeAlias(content).value.body == content[eq + 1..semi]
  {
    eq, semi := FirstIndex(content, '='), LastIndex(content, ';');
    LastIndexIsLast(content, ';');
  }

  /** The parts of a file with an alias: whole lines in front, the start of the alias, body and tail. */
  lemma AliasParts(content: string) returns (head: string, lead: string, body: string, tail: string)
    requires SplitTypeAlias(content).Some?
    ensures head == ImportLines(content) && WholeLines(head) && content == head + FromAlias(lead, body, tail)
    ensures '=' !in head && '=' !in lead && ';' !in tail && SplitTypeAlias(content).value.body == body
  {
    var eq, semi := AliasAt(content);
    ImportLinesWhole(content);
    head := ImportLines(content);
    assert head == content[..|head|];
    lead, body, tail := content[|head|..eq], content[eq + 1..semi], content[semi + 1..];
    Pieces(content, |head|, eq, semi);
    NotBefore(content, |head|, eq, semi);
  }

  lemma NotBefore(content: string, h: nat, eq: nat, semi: nat)
    requires h <= eq < semi < |content| && '=' !in content[..eq] && forall k | semi < k < |content| :: content[k] != ';'
    ensures '=' !in content[..h] && '=' !in content[h..eq] && ';' !in content[semi + 1..]
  {
    assert content[..h] == content[..eq][..h] && content[h..eq] == content[..eq][h..];
  }

  lemma FilterIs(content: string, prefix: string, body: string, suffix: string, filtered: string, keep: string -> bool)
    requires SplitTypeAlias(content) == Some(Alias(prefix, body, suffix))
    requires filtered == FilterBody(body, keep, " | ", ARMS)
    requires SplitTypeAlias(prefix + filtered + suffix) == Some(Alias(prefix, filtered, suffix))
    ensures FilterClientRequest(content, keep) == PruneImports(prefix + filtered + suffix, filtered)
  {
  }

  /** Filtering the arms of the body and pruning the imports in front leaves the rest. */
  lemma FilteredParts(head: string, lead: string, body: string, tail: string, filtered: string, keep: string -> bool)
    requires '=' !in head && '=' !in lead && ';' !in tail && WholeLines(head) && '\r' !in head
    requires filtered == FilterBody(body, keep, " | ", ARMS)
    requires '\r' !in FromAlias(lead, filtered, tail) && !Contains(FromAlias(lead, filtered, tail), IMPORT)
    ensures FilterClientRequest(head + FromAlias(lead, body, tail), keep)
         == KeptLines(head, l => Used(l, filtered)) + FromAlias(lead, filtered, tail)
  {
    AliasAfter(head, lead, body, tail);
    AliasAfter(head, lead, filtered, tail);
    Regrouped(head, lead, filtered, tail);
    FilterIs(head + FromAlias(lead, body, tail), head + (lead + "="), body, ";" + tail, filtered, keep);
    PruneFront(head, FromAlias(lead, filtered, tail), filtered);
  }

  /** Filtering arms adds neither an import nor a carriage return. */
  lemma FilteredRest(lead: string, body: string, tail: string, keep: string -> bool)
    ensures var filtered := FilterBody(body, keep, " | ", ARMS);
      && (Contains(FromAlias(lead, filtered, tail), IMPORT) ==> Contains(FromAlias(lead, body, tail), IMPORT))
      && ('\r' in FromAlias(lead, filtered, tail) ==> '\r' in FromAlias(lead, body, tail))
  {
    var filtered := FilterBody(body, keep, " | ", ARMS);
    if Contains(FromAlias(lead, filtered, tail), IMPORT) {
      assert FromAlias(lead, filtered, tail) == lead + ['='] + (filtered + [';'] + tail);
      ContainedBeside(lead, '=', filtered + [';'] + tail, IMPORT);
      if Contains(filtered + [';'] + tail, IMPORT) {
        ContainedBeside(filtered, ';', tail, IMPORT);
        if Contains(filtered, IMPORT) { FilterBodyContains(body, keep, " | ", 1, ARMS, IMPORT); }
      }
      ContainedInParts(lead, body, tail);
    }
    if '\r' in filtered { FilterBodyChar(body, keep, " | ", 1, ARMS, '\r'); }
  }

  lemma ContainedInParts(lead: string, body: string, tail: string)
    requires Contains(lead, IMPORT) || Contains(body, IMPORT) || Contains(tail, IMPORT)
    ensures Contains(FromAlias(lead, body, tail), IMPORT)
  {
    var s := FromAlias(lead, body, tail);
    if Contains(lead, IMPORT) {
      ContainedInside([], lead, "=" + body + (";" + tail), IMPORT);
      assert [] + lead + ("=" + body + (";" + tail)) == s;
    } else if Contains(body, IMPORT) {
      ContainedInside(lead + "=", body, ";" + tail, IMPORT);
    } else {
      ContainedInside(lead + "=" + body + ";", tail, [], IMPORT);
      assert lead + "=" + body + ";" + tail + [] == s;
    }
  }

  /** The second pass over a filtered file. */
  lemma FilteredAgain(head: string, lead: string, body: string, tail: string, keep: string -> bool)
    requires '=' !in head && '=' !in lead && ';' !in tail && WholeLines(head) && '\r' !in head
    requires '\r' !in FromAlias(lead, body, tail) && !Contains(FromAlias(lead, body, tail), IMPORT)
    requires NoLine(INIT, body)
    ensures var once := FilterClientRequest(head + FromAlias(lead, body, tail), keep);
      FilterClientRequest(once, keep) == once && SplitTypeAlias(once).Some?
  {
    var filtered := FilterBody(body, keep, " | ", ARMS);
    var used := l => Used(l, filtered);
    FilterBodyIdempotent(body, keep, " | ", 1, ARMS);
    FilteredRest(lead, body, tail, keep);
    FilteredParts(head, lead, body, tail, filtered, keep);
    KeptLinesWhole(head, used);
    KeptLinesTwice(head, used);
    FilteredParts(KeptLines(head, used), lead, filtered, tail, filtered, keep);
    AliasAfter(KeptLines(head, used), lead, filtered, tail);
  }

  /** Filtering the request file is idempotent, imports and all, when no line comment starts in the union,
      the imports stand before it and lines end in plain newlines. */
  lemma {:induction false} FilterClientRequestIdempotent(content: string, keep: string -> bool)
    requires '\r' !in content
    requires SplitTypeAlias(content).Some? ==>
      NoLine(INIT, SplitTypeAlias(content).value.body) && ImportsFirst(content)
    ensures var once := FilterClientRequest(content, keep);
      FilterClientRequest(once, keep) == once && SplitTypeAlias(once).Some? == SplitTypeAlias(content).Some?
  {
    if SplitTypeAlias(content).Some? {
      var head, lead, body, tail := AliasParts(content);
      assert content[|head|..] == FromAlias(lead, body, tail);
      FilteredAgain(head, lead, body, tail, keep);
    }
  }
}
