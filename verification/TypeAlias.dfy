/** `split_type_alias`: where the body of a type alias sits in its file. */
module TypeAlias {
  import opened Text
  import opened Wrappers

  datatype Alias = Alias(prefix: string, body: string, suffix: string)

  /** `split_type_alias`: the text up to the first '=', the body, and the text from the last ';'. */
  function SplitTypeAlias(content: string): Option<Alias>
  {
    var eq, semi := FirstIndex(content, '='), LastIndex(content, ';');
    if eq == |content| || semi <= eq then None
    else Some(Alias(content[..eq + 1], content[eq + 1..semi], content[semi..]))
  }

  lemma AliasOf(head: string, body: string, tail: string)
    requires '=' !in head && ';' !in tail
    ensures SplitTypeAlias(head + "=" + body + (";" + tail)) == Some(Alias(head + "=", body, ";" + tail))
  {
    var c := head + "=" + body + (";" + tail);
    assert c == head + (['='] + (body + (";" + tail)));
    FirstIndexAt(head, '=', body + (";" + tail));
    assert c == (head + "=" + body) + ([';'] + tail);
    LastIndexAt(head + "=" + body, ';', tail);
    assert c[|head + "=" + body|..] == ";" + tail;
    assert c[|head| + 1..|head + "=" + body|] == body;
    assert c[..|head| + 1] == head + "=";
    assert |head + "=" + body| == |head| + 1 + |body|;
  }
}
