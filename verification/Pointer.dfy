/** What a `$ref` means: a JSON pointer in a URI fragment, walked through objects
    (section 8.3 of the JSON Schema draft-07 core, RFC 6901 sections 3, 4 and 6). */
module Pointer {
  import opened Json
  import opened Text
  import opened Wrappers

  const DEFS := "#/definitions/"
  const V2 := "#/definitions/v2/"

  /** The reference tokens between slashes. */
  function Tokens(s: string): seq<string>
    decreases |s|
  {
    var first := FirstSegment(s);
    FirstSegmentBound(s);
    if |first| == |s| then [first] else [first] + Tokens(s[|first| + 1..])
  }

  lemma {:induction false} FirstSegmentBound(s: string)
    ensures FirstSegment(s) <= s
  {
    if s != [] && s[0] != '/' {
      FirstSegmentBound(s[1..]);
      assert s == [s[0]] + s[1..];
    }
  }

  /** "~1" stands for a slash and "~0" for a tilde. */
  function Unescape(t: string): string
  {
    if t == [] then []
    else if "~1" <= t then "/" + Unescape(t[2..])
    else if "~0" <= t then "~" + Unescape(t[2..])
    else [t[0]] + Unescape(t[1..])
  }

  function Walk(v: Value, tokens: seq<string>): Option<Value>
    decreases |tokens|
  {
    if tokens == [] then Some(v)
    else if v.Object? && Unescape(tokens[0]) in v.members then Walk(v.members[Unescape(tokens[0])], tokens[1..])
    else None
  }

  function Resolve(root: Value, reference: string): Option<Value>
  {
    if reference == "#" then Some(root)
    else if "#/" <= reference then Walk(root, Tokens(reference[2..]))
    else None
  }

  /** A definition name that is one reference token and stands for itself: no slash, no tilde, and
      no percent sign, which a URI fragment would decode. */
  predicate PlainName(n: string) { '/' !in n && '~' !in n && '%' !in n }

  lemma {:induction false} UnescapePlain(n: string)
    requires '~' !in n
    ensures Unescape(n) == n
  {
    if n != [] {
      assert n[0] in n;
      UnescapePlain(n[1..]);
      assert n == [n[0]] + n[1..];
    }
  }

  lemma {:induction false} FirstSegmentAt(a: string, rest: string)
    requires '/' !in a
    ensures FirstSegment(a + ("/" + rest)) == a
  {
    if a == [] {
      assert a + ("/" + rest) == "/" + rest;
    } else {
      assert (a + ("/" + rest))[1..] == a[1..] + ("/" + rest);
      FirstSegmentAt(a[1..], rest);
    }
  }

  lemma TokensAt(a: string, rest: string)
    requires '/' !in a
    ensures Tokens(a + ("/" + rest)) == [a] + Tokens(rest)
  {
    FirstSegmentAt(a, rest);
    assert (a + ("/" + rest))[|a| + 1..] == rest;
  }

  lemma TokensLast(n: string)
    requires '/' !in n
    ensures Tokens(n) == [n]
  {
    FirstSegmentWhole(n);
  }

  lemma WalkStep(v: Value, n: string, rest: seq<string>)
    requires v.Object? && '~' !in n
    ensures Walk(v, [n] + rest) == if n in v.members then Walk(v.members[n], rest) else None
  {
    UnescapePlain(n);
    assert ([n] + rest)[1..] == rest;
  }

  lemma WalkEnd(v: Value)
    ensures Walk(v, []) == Some(v)
  {
  }

  lemma RootTokens(n: string)
    requires '/' !in n
    ensures Tokens((DEFS + n)[2..]) == ["definitions"] + ([n] + [])
  {
    assert (DEFS + n)[2..] == "definitions" + ("/" + n);
    TokensAt("definitions", n);
    TokensLast(n);
  }

  lemma NamespaceTokens(ns: string, n: string)
    requires '/' !in n && '/' !in ns
    ensures Tokens((DEFS + ns + "/" + n)[2..]) == ["definitions"] + ([ns] + ([n] + []))
  {
    assert (DEFS + ns + "/" + n)[2..] == "definitions" + ("/" + (ns + ("/" + n)));
    TokensAt("definitions", ns + ("/" + n));
    TokensAt(ns, n);
    TokensLast(n);
  }

  /** A root reference finds the member of the definitions map. */
  lemma ResolveRoot(root: Value, n: string)
    requires root.Object? && "definitions" in root.members && root.members["definitions"].Object? && PlainName(n)
    ensures var defs := root.members["definitions"].members;
      Resolve(root, DEFS + n) == if n in defs then Some(defs[n]) else None
  {
    var defs := root.members["definitions"];
    RootTokens(n);
    WalkStep(root, "definitions", [n] + []);
    WalkStep(defs, n, []);
    if n in defs.members { WalkEnd(defs.members[n]); }
  }

  /** A namespaced reference finds the member of the namespace. */
  lemma ResolveNamespaced(root: Value, ns: string, n: string)
    requires root.Object? && "definitions" in root.members && root.members["definitions"].Object?
    requires var defs := root.members["definitions"].members; ns in defs && defs[ns].Object?
    requires PlainName(n) && PlainName(ns)
    ensures var members := root.members["definitions"].members[ns].members;
      Resolve(root, DEFS + ns + "/" + n) == if n in members then Some(members[n]) else None
  {
    var defs := root.members["definitions"];
    var space := defs.members[ns];
    NamespaceTokens(ns, n);
    WalkStep(root, "definitions", [ns] + ([n] + []));
    WalkStep(defs, ns, [n] + []);
    WalkStep(space, n, []);
    if n in space.members { WalkEnd(space.members[n]); }
  }

  lemma ResolveV2(root: Value, n: string)
    requires root.Object? && "definitions" in root.members && root.members["definitions"].Object?
    requires var defs := root.members["definitions"].members; "v2" in defs && defs["v2"].Object?
    requires PlainName(n)
    ensures var v2 := root.members["definitions"].members["v2"].members;
      Resolve(root, V2 + n) == if n in v2 then Some(v2[n]) else None
  {
    assert DEFS + "v2" + "/" + n == V2 + n;
    ResolveNamespaced(root, "v2", n);
  }
}
