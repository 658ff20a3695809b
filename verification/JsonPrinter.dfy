/** Compact JSON text of a value whose object keys are written in sorted order, which is what
    serialising an already canonical value gives, and the proof that it determines the value. */
module JsonPrinter {
  import opened Json
  import opened Wrappers
  import Text

  lemma {:induction false} LeastKey(ks: set<string>) returns (k: string)
    requires ks != {}
    ensures k in ks && forall j | j in ks :: Text.Leq(k, j)
  {
    k :| k in ks;
    var rest := ks - {k};
    Text.LeqTotal(k, k);
    if rest != {} {
      var l := LeastKey(rest);
      Text.LeqTotal(k, l);
      if Text.Leq(l, k) {
        k := l;
      } else {
        forall j | j in rest ensures Text.Leq(k, j) { Text.LeqTransitive(k, l, j); }
      }
    }
  }

  predicate IsLeast(k: string, ks: set<string>)
  {
    k in ks && forall j | j in ks :: Text.Leq(k, j)
  }

  lemma LeastKeyUnique(ks: set<string>)
    requires ks != {}
    ensures exists k :: IsLeast(k, ks)
    ensures forall k, l | IsLeast(k, ks) && IsLeast(l, ks) :: k == l
  {
    var least := LeastKey(ks);
    assert IsLeast(least, ks);
    forall k, l | IsLeast(k, ks) && IsLeast(l, ks) ensures k == l {
      Text.LeqAntisymmetric(k, l);
    }
  }

  function SortedKeys(ks: set<string>): (s: seq<string>)
    ensures (set k | k in s) == ks
  {
    if ks == {} then []
    else
      LeastKeyUnique(ks);
      var k :| IsLeast(k, ks);
      var rest := SortedKeys(ks - {k});
      assert (set j | j in [k] + rest) == {k} + set j | j in rest;
      [k] + rest
  }

  function Hex(d: nat): char
    requires d < 16
  {
    if d < 10 then '0' + d as char else 'a' + (d - 10) as char
  }

  function EscapeChar(c: char): string
  {
    if c == '\"' then "\\\""
    else if c == '\\' then "\\\\"
    else if c == '\U{0008}' then "\\b"
    else if c == '\t' then "\\t"
    else if c == '\n' then "\\n"
    else if c == '\U{000C}' then "\\f"
    else if c == '\r' then "\\r"
    else if c < ' ' then "\\u00" + [Hex(c as int / 16), Hex(c as int % 16)]
    else [c]
  }

  function Escape(s: string): string
  {
    if s == [] then [] else EscapeChar(s[0]) + Escape(s[1..])
  }

  /** Keys come out in ascending order, each once. */
  lemma {:induction false} SortedKeysAscend(ks: set<string>)
    ensures forall i, j | 0 <= i < j < |SortedKeys(ks)| ::
      Text.Leq(SortedKeys(ks)[i], SortedKeys(ks)[j]) && SortedKeys(ks)[i] != SortedKeys(ks)[j]
  {
    if ks != {} {
      LeastKeyUnique(ks);
      var s := SortedKeys(ks);
      var k :| IsLeast(k, ks) && s == [k] + SortedKeys(ks - {k});
      SortedKeysAscend(ks - {k});
      forall j | 0 < j < |s| ensures Text.Leq(k, s[j]) && k != s[j] {
        assert s[j] in SortedKeys(ks - {k});
        assert s[j] in (set x | x in SortedKeys(ks - {k}));
      }
    }
  }

  /** What hexadecimal digits stand for. */
  function HexValue(s: string): nat
  {
    if s == [] then 0
    else
      var c := s[|s| - 1];
      16 * HexValue(s[..|s| - 1])
      + if '0' <= c <= '9' then c as int - '0' as int else if 'a' <= c <= 'f' then c as int - 'a' as int + 10 else 0
  }

  /** The character that one character or escape of a string literal stands for
      (section 7 of RFC 8259). */
  function CharOf(e: string): Option<char>
  {
    if |e| == 1 && e[0] != '\"' && e[0] != '\\' && e[0] >= ' ' then Some(e[0])
    else if |e| == 6 && e[..2] == "\\u" && HexValue(e[2..]) < 0xD800 then Some(HexValue(e[2..]) as char)
    else if |e| != 2 || e[0] != '\\' then None
    else
      match e[1]
      case '\"' => Some('\"')
      case '\\' => Some('\\')
      case '/' => Some('/')
      case 'b' => Some(8 as char)
      case 't' => Some(9 as char)
      case 'n' => Some(10 as char)
      case 'f' => Some(12 as char)
      case 'r' => Some(13 as char)
      case _ => None
  }

  lemma HexReads(n: nat)
    requires n < 256
    ensures HexValue("00" + [Hex(n / 16), Hex(n % 16)]) == n
  {
    var s := "00" + [Hex(n / 16), Hex(n % 16)];
    assert s[..3] == "00" + [Hex(n / 16)] && s[..3][..2] == "00" && s[..2][..1] == "0" && s[..1][..0] == "";
    assert HexValue("0") == 0 by { assert "0"[..0] == ""; }
    assert HexValue("00") == 0 by { assert "00"[..1] == "0"; }
    assert HexValue(s[..3]) == n / 16;
  }

  /** Escaping writes what the standard reads back as the character. */
  lemma {:induction false} EscapeCharReads(c: char)
    ensures CharOf(EscapeChar(c)) == Some(c)
  {
    var e := EscapeChar(c);
    if |e| == 6 {
      HexReads(c as int);
      assert e[2..] == "00" + [Hex(c as int / 16), Hex(c as int % 16)];
    }
  }

  function Quote(s: string): string { "\"" + Escape(s) + "\"" }

  function Print(v: Value): string
    decreases v, 1
  {
    match v
    case Null => "null"
    case Bool(b) => if b then "true" else "false"
    case Number(text) => text
    case String(s) => Quote(s)
    case Array(items) => "[" + PrintItems(items) + "]"
    case Object(m) => "{" + PrintMembers(v, SortedKeys(m.Keys)) + "}"
  }

  function PrintItems(items: seq<Value>): string
    decreases items, 0
  {
    if items == [] then ""
    else Print(items[0]) + (if |items| == 1 then "" else "," + PrintItems(items[1..]))
  }

  function PrintMembers(v: Value, keys: seq<string>): string
    requires v.Object? && forall k | k in keys :: k in v.members
    decreases v, 0, |keys|
  {
    if keys == [] then ""
    else
      Quote(keys[0]) + ":" + Print(v.members[keys[0]])
      + (if |keys| == 1 then "" else "," + PrintMembers(v, keys[1..]))
  }

  // ----- unique readability

  /** What may follow a value inside a larger text. */
  predicate Stops(s: string) { s == "" || s[0] in ",]}" }

  lemma EscapeCharUnique(c: char, d: char, s: string, t: string)
    requires EscapeChar(c) + s == EscapeChar(d) + t
    ensures c == d && s == t
  {
    var x, y := EscapeChar(c) + s, EscapeChar(d) + t;
    assert x[0] == EscapeChar(c)[0] && y[0] == EscapeChar(d)[0];
    if |EscapeChar(c)| > 1 {
      assert x[1] == EscapeChar(c)[1] && y[1] == EscapeChar(d)[1];
      if |EscapeChar(c)| == 6 {
        assert x[4] == EscapeChar(c)[4] && y[4] == EscapeChar(d)[4];
        assert x[5] == EscapeChar(c)[5] && y[5] == EscapeChar(d)[5];
      }
    }
    assert c == d;
    assert s == x[|EscapeChar(c)|..] && t == y[|EscapeChar(d)|..];
  }

  lemma EscapeHead(a: string, s: string)
    ensures (Escape(a) + "\"" + s)[0] == '\"' <==> a == []
    ensures a != [] ==> Escape(a) + "\"" + s == EscapeChar(a[0]) + (Escape(a[1..]) + "\"" + s)
  {
    if a != [] {
      assert Escape(a) + "\"" + s == EscapeChar(a[0]) + (Escape(a[1..]) + "\"" + s);
      assert EscapeChar(a[0])[0] != '\"';
    }
  }

  lemma {:induction false} EscapeUnique(a: string, b: string, s: string, t: string)
    requires Escape(a) + "\"" + s == Escape(b) + "\"" + t
    ensures a == b && s == t
  {
    EscapeHead(a, s);
    EscapeHead(b, t);
    if a == [] {
      assert s == (Escape(a) + "\"" + s)[1..] && t == (Escape(b) + "\"" + t)[1..];
    } else {
      EscapeCharUnique(a[0], b[0], Escape(a[1..]) + "\"" + s, Escape(b[1..]) + "\"" + t);
      EscapeUnique(a[1..], b[1..], s, t);
      assert a == [a[0]] + a[1..] && b == [b[0]] + b[1..];
    }
  }

  lemma QuoteUnique(a: string, b: string, s: string, t: string)
    requires Quote(a) + s == Quote(b) + t
    ensures a == b && s == t
  {
    assert (Quote(a) + s)[1..] == Escape(a) + "\"" + s;
    assert (Quote(b) + t)[1..] == Escape(b) + "\"" + t;
    EscapeUnique(a, b, s, t);
  }

  function NumberPrefix(s: string): string
  {
    if s == [] || !IsNumberChar(s[0]) then [] else [s[0]] + NumberPrefix(s[1..])
  }

  lemma {:induction false} NumberPrefixWhole(a: string, s: string)
    requires (forall c | c in a :: IsNumberChar(c)) && Stops(s)
    ensures NumberPrefix(a + s) == a
  {
    if a == [] {
      assert a + s == s;
    } else {
      NumberPrefixWhole(a[1..], s);
      assert (a + s)[1..] == a[1..] + s;
      assert a == [a[0]] + a[1..];
    }
  }

  lemma NumberUnique(a: NumberText, b: NumberText, s: string, t: string)
    requires a + s == b + t && Stops(s) && Stops(t)
    ensures a == b && s == t
  {
    NumberPrefixWhole(a, s);
    NumberPrefixWhole(b, t);
    assert s == (a + s)[|a|..] && t == (b + t)[|b|..];
  }

  /** The first character of a value's text tells its kind. */
  function Kind(c: char): nat
  {
    if c == 'n' then 0 else if c == 't' then 1 else if c == 'f' then 2
    else if c == '\"' then 4 else if c == '[' then 5 else if c == '{' then 6 else 3
  }

  function KindOf(v: Value): nat
  {
    match v
    case Null => 0
    case Bool(b) => if b then 1 else 2
    case Number(_) => 3
    case String(_) => 4
    case Array(_) => 5
    case Object(_) => 6
  }

  lemma PrintHead(v: Value, s: string)
    ensures |Print(v)| > 0 && (Print(v) + s)[0] == Print(v)[0]
    ensures Kind(Print(v)[0]) == KindOf(v) && Print(v)[0] !in ",]}:"
  {
  }

  /** The text of a value determines the value and where it ends. */
  lemma {:induction false} PrintUnique(v: Value, w: Value, s: string, t: string)
    requires Print(v) + s == Print(w) + t && Stops(s) && Stops(t)
    ensures v == w && s == t
    decreases v, 1
  {
    PrintHead(v, s);
    PrintHead(w, t);
    match v
    case Null => Cancel(Print(v), s, t);
    case Bool(b) => Cancel(Print(v), s, t);
    case Number(text) => NumberUnique(text, w.text, s, t);
    case String(a) => QuoteUnique(a, w.s, s, t);
    case Array(items) =>
      Unwrap("[", PrintItems(items), PrintItems(w.items), "]", s, t);
      ItemsUnique(items, w.items, "]" + s, "]" + t);
      Cancel("]", s, t);
    case Object(m) =>
      var ks, ls := SortedKeys(m.Keys), SortedKeys(w.members.Keys);
      Unwrap("{", PrintMembers(v, ks), PrintMembers(w, ls), "}", s, t);
      MembersUnique(v, w, ks, ls, "}" + s, "}" + t);
      Cancel("}", s, t);
      assert forall k | k in m :: k in ks;
      assert m == w.members;
  }

  lemma Cancel(a: string, s: string, t: string)
    requires a + s == a + t
    ensures s == t
  {
    assert s == (a + s)[|a|..] && t == (a + t)[|a|..];
  }

  lemma Unwrap(open: string, a: string, b: string, close: string, s: string, t: string)
    requires open + a + close + s == open + b + close + t
    ensures a + (close + s) == b + (close + t)
  {
    assert open + a + close + s == open + (a + (close + s));
    assert open + b + close + t == open + (b + (close + t));
    Cancel(open, a + (close + s), b + (close + t));
  }

  /** What follows the first of several printed parts, up to the closing bracket. */
  function After(more: bool, rest: string, s: string): string
  {
    if more then "," + (rest + s) else s
  }

  lemma AfterJoins(p: string, more: bool, rest: string, s: string)
    requires p != ""
    ensures p + (if more then "," + rest else "") + s == p + After(more, rest, s)
    ensures (p + After(more, rest, s))[0] == p[0]
  {
  }

  lemma ItemsHead(a: seq<Value>, s: string)
    requires s != "" && s[0] == ']'
    ensures (PrintItems(a) + s)[0] == ']' <==> a == []
    ensures a != [] ==> PrintItems(a) + s == Print(a[0]) + After(|a| > 1, PrintItems(a[1..]), s)
  {
    if a != [] {
      PrintHead(a[0], "");
      AfterJoins(Print(a[0]), |a| > 1, PrintItems(a[1..]), s);
      assert PrintItems(a) == Print(a[0]) + (if |a| > 1 then "," + PrintItems(a[1..]) else "");
    }
  }

  lemma {:induction false} ItemsUnique(a: seq<Value>, b: seq<Value>, s: string, t: string)
    requires PrintItems(a) + s == PrintItems(b) + t
    requires s != "" && s[0] == ']' && t != "" && t[0] == ']'
    ensures a == b && s == t
    decreases a, 0
  {
    ItemsHead(a, s);
    ItemsHead(b, t);
    if a == [] {
      Cancel("", s, t);
    } else {
      var s', t' := After(|a| > 1, PrintItems(a[1..]), s), After(|b| > 1, PrintItems(b[1..]), t);
      PrintUnique(a[0], b[0], s', t');
      assert a == [a[0]] + a[1..] && b == [b[0]] + b[1..];
      if |a| > 1 {
        Cancel(",", PrintItems(a[1..]) + s, PrintItems(b[1..]) + t);
        ItemsUnique(a[1..], b[1..], s, t);
      }
    }
  }

  lemma MemberJoins(q: string, p: string, more: bool, rest: string, s: string)
    requires q != "" && q[0] == '\"'
    ensures q + ":" + p + (if more then "," + rest else "") + s == q + (":" + (p + After(more, rest, s)))
    ensures (q + (":" + (p + After(more, rest, s))))[0] == '\"'
  {
    AfterJoins(q + ":" + p, more, rest, s);
    assert q + ":" + p + After(more, rest, s) == q + (":" + (p + After(more, rest, s)));
  }

  lemma MembersHead(v: Value, ks: seq<string>, s: string)
    requires v.Object? && forall k | k in ks :: k in v.members
    requires s != "" && s[0] == '}'
    ensures (PrintMembers(v, ks) + s)[0] == '}' <==> ks == []
    ensures ks != [] ==>
      PrintMembers(v, ks) + s
      == Quote(ks[0]) + (":" + (Print(v.members[ks[0]]) + After(|ks| > 1, PrintMembers(v, ks[1..]), s)))
  {
    if ks != [] {
      MemberJoins(Quote(ks[0]), Print(v.members[ks[0]]), |ks| > 1, PrintMembers(v, ks[1..]), s);
    }
  }

  lemma {:induction false} MembersUnique(v: Value, w: Value, ks: seq<string>, ls: seq<string>, s: string, t: string)
    requires v.Object? && forall k | k in ks :: k in v.members
    requires w.Object? && forall k | k in ls :: k in w.members
    requires PrintMembers(v, ks) + s == PrintMembers(w, ls) + t
    requires s != "" && s[0] == '}' && t != "" && t[0] == '}'
    ensures ks == ls && s == t
    ensures forall k | k in ks :: v.members[k] == w.members[k]
    decreases v, 0, |ks|
  {
    MembersHead(v, ks, s);
    MembersHead(w, ls, t);
    if ks == [] {
      Cancel("", s, t);
    } else {
      var s', t' := After(|ks| > 1, PrintMembers(v, ks[1..]), s), After(|ls| > 1, PrintMembers(w, ls[1..]), t);
      var s'', t'' := Print(v.members[ks[0]]) + s', Print(w.members[ls[0]]) + t';
      QuoteUnique(ks[0], ls[0], ":" + s'', ":" + t'');
      Cancel(":", s'', t'');
      PrintUnique(v.members[ks[0]], w.members[ls[0]], s', t');
      assert ks == [ks[0]] + ks[1..] && ls == [ls[0]] + ls[1..];
      if |ks| > 1 {
        Cancel(",", PrintMembers(v, ks[1..]) + s, PrintMembers(w, ls[1..]) + t);
        MembersUnique(v, w, ks[1..], ls[1..], s, t);
      }
    }
  }

  /** The printer is injective. */
  lemma PrintInjective(v: Value, w: Value)
    requires Print(v) == Print(w)
    ensures v == w
  {
    assert Print(v) + "" == Print(w) + "";
    PrintUnique(v, w, "", "");
  }
}
