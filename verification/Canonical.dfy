/** `canonicalize_json`: a normal form for schema fixtures. Arrays are sorted when every element
    has a sort key and keep their order otherwise. */
module Canonical {
  import opened Json
  import opened JsonPrinter
  import opened Paths
  import opened Wrappers
  import Text

  /** `schema_array_item_sort_key`. */
  function SortKey(item: Value): Option<string>
  {
    match item
    case Null => Some("null")
    case Bool(b) => Some("b:" + if b then "true" else "false")
    case Number(n) => Some("n:" + n)
    case String(s) => Some("s:" + s)
    case Object(m) =>
      if REF in m && m[REF].String? then Some("ref:" + m[REF].s)
      else if "title" in m && m["title"].String? then Some("title:" + m["title"].s)
      else None
    case Array(_) => None
  }

  predicate AllKeyed(items: seq<Value>)
  {
    forall i | 0 <= i < |items| :: SortKey(items[i]).Some?
  }

  /** The sort's comparison: by key, ties by printed text. */
  predicate Before(a: Value, b: Value)
    requires SortKey(a).Some? && SortKey(b).Some?
  {
    var ka, kb := SortKey(a).value, SortKey(b).value;
    if ka == kb then Text.Leq(Print(a), Print(b)) else Text.Leq(ka, kb)
  }

  function Insert(x: Value, s: seq<Value>): (r: seq<Value>)
    requires SortKey(x).Some? && AllKeyed(s)
    ensures AllKeyed(r) && multiset(r) == multiset{x} + multiset(s)
  {
    if s == [] then [x]
    else if Before(x, s[0]) then [x] + s
    else
      assert s == [s[0]] + s[1..];
      [s[0]] + Insert(x, s[1..])
  }

  /** `items.sort_by`: the library sort is known here only by what it returns. */
  function Sort(s: seq<Value>): (r: seq<Value>)
    requires AllKeyed(s)
    ensures AllKeyed(r) && multiset(r) == multiset(s)
  {
    if s == [] then []
    else
      assert s == [s[0]] + s[1..];
      Insert(s[0], Sort(s[1..]))
  }

  function CanonicalAll(items: seq<Value>): (r: seq<Value>)
    ensures |r| == |items| && forall i | 0 <= i < |r| :: r[i] == Canonicalize(items[i])
    decreases items, 0
  {
    seq(|items|, i requires 0 <= i < |items| => Canonicalize(items[i]))
  }

  function Canonicalize(v: Value): Value
    decreases v, 1
  {
    match v
    case Array(items) =>
      var canonical := CanonicalAll(items);
      Array(if AllKeyed(canonical) then Sort(canonical) else canonical)
    case Object(m) => Object(map k | k in m :: Canonicalize(m[k]))
    case _ => v
  }

  /** Keys are collected until an element has none. */
  method HasAllKeys(items: seq<Value>) returns (sortable: bool)
    ensures sortable == AllKeyed(items)
  {
    for i := 0 to |items|
      invariant forall j | 0 <= j < i :: SortKey(items[j]).Some?
    {
      if SortKey(items[i]).None? { return false; }
    }
    return true;
  }

  method CanonicalizeItems(items: seq<Value>) returns (canonical: seq<Value>)
    ensures canonical == CanonicalAll(items)
    decreases items, 0
  {
    canonical := [];
    for i := 0 to |items|
      invariant |canonical| == i && forall j | 0 <= j < i :: canonical[j] == Canonicalize(items[j])
    {
      var c := CanonicalizeJson(items[i]);
      canonical := canonical + [c];
    }
  }

  method CanonicalizeMembers(value: Value) returns (sorted: map<string, Value>)
    requires value.Object?
    ensures Object(sorted) == Canonicalize(value)
    decreases value, 0
  {
    var entries := SortedKeys(value.members.Keys);
    assert forall k | k in entries :: k in value.members;
    sorted := map[];
    for i := 0 to |entries|
      invariant sorted.Keys == set k | k in entries[..i]
      invariant forall k | k in sorted :: k in value.members && sorted[k] == Canonicalize(value.members[k])
    {
      var c := CanonicalizeJson(value.members[entries[i]]);
      sorted := sorted[entries[i] := c];
      assert entries[..i + 1] == entries[..i] + [entries[i]];
    }
    assert entries[..|entries|] == entries;
  }

  /** `canonicalize_json`: children first, then the sort if every element has a key. */
  method CanonicalizeJson(value: Value) returns (r: Value)
    ensures r == Canonicalize(value)
    decreases value, 1
  {
    match value
    case Array(items) =>
      var canonical := CanonicalizeItems(items);
      var sortable := HasAllKeys(canonical);
      return Array(if sortable then Sort(canonical) else canonical);
    case Object(_) =>
      var sorted := CanonicalizeMembers(value);
      return Object(sorted);
    case _ =>
      return value;
  }

  // ----- which values have a key, and the order the keys make

  /** The value has a text under the name. */
  function TextOf(v: Value, name: string): Option<string>
  {
    var at := At(v, [Member(name)]);
    if at.Some? && at.value.String? then Some(at.value.s) else None
  }

  /** Scalars can be sorted, and objects that refer to something or have a title. */
  predicate Sortable(v: Value)
  {
    !v.Array? && (v.Object? ==> TextOf(v, "$ref").Some? || TextOf(v, "title").Some?)
  }

  predicate AllSortable(items: seq<Value>)
  {
    forall i | 0 <= i < |items| :: Sortable(items[i])
  }

  /** Booleans come first, then numbers, null, references, strings and titled objects. */
  function Rank(v: Value): nat
    requires Sortable(v)
  {
    match v
    case Bool(_) => 0
    case Number(_) => 1
    case Null => 2
    case String(_) => 4
    case Object(_) => if TextOf(v, "$ref").Some? then 3 else 5
  }

  /** What values of one kind are ordered by. */
  function SortText(v: Value): string
    requires Sortable(v)
  {
    match v
    case Bool(b) => if b then "true" else "false"
    case Number(n) => n
    case String(s) => s
    case Null => ""
    case Object(_) => if TextOf(v, "$ref").Some? then TextOf(v, "$ref").value else TextOf(v, "title").value
  }

  /** By kind, then by text, then by how the whole value is printed. */
  predicate InOrder(a: Value, b: Value)
    requires Sortable(a) && Sortable(b)
  {
    if Rank(a) != Rank(b) then Rank(a) < Rank(b)
    else if SortText(a) != SortText(b) then Text.Leq(SortText(a), SortText(b))
    else Text.Leq(Print(a), Print(b))
  }

  lemma TextIs(v: Value, name: string)
    ensures TextOf(v, name) ==
      if v.Object? && name in v.members && v.members[name].String? then Some(v.members[name].s) else None
  {
    if Child(v, Member(name)).Some? {
      AtChild(v, Member(name), []);
      assert [Member(name)] + [] == [Member(name)];
    }
  }

  /** The key's text before the part that is ordered within a kind. */
  function Prefix(rank: nat): string
  {
    match rank
    case 0 => "b:"
    case 1 => "n:"
    case 2 => "null"
    case 3 => "ref:"
    case 4 => "s:"
    case _ => "title:"
  }

  lemma KeyIs(v: Value)
    ensures SortKey(v).Some? <==> Sortable(v)
    ensures Sortable(v) ==> Rank(v) <= 5 && SortKey(v) == Some(Prefix(Rank(v)) + SortText(v))
  {
    TextIs(v, "$ref");
    TextIs(v, "title");
    if v.Null? { assert "null" + SortText(v) == "null"; }
  }

  lemma {:induction false} AfterPrefix(p: string, a: string, b: string)
    ensures Text.Leq(p + a, p + b) <==> Text.Leq(a, b)
    ensures p + a == p + b <==> a == b
  {
    if p == [] {
      assert p + a == a && p + b == b;
    } else {
      AfterPrefix(p[1..], a, b);
      assert (p + a)[1..] == p[1..] + a && (p + b)[1..] == p[1..] + b;
      assert p + a == [p[0]] + (p[1..] + a) && p + b == [p[0]] + (p[1..] + b);
    }
  }

  /** The keys of two kinds differ within their prefixes. */
  lemma AcrossKinds(i: nat, j: nat, a: string, b: string)
    requires i < j <= 5
    ensures Text.Leq(Prefix(i) + a, Prefix(j) + b) && !Text.Leq(Prefix(j) + b, Prefix(i) + a)
  {
    var p, q := Prefix(i) + a, Prefix(j) + b;
    assert p[0] == Prefix(i)[0] && p[1] == Prefix(i)[1] && q[0] == Prefix(j)[0] && q[1] == Prefix(j)[1];
    assert p[0] < q[0] || (p[0] == q[0] && p[1] < q[1]);
    assert p[1..][0] == p[1] && q[1..][0] == q[1];
  }

  /** The sort's comparison is that order. */
  lemma {:induction false} BeforeIsInOrder(a: Value, b: Value)
    requires Sortable(a) && Sortable(b)
    ensures SortKey(a).Some? && SortKey(b).Some? && (Before(a, b) <==> InOrder(a, b))
  {
    KeyIs(a);
    KeyIs(b);
    if Rank(a) < Rank(b) {
      AcrossKinds(Rank(a), Rank(b), SortText(a), SortText(b));
    } else if Rank(b) < Rank(a) {
      AcrossKinds(Rank(b), Rank(a), SortText(b), SortText(a));
    } else {
      AfterPrefix(Prefix(Rank(a)), SortText(a), SortText(b));
    }
  }

  lemma AllKeyedIff(items: seq<Value>)
    ensures AllKeyed(items) <==> AllSortable(items)
  {
    forall i | 0 <= i < |items| { KeyIs(items[i]); }
  }

  // ----- the equivalence it decides

  /** Two values are the same schema when one becomes the other by permuting, at any depth, arrays
      whose elements can all be sorted. */
  ghost predicate Equivalent(v: Value, w: Value)
    decreases v, 1
  {
    match v
    case Array(a) =>
      w.Array? && var b := w.items;
      if AllSortable(a) && AllSortable(b) then Matches(a, b)
      else |a| == |b| && forall i | 0 <= i < |a| :: Equivalent(a[i], b[i])
    case Object(m) =>
      w.Object? && w.members.Keys == m.Keys && forall k | k in m :: Equivalent(m[k], w.members[k])
    case _ => v == w
  }

  function Without<T>(s: seq<T>, j: nat): seq<T>
    requires j < |s|
  {
    s[..j] + s[j + 1..]
  }

  /** The elements of `a` pair off one to one with equivalent elements of `b`. */
  ghost predicate Matches(a: seq<Value>, b: seq<Value>)
    decreases a, 0
  {
    if a == [] then b == []
    else exists j :: 0 <= j < |b| && Equivalent(a[0], b[j]) && Matches(a[1..], Without(b, j))
  }

  // ----- sorting is determined by the elements

  ghost predicate Sorted(s: seq<Value>)
    requires AllKeyed(s)
  {
    forall i, j | 0 <= i <= j < |s| :: Before(s[i], s[j])
  }

  lemma BeforeTotal(a: Value, b: Value)
    requires SortKey(a).Some? && SortKey(b).Some?
    ensures Before(a, b) || Before(b, a)
  {
    Text.LeqTotal(Print(a), Print(b));
    Text.LeqTotal(SortKey(a).value, SortKey(b).value);
  }

  lemma BeforeTransitive(a: Value, b: Value, c: Value)
    requires SortKey(a).Some? && SortKey(b).Some? && SortKey(c).Some?
    requires Before(a, b) && Before(b, c)
    ensures Before(a, c)
  {
    var ka, kb, kc := SortKey(a).value, SortKey(b).value, SortKey(c).value;
    if ka == kb == kc {
      Text.LeqTransitive(Print(a), Print(b), Print(c));
    } else {
      Text.LeqTotal(ka, ka);
      Text.LeqTotal(kc, kc);
      Text.LeqTransitive(ka, kb, kc);
      if ka == kc { Text.LeqAntisymmetric(ka, kb); }
    }
  }

  /** Ties are only between equal elements, because the printer is injective. */
  lemma BeforeAntisymmetric(a: Value, b: Value)
    requires SortKey(a).Some? && SortKey(b).Some?
    requires Before(a, b) && Before(b, a)
    ensures a == b
  {
    if SortKey(a) == SortKey(b) {
      Text.LeqAntisymmetric(Print(a), Print(b));
      PrintInjective(a, b);
    } else {
      Text.LeqAntisymmetric(SortKey(a).value, SortKey(b).value);
    }
  }

  lemma {:induction false} InsertSorted(x: Value, s: seq<Value>)
    requires SortKey(x).Some? && AllKeyed(s) && Sorted(s)
    ensures Sorted(Insert(x, s))
  {
    BeforeTotal(x, x);
    if s != [] {
      if Before(x, s[0]) {
        forall i | 0 <= i < |s| ensures Before(x, s[i]) { BeforeTransitive(x, s[0], s[i]); }
      } else {
        BeforeTotal(x, s[0]);
        InsertSorted(x, s[1..]);
        var r := Insert(x, s[1..]);
        forall i | 0 <= i < |r| ensures Before(s[0], r[i]) {
          assert r[i] in multiset(r);
          assert r[i] == x || r[i] in s[1..];
        }
      }
    }
  }

  lemma {:induction false} SortSorted(s: seq<Value>)
    requires AllKeyed(s)
    ensures Sorted(Sort(s))
  {
    if s != [] {
      SortSorted(s[1..]);
      InsertSorted(s[0], Sort(s[1..]));
    }
  }

  lemma SameHead(a: seq<Value>, b: seq<Value>)
    requires AllKeyed(a) && AllKeyed(b) && Sorted(a) && Sorted(b)
    requires multiset(a) == multiset(b) && a != []
    ensures b != [] && a[0] == b[0]
  {
    assert |multiset(a)| == |multiset(b)|;
    assert a[0] in multiset(b) && b[0] in multiset(a);
    var i :| 0 <= i < |a| && a[i] == b[0];
    var j :| 0 <= j < |b| && b[j] == a[0];
    assert Before(a[0], a[i]) && Before(b[0], b[j]);
    BeforeAntisymmetric(a[0], b[0]);
  }

  lemma {:induction false} SortedUnique(a: seq<Value>, b: seq<Value>)
    requires AllKeyed(a) && AllKeyed(b) && Sorted(a) && Sorted(b)
    requires multiset(a) == multiset(b)
    ensures a == b
  {
    if a == [] {
      assert |multiset(b)| == 0;
    } else {
      SameHead(a, b);
      assert a == [a[0]] + a[1..] && b == [b[0]] + b[1..];
      assert multiset(a[1..]) == multiset(a) - multiset{a[0]};
      assert multiset(b[1..]) == multiset(b) - multiset{b[0]};
      SortedUnique(a[1..], b[1..]);
    }
  }

  // ----- the main theorem

  lemma SortKeyKept(v: Value)
    ensures SortKey(Canonicalize(v)) == SortKey(v)
  {
  }

  lemma AllKeyedKept(items: seq<Value>)
    ensures AllKeyed(CanonicalAll(items)) == AllKeyed(items)
  {
    forall i | 0 <= i < |items| { SortKeyKept(items[i]); }
  }

  lemma SortedAlike(a: seq<Value>, b: seq<Value>)
    requires AllKeyed(a) && AllKeyed(b) && multiset(CanonicalAll(a)) == multiset(CanonicalAll(b))
    ensures Canonicalize(Array(a)) == Canonicalize(Array(b))
  {
    AllKeyedKept(a);
    AllKeyedKept(b);
    SortSorted(CanonicalAll(a));
    SortSorted(CanonicalAll(b));
    SortedUnique(Sort(CanonicalAll(a)), Sort(CanonicalAll(b)));
  }

  lemma AllKeyedPermuted(a: seq<Value>, b: seq<Value>)
    requires multiset(a) == multiset(b) && AllKeyed(a)
    ensures AllKeyed(b)
  {
    forall i | 0 <= i < |b| ensures SortKey(b[i]).Some? {
      assert b[i] in multiset(a);
    }
  }

  lemma MultisetWithout<T>(s: seq<T>, j: nat)
    requires j < |s|
    ensures multiset(s) == multiset{s[j]} + multiset(Without(s, j))
  {
    assert s == s[..j] + [s[j]] + s[j + 1..];
  }

  lemma WithoutMapped(b: seq<Value>, c: seq<Value>, b': seq<Value>, d: seq<Value>, j: nat)
    requires j < |b| == |c| && b' == Without(b, j) && |d| == |b'|
    requires forall i | 0 <= i < |c| :: c[i] == Canonicalize(b[i])
    requires forall i | 0 <= i < |d| :: d[i] == Canonicalize(b'[i])
    ensures d == Without(c, j)
  {
  }

  lemma CanonicalWithout(b: seq<Value>, j: nat)
    requires j < |b|
    ensures multiset(CanonicalAll(b)) == multiset{Canonicalize(b[j])} + multiset(CanonicalAll(Without(b, j)))
  {
    var c, d := CanonicalAll(b), CanonicalAll(Without(b, j));
    WithoutMapped(b, c, Without(b, j), d, j);
    MultisetWithout(c, j);
  }

  lemma CanonicalHead(a: seq<Value>)
    requires a != []
    ensures multiset(CanonicalAll(a)) == multiset{Canonicalize(a[0])} + multiset(CanonicalAll(a[1..]))
  {
    CanonicalWithout(a, 0);
    assert Without(a, 0) == a[1..];
  }

  lemma {:induction false} EquivalentSound(v: Value, w: Value)
    requires Equivalent(v, w)
    ensures Canonicalize(v) == Canonicalize(w)
    decreases v, 1
  {
    match v
    case Array(a) =>
      var b := w.items;
      AllKeyedIff(a);
      AllKeyedIff(b);
      if AllKeyed(a) && AllKeyed(b) {
        MatchesSound(a, b);
        SortedAlike(a, b);
      } else {
        forall i | 0 <= i < |a| { EquivalentSound(a[i], b[i]); }
        assert CanonicalAll(a) == CanonicalAll(b);
      }
    case Object(m) =>
      forall k | k in m { EquivalentSound(m[k], w.members[k]); }
    case _ =>
  }

  lemma {:induction false} MatchesSound(a: seq<Value>, b: seq<Value>)
    requires Matches(a, b)
    ensures multiset(CanonicalAll(a)) == multiset(CanonicalAll(b))
    decreases a, 0
  {
    if a != [] {
      var j :| 0 <= j < |b| && Equivalent(a[0], b[j]) && Matches(a[1..], Without(b, j));
      EquivalentSound(a[0], b[j]);
      MatchesSound(a[1..], Without(b, j));
      CanonicalHead(a);
      CanonicalWithout(b, j);
    }
  }

  lemma {:induction false} EquivalentComplete(v: Value, w: Value)
    requires Canonicalize(v) == Canonicalize(w)
    ensures Equivalent(v, w)
    decreases v, 1
  {
    match v
    case Array(a) =>
      var b := w.items;
      var ca, cb := CanonicalAll(a), CanonicalAll(b);
      AllKeyedIff(a);
      AllKeyedIff(b);
      AllKeyedKept(a);
      AllKeyedKept(b);
      assert multiset(ca) == multiset(Canonicalize(v).items) == multiset(cb);
      if AllKeyed(a) {
        AllKeyedPermuted(ca, cb);
        MatchesComplete(a, b);
      } else {
        if AllKeyed(cb) { AllKeyedPermuted(cb, ca); }
        assert ca == cb;
        forall i | 0 <= i < |a| ensures Equivalent(a[i], b[i]) {
          assert ca[i] == cb[i];
          EquivalentComplete(a[i], b[i]);
        }
      }
    case Object(m) =>
      var c := Canonicalize(v).members;
      assert c.Keys == m.Keys == w.members.Keys;
      forall k | k in m ensures Equivalent(m[k], w.members[k]) {
        assert c[k] == Canonicalize(m[k]) == Canonicalize(w.members[k]);
        EquivalentComplete(m[k], w.members[k]);
      }
    case _ =>
  }

  lemma {:induction false} MatchesComplete(a: seq<Value>, b: seq<Value>)
    requires multiset(CanonicalAll(a)) == multiset(CanonicalAll(b))
    ensures Matches(a, b)
    decreases a, 0
  {
    if a == [] {
      assert |multiset(CanonicalAll(b))| == 0;
    } else {
      CanonicalHead(a);
      assert Canonicalize(a[0]) in multiset(CanonicalAll(b));
      var j :| 0 <= j < |b| && CanonicalAll(b)[j] == Canonicalize(a[0]);
      EquivalentComplete(a[0], b[j]);
      CanonicalWithout(b, j);
      var x := multiset{Canonicalize(a[0])};
      assert multiset(CanonicalAll(a[1..])) == multiset(CanonicalAll(a)) - x;
      assert multiset(CanonicalAll(Without(b, j))) == multiset(CanonicalAll(b)) - x;
      MatchesComplete(a[1..], Without(b, j));
    }
  }

  /** Two schemas have the same canonical form exactly when they are equivalent. */
  lemma {:induction false} CanonicalFormDecides(v: Value, w: Value)
    ensures Canonicalize(v) == Canonicalize(w) <==> Equivalent(v, w)
  {
    if Canonicalize(v) == Canonicalize(w) { EquivalentComplete(v, w); }
    if Equivalent(v, w) { EquivalentSound(v, w); }
  }

  lemma {:induction false} Idempotent(v: Value)
    ensures Canonicalize(Canonicalize(v)) == Canonicalize(v)
  {
    match v
    case Array(items) =>
      var c := CanonicalAll(items);
      var r := Canonicalize(v).items;
      assert multiset(r) == multiset(c);
      forall i | 0 <= i < |items| { Idempotent(items[i]); }
      forall i | 0 <= i < |r| ensures Canonicalize(r[i]) == r[i] {
        assert r[i] in multiset(c);
        var j :| 0 <= j < |c| && c[j] == r[i];
      }
      assert CanonicalAll(r) == r;
      if AllKeyed(r) {
        AllKeyedPermuted(r, c);
        SortSorted(c);
        SortSorted(r);
        SortedUnique(Sort(r), r);
      }
    case Object(m) =>
      forall k | k in m { Idempotent(m[k]); }
    case _ =>
  }

  /** A canonical array whose elements can all be sorted is in order, by kind, then text, then print, and
      any other array keeps the order it had. */
  lemma {:induction false} CanonicalArrayOrder(items: seq<Value>)
    ensures var r := Canonicalize(Array(items)).items;
      && multiset(r) == multiset(CanonicalAll(items))
      && (AllSortable(items) ==>
            AllSortable(r) && forall i, j | 0 <= i < j < |r| :: InOrder(r[i], r[j]))
      && (!AllSortable(items) ==> r == CanonicalAll(items))
  {
    AllKeyedIff(items);
    AllKeyedKept(items);
    if AllKeyed(items) {
      var r := Canonicalize(Array(items)).items;
      SortSorted(CanonicalAll(items));
      AllKeyedIff(r);
      forall i, j | 0 <= i < j < |r| ensures InOrder(r[i], r[j]) { BeforeIsInOrder(r[i], r[j]); }
    }
  }

  /** The canonical form is itself a member of the class it stands for. */
  lemma {:induction false} CanonicalFormIsEquivalent(v: Value)
    ensures Equivalent(v, Canonicalize(v))
  {
    Idempotent(v);
    EquivalentComplete(v, Canonicalize(v));
  }
}
