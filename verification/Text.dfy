/** Strings: the lexicographic order of `str::cmp`, `str::replace`, splitting at '/',
    and decimal printing, with the facts the other modules need. */
module Text {
  import opened Wrappers

  /** Lexicographic order by code point, which is the byte order of UTF-8 strings. */
  predicate Leq(a: string, b: string)
  {
    a == [] || (b != [] && (a[0] < b[0] || (a[0] == b[0] && Leq(a[1..], b[1..]))))
  }

  predicate SmallerAt(a: string, b: string, i: nat)
  {
    i < |a| && i < |b| && a[i] < b[i] && forall j | 0 <= j < i :: a[j] == b[j]
  }

  lemma SmallerLater(a: string, b: string, i: nat)
    requires a != [] && b != [] && a[0] == b[0]
    ensures SmallerAt(a[1..], b[1..], i) <==> SmallerAt(a, b, i + 1)
  {
    assert forall j | 0 <= j < |a[1..]| :: a[1..][j] == a[j + 1];
    assert forall j | 0 < j < |a| :: a[1..][j - 1] == a[j];
  }

  /** Either `a` starts `b`, or it has the smaller character where the two first differ. */
  lemma {:induction false} LeqFirstDifference(a: string, b: string)
    ensures Leq(a, b) <==> a <= b || exists i :: SmallerAt(a, b, i)
  {
    if a != [] && b != [] {
      if a[0] == b[0] {
        LeqFirstDifference(a[1..], b[1..]);
        assert a == [a[0]] + a[1..] && b == [b[0]] + b[1..];
        if i: nat :| SmallerAt(a[1..], b[1..], i) { SmallerLater(a, b, i); }
        if i: nat :| SmallerAt(a, b, i) { SmallerLater(a, b, i - 1); }
      } else if a[0] < b[0] {
        assert SmallerAt(a, b, 0);
      }
    }
  }

  lemma {:induction false} LeqTotal(a: string, b: string)
    ensures Leq(a, b) || Leq(b, a)
  {
    if a != [] && b != [] && a[0] == b[0] {
      LeqTotal(a[1..], b[1..]);
    }
  }

  lemma {:induction false} LeqAntisymmetric(a: string, b: string)
    requires Leq(a, b) && Leq(b, a)
    ensures a == b
  {
    if a != [] {
      LeqAntisymmetric(a[1..], b[1..]);
      assert a == [a[0]] + a[1..] && b == [b[0]] + b[1..];
    }
  }

  lemma {:induction false} LeqTransitive(a: string, b: string, c: string)
    requires Leq(a, b) && Leq(b, c)
    ensures Leq(a, c)
  {
    if a != [] && a[0] == b[0] && b[0] == c[0] {
      LeqTransitive(a[1..], b[1..], c[1..]);
    }
  }

  /** Replaces every leftmost, non-overlapping occurrence of `pat`. */
  function Replace(s: string, pat: string, rep: string): string
    requires pat != []
  {
    if |s| < |pat| then s
    else if pat <= s then rep + Replace(s[|pat|..], pat, rep)
    else [s[0]] + Replace(s[1..], pat, rep)
  }

  /** The leftmost occurrence is replaced first, and the text behind it in turn. */
  lemma {:induction false} ReplaceFirst(before: string, pat: string, after: string, rep: string, s: string)
    requires pat != [] && s == before + pat + after && forall j | 0 <= j < |before| :: !OccursAt(s, pat, j)
    ensures Replace(s, pat, rep) == before + rep + Replace(after, pat, rep)
  {
    if before == [] {
      assert s[|pat|..] == after;
    } else {
      assert !OccursAt(s, pat, 0);
      var t := s[1..];
      assert t == before[1..] + pat + after;
      forall j | 0 <= j < |before[1..]| ensures !OccursAt(t, pat, j) {
        assert !OccursAt(s, pat, j + 1);
        OccursLater(s, pat, j);
      }
      ReplaceFirst(before[1..], pat, after, rep, t);
    }
  }

  lemma OccursLater(s: string, pat: string, j: nat)
    requires s != []
    ensures OccursAt(s[1..], pat, j) <==> OccursAt(s, pat, j + 1)
  {
    if j + 1 + |pat| <= |s| { assert s[1..][j..j + |pat|] == s[j + 1..j + 1 + |pat|]; }
  }

  /** A pattern holding a character that `s` lacks does not occur in `s`. */
  lemma {:induction false} ReplaceAbsent(s: string, pat: string, rep: string, c: char)
    requires c in pat && c !in s
    ensures Replace(s, pat, rep) == s
  {
    if |s| >= |pat| {
      if pat <= s {
        assert false;
      }
      ReplaceAbsent(s[1..], pat, rep, c);
      assert s == [s[0]] + s[1..];
    }
  }

  /** The text up to the first '/', or all of it. */
  function FirstSegment(s: string): string
  {
    if s == [] || s[0] == '/' then [] else [s[0]] + FirstSegment(s[1..])
  }

  lemma {:induction false} FirstSegmentWhole(s: string)
    requires '/' !in s
    ensures FirstSegment(s) == s
  {
    if s != [] {
      FirstSegmentWhole(s[1..]);
    }
  }

  /** Nothing but the text up to the first '/'. */
  lemma {:induction false} FirstSegmentIsUpToSlash(s: string)
    ensures var first := FirstSegment(s);
      first <= s && '/' !in first && (|first| < |s| ==> s[|first|] == '/')
  {
    if s != [] && s[0] != '/' {
      FirstSegmentIsUpToSlash(s[1..]);
      assert s == [s[0]] + s[1..];
    }
  }

  lemma {:induction false} FirstSegmentUnique(n: string, rest: string)
    requires '/' !in n && (rest == [] || rest[0] == '/')
    ensures FirstSegment(n + rest) == n
  {
    if n == [] {
      assert n + rest == rest;
    } else {
      assert (n + rest)[1..] == n[1..] + rest;
      FirstSegmentUnique(n[1..], rest);
    }
  }

  function Digit(d: nat): char
    requires d < 10
  {
    '0' + d as char
  }

  function Decimal(n: nat): string
  {
    if n < 10 then [Digit(n)] else Decimal(n / 10) + [Digit(n % 10)]
  }

  /** The number that decimal digits stand for. */
  function Reading(s: string): nat
  {
    if s == [] then 0
    else 10 * Reading(s[..|s| - 1]) + if '0' <= s[|s| - 1] <= '9' then s[|s| - 1] as int - '0' as int else 0
  }

  /** Printing uses decimal digits only, without leading zeros, and reads back as the number. */
  lemma {:induction false} DecimalReads(n: nat)
    ensures Reading(Decimal(n)) == n
    ensures forall c | c in Decimal(n) :: '0' <= c <= '9'
    ensures Decimal(n) != [] && (Decimal(n)[0] == '0' ==> n == 0)
  {
    var s := Decimal(n);
    if n < 10 {
      assert s[..|s| - 1] == [];
    } else {
      DecimalReads(n / 10);
      assert s[..|s| - 1] == Decimal(n / 10);
    }
  }

  /** Decimal printing is injective, so ids built from a counter are distinct. */
  lemma {:induction false} DecimalInjective(m: nat, n: nat)
    requires Decimal(m) == Decimal(n)
    ensures m == n
  {
    var s, t := Decimal(m), Decimal(n);
    assert s[|s| - 1] == Digit(m % 10) && t[|t| - 1] == Digit(n % 10);
    if m >= 10 && n >= 10 {
      assert Decimal(m / 10) == s[..|s| - 1] && Decimal(n / 10) == t[..|t| - 1];
      DecimalInjective(m / 10, n / 10);
    }
  }

  // ----- searching

  function FirstIndex(s: string, c: char): (i: nat)
    ensures i <= |s| && c !in s[..i] && (i < |s| ==> s[i] == c)
  {
    if s == [] || s[0] == c then 0
    else
      var i := FirstIndex(s[1..], c);
      assert s[..i + 1] == [s[0]] + s[1..][..i];
      i + 1
  }

  function LastIndex(s: string, c: char): (i: int)
    ensures -1 <= i < |s|
  {
    if s == [] then -1 else if s[|s| - 1] == c then |s| - 1 else LastIndex(s[..|s| - 1], c)
  }

  lemma {:induction false} LastIndexIsLast(s: string, c: char)
    ensures var i := LastIndex(s, c); (i >= 0 ==> s[i] == c) && forall k | i < k < |s| :: s[k] != c
  {
    if s != [] && s[|s| - 1] != c {
      var t := s[..|s| - 1];
      LastIndexIsLast(t, c);
      assert forall k | 0 <= k < |t| :: s[k] == t[k];
    }
  }

  lemma {:induction false} FirstIndexAt(a: string, c: char, b: string)
    requires c !in a
    ensures FirstIndex(a + ([c] + b), c) == |a|
  {
    if a == [] {
      assert a + ([c] + b) == [c] + b;
    } else {
      assert (a + ([c] + b))[1..] == a[1..] + ([c] + b);
      FirstIndexAt(a[1..], c, b);
    }
  }

  lemma {:induction false} LastIndexAt(a: string, c: char, b: string)
    requires c !in b
    ensures LastIndex(a + ([c] + b), c) == |a|
  {
    var s := a + ([c] + b);
    if b == [] {
      assert s == a + [c];
    } else {
      assert s[..|s| - 1] == a + ([c] + b[..|b| - 1]);
      LastIndexAt(a, c, b[..|b| - 1]);
    }
  }

  predicate OccursAt(s: string, pat: string, i: nat)
  {
    i + |pat| <= |s| && s[i..i + |pat|] == pat
  }

  function FindFrom(s: string, pat: string, i: nat): (r: Option<nat>)
    ensures r.Some? ==> i <= r.value && OccursAt(s, pat, r.value) && forall j | i <= j < r.value :: !OccursAt(s, pat, j)
    ensures r.None? ==> forall j | i <= j :: !OccursAt(s, pat, j)
    decreases |s| - i
  {
    if i + |pat| > |s| then None else if OccursAt(s, pat, i) then Some(i) else FindFrom(s, pat, i + 1)
  }

  predicate Contains(s: string, pat: string)
  {
    pat <= s || (s != [] && Contains(s[1..], pat))
  }

  lemma {:induction false} ReplaceNone(s: string, pat: string, rep: string)
    requires pat != [] && !Contains(s, pat)
    ensures Replace(s, pat, rep) == s
  {
    if |s| >= |pat| {
      ReplaceNone(s[1..], pat, rep);
      assert s == [s[0]] + s[1..];
    }
  }

  lemma {:induction false} WhereContained(s: string, pat: string) returns (i: nat)
    requires Contains(s, pat)
    ensures i + |pat| <= |s| && s[i..i + |pat|] == pat
    decreases |s|
  {
    if pat <= s {
      i := 0;
    } else {
      i := WhereContained(s[1..], pat);
      assert s[1..][i..i + |pat|] == s[i + 1..i + 1 + |pat|];
      i := i + 1;
    }
  }

  lemma {:induction false} LastIndexAfter(a: string, c: char, b: string)
    ensures LastIndex(a + b, c) == if c in b then |a| + LastIndex(b, c) else LastIndex(a, c)
  {
    if b == [] {
      assert a + b == a;
    } else {
      assert (a + b)[..|a + b| - 1] == a + b[..|b| - 1];
      LastIndexAfter(a, c, b[..|b| - 1]);
      assert b == b[..|b| - 1] + [b[|b| - 1]];
    }
  }

  /** The first place where `pat` occurs. */
  lemma FindIs(s: string, pat: string, i: nat)
    requires OccursAt(s, pat, i) && forall j | 0 <= j < i :: !OccursAt(s, pat, j)
    ensures FindFrom(s, pat, 0) == Some(i)
  {
  }

  lemma {:induction false} ContainedAt(s: string, pat: string, i: nat)
    requires OccursAt(s, pat, i)
    ensures Contains(s, pat)
  {
    if i > 0 {
      assert s[1..][i - 1..i - 1 + |pat|] == s[i..i + |pat|];
      ContainedAt(s[1..], pat, i - 1);
    }
  }

  lemma OccursChars(s: string, pat: string, i: nat)
    requires OccursAt(s, pat, i)
    ensures forall k | i <= k < i + |pat| :: s[k] == pat[k - i] && s[k] in pat
  {
    assert forall k | i <= k < i + |pat| :: s[k] == s[i..i + |pat|][k - i];
  }

  lemma ContainedInside(a: string, s: string, b: string, pat: string)
    requires Contains(s, pat)
    ensures Contains(a + s + b, pat)
  {
    var i := WhereContained(s, pat);
    assert (a + s + b)[|a| + i..|a| + i + |pat|] == s[i..i + |pat|];
    ContainedAt(a + s + b, pat, |a| + i);
  }

  /** An occurrence of `pat` holds no character that `pat` lacks, so it is on one side of it. */
  lemma ContainedBeside(a: string, c: char, b: string, pat: string)
    requires c !in pat && Contains(a + [c] + b, pat)
    ensures Contains(a, pat) || Contains(b, pat)
  {
    var s := a + [c] + b;
    var i := WhereContained(s, pat);
    OccursChars(s, pat, i);
    assert s[|a|] == c;
    if i + |pat| <= |a| {
      assert a[i..i + |pat|] == s[i..i + |pat|];
      ContainedAt(a, pat, i);
    } else if i > |a| {
      assert b[i - |a| - 1..i - |a| - 1 + |pat|] == s[i..i + |pat|];
      ContainedAt(b, pat, i - |a| - 1);
    }
  }

  /** The last character of `pat`, if it occurs in it nowhere else, ends an occurrence. */
  lemma ContainedUpTo(a: string, c: char, b: string, pat: string)
    requires pat != [] && (forall i | 0 <= i < |pat| - 1 :: pat[i] != c) && Contains(a + [c] + b, pat)
    ensures Contains(a + [c], pat) || Contains(b, pat)
  {
    var s := a + [c] + b;
    var i := WhereContained(s, pat);
    OccursChars(s, pat, i);
    assert s[|a|] == c;
    if i + |pat| <= |a| + 1 {
      assert (a + [c])[i..i + |pat|] == s[i..i + |pat|];
      ContainedAt(a + [c], pat, i);
    } else if i > |a| {
      assert b[i - |a| - 1..i - |a| - 1 + |pat|] == s[i..i + |pat|];
      ContainedAt(b, pat, i - |a| - 1);
    }
  }

  /** Blanks around a text add no occurrence of a pattern that neither starts nor ends with one. */
  lemma ContainedBetween(w1: string, s: string, w2: string, pat: string)
    requires pat != [] && pat[0] != ' ' && pat[|pat| - 1] != ' '
    requires (forall c | c in w1 :: c == ' ') && (forall c | c in w2 :: c == ' ')
    requires Contains(w1 + s + w2, pat)
    ensures Contains(s, pat)
  {
    var t := w1 + s + w2;
    var i := WhereContained(t, pat);
    assert t[i..i + |pat|][0] == t[i] && t[i..i + |pat|][|pat| - 1] == t[i + |pat| - 1];
    assert forall k | 0 <= k < |w1| :: t[k] == w1[k] && w1[k] in w1;
    assert forall k | |w1| + |s| <= k < |t| :: t[k] == w2[k - |w1| - |s|] && w2[k - |w1| - |s|] in w2;
    assert s[i - |w1|..i - |w1| + |pat|] == t[i..i + |pat|];
    ContainedAt(s, pat, i - |w1|);
  }
}
