/** Sequences read from their growing end. */
module Sequences {
  function Init<T>(s: seq<T>): seq<T>
    requires s != []
  {
    s[..|s| - 1]
  }

  function Last<T>(s: seq<T>): T
    requires s != []
  {
    s[|s| - 1]
  }

  /** `a` is `b` with some elements left out. */
  ghost predicate Subsequence<T(!new)>(a: seq<T>, b: seq<T>)
  {
    a == [] || (b != [] && (Subsequence(a, Init(b)) || (Last(a) == Last(b) && Subsequence(Init(a), Init(b)))))
  }

  lemma {:induction false} SubsequenceExtend<T(!new)>(a: seq<T>, b: seq<T>, x: T)
    requires Subsequence(a, b)
    ensures Subsequence(a, b + [x]) && Subsequence(a + [x], b + [x])
  {
    assert Init(b + [x]) == b && Init(a + [x]) == a;
  }

  lemma SubsequenceSnoc<T(!new)>(a: seq<T>, x: T, b: seq<T>, y: T)
    ensures Subsequence(a + [x], b + [y]) <==> Subsequence(a + [x], b) || (x == y && Subsequence(a, b))
  {
    assert Init(b + [y]) == b && Init(a + [x]) == a;
  }

  lemma {:induction false} SubsequenceInit<T(!new)>(a: seq<T>, b: seq<T>)
    requires a != [] && Subsequence(a, b)
    ensures Subsequence(Init(a), b)
    decreases |b|
  {
    assert b == Init(b) + [Last(b)];
    if Subsequence(a, Init(b)) {
      SubsequenceInit(a, Init(b));
      SubsequenceExtend(Init(a), Init(b), Last(b));
    } else {
      SubsequenceExtend(Init(a), Init(b), Last(b));
    }
  }

  /** `at` lists, in order, the positions of the elements that satisfy `p`. */
  ghost predicate Positions<T(!new)>(s: seq<T>, p: T -> bool, at: seq<nat>)
  {
    && (forall i, j | 0 <= i < j < |at| :: at[i] < at[j])
    && (forall i: nat :: i in at <==> i < |s| && p(s[i]))
  }

  /** Positions in a tail, counted from one place earlier. */
  function Moved(at: seq<nat>): seq<nat> { seq(|at|, i requires 0 <= i < |at| => at[i] + 1) }

  lemma PositionsCons<T(!new)>(s: seq<T>, p: T -> bool, rest: seq<nat>)
    requires s != [] && Positions(s[1..], p, rest)
    ensures Positions(s, p, if p(s[0]) then [0] + Moved(rest) else Moved(rest))
  {
    var at := if p(s[0]) then [0] + Moved(rest) else Moved(rest);
    forall i: nat ensures i in at <==> i < |s| && p(s[i]) {
      if i > 0 {
        assert i - 1 in rest <==> i - 1 < |s[1..]| && p(s[1..][i - 1]);
        if i - 1 in rest {
          var j :| 0 <= j < |rest| && rest[j] == i - 1;
          assert Moved(rest)[j] == i;
        }
      }
    }
  }

  /** Positions among the positions. */
  function Among(outer: seq<nat>, inner: seq<nat>): seq<nat>
    requires forall i | 0 <= i < |inner| :: inner[i] < |outer|
  {
    seq(|inner|, i requires 0 <= i < |inner| => outer[inner[i]])
  }

  /** Selecting from what was selected is selecting what satisfies both. */
  lemma PositionsAmong<T(!new)>(a: seq<T>, p: T -> bool, at: seq<nat>, b: seq<T>, q: T -> bool, at': seq<nat>,
                                both: T -> bool)
    requires Positions(a, p, at) && Selects(a, b, at)
    requires Positions(b, q, at') && forall i | 0 <= i < |at'| :: at'[i] < |b|
    requires forall x | x in a :: both(x) <==> p(x) && q(x)
    ensures Positions(a, both, Among(at, at'))
  {
    var all := Among(at, at');
    forall i: nat ensures i in all <==> i < |a| && both(a[i]) {
      if i in all {
        var k :| 0 <= k < |all| && all[k] == i;
        assert at'[k] in at' && at[at'[k]] in at;
        assert a[i] in a;
      }
      if i < |a| && both(a[i]) {
        assert a[i] in a && i in at;
        var j :| 0 <= j < |at| && at[j] == i;
        assert j in at';
        var k :| 0 <= k < |at'| && at'[k] == j;
        assert all[k] == i;
      }
    }
  }

  /** `b` holds the elements of `a` at those positions. */
  predicate Selects<T(==)>(a: seq<T>, b: seq<T>, at: seq<nat>)
  {
    |b| == |at| && forall i | 0 <= i < |at| :: at[i] < |a| && b[i] == a[at[i]]
  }

  lemma SelectsMoved<T>(a: seq<T>, b: seq<T>, rest: seq<nat>)
    requires a != [] && Selects(a[1..], b, rest)
    ensures Selects(a, b, Moved(rest)) && Selects(a, [a[0]] + b, [0] + Moved(rest))
  {
    var at, c := [0] + Moved(rest), [a[0]] + b;
    forall i | 0 <= i < |rest| ensures rest[i] + 1 < |a| && b[i] == a[rest[i] + 1] {
      assert rest[i] < |a[1..]| && b[i] == a[1..][rest[i]];
    }
    forall i | 0 <= i < |at| ensures at[i] < |a| && c[i] == a[at[i]] {
      if i > 0 { assert at[i] == rest[i - 1] + 1 && c[i] == b[i - 1]; }
    }
  }

  lemma PositionsSnoc<T(!new)>(s: seq<T>, p: T -> bool, at: seq<nat>)
    requires s != [] && Positions(Init(s), p, at)
    ensures Positions(s, p, if p(Last(s)) then at + [|s| - 1] else at)
  {
    var all := if p(Last(s)) then at + [|s| - 1] else at;
    forall i: nat ensures i in all <==> i < |s| && p(s[i]) {
      assert i in at <==> i < |Init(s)| && p(Init(s)[i]);
    }
    forall i, j | 0 <= i < j < |all| ensures all[i] < all[j] {
      if j == |at| { assert at[i] in at; }
    }
  }

  lemma SelectsSnoc<T>(a: seq<T>, b: seq<T>, at: seq<nat>)
    requires a != [] && Selects(Init(a), b, at)
    ensures Selects(a, b, at) && Selects(a, b + [Last(a)], at + [|a| - 1])
  {
  }
}
