/** The conformance runner's greedy matching: each observed method is compared with the front of the
    expected queue only. The timeout is not part of this model. */
module Scenario {
  import opened Sequences

  lemma {:induction false} LongerFails<T(!new)>(expected: seq<T>, k: nat, j: nat, events: seq<T>)
    requires k <= j <= |expected| && Subsequence(expected[..j], events)
    ensures Subsequence(expected[..k], events)
    decreases j
  {
    if k < j {
      SubsequenceInit(expected[..j], events);
      assert Init(expected[..j]) == expected[..j - 1];
      LongerFails(expected, k, j - 1, events);
    }
  }

  /** How much of the expected list greedy matching has used up after these events. */
  ghost predicate Matched(expected: seq<string>, events: seq<string>, j: nat)
  {
    && j <= |expected| && Subsequence(expected[..j], events)
    && (j < |expected| ==> !Subsequence(expected[..j + 1], events))
  }

  lemma MatchNext(expected: seq<string>, events: seq<string>, j: nat, e: string)
    requires Matched(expected, events, j)
    ensures Matched(expected, events + [e], if j < |expected| && expected[j] == e then j + 1 else j)
  {
    SubsequenceExtend(expected[..j], events, e);
    if j < |expected| {
      assert expected[..j + 1] == expected[..j] + [expected[j]];
      SubsequenceSnoc(expected[..j], expected[j], events, e);
      if expected[j] == e && j + 1 < |expected| {
        assert expected[..j + 2] == expected[..j + 1] + [expected[j + 1]];
        SubsequenceSnoc(expected[..j + 1], expected[j + 1], events, e);
        if Subsequence(expected[..j + 2], events) { LongerFails(expected, j + 1, j + 2, events); }
      }
    }
  }

  lemma MatchedAll(expected: seq<string>, events: seq<string>, j: nat)
    requires Matched(expected, events, j)
    ensures j == |expected| <==> Subsequence(expected, events)
  {
    assert expected[..|expected|] == expected;
    if Subsequence(expected, events) && j < |expected| { LongerFails(expected, j + 1, |expected|, events); }
  }

  /** Passes exactly when some event came and the expected methods are a subsequence of the stream;
      what was observed is then the shortest nonempty prefix that holds them, and otherwise all. */
  method RunScenario(events: seq<string>, fixture: seq<string>) returns (pass: bool, observed: seq<string>)
    ensures pass <==> events != [] && Subsequence(fixture, events)
    ensures observed <= events && (!pass ==> observed == events)
    ensures pass ==> observed != [] && Subsequence(fixture, observed)
    ensures forall n | 0 < n < |observed| :: !Subsequence(fixture, events[..n])
  {
    observed := [];
    var expected := fixture;
    ghost var j := 0;
    assert fixture[..0] == [];
    if fixture != [] { assert !Subsequence(fixture[..1], []); }
    for i := 0 to |events|
      invariant observed == events[..i]
      invariant Matched(fixture, observed, j) && expected == fixture[j..]
      invariant i > 0 ==> expected != []
      invariant forall n | 0 < n <= i :: !Subsequence(fixture, events[..n])
    {
      var name := events[i];
      assert events[..i + 1] == events[..i] + [name];
      MatchNext(fixture, observed, j, name);
      observed := observed + [name];
      if expected != [] && expected[0] == name {
        expected := expected[1..];
        j := j + 1;
      }
      MatchedAll(fixture, observed, j);
      if expected == [] {
        Extends(fixture, events, i + 1);
        return true, observed;
      }
    }
    assert events[..|events|] == events;
    MatchedAll(fixture, observed, j);
    return false, observed;
  }

  lemma {:induction false} Extends(fixture: seq<string>, events: seq<string>, i: nat)
    requires i <= |events| && Subsequence(fixture, events[..i])
    ensures Subsequence(fixture, events)
    decreases |events| - i
  {
    if i == |events| {
      assert events[..i] == events;
    } else {
      assert events[..i + 1] == events[..i] + [events[i]];
      SubsequenceExtend(fixture, events[..i], events[i]);
      Extends(fixture, events, i + 1);
    }
  }
}
