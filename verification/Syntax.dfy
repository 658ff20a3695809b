/** TypeScript text as strings, comments and code, and how deep its brackets are nested, said about
    positions in the text alone. */
module Syntax {

  /** From `j` to `i` runs a comment that ends with its line. */
  ghost predicate LineFrom(t: string, code: set<nat>, j: nat, i: nat)
    requires i <= |t|
  {
    && j + 2 <= i && t[j] == '/' && t[j + 1] == '/' && j in code && j + 1 in code
    && forall k | j + 2 <= k < i :: t[k] != '\n'
  }

  /** A block comment opened at `j` has met no closing pair before `i`; the star of the opening pair may
      be the star of the closing one. */
  ghost predicate BlockFrom(t: string, code: set<nat>, j: nat, i: nat)
    requires i <= |t|
  {
    && j + 2 <= i && t[j] == '/' && t[j + 1] == '*' && j in code && j + 1 in code
    && forall k | j + 2 <= k < i :: t[k] == '/' ==> t[k - 1] != '*'
  }

  /** A string opened by the quote at `j` has met no unescaped such quote before `i`. */
  ghost predicate StringFrom(t: string, code: set<nat>, j: nat, i: nat)
    requires i <= |t|
  {
    && j < i && t[j] in {'\"', '\''} && j in code
    && forall k | j < k < i :: t[k] == t[j] ==> Escaped(t, j, k)
  }

  /** How many backslashes stand directly before `k`, not counting any up to `j`. */
  function Backslashes(t: string, j: nat, k: nat): nat
    requires k <= |t|
    decreases k
  {
    if k > j + 1 && t[k - 1] == '\\' then 1 + Backslashes(t, j, k - 1) else 0
  }

  predicate Escaped(t: string, j: nat, k: nat)
    requires k <= |t|
  {
    Backslashes(t, j, k) % 2 == 1
  }

  ghost predicate InLine(t: string, code: set<nat>, i: nat)
    requires i <= |t|
  {
    exists j: nat :: LineFrom(t, code, j, i)
  }

  ghost predicate InBlock(t: string, code: set<nat>, i: nat)
    requires i <= |t|
  {
    exists j: nat :: BlockFrom(t, code, j, i)
  }

  ghost predicate InString(t: string, code: set<nat>, i: nat)
    requires i <= |t|
  {
    exists j: nat :: StringFrom(t, code, j, i)
  }

  ghost predicate Free(t: string, code: set<nat>, i: nat)
    requires i <= |t|
  {
    !InLine(t, code, i) && !InBlock(t, code, i) && !InString(t, code, i)
  }

  /** `code` holds the positions of the code: those where no comment and no string that was opened in
      code is still open. */
  ghost predicate IsCode(t: string, code: set<nat>)
  {
    forall i: nat :: i in code <==> i <= |t| && Free(t, code, i)
  }

  /** The brackets of one kind that are open at `i`: those in code count, and a closing one too many
      does not. */
  ghost function Depth(t: string, code: set<nat>, i: nat, open: char, close: char): nat
    requires i <= |t|
  {
    if i == 0 then 0
    else
      var d := Depth(t, code, i - 1, open, close);
      if i - 1 !in code then d
      else if t[i - 1] == open then d + 1
      else if t[i - 1] == close && d > 0 then d - 1
      else d
  }

  /** In code and in no bracket. */
  ghost predicate Outermost(t: string, code: set<nat>, i: nat)
    requires i <= |t|
  {
    && i in code
    && Depth(t, code, i, '{', '}') == 0 && Depth(t, code, i, '[', ']') == 0
    && Depth(t, code, i, '(', ')') == 0 && Depth(t, code, i, '<', '>') == 0
  }

  /** The pieces of `t` from `from` on, between the positions in `cuts`. */
  function Pieces(t: string, from: nat, cuts: seq<nat>): seq<string>
    requires from <= |t|
    requires forall i | 0 <= i < |cuts| :: from <= cuts[i] < |t|
    requires forall i, j | 0 <= i < j < |cuts| :: cuts[i] < cuts[j]
    decreases |cuts|
  {
    if cuts == [] then [t[from..]] else [t[from..cuts[0]]] + Pieces(t, cuts[0] + 1, cuts[1..])
  }

  /** `cuts` lists the delimiters in the code that stand in no bracket, in order. */
  ghost predicate CutsOf(t: string, code: set<nat>, delims: set<char>, cuts: seq<nat>)
  {
    && (forall i | 0 <= i < |cuts| :: cuts[i] < |t|)
    && (forall i, j | 0 <= i < j < |cuts| :: cuts[i] < cuts[j])
    && (forall i: nat :: i in cuts <==> i < |t| && Outermost(t, code, i) && t[i] in delims)
  }

  // ----- there is one such set

  lemma SameBefore(t: string, a: set<nat>, b: set<nat>, i: nat)
    requires i <= |t| && forall k: nat | k < i :: k in a <==> k in b
    ensures Free(t, a, i) <==> Free(t, b, i)
  {
    if j: nat :| LineFrom(t, a, j, i) { assert LineFrom(t, b, j, i); }
    if j: nat :| LineFrom(t, b, j, i) { assert LineFrom(t, a, j, i); }
    if j: nat :| BlockFrom(t, a, j, i) { assert BlockFrom(t, b, j, i); }
    if j: nat :| BlockFrom(t, b, j, i) { assert BlockFrom(t, a, j, i); }
    if j: nat :| StringFrom(t, a, j, i) { assert StringFrom(t, b, j, i); }
    if j: nat :| StringFrom(t, b, j, i) { assert StringFrom(t, a, j, i); }
  }

  lemma {:induction false} SameUpTo(t: string, a: set<nat>, b: set<nat>, i: nat)
    requires IsCode(t, a) && IsCode(t, b)
    ensures i in a <==> i in b
  {
    forall k: nat | k < i { SameUpTo(t, a, b, k); }
    if i <= |t| { SameBefore(t, a, b, i); }
  }

  /** Text determines which positions are code. */
  lemma {:induction false} CodeUnique(t: string, a: set<nat>, b: set<nat>)
    requires IsCode(t, a) && IsCode(t, b)
    ensures a == b
  {
    forall i: nat { SameUpTo(t, a, b, i); }
  }

  // ----- one more character

  predicate PairBefore(t: string, code: set<nat>, i: nat, second: char)
    requires i < |t|
  {
    i > 0 && t[i - 1] == '/' && t[i] == second && i - 1 in code && i in code
  }

  lemma LineNext(t: string, code: set<nat>, i: nat)
    requires i < |t|
    ensures InLine(t, code, i + 1) <==> (InLine(t, code, i) && t[i] != '\n') || PairBefore(t, code, i, '/')
  {
    var n := i + 1;
    if j: nat :| LineFrom(t, code, j, n) {
      if j + 2 <= i { assert LineFrom(t, code, j, i); }
    }
    if InLine(t, code, i) && t[i] != '\n' {
      var j: nat :| LineFrom(t, code, j, i);
      assert LineFrom(t, code, j, i + 1);
    }
    if PairBefore(t, code, i, '/') { assert LineFrom(t, code, i - 1, i + 1); }
  }

  predicate StarSlash(t: string, i: nat)
    requires i < |t|
  {
    i > 0 && t[i - 1] == '*' && t[i] == '/'
  }

  lemma BlockNext(t: string, code: set<nat>, i: nat)
    requires i < |t|
    ensures InBlock(t, code, i + 1) <==>
      (InBlock(t, code, i) && !StarSlash(t, i)) || PairBefore(t, code, i, '*')
  {
    var n := i + 1;
    if j: nat :| BlockFrom(t, code, j, n) {
      if j + 2 <= i { assert BlockFrom(t, code, j, i); }
    }
    if InBlock(t, code, i) && !StarSlash(t, i) {
      var j: nat :| BlockFrom(t, code, j, i);
      assert BlockFrom(t, code, j, i + 1);
    }
    if PairBefore(t, code, i, '*') { assert BlockFrom(t, code, i - 1, i + 1); }
  }

  /** Behind the character at `i` a string opened at `j` is still open exactly when it was and that is no
      closing quote, or when it opens there. */
  lemma StringNext(t: string, code: set<nat>, j: nat, i: nat)
    requires i < |t|
    ensures StringFrom(t, code, j, i + 1) <==>
      if j == i then t[i] in {'\"', '\''} && i in code
      else StringFrom(t, code, j, i) && (t[i] == t[j] ==> Escaped(t, j, i))
  {
  }
}
