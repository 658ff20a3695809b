/** The two worklists of the schema export, over the graph "definition name to the names it refers
    to". Both compute the least set of names that holds the roots and is closed under references. */
module Closure {

  type Graph = map<string, set<string>>

  function Successors(g: Graph, n: string): set<string>
  {
    if n in g then g[n] else {}
  }

  ghost predicate Closed(g: Graph, names: set<string>)
  {
    forall n | n in names :: Successors(g, n) <= names
  }

  function Universe(g: Graph, roots: set<string>): set<string>
  {
    roots + set n, m | n in g && m in g[n] :: m
  }

  /** What every closed set around the roots has in common. */
  ghost function Least(g: Graph, roots: set<string>): set<string>
  {
    set n | n in Universe(g, roots) && forall t: set<string> | roots <= t && Closed(g, t) :: n in t
  }

  lemma LeastIsLeast(g: Graph, roots: set<string>)
    ensures roots <= Least(g, roots) && Closed(g, Least(g, roots))
    ensures forall t: set<string> | roots <= t && Closed(g, t) :: Least(g, roots) <= t
  {
    var l := Least(g, roots);
    forall n, m | n in l && m in Successors(g, n) ensures m in l {
      forall t: set<string> | roots <= t && Closed(g, t) ensures m in t {
        assert n in t;
      }
    }
  }

  /** A chain of references from a root to `n`. */
  ghost predicate Chain(g: Graph, roots: set<string>, path: seq<string>, n: string)
  {
    && path != [] && path[0] in roots && path[|path| - 1] == n
    && forall i | 0 < i < |path| :: path[i] in Successors(g, path[i - 1])
  }

  lemma {:induction false} ChainStaysInside(g: Graph, roots: set<string>, path: seq<string>, n: string)
    requires Chain(g, roots, path, n)
    ensures n in Least(g, roots)
    decreases |path|
  {
    LeastIsLeast(g, roots);
    if |path| > 1 {
      ChainStaysInside(g, roots, path[..|path| - 1], path[|path| - 2]);
    }
  }

  /** The least closed set is reachability: it holds exactly the names some chain leads to. */
  lemma LeastIsReachable(g: Graph, roots: set<string>, n: string)
    ensures n in Least(g, roots) <==> exists path :: Chain(g, roots, path, n)
  {
    LeastIsLeast(g, roots);
    var reached := set m | m in Universe(g, roots) && exists path :: Chain(g, roots, path, m);
    forall m | m in roots ensures m in reached {
      assert Chain(g, roots, [m], m);
    }
    forall m, k | m in reached && k in Successors(g, m) ensures k in reached {
      var path :| Chain(g, roots, path, m);
      assert Chain(g, roots, path + [k], k);
    }
    assert Closed(g, reached);
    if path :| Chain(g, roots, path, n) {
      ChainStaysInside(g, roots, path, n);
    }
  }

  function Elements(q: seq<string>): set<string> { set n | n in q }

  lemma ElementsAppend(q: seq<string>, r: seq<string>)
    ensures Elements(q + r) == Elements(q) + Elements(r)
  {
  }

  lemma ElementsLast(q: seq<string>)
    requires q != []
    ensures Elements(q) == Elements(q[..|q| - 1]) + {q[|q| - 1]}
  {
    assert q == q[..|q| - 1] + [q[|q| - 1]];
  }

  /** A hash set drained in whatever order it yields. */
  method AnyOrder(s: set<string>) returns (q: seq<string>)
    ensures Elements(q) == s && |q| == |s|
  {
    q := [];
    var rest := s;
    while rest != {}
      invariant rest <= s && Elements(q) == s - rest && |q| + |rest| == |s|
    {
      var n :| n in rest;
      ElementsAppend(q, [n]);
      q := q + [n];
      rest := rest - {n};
    }
  }

  lemma Shrinks(a: set<string>, b: set<string>)
    requires a < b
    ensures |a| < |b|
  {
    assert |b - a| == |b| - |a|;
  }

  /** A closed set around the roots that no closed set around them can be smaller than. */
  lemma LeastFrom(g: Graph, roots: set<string>, found: set<string>)
    requires roots <= found <= Least(g, roots) && Closed(g, found)
    ensures found == Least(g, roots)
  {
    LeastIsLeast(g, roots);
  }

  /** `collect_definition_dependencies`: names are marked when they are popped. */
  method CollectDefinitionDependencies(g: Graph, names: set<string>) returns (seen: set<string>)
    ensures seen == Least(g, names)
  {
    LeastIsLeast(g, names);
    seen := MarkOnPop(g, names, Least(g, names));
    LeastFrom(g, names, seen);
  }

  method MarkOnPop(g: Graph, names: set<string>, ghost bound: set<string>) returns (seen: set<string>)
    requires names <= bound && Closed(g, bound)
    ensures names <= seen <= bound && Closed(g, seen)
  {
    ghost var u := Universe(g, names);
    SuccessorsInUniverse(g, names);
    seen := {};
    var toProcess := AnyOrder(names);
    while toProcess != []
      invariant Covers(g, names, bound * u, seen, Elements(toProcess))
      decreases |u - seen|, |toProcess|
    {
      ElementsLast(toProcess);
      var name := toProcess[|toProcess| - 1];
      toProcess := toProcess[..|toProcess| - 1];
      if name in seen {
        CoversSeen(g, names, bound * u, seen, Elements(toProcess), name);
      } else {
        CoversMarked(g, names, bound * u, seen, Elements(toProcess), name);
        Marked(u, seen, name);
        seen := seen + {name};
        var deps := AnyOrder(Successors(g, name) - seen);
        ElementsAppend(toProcess, deps);
        toProcess := toProcess + deps;
      }
    }
  }

  /** Everything owed is marked or queued, and nothing else is. */
  ghost predicate Covers(g: Graph, names: set<string>, bound: set<string>, seen: set<string>, todo: set<string>)
  {
    && names <= seen + todo <= bound
    && forall n | n in seen :: Successors(g, n) <= seen + todo
  }

  lemma CoversSeen(g: Graph, names: set<string>, bound: set<string>, seen: set<string>, todo: set<string>, n: string)
    requires Covers(g, names, bound, seen, todo + {n}) && n in seen
    ensures Covers(g, names, bound, seen, todo)
  {
    assert seen + (todo + {n}) == seen + todo;
  }

  lemma CoversMarked(g: Graph, names: set<string>, bound: set<string>, seen: set<string>, todo: set<string>, n: string)
    requires Covers(g, names, bound, seen, todo + {n}) && Closed(g, bound)
    ensures Covers(g, names, bound, seen + {n}, todo + (Successors(g, n) - (seen + {n})))
    ensures n in bound
  {
    assert n in seen + (todo + {n});
    assert Successors(g, n) <= bound;
  }

  lemma Marked(u: set<string>, seen: set<string>, name: string)
    requires name in u - seen
    ensures |u - (seen + {name})| < |u - seen|
  {
    Shrinks(u - (seen + {name}), u - seen);
  }

  lemma SuccessorsInUniverse(g: Graph, roots: set<string>)
    ensures forall n :: Successors(g, n) <= Universe(g, roots)
  {
  }

  /** `reachable_local_definitions`: names are marked when they are queued. */
  method ReachableLocalDefinitions(g: Graph, roots: set<string>) returns (reachable: set<string>)
    ensures reachable == Least(g, roots)
  {
    LeastIsLeast(g, roots);
    reachable := MarkOnPush(g, roots, Least(g, roots));
    LeastFrom(g, roots, reachable);
  }

  method MarkOnPush(g: Graph, roots: set<string>, ghost bound: set<string>) returns (reachable: set<string>)
    requires roots <= bound && Closed(g, bound)
    ensures roots <= reachable <= bound && Closed(g, reachable)
  {
    ghost var u := Universe(g, roots);
    SuccessorsInUniverse(g, roots);
    var queue := AnyOrder(roots);
    reachable := roots;
    while queue != []
      invariant Queued(g, roots, bound * u, reachable, Elements(queue))
      decreases |u - reachable|, |queue|
    {
      ElementsLast(queue);
      var name := queue[|queue| - 1];
      queue := queue[..|queue| - 1];
      var unseen := Successors(g, name) - reachable;
      QueuedNext(g, roots, bound * u, reachable, Elements(queue), name);
      if unseen != {} {
        Shrinks(u - (reachable + unseen), u - reachable);
      }
      var found := AnyOrder(unseen);
      ElementsAppend(queue, found);
      reachable := reachable + unseen;
      queue := queue + found;
    }
  }

  /** Everything reachable is marked, and what it refers to is marked or its turn is still to come. */
  ghost predicate Queued(g: Graph, roots: set<string>, bound: set<string>, marked: set<string>, todo: set<string>)
  {
    && roots <= marked <= bound && todo <= marked
    && forall n | n in marked && n !in todo :: Successors(g, n) <= marked
  }

  lemma QueuedNext(g: Graph, roots: set<string>, bound: set<string>, marked: set<string>, todo: set<string>, n: string)
    requires Queued(g, roots, bound, marked, todo + {n}) && Closed(g, bound)
    ensures var unseen := Successors(g, n) - marked;
      Queued(g, roots, bound, marked + unseen, todo + unseen) && unseen <= bound
  {
    assert n in marked && Successors(g, n) <= bound;
    var unseen := Successors(g, n) - marked;
    forall m | m in marked + unseen && m !in todo + unseen ensures Successors(g, m) <= marked + unseen {
      if m != n { assert Successors(g, m) <= marked; }
    }
  }
}
