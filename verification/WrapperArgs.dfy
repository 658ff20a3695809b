/** `parse_wrapper_args` and `build_final_args` of the lint wrapper. */
module WrapperArgs {
  import opened Wrappers

  datatype Awaited = ManifestPath | PackageSelection | LibrarySelection

  datatype Parsed = Parsed(
    lintArgs: seq<string>, cargoArgs: seq<string>,
    hasManifestPath: bool, hasPackageSelection: bool, hasNoDeps: bool,
    hasLibrarySelection: bool, hasTargetSelection: bool, hasFix: bool)

  /** The loop's variables. */
  datatype Scan = Scan(parsed: Parsed, afterSeparator: bool, awaiting: Option<Awaited>)

  const START := Scan(Parsed([], [], false, false, false, false, false, false), false, None)

  const TARGETS := {
    "--all-targets", "--lib", "--bins", "--tests", "--examples", "--benches", "--doc",
    "--bin", "--test", "--example", "--bench"}

  predicate SelectsTarget(arg: string)
  {
    arg in TARGETS || "--bin=" <= arg || "--test=" <= arg || "--example=" <= arg || "--bench=" <= arg
  }

  /** What a lint argument does to the flags. */
  datatype Effect = Await(e: Awaited) | Gives(e: Awaited) | Fix | NoDeps | Plain

  function EffectOf(arg: string): Effect
  {
    if arg == "--manifest-path" then Await(ManifestPath)
    else if "--manifest-path=" <= arg then Gives(ManifestPath)
    else if arg == "-p" || arg == "--package" then Await(PackageSelection)
    else if "--package=" <= arg then Gives(PackageSelection)
    else if arg == "--fix" then Fix
    else if arg == "--workspace" then Gives(PackageSelection)
    else if arg == "--no-deps" then NoDeps
    else if arg == "--lib" || arg == "--lib-path" then Await(LibrarySelection)
    else if "--lib=" <= arg || "--lib-path=" <= arg then Gives(LibrarySelection)
    else Plain
  }

  function Give(p: Parsed, e: Awaited): Parsed
  {
    match e
    case ManifestPath => p.(hasManifestPath := true)
    case PackageSelection => p.(hasPackageSelection := true)
    case LibrarySelection => p.(hasLibrarySelection := true)
  }

  function LintStep(p: Parsed, awaiting: Option<Awaited>, effect: Effect): (Parsed, Option<Awaited>)
  {
    if awaiting.Some? then (Give(p, awaiting.value), None)
    else match effect
      case Await(e) => (p, Some(e))
      case Gives(e) => (Give(p, e), None)
      case Fix => (p.(hasFix := true), None)
      case NoDeps => (p.(hasNoDeps := true), None)
      case Plain => (p, None)
  }

  function StepWith(s: Scan, arg: string, effect: Effect, selects: bool): Scan
  {
    var p := s.parsed;
    if s.afterSeparator then
      s.(parsed := p.(cargoArgs := p.cargoArgs + [arg], hasTargetSelection := p.hasTargetSelection || selects))
    else if arg == "--" then s.(afterSeparator := true)
    else
      var (p', awaiting) := LintStep(p.(lintArgs := p.lintArgs + [arg]), s.awaiting, effect);
      Scan(p', false, awaiting)
  }

  function Step(s: Scan, arg: string): Scan { StepWith(s, arg, EffectOf(arg), SelectsTarget(arg)) }

  function Run(s: Scan, argv: seq<string>): Scan
    decreases |argv|
  {
    if argv == [] then s else Run(Step(s, argv[0]), argv[1..])
  }

  function Parse(argv: seq<string>): Parsed { Run(START, argv).parsed }

  function Build(p: Parsed, manifest: string): seq<string>
  {
    var cargo := p.cargoArgs + if !p.hasFix && !p.hasTargetSelection then ["--all-targets"] else [];
    Defaults(p, manifest) + p.lintArgs + if cargo != [] then ["--"] + cargo else []
  }

  function Defaults(p: Parsed, manifest: string): seq<string>
  {
    (if !p.hasManifestPath then ["--manifest-path", manifest] else [])
    + (if !p.hasPackageSelection && !p.hasManifestPath then ["--workspace"] else [])
    + (if !p.hasNoDeps then ["--no-deps"] else [])
  }

  lemma {:induction false} RunAppend(s: Scan, a: seq<string>, b: seq<string>)
    ensures Run(s, a + b) == Run(Run(s, a), b)
    decreases |a|
  {
    if a == [] {
      assert a + b == b;
    } else {
      assert (a + b)[1..] == a[1..] + b;
      RunAppend(Step(s, a[0]), a[1..], b);
    }
  }

  /** `ParsedWrapperArgs` with the loop's own variables, updated argument by argument. */
  class ArgumentScan {
    var lintArgs: seq<string>
    var cargoArgs: seq<string>
    var hasManifestPath: bool
    var hasPackageSelection: bool
    var hasNoDeps: bool
    var hasLibrarySelection: bool
    var hasTargetSelection: bool
    var hasFix: bool
    var afterSeparator: bool
    var awaiting: Option<Awaited>

    function View(): Scan
      reads this
    {
      Scan(Parsed(lintArgs, cargoArgs, hasManifestPath, hasPackageSelection, hasNoDeps, hasLibrarySelection,
                  hasTargetSelection, hasFix), afterSeparator, awaiting)
    }

    constructor ()
      ensures View() == START
    {
      lintArgs, cargoArgs := [], [];
      hasManifestPath, hasPackageSelection, hasNoDeps := false, false, false;
      hasLibrarySelection, hasTargetSelection, hasFix := false, false, false;
      afterSeparator, awaiting := false, None;
    }

    method Observe(arg: string)
      modifies this
      ensures View() == Step(old(View()), arg)
    {
      if afterSeparator {
        cargoArgs := cargoArgs + [arg];
        if SelectsTarget(arg) { hasTargetSelection := true; }
        return;
      }
      if arg == "--" {
        afterSeparator := true;
        return;
      }
      lintArgs := lintArgs + [arg];
      if awaiting.Some? {
        match awaiting.value {
          case ManifestPath => hasManifestPath := true;
          case PackageSelection => hasPackageSelection := true;
          case LibrarySelection => hasLibrarySelection := true;
        }
        awaiting := None;
        return;
      }
      if arg == "--manifest-path" {
        awaiting := Some(ManifestPath);
      } else if "--manifest-path=" <= arg {
        hasManifestPath := true;
      } else if arg == "-p" || arg == "--package" {
        awaiting := Some(PackageSelection);
      } else if "--package=" <= arg {
        hasPackageSelection := true;
      } else if arg == "--fix" {
        hasFix := true;
      } else if arg == "--workspace" {
        hasPackageSelection := true;
      } else if arg == "--no-deps" {
        hasNoDeps := true;
      } else if arg == "--lib" || arg == "--lib-path" {
        awaiting := Some(LibrarySelection);
      } else if "--lib=" <= arg || "--lib-path=" <= arg {
        hasLibrarySelection := true;
      }
    }
  }

  method ParseWrapperArgs(argv: seq<string>) returns (parsed: Parsed)
    ensures parsed == Parse(argv)
  {
    var scan := new ArgumentScan();
    for i := 0 to |argv|
      invariant Run(scan.View(), argv[i..]) == Run(START, argv)
    {
      assert argv[i..][1..] == argv[i + 1..];
      scan.Observe(argv[i]);
    }
    assert argv[|argv|..] == [];
    return scan.View().parsed;
  }

  // ----- reparsing what was built

  /** `p` with defaults put in front and the flags they set. */
  function Merge(p: Parsed, front: seq<string>, manifest: bool, package: bool, noDeps: bool): Parsed
  {
    Parsed(front + p.lintArgs, p.cargoArgs, p.hasManifestPath || manifest, p.hasPackageSelection || package,
           p.hasNoDeps || noDeps, p.hasLibrarySelection, p.hasTargetSelection, p.hasFix)
  }

  /** `t` is `s` with the defaults in front. */
  predicate Ahead(s: Scan, t: Scan, front: seq<string>, manifest: bool, package: bool, noDeps: bool)
  {
    t == s.(parsed := Merge(s.parsed, front, manifest, package, noDeps))
  }

  lemma {:induction false} StaysAhead(s: Scan, t: Scan, argv: seq<string>, front: seq<string>, manifest: bool,
                                      package: bool, noDeps: bool)
    requires Ahead(s, t, front, manifest, package, noDeps)
    ensures Ahead(Run(s, argv), Run(t, argv), front, manifest, package, noDeps)
    decreases |argv|
  {
    if argv != [] {
      AheadStep(s, t, argv[0], front, manifest, package, noDeps);
      StaysAhead(Step(s, argv[0]), Step(t, argv[0]), argv[1..], front, manifest, package, noDeps);
    }
  }

  lemma AheadStep(s: Scan, t: Scan, arg: string, front: seq<string>, manifest: bool, package: bool, noDeps: bool)
    requires Ahead(s, t, front, manifest, package, noDeps)
    ensures Ahead(Step(s, arg), Step(t, arg), front, manifest, package, noDeps)
  {
    AheadStepWith(s, t, arg, EffectOf(arg), SelectsTarget(arg), front, manifest, package, noDeps);
  }

  lemma AheadStepWith(s: Scan, t: Scan, arg: string, effect: Effect, selects: bool, front: seq<string>,
                      manifest: bool, package: bool, noDeps: bool)
    requires Ahead(s, t, front, manifest, package, noDeps)
    ensures Ahead(StepWith(s, arg, effect, selects), StepWith(t, arg, effect, selects), front, manifest, package,
                  noDeps)
  {
    if !s.afterSeparator && arg != "--" {
      var p := s.parsed.(lintArgs := s.parsed.lintArgs + [arg]);
      assert front + (s.parsed.lintArgs + [arg]) == (front + s.parsed.lintArgs) + [arg];
      assert t.parsed.(lintArgs := t.parsed.lintArgs + [arg]) == Merge(p, front, manifest, package, noDeps);
      LintStepMerged(p, s.awaiting, effect, front, manifest, package, noDeps);
    }
  }

  lemma GiveMerged(p: Parsed, e: Awaited, front: seq<string>, manifest: bool, package: bool, noDeps: bool)
    ensures Give(Merge(p, front, manifest, package, noDeps), e) == Merge(Give(p, e), front, manifest, package, noDeps)
  {
  }

  lemma LintStepMerged(p: Parsed, awaiting: Option<Awaited>, effect: Effect, front: seq<string>, manifest: bool,
                       package: bool, noDeps: bool)
    ensures LintStep(Merge(p, front, manifest, package, noDeps), awaiting, effect)
         == (Merge(LintStep(p, awaiting, effect).0, front, manifest, package, noDeps), LintStep(p, awaiting, effect).1)
  {
    if awaiting.Some? {
      GiveMerged(p, awaiting.value, front, manifest, package, noDeps);
    } else if effect.Gives? {
      GiveMerged(p, effect.e, front, manifest, package, noDeps);
    }
  }

  // ----- what a parse result remembers of its argument list

  predicate AnyTarget(args: seq<string>) { exists i | 0 <= i < |args| :: SelectsTarget(args[i]) }

  /** The state of the same loop had the argument list ended before its separator. */
  function LintPhase(s: Scan): Scan
  {
    Scan(s.parsed.(cargoArgs := [], hasTargetSelection := false), false, s.awaiting)
  }

  /** A state the loop can be in: the lint arguments alone lead to its lint phase. */
  predicate Reached(s: Scan)
  {
    && Run(START, s.parsed.lintArgs) == LintPhase(s)
    && (s.parsed.hasTargetSelection <==> AnyTarget(s.parsed.cargoArgs))
    && (!s.afterSeparator ==> s.parsed.cargoArgs == [])
  }

  lemma AnyTargetSnoc(args: seq<string>, arg: string)
    ensures AnyTarget(args + [arg]) <==> AnyTarget(args) || SelectsTarget(arg)
  {
    assert (args + [arg])[|args|] == arg;
    assert forall i | 0 <= i < |args| :: (args + [arg])[i] == args[i];
  }

  lemma StepReached(s: Scan, arg: string)
    requires Reached(s)
    ensures Reached(Step(s, arg))
  {
    AnyTargetSnoc(s.parsed.cargoArgs, arg);
    if !s.afterSeparator && arg != "--" {
      LintReached(s, arg);
    }
  }

  lemma GiveFrame(p: Parsed, e: Awaited)
    ensures var p' := Give(p, e);
      p'.lintArgs == p.lintArgs && p'.cargoArgs == p.cargoArgs && p'.hasTargetSelection == p.hasTargetSelection
  {
  }

  lemma LintStepFrame(p: Parsed, awaiting: Option<Awaited>, effect: Effect)
    ensures var p' := LintStep(p, awaiting, effect).0;
      p'.lintArgs == p.lintArgs && p'.cargoArgs == p.cargoArgs && p'.hasTargetSelection == p.hasTargetSelection
  {
    if awaiting.Some? { GiveFrame(p, awaiting.value); } else if effect.Gives? { GiveFrame(p, effect.e); }
  }

  lemma LintStepKeeps(s: Scan, arg: string, effect: Effect, selects: bool)
    requires !s.afterSeparator && arg != "--"
    ensures var s' := StepWith(s, arg, effect, selects);
      && s'.parsed.lintArgs == s.parsed.lintArgs + [arg] && !s'.afterSeparator
      && s'.parsed.cargoArgs == s.parsed.cargoArgs && s'.parsed.hasTargetSelection == s.parsed.hasTargetSelection
  {
    LintStepFrame(s.parsed.(lintArgs := s.parsed.lintArgs + [arg]), s.awaiting, effect);
  }

  lemma LintReached(s: Scan, arg: string)
    requires Reached(s) && !s.afterSeparator && arg != "--"
    ensures Run(START, s.parsed.lintArgs + [arg]) == LintPhase(Step(s, arg))
    ensures Step(s, arg).parsed.lintArgs == s.parsed.lintArgs + [arg]
    ensures Step(s, arg).parsed.cargoArgs == [] && !Step(s, arg).parsed.hasTargetSelection
    ensures !Step(s, arg).afterSeparator
  {
    LintStepKeeps(s, arg, EffectOf(arg), SelectsTarget(arg));
    RunAppend(START, s.parsed.lintArgs, [arg]);
    assert !AnyTarget([]);
    assert LintPhase(s) == s;
    RunOne(s, arg, []);
    assert [arg] + [] == [arg];
  }

  lemma {:induction false} RunReached(s: Scan, argv: seq<string>)
    requires Reached(s)
    ensures Reached(Run(s, argv))
    decreases |argv|
  {
    if argv != [] {
      StepReached(s, argv[0]);
      RunReached(Step(s, argv[0]), argv[1..]);
    }
  }

  /** After the separator every argument is a cargo argument. */
  lemma {:induction false} CargoPhase(s: Scan, args: seq<string>)
    requires s.afterSeparator
    ensures Run(s, args) == s.(parsed := s.parsed.(cargoArgs := s.parsed.cargoArgs + args,
              hasTargetSelection := s.parsed.hasTargetSelection || AnyTarget(args)))
    decreases |args|
  {
    if args == [] {
      assert s.parsed.cargoArgs + args == s.parsed.cargoArgs;
    } else {
      CargoPhase(Step(s, args[0]), args[1..]);
      assert s.parsed.cargoArgs + args == (s.parsed.cargoArgs + [args[0]]) + args[1..];
      if AnyTarget(args[1..]) {
        var i :| 0 <= i < |args[1..]| && SelectsTarget(args[1..][i]);
        assert SelectsTarget(args[i + 1]);
      }
      if AnyTarget(args) {
        var i :| 0 <= i < |args| && SelectsTarget(args[i]);
        if i > 0 { assert SelectsTarget(args[1..][i - 1]); }
      }
    }
  }

  lemma RunOne(s: Scan, a: string, rest: seq<string>)
    ensures Run(s, [a] + rest) == Run(Step(s, a), rest)
  {
    assert ([a] + rest)[1..] == rest;
  }

  /** The defaults put in front parse to flags set and nothing awaited, unless the manifest path is
      itself a separator. */
  lemma DefaultsParse(p: Parsed, manifest: string)
    requires p.hasManifestPath || manifest != "--"
    ensures Ahead(START, Run(START, Defaults(p, manifest)), Defaults(p, manifest),
                  !p.hasManifestPath, !p.hasPackageSelection && !p.hasManifestPath, !p.hasNoDeps)
  {
    var a := if !p.hasManifestPath then ["--manifest-path", manifest] else [];
    var b := if !p.hasPackageSelection && !p.hasManifestPath then ["--workspace"] else [];
    var c := if !p.hasNoDeps then ["--no-deps"] else [];
    RunAppend(START, a + b, c);
    RunAppend(START, a, b);
    if a != [] { ManifestParse(manifest); }
    if b != [] { WorkspaceParse(Run(START, a)); }
    if c != [] { NoDepsParse(Run(Run(START, a), b)); }
  }

  lemma ManifestParse(manifest: string)
    requires manifest != "--"
    ensures Run(START, ["--manifest-path", manifest]) ==
      Scan(START.parsed.(lintArgs := ["--manifest-path", manifest], hasManifestPath := true), false, None)
  {
    assert ["--manifest-path", manifest] == ["--manifest-path"] + ([manifest] + []);
    RunOne(START, "--manifest-path", [manifest] + []);
    var s := Step(START, "--manifest-path");
    assert s == Scan(START.parsed.(lintArgs := ["--manifest-path"]), false, Some(ManifestPath));
    RunOne(s, manifest, []);
    AwaitedStep(s, manifest, EffectOf(manifest), SelectsTarget(manifest));
  }

  lemma AwaitedStep(s: Scan, arg: string, effect: Effect, selects: bool)
    requires !s.afterSeparator && s.awaiting == Some(ManifestPath) && arg != "--"
    ensures StepWith(s, arg, effect, selects) ==
      Scan(s.parsed.(lintArgs := s.parsed.lintArgs + [arg], hasManifestPath := true), false, None)
  {
  }

  lemma WorkspaceParse(s: Scan)
    requires !s.afterSeparator && s.awaiting.None?
    ensures Run(s, ["--workspace"]) ==
      Scan(s.parsed.(lintArgs := s.parsed.lintArgs + ["--workspace"], hasPackageSelection := true), false, None)
  {
    assert EffectOf("--workspace") == Gives(PackageSelection);
    RunOne(s, "--workspace", []);
    assert ["--workspace"] + [] == ["--workspace"];
  }

  lemma NoDepsParse(s: Scan)
    requires !s.afterSeparator && s.awaiting.None?
    ensures Run(s, ["--no-deps"]) ==
      Scan(s.parsed.(lintArgs := s.parsed.lintArgs + ["--no-deps"], hasNoDeps := true), false, None)
  {
    assert EffectOf("--no-deps") == NoDeps;
    RunOne(s, "--no-deps", []);
    assert ["--no-deps"] + [] == ["--no-deps"];
  }

  function BuiltCargo(p: Parsed): seq<string>
  {
    p.cargoArgs + if !p.hasFix && !p.hasTargetSelection then ["--all-targets"] else []
  }

  /** What parsing the built list gives. */
  lemma {:induction false} Reparse(argv: seq<string>, manifest: string)
    requires Parse(argv).hasManifestPath || manifest != "--"
    ensures var p, q := Parse(argv), Parse(Build(Parse(argv), manifest));
      && q.lintArgs == Defaults(p, manifest) + p.lintArgs && q.cargoArgs == BuiltCargo(p)
      && q.hasManifestPath && q.hasNoDeps && q.hasFix == p.hasFix
      && q.hasTargetSelection == AnyTarget(BuiltCargo(p))
  {
    var p := Parse(argv);
    RunReached(START, argv);
    var front, cargo := Defaults(p, manifest), BuiltCargo(p);
    DefaultsParse(p, manifest);
    var t := Run(START, front);
    StaysAhead(START, t, p.lintArgs, front, !p.hasManifestPath, !p.hasPackageSelection && !p.hasManifestPath,
               !p.hasNoDeps);
    RunAppend(START, front, p.lintArgs);
    CargoAppended(front + p.lintArgs, cargo);
  }

  /** Cargo arguments behind lint arguments change nothing but the cargo fields. */
  lemma CargoAppended(lint: seq<string>, cargo: seq<string>)
    requires var u := Run(START, lint); !u.afterSeparator && u.parsed.cargoArgs == [] && !u.parsed.hasTargetSelection
    ensures Parse(lint + if cargo != [] then ["--"] + cargo else []) ==
      Run(START, lint).parsed.(cargoArgs := cargo, hasTargetSelection := AnyTarget(cargo))
  {
    var u := Run(START, lint);
    if cargo != [] {
      RunAppend(START, lint, ["--"] + cargo);
      RunOne(u, "--", cargo);
      CargoPhase(Step(u, "--"), cargo);
      assert [] + cargo == cargo;
    } else {
      assert lint + [] == lint;
    }
  }

  lemma BuiltCargoSettles(argv: seq<string>)
    ensures var p := Parse(argv); p.hasFix || AnyTarget(BuiltCargo(p))
  {
    RunReached(START, argv);
    var p := Parse(argv);
    AnyTargetSnoc(p.cargoArgs, "--all-targets");
    assert p.cargoArgs + [] == p.cargoArgs;
  }

  /** A separator as manifest path hides everything after it from the second parse. */
  lemma SeparatorBreaks(argv: seq<string>)
    requires !Parse(argv).hasManifestPath
    ensures Build(Parse(Build(Parse(argv), "--")), "--") != Build(Parse(argv), "--")
  {
    var built := Build(Parse(argv), "--");
    var rest := built[2..];
    assert built == ["--manifest-path"] + (["--"] + rest);
    RunOne(START, "--manifest-path", ["--"] + rest);
    var s := Step(START, "--manifest-path");
    RunOne(s, "--", rest);
    CargoPhase(Step(s, "--"), rest);
    var q := Parse(built);
    assert q.lintArgs == ["--manifest-path"] && q.cargoArgs == rest && !q.hasManifestPath && !q.hasNoDeps;
    assert |Build(q, "--")| > |built|;
  }

  /** Building is a fixpoint of parse-and-build exactly when the manifest path the wrapper supplies is
      not itself a separator, whatever the arguments: dangling value flags, flags swallowed as values,
      or a bare separator. */
  lemma {:induction false} BuildIsFixpoint(argv: seq<string>, manifest: string)
    ensures Build(Parse(Build(Parse(argv), manifest)), manifest) == Build(Parse(argv), manifest)
      <==> Parse(argv).hasManifestPath || manifest != "--"
  {
    if Parse(argv).hasManifestPath || manifest != "--" {
      Reparse(argv, manifest);
      BuiltCargoSettles(argv);
      var p, q := Parse(argv), Parse(Build(Parse(argv), manifest));
      assert Defaults(q, manifest) == [];
      assert BuiltCargo(q) == BuiltCargo(p);
      assert [] + q.lintArgs == q.lintArgs;
    } else {
      SeparatorBreaks(argv);
    }
  }

  method BuildFinalArgs(parsed: Parsed, manifest: string) returns (finalArgs: seq<string>)
    ensures finalArgs == Build(parsed, manifest)
  {
    finalArgs := [];
    var cargoArgs := parsed.cargoArgs;
    if !parsed.hasManifestPath { finalArgs := finalArgs + ["--manifest-path", manifest]; }
    if !parsed.hasPackageSelection && !parsed.hasManifestPath { finalArgs := finalArgs + ["--workspace"]; }
    if !parsed.hasNoDeps { finalArgs := finalArgs + ["--no-deps"]; }
    assert finalArgs == Defaults(parsed, manifest);
    if !parsed.hasFix && !parsed.hasTargetSelection { cargoArgs := cargoArgs + ["--all-targets"]; }
    finalArgs := finalArgs + parsed.lintArgs;
    if cargoArgs != [] { finalArgs := finalArgs + (["--"] + cargoArgs); }
  }
}
