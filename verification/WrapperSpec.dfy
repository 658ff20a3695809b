/** The lint wrapper's final arguments, said about the argument list it was given. */
module WrapperSpec {
  import opened WrapperArgs
  import opened Wrappers

  /** The argument takes the next one as its value. */
  predicate TakesValue(arg: string) { arg in {"--manifest-path", "-p", "--package", "--lib", "--lib-path"} }

  /** The `i`-th argument is the value of the one before it, which is no value itself. */
  predicate IsValue(lint: seq<string>, i: nat)
    requires i < |lint|
  {
    i > 0 && TakesValue(lint[i - 1]) && !IsValue(lint, i - 1)
  }

  /** An argument that is no value is one of these. */
  predicate Has(lint: seq<string>, flags: set<string>)
  {
    exists i | 0 <= i < |lint| :: lint[i] in flags && !IsValue(lint, i)
  }

  predicate HasPrefix(lint: seq<string>, prefix: string)
  {
    exists i | 0 <= i < |lint| :: prefix <= lint[i] && !IsValue(lint, i)
  }

  /** One of these flags is followed by its value. */
  predicate HasValueOf(lint: seq<string>, flags: set<string>)
  {
    exists i | 0 < i < |lint| :: IsValue(lint, i) && lint[i - 1] in flags
  }

  predicate GivesManifest(lint: seq<string>)
  {
    HasValueOf(lint, {"--manifest-path"}) || HasPrefix(lint, "--manifest-path=")
  }

  predicate GivesPackage(lint: seq<string>)
  {
    HasValueOf(lint, {"-p", "--package"}) || HasPrefix(lint, "--package=") || Has(lint, {"--workspace"})
  }

  predicate GivesLibrary(lint: seq<string>)
  {
    HasValueOf(lint, {"--lib", "--lib-path"}) || HasPrefix(lint, "--lib=") || HasPrefix(lint, "--lib-path=")
  }

  /** The flag itself, or the flag with its value. */
  predicate Names(arg: string, flag: string) { arg == flag || flag + "=" <= arg }

  /** The cargo argument selects what cargo builds. */
  predicate Selects(arg: string)
  {
    || arg in {"--all-targets", "--lib", "--bins", "--tests", "--examples", "--benches", "--doc"}
    || exists kind | kind in {"--bin", "--test", "--example", "--bench"} :: Names(arg, kind)
  }

  /** The arguments in front of the first separator, and those behind it. */
  ghost predicate SplitAt(argv: seq<string>, lint: seq<string>, cargo: seq<string>)
  {
    "--" !in lint && ((argv == lint && cargo == []) || argv == lint + ["--"] + cargo)
  }

  /** The arguments the wrapper passes on. */
  function Final(lint: seq<string>, cargo: seq<string>, manifest: string): seq<string>
  {
    var targets :=
      if Has(lint, {"--fix"}) || (exists i | 0 <= i < |cargo| :: Selects(cargo[i])) then cargo
      else cargo + ["--all-targets"];
    (if GivesManifest(lint) then [] else ["--manifest-path", manifest])
    + (if GivesManifest(lint) || GivesPackage(lint) then [] else ["--workspace"])
    + (if Has(lint, {"--no-deps"}) then [] else ["--no-deps"])
    + lint
    + (if targets == [] then [] else ["--"] + targets)
  }

  // ----- one more argument

  lemma {:induction false} IsValueSnoc(lint: seq<string>, arg: string, i: nat)
    requires i < |lint|
    ensures IsValue(lint + [arg], i) == IsValue(lint, i)
  {
    if i > 0 { IsValueSnoc(lint, arg, i - 1); }
  }

  lemma LastIsValue(lint: seq<string>, arg: string)
    ensures IsValue(lint + [arg], |lint|) <==>
      lint != [] && TakesValue(lint[|lint| - 1]) && !IsValue(lint, |lint| - 1)
  {
    if lint != [] { IsValueSnoc(lint, arg, |lint| - 1); }
  }

  lemma HasSnoc(lint: seq<string>, arg: string, flags: set<string>)
    ensures Has(lint + [arg], flags) <==> Has(lint, flags) || (arg in flags && !IsValue(lint + [arg], |lint|))
  {
    var all := lint + [arg];
    forall i | 0 <= i < |lint| ensures IsValue(all, i) == IsValue(lint, i) && all[i] == lint[i] {
      IsValueSnoc(lint, arg, i);
    }
    assert all[|lint|] == arg;
  }

  lemma PrefixSnoc(lint: seq<string>, arg: string, prefix: string)
    ensures HasPrefix(lint + [arg], prefix) <==>
      HasPrefix(lint, prefix) || (prefix <= arg && !IsValue(lint + [arg], |lint|))
  {
    var all := lint + [arg];
    forall i | 0 <= i < |lint| ensures IsValue(all, i) == IsValue(lint, i) && all[i] == lint[i] {
      IsValueSnoc(lint, arg, i);
    }
    assert all[|lint|] == arg;
  }

  lemma ValueSnoc(lint: seq<string>, arg: string, flags: set<string>)
    ensures HasValueOf(lint + [arg], flags) <==>
      HasValueOf(lint, flags) || (IsValue(lint + [arg], |lint|) && lint[|lint| - 1] in flags)
  {
    var all := lint + [arg];
    forall i | 0 <= i < |lint| ensures IsValue(all, i) == IsValue(lint, i) && all[i] == lint[i] {
      IsValueSnoc(lint, arg, i);
    }
    assert all[|lint|] == arg;
  }

  // ----- what the loop finds

  function Waiting(lint: seq<string>): Option<Awaited>
  {
    if lint == [] || IsValue(lint, |lint| - 1) then None
    else
      var last := lint[|lint| - 1];
      if last == "--manifest-path" then Some(ManifestPath)
      else if last in {"-p", "--package"} then Some(PackageSelection)
      else if last in {"--lib", "--lib-path"} then Some(LibrarySelection)
      else None
  }

  /** The loop's state after these lint arguments. */
  predicate Found(s: Scan, lint: seq<string>)
  {
    && s.parsed.lintArgs == lint && s.parsed.cargoArgs == [] && !s.parsed.hasTargetSelection && !s.afterSeparator
    && s.awaiting == Waiting(lint)
    && (s.parsed.hasManifestPath <==> GivesManifest(lint)) && (s.parsed.hasPackageSelection <==> GivesPackage(lint))
    && (s.parsed.hasLibrarySelection <==> GivesLibrary(lint))
    && (s.parsed.hasNoDeps <==> Has(lint, {"--no-deps"})) && (s.parsed.hasFix <==> Has(lint, {"--fix"}))
  }

  lemma {:induction false} LintFound(lint: seq<string>)
    requires "--" !in lint
    ensures Found(Run(START, lint), lint)
    decreases |lint|
  {
    if lint != [] {
      var init, arg := lint[..|lint| - 1], lint[|lint| - 1];
      assert lint == init + [arg];
      LintFound(init);
      RunAppend(START, init, [arg]);
      var s := Run(START, init);
      RunOne(s, arg, []);
      assert [arg] + [] == [arg];
      FoundNext(s, init, arg);
    }
  }

  /** What one argument adds to each finding. */
  lemma GivesSnoc(init: seq<string>, arg: string)
    ensures var value, last := IsValue(init + [arg], |init|), if init == [] then "" else init[|init| - 1];
      && (GivesManifest(init + [arg]) <==>
            GivesManifest(init) || if value then last == "--manifest-path" else "--manifest-path=" <= arg)
      && (GivesPackage(init + [arg]) <==>
            GivesPackage(init)
            || if value then last in {"-p", "--package"} else "--package=" <= arg || arg == "--workspace")
      && (GivesLibrary(init + [arg]) <==>
            GivesLibrary(init)
            || if value then last in {"--lib", "--lib-path"} else "--lib=" <= arg || "--lib-path=" <= arg)
      && (Has(init + [arg], {"--no-deps"}) <==> Has(init, {"--no-deps"}) || (!value && arg == "--no-deps"))
      && (Has(init + [arg], {"--fix"}) <==> Has(init, {"--fix"}) || (!value && arg == "--fix"))
  {
    ValueSnoc(init, arg, {"--manifest-path"});
    ValueSnoc(init, arg, {"-p", "--package"});
    ValueSnoc(init, arg, {"--lib", "--lib-path"});
    PrefixSnoc(init, arg, "--manifest-path=");
    PrefixSnoc(init, arg, "--package=");
    PrefixSnoc(init, arg, "--lib=");
    PrefixSnoc(init, arg, "--lib-path=");
    HasSnoc(init, arg, {"--workspace"});
    HasSnoc(init, arg, {"--no-deps"});
    HasSnoc(init, arg, {"--fix"});
  }

  lemma FoundNext(s: Scan, init: seq<string>, arg: string)
    requires Found(s, init) && arg != "--"
    ensures Found(Step(s, arg), init + [arg])
  {
    GivesSnoc(init, arg);
    LastIsValue(init, arg);
    LintStepKeeps(s, arg, EffectOf(arg), SelectsTarget(arg));
    if s.awaiting.Some? {
      AnyAwaited(s, arg, EffectOf(arg), SelectsTarget(arg));
    } else {
      NothingAwaited(s, arg);
    }
  }

  lemma AnyAwaited(s: Scan, arg: string, effect: Effect, selects: bool)
    requires !s.afterSeparator && s.awaiting.Some? && arg != "--"
    ensures StepWith(s, arg, effect, selects) ==
      Scan(Give(s.parsed.(lintArgs := s.parsed.lintArgs + [arg]), s.awaiting.value), false, None)
  {
  }

  /** What the argument itself says when no value is awaited. */
  lemma NothingAwaited(s: Scan, arg: string)
    requires !s.afterSeparator && s.awaiting.None? && arg != "--"
    ensures var p, p' := s.parsed, Step(s, arg).parsed;
      && p'.hasManifestPath == (p.hasManifestPath || "--manifest-path=" <= arg)
      && p'.hasPackageSelection == (p.hasPackageSelection || "--package=" <= arg || arg == "--workspace")
      && p'.hasLibrarySelection == (p.hasLibrarySelection || "--lib=" <= arg || "--lib-path=" <= arg)
      && p'.hasNoDeps == (p.hasNoDeps || arg == "--no-deps") && p'.hasFix == (p.hasFix || arg == "--fix")
    ensures Step(s, arg).awaiting ==
      if arg == "--manifest-path" then Some(ManifestPath)
      else if arg in {"-p", "--package"} then Some(PackageSelection)
      else if arg in {"--lib", "--lib-path"} then Some(LibrarySelection)
      else None
  {
    OneKind(arg);
  }

  /** An argument is of one kind only. */
  lemma OneKind(arg: string)
    ensures "--manifest-path=" <= arg ==> EffectOf(arg) == Gives(ManifestPath)
    ensures "--package=" <= arg || arg == "--workspace" ==> EffectOf(arg) == Gives(PackageSelection)
    ensures "--lib=" <= arg || "--lib-path=" <= arg ==> EffectOf(arg) == Gives(LibrarySelection)
    ensures arg == "--fix" ==> EffectOf(arg) == Fix
    ensures arg == "--no-deps" ==> EffectOf(arg) == NoDeps
    ensures arg == "--manifest-path" ==> EffectOf(arg) == Await(ManifestPath)
    ensures arg in {"-p", "--package"} ==> EffectOf(arg) == Await(PackageSelection)
    ensures arg in {"--lib", "--lib-path"} ==> EffectOf(arg) == Await(LibrarySelection)
  {
    if "--manifest-path=" <= arg { assert arg[2] == 'm'; }
    if "--package=" <= arg { assert arg[2] == 'p' && arg[9] == '='; }
    if "--lib=" <= arg { assert arg[2] == 'l' && arg[5] == '='; }
    if "--lib-path=" <= arg { assert arg[2] == 'l' && arg[5] == '-' && arg[10] == '='; }
  }

  lemma SelectsIff(arg: string)
    ensures SelectsTarget(arg) <==> Selects(arg)
  {
    assert Names(arg, "--bin") <==> arg == "--bin" || "--bin=" <= arg by { assert "--bin" + "=" == "--bin="; }
    assert Names(arg, "--test") <==> arg == "--test" || "--test=" <= arg by { assert "--test" + "=" == "--test="; }
    assert Names(arg, "--example") <==> arg == "--example" || "--example=" <= arg by {
      assert "--example" + "=" == "--example=";
    }
    assert Names(arg, "--bench") <==> arg == "--bench" || "--bench=" <= arg by { assert "--bench" + "=" == "--bench="; }
  }

  /** Parsing and building yields the final arguments of whatever stands before and behind the first
      separator. */
  lemma {:induction false} FinalArgs(argv: seq<string>, lint: seq<string>, cargo: seq<string>, manifest: string)
    requires SplitAt(argv, lint, cargo)
    ensures Build(Parse(argv), manifest) == Final(lint, cargo, manifest)
    ensures Parse(argv).lintArgs == lint && Parse(argv).cargoArgs == cargo
    ensures Parse(argv).hasLibrarySelection <==> GivesLibrary(lint)
  {
    LintFound(lint);
    var s := Run(START, lint);
    if argv != lint {
      assert argv == lint + (["--"] + cargo);
      RunAppend(START, lint, ["--"] + cargo);
      RunOne(s, "--", cargo);
      CargoPhase(Step(s, "--"), cargo);
      assert [] + cargo == cargo;
    }
    forall i | 0 <= i < |cargo| { SelectsIff(cargo[i]); }
    assert Parse(argv).hasTargetSelection <==> exists i | 0 <= i < |cargo| :: Selects(cargo[i]);
    assert cargo + [] == cargo;
  }

  /** Every argument list splits so. */
  lemma {:induction false} Splits(argv: seq<string>) returns (lint: seq<string>, cargo: seq<string>)
    ensures SplitAt(argv, lint, cargo)
  {
    if argv == [] {
      lint, cargo := [], [];
    } else if argv[0] == "--" {
      lint, cargo := [], argv[1..];
      assert argv == ["--"] + argv[1..];
    } else {
      lint, cargo := Splits(argv[1..]);
      assert argv == [argv[0]] + argv[1..];
      if argv[1..] != lint { assert argv == ([argv[0]] + lint) + ["--"] + cargo; }
      lint := [argv[0]] + lint;
    }
  }
}
