/** The command string that `NuitkaMake` of dmutils.py builds: a base
    command chosen by the platform, then one ` --arg` per `ADD_ARG` call,
    with the main file kept at the end by deleting it and appending it
    again. */
module Nuitka {
  import opened Wrappers
  import Strs

  /** The command `__init__` starts from, or its TypeError. */
  function BaseCommand(system: string): (r: Result<string, string>)
    ensures r.Success? <==> system == "Windows" || system == "Linux"
    ensures system == "Windows" ==> r.value == "python -m nuitka"
    ensures system == "Linux" ==> r.value == "python3 -m nuitka"
    ensures r.Failure? ==> r.error == "Unsupported system"
  {
    match system
    case "Windows" => Success("python -m nuitka")
    case "Linux" => Success("python3 -m nuitka")
    case _ => Failure("Unsupported system")
  }

  /** `base + " --a0 --a1 ... --an"`: the base command and the flags of the
      arguments in the order given. */
  function Flagged(base: string, args: seq<string>): string {
    if args == [] then base else Flagged(base, args[..|args| - 1]) + " --" + args[|args| - 1]
  }

  /** The command after the arguments `args`, when none of them disturbs the
      deletion of the main file. */
  function Built(base: string, args: seq<string>, main: string): string {
    if args == [] then base else Flagged(base, args) + " " + main
  }

  /** The main file has no space and `" " + main` occurs neither in the base
      command nor in any flag, so the deletion only ever finds the trailing
      copy. */
  predicate Clean(base: string, args: seq<string>, main: string) {
    ' ' !in main && !Strs.Contains(Flagged(base, args), " " + main)
  }

  lemma FlaggedAppend(base: string, args: seq<string>, a: string)
    ensures Flagged(base, args + [a]) == Flagged(base, args) + " --" + a
  {
    assert (args + [a])[..|args|] == args;
  }

  lemma CleanPrefix(base: string, args: seq<string>, a: string, main: string)
    requires Clean(base, args + [a], main)
    ensures Clean(base, args, main)
  {
    var p := Flagged(base, args);
    FlaggedAppend(base, args, a);
    assert Flagged(base, args + [a]) == p + (" --" + a);
    if Strs.Contains(p, " " + main) {
      Strs.ContainsExtend(p, " --" + a, " " + main);
    }
  }

  /** One `ADD_ARG` on a clean command: deleting the main file and appending
      `" --" + a + " " + main` extends the built command by exactly that flag. */
  lemma AddArgStep(base: string, args: seq<string>, a: string, main: string)
    requires Clean(base, args + [a], main)
    ensures Strs.RemoveAll(Built(base, args, main), " " + main) + " --" + a + " " + main
         == Built(base, args + [a], main)
  {
    CleanPrefix(base, args, a, main);
    FlaggedAppend(base, args, a);
    DeleteMain(base, args, main);
  }

  /** `ADD_ARG` keeps the main file at the end, and keeps the command the
      built one while no argument disturbs it. */
  lemma AddArgKeeps(base: string, args: seq<string>, a: string, main: string, c: string)
    requires Clean(base, args, main) ==> c == Built(base, args, main)
    ensures var n := Strs.RemoveAll(c, " " + main) + " --" + a + " " + main;
      && |n| >= |main| + 1 && n[|n| - |main| - 1..] == " " + main
      && (Clean(base, args + [a], main) ==> n == Built(base, args + [a], main))
  {
    var n := Strs.RemoveAll(c, " " + main) + " --" + a + " " + main;
    Strs.ConcatAssoc(Strs.RemoveAll(c, " " + main) + " --" + a, " ", main);
    if Clean(base, args + [a], main) {
      CleanPrefix(base, args, a, main);
      AddArgStep(base, args, a, main);
    }
  }

  /** The deletion in `ADD_ARG` takes a clean command back to its flags. */
  lemma DeleteMain(base: string, args: seq<string>, main: string)
    requires Clean(base, args, main)
    ensures Strs.RemoveAll(Built(base, args, main), " " + main) == Flagged(base, args)
  {
    var pat := " " + main;
    var p := Flagged(base, args);
    if args == [] {
      Strs.RemoveAllAbsent(base, pat);
    } else {
      assert pat[1..] == main;
      Strs.RemoveAllTrailing(p, pat, []);
      Strs.ConcatAssoc(p, " ", main);
      assert p + pat + [] == p + pat;
      assert Strs.RemoveAll([], pat) == [];
    }
  }

  /** The arguments appear in the built command in the order they were added:
      the command for `args` is a prefix of the command for any extension. */
  lemma {:induction false} FlaggedOrder(base: string, args: seq<string>, more: seq<string>)
    ensures Flagged(base, args) <= Flagged(base, args + more)
    decreases |more|
  {
    if more != [] {
      var front := more[..|more| - 1];
      FlaggedOrder(base, args, front);
      assert (args + more)[..|args + more| - 1] == args + front;
    } else {
      assert args + more == args;
    }
  }

  /** An argument that itself ends in `" " + main` loses that ending at the
      next `ADD_ARG`: adding `"x " + main` and then `"y"` gives the command
      of the arguments `x` and `y`, not of `"x " + main` and `y`. */
  lemma ArgEndingInMain(base: string, main: string)
    requires Clean(base, ["x"], main)
    ensures var pat := " " + main;
      var c1 := Strs.RemoveAll(base, pat) + " --" + ("x " + main) + pat;
      var c2 := Strs.RemoveAll(c1, pat) + " --y" + pat;
      && c2 == Built(base, ["x", "y"], main)
      && c2 != Built(base, ["x " + main, "y"], main)
  {
    var pat := " " + main;
    SecondCopyDeleted(base, main);
    FlaggedTwo(base, "x", "y");
    FlaggedTwo(base, "x " + main, "y");
    var c2 := base + " --x" + " --y" + pat;
    TwoFlagsSpelled(base, main);
    assert |Built(base, ["x " + main, "y"], main)| == |c2| + |pat|;
  }

  /** The two-flag command regrouped literal by literal, kept apart so that
      the proof above stays small. */
  lemma TwoFlagsSpelled(base: string, main: string)
    ensures base + " --" + "x" + " --" + "y" + " " + main == base + " --x" + " --y" + (" " + main)
  {
    assert " --" + "x" == " --x" && " --" + "y" == " --y";
    var a := base + " --x";
    Strs.ConcatAssoc(base, " --", "x");
    var b := a + " --y";
    Strs.ConcatAssoc(a, " --", "y");
    Strs.ConcatAssoc(b, " ", main);
  }

  /** The deletion after `"x " + main` was added takes both copies of the
      main file. */
  lemma SecondCopyDeleted(base: string, main: string)
    requires Clean(base, ["x"], main)
    ensures var pat := " " + main;
      Strs.RemoveAll(Strs.RemoveAll(base, pat) + " --" + ("x " + main) + pat, pat) == base + " --x"
  {
    var pat := " " + main;
    FlaggedOne(base, "x");
    assert [] + ["x"] == ["x"];
    CleanPrefix(base, [], "x", main);
    Strs.RemoveAllAbsent(base, pat);
    var p := base + " --x";
    assert " --" + "x" == " --x";
    assert p == Flagged(base, ["x"]);
    assert Strs.RemoveAll(base, pat) + " --" + ("x " + main) + pat == p + pat + pat;
    assert pat[1..] == main;
    Strs.RemoveAllTrailing(p, pat, pat);
    Strs.RemoveAllSelf(pat);
  }

  lemma FlaggedOne(base: string, a: string)
    ensures Flagged(base, [a]) == base + " --" + a
  {
    assert [a][..0] == [];
  }

  lemma FlaggedTwo(base: string, a: string, b: string)
    ensures Flagged(base, [a, b]) == base + " --" + a + " --" + b
  {
    assert [a, b][..1] == [a];
    FlaggedOne(base, a);
  }

  /** The `NuitkaMake` object as far as its command goes. `base` and `args`
      record how the command came about. */
  class NuitkaMake {
    var command: string
    const main: string
    var printed: seq<string>
    ghost const base: string
    ghost var args: seq<string>

    /** The command always ends with the main file once an argument is in,
        and it is the built command while no argument disturbs it. */
    ghost predicate Valid()
      reads this
    {
      && (args != [] ==> |command| >= |main| + 1 && command[|command| - |main| - 1..] == " " + main)
      && (Clean(base, args, main) ==> command == Built(base, args, main))
    }

    /** `__init__` on a supported platform. */
    constructor(system: string, main: string)
      requires BaseCommand(system).Success?
      ensures command == BaseCommand(system).value && this.main == main
      ensures base == command && args == [] && printed == []
      ensures Valid()
    {
      command := BaseCommand(system).value;
      this.main := main;
      printed := [];
      base := BaseCommand(system).value;
      args := [];
    }

    /** `ADD_ARG(arg)`: delete every `" " + main`, append
        `" --" + arg + " " + main`, and print the flag. */
    method AddArg(arg: string)
      requires Valid()
      modifies this
      ensures command == Strs.RemoveAll(old(command), " " + main) + " --" + arg + " " + main
      ensures args == old(args) + [arg]
      ensures printed == old(printed) + ["Adding arg: --" + arg]
      ensures Valid()
    {
      AddArgKeeps(base, args, arg, main, command);
      command := Strs.RemoveAll(command, " " + main);
      command := command + " --" + arg + " " + main;
      args := args + [arg];
      printed := printed + ["Adding arg: --" + arg];
    }
  }

  /** `NuitkaMake(main)` on the platform `system`: the object, or the
      TypeError an unsupported platform raises. */
  method Create(system: string, main: string) returns (r: Result<NuitkaMake, string>)
    ensures r.Failure? <==> BaseCommand(system).Failure?
    ensures r.Failure? ==> r.error == "Unsupported system"
    ensures r.Success? ==>
      && fresh(r.value) && r.value.Valid()
      && r.value.command == BaseCommand(system).value && r.value.main == main && r.value.args == []
  {
    match BaseCommand(system)
    case Failure(e) => r := Failure(e);
    case Success(_) =>
      var nm := new NuitkaMake(system, main);
      r := Success(nm);
  }
}
