/** The two pieces of pure logic in daemontool.py's file and argument
    helpers: the path clean-up `mkdir` does before creating directories, and
    the key check `parserinit` makes on each argument spec before handing it
    to argparse. */
module DaemonTool {
  import opened Wrappers
  import Strs

  /** Every character of `s` is `c`. */
  predicate AllChar(s: string, c: char) {
    forall k :: 0 <= k < |s| ==> s[k] == c
  }

  /** `path.strip().rstrip("\\")`, the path `mkdir` goes on to create. */
  function NormalisePath(path: string): (r: string)
    ensures r == [] || r[|r| - 1] != '\\'
    ensures |r| <= |Strs.Strip(path)| && r == Strs.Strip(path)[..|r|]
    ensures AllChar(Strs.Strip(path)[|r|..], '\\')
    ensures r == [] || !Strs.IsSpace(r[0])
  {
    var s := Strs.Strip(path);
    Strs.StripEnds(path);
    var r := Strs.TrimRightChar(s, '\\');
    assert r != [] ==> r[0] == s[0];
    r
  }

  /** When the clean path does not end in white space, cleaning it again
      changes nothing. */
  lemma NormalisePathStable(path: string)
    requires var r := NormalisePath(path); r == [] || !Strs.IsSpace(r[|r| - 1])
    ensures NormalisePath(NormalisePath(path)) == NormalisePath(path)
  {
    Strs.StripUnpadded(NormalisePath(path));
  }

  lemma StripTrailingSpace(t: string)
    requires |t| == 2 && !Strs.IsSpace(t[0]) && t[1] == ' '
    ensures Strs.Strip(t) == t[..1]
  {
    assert t[0..1] == t[..1] && t[..0] == [] && Strs.AllSpace(t[1..]);
    assert Strs.StripSlice(t, t[..1], 0, 1);
    Strs.StripUnique(t, t[..1], Strs.Strip(t));
  }

  lemma TrimBackslash(x: char)
    requires x != '\\'
    ensures Strs.TrimRightChar([x, ' ', '\\'], '\\') == [x, ' ']
    ensures Strs.TrimRightChar([x], '\\') == [x]
  {
    assert [x, ' ', '\\'][..2] == [x, ' '];
  }

  lemma NormaliseTrailingBackslash(x: char)
    requires !Strs.IsSpace(x) && x != '\\'
    ensures NormalisePath([x, ' ', '\\']) == [x, ' ']
  {
    Strs.StripUnpadded([x, ' ', '\\']);
    TrimBackslash(x);
  }

  lemma NormaliseTrailingSpace(x: char)
    requires !Strs.IsSpace(x) && x != '\\'
    ensures NormalisePath([x, ' ']) == [x]
  {
    StripTrailingSpace([x, ' ']);
    assert [x, ' '][..1] == [x];
    TrimBackslash(x);
  }

  /** Stripping happens before the backslashes go, so white space they
      covered survives: `x + " \\"` cleans to `x + " "`, which cleans to `x`. */
  lemma NormalisePathNotIdempotent(x: char)
    requires !Strs.IsSpace(x) && x != '\\'
    ensures NormalisePath([x, ' ', '\\']) == [x, ' ']
    ensures NormalisePath(NormalisePath([x, ' ', '\\'])) == [x] != NormalisePath([x, ' ', '\\'])
  {
    NormaliseTrailingBackslash(x);
    NormaliseTrailingSpace(x);
  }

  /** What `parserinit` raises. */
  datatype SpecError =
    | WrongArguments       // the KeyError with the "Wrong arguments" message
    | MissingKey(key: string)  // the KeyError of `arg['param']`

  /** Python truthiness of a string: it is non-empty. */
  predicate Truthy(s: string) {
    |s| > 0
  }

  /** The guard `'param' and 'help' in arg.keys()`, read as Python parses it:
      `'param' and ('help' in arg.keys())`. */
  predicate SpecGuard(arg: map<string, string>) {
    Truthy("param") && "help" in arg
  }

  /** The guard tests only for 'help'. */
  lemma SpecGuardIsHelp(arg: map<string, string>)
    ensures SpecGuard(arg) <==> "help" in arg
  {
  }

  predicate SpecComplete(arg: map<string, string>) {
    "param" in arg && "help" in arg
  }

  /** `i` is the first spec that stops `parserinit`. */
  predicate FirstIncomplete(args: seq<map<string, string>>, i: int) {
    && 0 <= i < |args| && !SpecComplete(args[i])
    && forall j :: 0 <= j < i ==> SpecComplete(args[j])
  }

  /** The argument registrations `parserinit` makes, `(param, help)` in
      order, or the first error it raises. */
  function ParserInit(args: seq<map<string, string>>): (r: Result<seq<(string, string)>, SpecError>)
    ensures r.Failure? ==> r.error == WrongArguments || r.error == MissingKey("param")
    ensures r.Success? ==> |r.value| == |args|
  {
    if args == [] then Success([])
    else if !SpecGuard(args[0]) then Failure(WrongArguments)
    else if "param" !in args[0] then Failure(MissingKey("param"))
    else
      match ParserInit(args[1..])
      case Failure(e) => Failure(e)
      case Success(rest) => Success([(args[0]["param"], args[0]["help"])] + rest)
  }

  /** `parserinit` registers every spec, in order, exactly when all of them
      have both keys. */
  lemma {:induction false} ParserInitSuccess(args: seq<map<string, string>>)
    ensures ParserInit(args).Success? <==> forall i :: 0 <= i < |args| ==> SpecComplete(args[i])
    ensures ParserInit(args).Success? ==>
      && |ParserInit(args).value| == |args|
      && forall i :: 0 <= i < |args| ==> ParserInit(args).value[i] == (args[i]["param"], args[i]["help"])
  {
    if args != [] {
      var rest := args[1..];
      ParserInitSuccess(rest);
      assert forall i :: 1 <= i < |args| ==> args[i] == rest[i - 1];
    }
  }

  /** Otherwise it stops at the first incomplete spec: `Wrong arguments`
      when that spec lacks `help`, and the KeyError of `param` when it has
      `help` but no `param`. */
  lemma {:induction false} ParserInitFailure(args: seq<map<string, string>>, i: int)
    requires FirstIncomplete(args, i)
    ensures ParserInit(args) == Failure(if "help" !in args[i] then WrongArguments else MissingKey("param"))
  {
    if i > 0 {
      var rest := args[1..];
      assert FirstIncomplete(rest, i - 1) by {
        forall j | 0 <= j < i - 1 ensures SpecComplete(rest[j]) {
          assert rest[j] == args[j + 1];
        }
      }
      ParserInitFailure(rest, i - 1);
      assert SpecComplete(args[0]);
    }
  }
}
