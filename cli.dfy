/**
 * The decision `main` makes from its command-line arguments (the arguments
 * after the interpreter and script names): show the usage block, run one or
 * both demos, or reject an unknown demo name with exit status 1.
 */
module Cli {

  datatype Demo = StackDemo | SearchDemo

  /** What the arguments select. `Unknown` carries the lower-cased name that the error message shows. */
  datatype Outcome = Usage | RunStack | RunSearch | RunAll | Unknown(demo: string)

  /** Lower-cases one character; only ASCII letters are mapped. */
  function LowerChar(c: char): (r: char)
    ensures 'A' <= c <= 'Z' ==> r as int == c as int + 32
    ensures !('A' <= c <= 'Z') ==> r == c
    ensures !('A' <= r <= 'Z')
  {
    if 'A' <= c <= 'Z' then (c as int + 32) as char else c
  }

  /** `toLowerCase`, restricted to ASCII: every character lower-cased, length kept. */
  function Lower(s: string): (r: string)
    ensures |r| == |s|
    ensures forall i :: 0 <= i < |s| ==> r[i] == LowerChar(s[i])
  {
    if s == [] then [] else [LowerChar(s[0])] + Lower(s[1..])
  }

  /** Lower-casing twice is the same as lower-casing once. */
  lemma LowerIdempotent(s: string)
    ensures Lower(Lower(s)) == Lower(s)
  {
  }

  /** No arguments at all, or `--help` / `-h` anywhere among them. */
  predicate WantsHelp(args: seq<string>)
  {
    |args| == 0 || "--help" in args || "-h" in args
  }

  /** The demo names `main` recognises, already lower-cased. */
  predicate IsDemoName(name: string)
  {
    name == "stack" || name == "search" || name == "all"
  }

  /**
   * The dispatch of `main`. A help request wins over any demo name; otherwise
   * only the first argument, lower-cased, decides.
   */
  function Dispatch(args: seq<string>): (o: Outcome)
    ensures o == Usage <==> WantsHelp(args)
    ensures !WantsHelp(args) ==> o == Select(Lower(args[0]))
  {
    if WantsHelp(args) then Usage else Select(Lower(args[0]))
  }

  /** The `switch` on the lower-cased first argument. */
  function Select(name: string): (o: Outcome)
    ensures o == RunStack <==> name == "stack"
    ensures o == RunSearch <==> name == "search"
    ensures o == RunAll <==> name == "all"
    ensures o.Unknown? <==> !IsDemoName(name)
    ensures o.Unknown? ==> o.demo == name
    ensures o != Usage
  {
    match name
    case "stack" => RunStack
    case "search" => RunSearch
    case "all" => RunAll
    case _ => Unknown(name)
  }

  /** The process exit status: 1 only for an unknown demo, 0 for everything else. */
  function ExitCode(o: Outcome): (code: int)
    ensures code == 0 || code == 1
    ensures code == 1 <==> o.Unknown?
  {
    if o.Unknown? then 1 else 0
  }

  /** The demos an outcome runs, in order; help and unknown names run none. */
  function DemosRun(o: Outcome): (ds: seq<Demo>)
    ensures (o == Usage || o.Unknown?) <==> ds == []
    ensures StackDemo in ds <==> (o == RunStack || o == RunAll)
    ensures SearchDemo in ds <==> (o == RunSearch || o == RunAll)
    ensures o == RunStack ==> ds == [StackDemo]
    ensures o == RunSearch ==> ds == [SearchDemo]
    ensures o == RunAll ==> ds == [StackDemo, SearchDemo]
  {
    match o
    case Usage => []
    case RunStack => [StackDemo]
    case RunSearch => [SearchDemo]
    case RunAll => [StackDemo, SearchDemo]
    case Unknown(_) => []
  }

  /** The process fails exactly when no help is asked for and the first argument names no demo. */
  lemma ExitFailsOnlyForUnknownDemo(args: seq<string>)
    ensures ExitCode(Dispatch(args)) == 1 <==> !WantsHelp(args) && !IsDemoName(Lower(args[0]))
    ensures ExitCode(Dispatch(args)) == 0 ==> DemosRun(Dispatch(args)) != [] || WantsHelp(args)
  {
  }

  /** A help flag anywhere overrides whatever demo name comes before or after it. */
  lemma HelpOverridesDemoName(args: seq<string>, i: nat)
    requires i < |args| && (args[i] == "--help" || args[i] == "-h")
    ensures Dispatch(args) == Usage && ExitCode(Dispatch(args)) == 0 && DemosRun(Dispatch(args)) == []
  {
  }

  /** The demo name is matched case-insensitively: upper-casing any letters of it changes nothing. */
  lemma DispatchIgnoresCase(args: seq<string>, name: string)
    requires |args| > 0 && !WantsHelp(args) && Lower(name) == Lower(args[0])
    requires name != "--help" && name != "-h"
    ensures Dispatch([name] + args[1..]) == Dispatch(args)
  {
  }

  /** Help is shown for no arguments and for a help flag, even after a demo name. */
  lemma UsageExamples()
    ensures Dispatch([]) == Usage && Dispatch(["--help"]) == Usage
    ensures Dispatch(["stack", "-h"]) == Usage && ExitCode(Usage) == 0
  {
  }

  /** Demo names in any letter case, and a name that is not a demo. */
  lemma DemoNameExamples()
    ensures Dispatch(["Stack"]) == RunStack
    ensures Dispatch(["SEARCH", "extra"]) == RunSearch
    ensures Dispatch(["all"]) == RunAll
    ensures Dispatch(["BOGUS"]) == Unknown("bogus") && ExitCode(Dispatch(["BOGUS"])) == 1
  {
    LowerIs("Stack", "stack");
    LowerIs("SEARCH", "search");
    LowerIs("all", "all");
    LowerIs("BOGUS", "bogus");
  }

  lemma LowerIs(s: string, t: string)
    requires |s| == |t| && forall i :: 0 <= i < |s| ==> LowerChar(s[i]) == t[i]
    ensures Lower(s) == t
  {
  }
}
