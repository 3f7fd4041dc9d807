/** Command-line flag lookup and the debug-mode default (src/util.ts).
    The process argument list and `NODE_ENV` are parameters here. */
module Util {
  import opened JsSemantics
  import opened Strings

  /** The argument that ends option parsing. */
  const Terminator: string := "--"

  /** The dashes put in front of a flag name: none when it already starts with
      `-`, one when its JavaScript length (in UTF-16 code units) is 1, two
      otherwise. */
  function FlagPrefix(flag: string): string
  {
    if StartsWith(flag, "-") then "" else if JsLengthIsOne(flag) then "-" else "--"
  }

  /** The exact argument `hasFlag(flag)` looks for. */
  function SearchedArg(flag: string): (a: string)
    ensures StartsWith(a, "-") && EndsWith(a, flag)
    ensures StartsWith(flag, "-") ==> a == flag
    ensures !StartsWith(flag, "-") && JsLengthIsOne(flag) ==> a == "-" + flag
    ensures !StartsWith(flag, "-") && !JsLengthIsOne(flag) ==> a == "--" + flag
    ensures |a| <= |flag| + 2
  {
    FlagPrefix(flag) + flag
  }

  /** A flag of two or more characters that does not start with `-` is
      searched with two dashes, whatever its characters. */
  lemma LongFlagGetsTwoDashes(flag: string)
    requires |flag| >= 2 && flag[0] != '-'
    ensures SearchedArg(flag) == "--" + flag
  {
    assert flag[..1][0] == flag[0];
  }

  /** A one-character flag outside the Basic Multilingual Plane has JavaScript
      length 2, so it is searched with two dashes. */
  lemma AstralFlagGetsTwoDashes()
    ensures SearchedArg("\U{1F3A8}") == "--\U{1F3A8}"
  {
    var flag := "\U{1F3A8}";
    assert flag[..1][0] != '-';
    JsLengthIsOneMeaning(flag);
  }

  /** `hasFlag(flag)` over the argument list `argv`: the first occurrence of the
      searched argument comes before the first terminator, if there is one. */
  function HasFlag(argv: seq<string>, flag: string): bool
  {
    var position := IndexOf(argv, SearchedArg(flag));
    var terminatorPosition := IndexOf(argv, Terminator);
    position != -1 && (terminatorPosition == -1 || position < terminatorPosition)
  }

  /** Reference meaning of a flag being passed: some argument equals `arg`, and
      no terminator occurs at or before that argument. */
  ghost predicate PassedBeforeTerminator(argv: seq<string>, arg: string)
  {
    exists i :: 0 <= i < |argv| && argv[i] == arg && Terminator !in argv[..i + 1]
  }

  /** hasFlag holds exactly when the searched argument is passed before any terminator. */
  lemma HasFlagMeaning(argv: seq<string>, flag: string)
    ensures HasFlag(argv, flag) <==> PassedBeforeTerminator(argv, SearchedArg(flag))
  {
    var a := SearchedArg(flag);
    var p := IndexOf(argv, a);
    var t := IndexOf(argv, Terminator);
    if HasFlag(argv, flag) {
      assert argv[..p + 1] == argv[..p] + [argv[p]];
      assert a != Terminator;
      if t != -1 {
        assert forall j :: 0 <= j <= p ==> argv[j] != Terminator;
      }
      assert Terminator !in argv[..p + 1];
    }
    if PassedBeforeTerminator(argv, a) {
      var i :| 0 <= i < |argv| && argv[i] == a && Terminator !in argv[..i + 1];
      assert argv[..i + 1][i] == a;
      assert p <= i;
    }
  }

  /** Without a terminator, hasFlag is plain membership of the searched argument. */
  lemma HasFlagWithoutTerminator(argv: seq<string>, flag: string)
    requires Terminator !in argv
    ensures HasFlag(argv, flag) <==> SearchedArg(flag) in argv
  {
  }

  /** Nothing after the first terminator is ever seen: appending a terminator
      and any arguments to an argument list leaves every answer unchanged. */
  lemma HasFlagIgnoresAfterTerminator(argv: seq<string>, rest: seq<string>, flag: string)
    ensures HasFlag(argv + [Terminator] + rest, flag) == HasFlag(argv, flag)
  {
    var a := SearchedArg(flag);
    assert argv + [Terminator] + rest == argv + ([Terminator] + rest);
    IndexOfAppend(argv, [Terminator] + rest, a);
    IndexOfAppend(argv, [Terminator] + rest, Terminator);
  }

  /** `hasFlag('--')` searches for the terminator itself, which can never come
      before itself. */
  lemma TerminatorIsNeverAFlag(argv: seq<string>)
    ensures !HasFlag(argv, Terminator)
  {
    assert SearchedArg(Terminator) == Terminator;
  }

  /** `checkDebug()`: debug mode is on unless `--no-debug` is passed, `--debug`
      is not, and `NODE_ENV` is exactly `production` (an unset `NODE_ENV` is
      not `production`). */
  function CheckDebug(argv: seq<string>, nodeEnv: Option<string>): bool
  {
    !HasFlag(argv, "no-debug") || HasFlag(argv, "debug") || nodeEnv != Some("production")
  }

  /** The only way to get debug mode off by default. */
  lemma CheckDebugOffExactly(argv: seq<string>, nodeEnv: Option<string>)
    ensures !CheckDebug(argv, nodeEnv) <==>
              && PassedBeforeTerminator(argv, "--no-debug")
              && !PassedBeforeTerminator(argv, "--debug")
              && nodeEnv == Some("production")
  {
    LongFlagGetsTwoDashes("no-debug");
    LongFlagGetsTwoDashes("debug");
    HasFlagMeaning(argv, "no-debug");
    HasFlagMeaning(argv, "debug");
  }
}
