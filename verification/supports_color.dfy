/** Colour-support detection (src/supports-color.ts). The environment, the
    argument list and whether the stream is a terminal are parameters; the
    result is decided by an ordered list of rules, the first that applies
    winning. */
module SupportsColor {
  import opened JsSemantics
  import opened Strings
  import opened Util

  /** `process.env`: variable names to values. */
  type Env = map<string, string>

  /** `process.env[name]`, `undefined` when the variable is unset. */
  function Lookup(env: Env, name: string): Option<string>
  {
    if name in env then Some(env[name]) else None
  }

  /** The colour flags `checkFlag` looks for. */
  datatype ColorFlag = NoColor | NoColors | ColorFalse | ColorNever | Color | Colors {
    function Name(): string
    {
      match this
      case NoColor => "no-color"
      case NoColors => "no-colors"
      case ColorFalse => "color=false"
      case ColorNever => "color=never"
      case Color => "color"
      case Colors => "colors"
    }

    predicate Disables()
    {
      !(Color? || Colors?)
    }
  }

  /** Some disabling (or, with `disabling` false, some enabling) flag is passed. */
  ghost predicate AnyFlag(argv: seq<string>, disabling: bool)
  {
    exists f: ColorFlag :: f.Disables() == disabling && HasFlag(argv, f.Name())
  }

  lemma AnyDisableFlag(argv: seq<string>)
    ensures AnyFlag(argv, true) <==>
              HasFlag(argv, "no-color") || HasFlag(argv, "no-colors")
              || HasFlag(argv, "color=false") || HasFlag(argv, "color=never")
  {
    if HasFlag(argv, "no-color") {
      assert HasFlag(argv, NoColor.Name());
    } else if HasFlag(argv, "no-colors") {
      assert HasFlag(argv, NoColors.Name());
    } else if HasFlag(argv, "color=false") {
      assert HasFlag(argv, ColorFalse.Name());
    } else if HasFlag(argv, "color=never") {
      assert HasFlag(argv, ColorNever.Name());
    }
  }

  lemma AnyEnableFlag(argv: seq<string>)
    ensures AnyFlag(argv, false) <==> HasFlag(argv, "color") || HasFlag(argv, "colors")
  {
    if HasFlag(argv, "color") {
      assert HasFlag(argv, Color.Name());
    } else if HasFlag(argv, "colors") {
      assert HasFlag(argv, Colors.Name());
    }
  }

  /** `checkFlag()`: false when any disabling flag is passed (whatever else
      is), true when only an enabling flag is, undefined when neither is. */
  function CheckFlag(argv: seq<string>): (r: Option<bool>)
    ensures r == Some(false) <==> AnyFlag(argv, true)
    ensures r == Some(true) <==> !AnyFlag(argv, true) && AnyFlag(argv, false)
    ensures r == None <==> !AnyFlag(argv, true) && !AnyFlag(argv, false)
  {
    AnyDisableFlag(argv);
    AnyEnableFlag(argv);
    if HasFlag(argv, "no-color") || HasFlag(argv, "no-colors")
       || HasFlag(argv, "color=false") || HasFlag(argv, "color=never")
    then Some(false)
    else if HasFlag(argv, "color") || HasFlag(argv, "colors") then Some(true)
    else None
  }

  /** `checkEnv()`: `FORCE_COLOR` set to `true` or to the empty string forces
      colour on, `false` forces it off; unset or any other value (`1`
      included) decides nothing. */
  function CheckEnv(env: Env): (r: Option<bool>)
    ensures r == Some(true) <==> Lookup(env, "FORCE_COLOR") in {Some("true"), Some("")}
    ensures r == Some(false) <==> Lookup(env, "FORCE_COLOR") == Some("false")
    ensures r == None <==> Lookup(env, "FORCE_COLOR") !in {Some("true"), Some("false"), Some("")}
  {
    if "FORCE_COLOR" in env then
      var v := env["FORCE_COLOR"];
      if v == "true" then Some(true)
      else if v == "false" then Some(false)
      else if |v| == 0 then Some(true)
      else None
    else None
  }

  /** `checkEnv() ?? checkFlag()`: the environment, when it says anything,
      overrides the flags. */
  function ForceColor(env: Env, argv: seq<string>): Option<bool>
  {
    Coalesce(CheckEnv(env), CheckFlag(argv))
  }

  /** CI providers whose mere presence means colour is supported under `CI`. */
  const KnownCiEnvs: seq<string> :=
    ["GITHUB_ACTIONS", "GITEA_ACTIONS", "CIRCLECI", "TRAVIS", "APPVEYOR", "GITLAB_CI", "BUILDKITE", "DRONE"]

  /** `KNOWN_CI_ENVS.some(k => k in process.env)` */
  predicate KnownCiPresent(env: Env)
  {
    exists k :: k in KnownCiEnvs && k in env
  }

  /** The TeamCity pattern `^(9\.(0*[1-9]\d*)\.|\d{2,}\.)` with no case folding.
      Its first branch: `9.`, then a run of digits that is not all zeros,
      then a dot. Every digit run here is maximal, because a dot must follow. */
  predicate NineMinorPrefix(v: string)
  {
    && StartsWith(v, "9.")
    && var rest := v[2..];
       var n := LeadingDigits(rest);
       n < |rest| && rest[n] == '.' && exists i :: 0 <= i < n && rest[i] != '0'
  }

  /** Its second branch: two or more digits, then a dot. */
  predicate LongMajorPrefix(v: string)
  {
    var n := LeadingDigits(v);
    2 <= n < |v| && v[n] == '.'
  }

  predicate TeamCityMatches(v: string)
  {
    NineMinorPrefix(v) || LongMajorPrefix(v)
  }

  /** The TERM pattern `-256(color)?$|^screen|^xterm|^vt100|^vt220|^rxvt|color|ansi|cygwin|linux`
      under the `i` flag, which folds ASCII letters only. */
  predicate TermMatches(term: string)
  {
    var t := ToLowerAscii(term);
    || EndsWith(t, "-256") || EndsWith(t, "-256color")
    || StartsWith(t, "screen") || StartsWith(t, "xterm") || StartsWith(t, "vt100")
    || StartsWith(t, "vt220") || StartsWith(t, "rxvt")
    || Contains(t, "color") || Contains(t, "ansi") || Contains(t, "cygwin") || Contains(t, "linux")
  }

  /** The text the TERM pattern is matched against: an unset TERM becomes the
      string `undefined`. */
  function TermText(env: Env): string
  {
    if "TERM" in env then env["TERM"] else "undefined"
  }

  predicate AzurePipelines(env: Env)
  {
    "TF_BUILD" in env && "AGENT_NAME" in env
  }

  /** `checkSupport(isTTY)`: the ordered rule list. */
  function CheckSupport(env: Env, argv: seq<string>, isTTY: bool): bool
  {
    var forceColor := ForceColor(env, argv);
    if forceColor == Some(false) then false
    else if AzurePipelines(env) then true
    else if !isTTY && forceColor == None then false
    else if Lookup(env, "TERM") == Some("dumb") then false
    else if "CI" in env then KnownCiPresent(env) || Lookup(env, "CI_NAME") == Some("codeship")
    else if "TEAMCITY_VERSION" in env then TeamCityMatches(env["TEAMCITY_VERSION"])
    else if Lookup(env, "TERM") == Some("wezterm") then true
    else if Lookup(env, "TERM_PROGRAM") == Some("iTerm.app")
         || Lookup(env, "TERM_PROGRAM") == Some("Apple_Terminal") then true
    else if TermMatches(TermText(env)) then true
    else if "COLORTERM" in env then true
    else false
  }

  /** Colour support of the two output streams. */
  datatype ColorSupport = ColorSupport(stdout: bool, stderr: bool)

  /** `supportsColor`: each stream is decided by the same rules with its own
      terminal test, so the two answers can only differ through that test. */
  function DetectColorSupport(env: Env, argv: seq<string>, stdoutIsTTY: bool, stderrIsTTY: bool): (r: ColorSupport)
    ensures stdoutIsTTY == stderrIsTTY ==> r.stdout == r.stderr
    ensures ForceColor(env, argv).Some? ==> r.stdout == r.stderr
    ensures (stdoutIsTTY ==> stderrIsTTY) ==> (r.stdout ==> r.stderr)
    ensures (stderrIsTTY ==> stdoutIsTTY) ==> (r.stderr ==> r.stdout)
  {
    TtyMonotone(env, argv);
    ColorSupport(CheckSupport(env, argv, stdoutIsTTY), CheckSupport(env, argv, stderrIsTTY))
  }

  // ---------------------------------------------------------------------
  // Properties of the rule list

  /** When FORCE_COLOR decides, the flags have no effect on the forced value. */
  lemma EnvOverridesFlags(env: Env, argv: seq<string>, argv': seq<string>)
    requires CheckEnv(env).Some?
    ensures ForceColor(env, argv) == ForceColor(env, argv') == CheckEnv(env)
  {
  }

  /** `FORCE_COLOR=true` with `--no-color` still forces colour on. */
  lemma EnvTrueBeatsNoColorFlag()
    ensures ForceColor(map["FORCE_COLOR" := "true"], ["node", "app.js", "--no-color"]) == Some(true)
  {
  }

  /** A disabling flag wins over an enabling one, in either order. */
  lemma DisableFlagBeatsEnableFlag(argv: seq<string>)
    requires HasFlag(argv, "color") && HasFlag(argv, "no-color")
    ensures CheckFlag(argv) == Some(false)
  {
  }

  /** Forced off means no colour, whatever the terminal, TERM, CI or Azure say. */
  lemma ForceDisableWins(env: Env, argv: seq<string>, isTTY: bool)
    requires ForceColor(env, argv) == Some(false)
    ensures !CheckSupport(env, argv, isTTY)
  {
  }

  /** Azure Pipelines gives colour unless it is forced off, even without a
      terminal and even with `TERM=dumb`. */
  lemma AzurePipelinesWins(env: Env, argv: seq<string>, isTTY: bool)
    requires ForceColor(env, argv) != Some(false)
    requires AzurePipelines(env)
    ensures CheckSupport(env, argv, isTTY)
  {
  }

  /** Without a terminal and without forcing, only Azure Pipelines gives colour. */
  lemma NoTtyUnforced(env: Env, argv: seq<string>)
    requires ForceColor(env, argv) == None
    ensures CheckSupport(env, argv, false) <==> AzurePipelines(env)
  {
  }

  /** Forced on is not a guarantee: `TERM=dumb` still gives no colour. */
  lemma ForcedOnWithDumbTerm(env: Env, argv: seq<string>, isTTY: bool)
    requires ForceColor(env, argv) == Some(true)
    requires !AzurePipelines(env)
    requires Lookup(env, "TERM") == Some("dumb")
    ensures !CheckSupport(env, argv, isTTY)
  {
  }

  /** Nor does forcing colour on help when no later rule recognises the
      environment. */
  lemma UnrecognisedEnvHasNoColor(env: Env, argv: seq<string>, isTTY: bool)
    requires !AzurePipelines(env)
    requires "TERM" !in env && "CI" !in env && "TEAMCITY_VERSION" !in env
    requires "TERM_PROGRAM" !in env && "COLORTERM" !in env
    ensures !CheckSupport(env, argv, isTTY)
  {
    UndefinedTermMatchesNothing();
  }

  /** A terminal can only turn "no colour" into "colour"; when colour is forced
      either way, the terminal test is never reached. */
  lemma TtyMonotone(env: Env, argv: seq<string>)
    ensures CheckSupport(env, argv, false) ==> CheckSupport(env, argv, true)
    ensures ForceColor(env, argv).Some? ==> CheckSupport(env, argv, false) == CheckSupport(env, argv, true)
  {
  }

  /** Once the CI rule is reached, it alone decides. */
  lemma CiRuleDecides(env: Env, argv: seq<string>, isTTY: bool)
    requires ForceColor(env, argv) != Some(false) && !AzurePipelines(env)
    requires isTTY || ForceColor(env, argv).Some?
    requires Lookup(env, "TERM") != Some("dumb")
    requires "CI" in env
    ensures CheckSupport(env, argv, isTTY) <==>
              KnownCiPresent(env) || Lookup(env, "CI_NAME") == Some("codeship")
  {
  }

  /** `CI` with no provider variable and no `CI_NAME=codeship` never gives
      colour outside Azure Pipelines, whatever TERM, the flags or the terminal say. */
  lemma BareCiHasNoColor(env: Env, argv: seq<string>, isTTY: bool)
    requires !AzurePipelines(env)
    requires "CI" in env && Lookup(env, "CI_NAME") != Some("codeship")
    requires forall k :: k in KnownCiEnvs ==> k !in env
    ensures !CheckSupport(env, argv, isTTY)
  {
  }

  /** Travis under CI gives colour on a terminal. */
  lemma TravisHasColor()
    ensures CheckSupport(map["CI" := "1", "TRAVIS" := "1"], [], true)
  {
    var env := map["CI" := "1", "TRAVIS" := "1"];
    assert "TRAVIS" in KnownCiEnvs && "TRAVIS" in env;
  }

  lemma TeamCityExamples()
    ensures TeamCityMatches("9.1.") && TeamCityMatches("10.") && TeamCityMatches("9.01.2")
    ensures !TeamCityMatches("9.0.") && !TeamCityMatches("8.4.") && !TeamCityMatches("10")
  {
    assert LeadingDigits("1.") == 1;
    assert "1."[0] != '0';
    assert LeadingDigits("10.") == 2;
    assert LeadingDigits("01.2") == 2;
    assert "01.2"[1] != '0';
    assert LeadingDigits("0.") == 1;
    assert LeadingDigits("9.0.") == 1;
    assert LeadingDigits("8.4.") == 1;
    assert !StartsWith("8.4.", "9.");
    assert LeadingDigits("10") == 2;
    assert !StartsWith("10", "9.");
  }

  /** Appending to a string that ends a digit run before its end keeps that run. */
  lemma {:induction false} LeadingDigitsAppend(v: string, w: string)
    requires LeadingDigits(v) < |v|
    ensures LeadingDigits(v + w) == LeadingDigits(v)
  {
    if |v| > 0 && IsDigit(v[0]) {
      assert (v + w)[1..] == v[1..] + w;
      LeadingDigitsAppend(v[1..], w);
    }
  }

  /** The TeamCity pattern is anchored only at its start: whatever follows an
      accepted prefix does not matter. */
  lemma TeamCityLooksAtPrefixOnly(v: string, w: string)
    requires TeamCityMatches(v)
    ensures TeamCityMatches(v + w)
  {
    if NineMinorPrefix(v) {
      var rest := v[2..];
      assert (v + w)[..2] == v[..2];
      assert (v + w)[2..] == rest + w;
      LeadingDigitsAppend(rest, w);
      var n := LeadingDigits(rest);
      var i :| 0 <= i < n && rest[i] != '0';
      assert (rest + w)[i] == rest[i];
      assert (rest + w)[n] == rest[n];
    } else {
      LeadingDigitsAppend(v, w);
      assert (v + w)[LeadingDigits(v)] == v[LeadingDigits(v)];
    }
  }

  /** A lower-case string that starts with none of `s`, `x`, `v`, `r`, does not
      end in `6` and holds none of `c`, `a`, `l` matches no branch. */
  lemma {:induction false} TermMatchesNothing(t: string)
    requires ToLowerAscii(t) == t
    requires |t| > 0 && t[0] !in "sxvr" && t[|t| - 1] != '6' && t[|t| - 1] != 'r'
    requires 'c' !in t && 'a' !in t && 'l' !in t
    ensures !TermMatches(t)
  {
    StartsWithHead(t, "screen");
    StartsWithHead(t, "xterm");
    StartsWithHead(t, "vt100");
    StartsWithHead(t, "vt220");
    StartsWithHead(t, "rxvt");
    EndsWithLast(t, "-256");
    EndsWithLast(t, "-256color");
    ContainsFirst(t, "color");
    ContainsFirst(t, "ansi");
    ContainsFirst(t, "cygwin");
    ContainsFirst(t, "linux");
  }

  /** An unset TERM, matched as the text `undefined`, matches no branch. */
  lemma UndefinedTermMatchesNothing()
    ensures !TermMatches("undefined")
  {
    ToLowerAsciiNoUpper("undefined");
    TermMatchesNothing("undefined");
  }

  /** The pattern ignores ASCII case. */
  lemma TermMatchIgnoresCase(term: string)
    ensures TermMatches(term) == TermMatches(ToLowerAscii(term))
  {
    ToLowerAsciiIdempotent(term);
  }

  lemma TermExamples()
    ensures TermMatches("xterm-256color") && TermMatches("XTERM") && TermMatches("putty-256")
    ensures TermMatches("Eterm-color")
  {
    ToLowerAsciiNoUpper("xterm-256color");
    assert StartsWith("xterm-256color", "xterm");
    assert ToLowerAscii("XTERM") == "xterm";
    assert StartsWith("xterm", "xterm");
    ToLowerAsciiNoUpper("putty-256");
    assert EndsWith("putty-256", "-256");
    assert ToLowerAscii("Eterm-color") == "eterm-color";
    ContainsAt("eterm-color", "color", 6);
  }

  /** A colour TERM on a terminal, outside CI and TeamCity, gives colour. */
  lemma ColorTermOnTtyHasColor()
    ensures CheckSupport(map["TERM" := "xterm-256color"], [], true)
  {
    TermExamples();
  }
}
