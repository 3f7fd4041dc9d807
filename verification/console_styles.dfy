/** The ANSI styles the logger uses (`consoleStyles`, `consoleModuleColors`
    in src/logger.ts), and what a terminal shows once the escape sequences are
    taken out. */
module ConsoleStyles {
  import opened Strings

  /** The escape character, `\x1b`. */
  const Esc: char := 27 as char

  /** A Select Graphic Rendition sequence: `ESC [ params m`. */
  function Sgr(params: string): string
  {
    [Esc, '['] + params + "m"
  }

  const Reset: string := Sgr("0")
  const FgRed: string := Sgr("31")
  const FgGreen: string := Sgr("32")
  const FgYellow: string := Sgr("33")
  const FgBlue: string := Sgr("34")
  const FgMagenta: string := Sgr("35")
  const FgCyan: string := Sgr("36")
  const FgGray: string := Sgr("90")
  const FgOrange: string := Sgr("38;5;208")
  const FgLightGreen: string := Sgr("38;5;119")
  const FgLightBlue: string := Sgr("38;5;117")
  const FgViolet: string := Sgr("38;5;141")
  const FgBrown: string := Sgr("38;5;130")
  const FgPink: string := Sgr("38;5;219")

  /** The palette a module name is hashed into. */
  const ModuleColors: seq<string> :=
    [FgCyan, FgGreen, FgLightGreen, FgBlue, FgLightBlue, FgMagenta, FgOrange, FgViolet, FgBrown, FgPink]

  predicate IsSgrParam(c: char)
  {
    IsDigit(c) || c == ';'
  }

  /** A well-formed SGR sequence, whose parameters never contain `m`. */
  predicate IsSgr(s: string)
  {
    && |s| >= 3 && s[0] == Esc && s[1] == '[' && s[|s| - 1] == 'm'
    && forall i :: 2 <= i < |s| - 1 ==> IsSgrParam(s[i])
  }

  lemma SgrIsWellFormed(params: string)
    requires forall i :: 0 <= i < |params| ==> IsSgrParam(params[i])
    ensures IsSgr(Sgr(params))
  {
    var s := Sgr(params);
    assert forall i :: 2 <= i < |s| - 1 ==> s[i] == params[i - 2];
  }

  /** Every style the logger emits is a well-formed SGR sequence. */
  lemma StylesAreWellFormed()
    ensures IsSgr(Reset) && IsSgr(FgRed) && IsSgr(FgYellow) && IsSgr(FgCyan)
    ensures IsSgr(FgGray) && IsSgr(FgPink)
    ensures forall i :: 0 <= i < |ModuleColors| ==> IsSgr(ModuleColors[i])
  {
    SgrIsWellFormed("0");
    SgrIsWellFormed("31");
    SgrIsWellFormed("32");
    SgrIsWellFormed("33");
    SgrIsWellFormed("34");
    SgrIsWellFormed("35");
    SgrIsWellFormed("36");
    SgrIsWellFormed("90");
    SgrIsWellFormed("38;5;208");
    SgrIsWellFormed("38;5;119");
    SgrIsWellFormed("38;5;117");
    SgrIsWellFormed("38;5;141");
    SgrIsWellFormed("38;5;130");
    SgrIsWellFormed("38;5;219");
  }

  /** Where an escape sequence starting at `s[0]` ends: just past the first
      `m` after the escape character, or the end of `s`. */
  function EscapeEnd(s: string): (k: nat)
    requires |s| > 0
    ensures 1 <= k <= |s|
  {
    var m := IndexOf(s[1..], 'm');
    if m == -1 then |s| else m + 2
  }

  /** The text a terminal shows: `s` with its escape sequences removed. */
  function Strip(s: string): (r: string)
    ensures Esc !in r
    ensures |r| <= |s|
    decreases |s|
  {
    if |s| == 0 then ""
    else if s[0] == Esc then Strip(s[EscapeEnd(s)..])
    else [s[0]] + Strip(s[1..])
  }

  /** A well-formed SGR sequence disappears entirely. */
  lemma StripSgr(e: string, rest: string)
    requires IsSgr(e)
    ensures Strip(e + rest) == Strip(rest)
  {
    var s := e + rest;
    var body := e[1..];
    assert s[1..] == body + rest;
    assert body[|e| - 2] == 'm';
    assert forall i :: 0 <= i < |e| - 2 ==> body[i] != 'm';
    var k := IndexOf(body, 'm');
    assert 'm' in body;
    assert k == |e| - 2;
    IndexOfAppend(body, rest, 'm');
    assert EscapeEnd(s) == |e|;
    assert s[|e|..] == rest;
  }

  /** Text without escape characters is shown as it is. */
  lemma {:induction false} StripPlain(a: string, rest: string)
    requires Esc !in a
    ensures Strip(a + rest) == a + Strip(rest)
    decreases |a|
  {
    if |a| > 0 {
      assert (a + rest)[0] == a[0];
      assert (a + rest)[1..] == a[1..] + rest;
      StripPlain(a[1..], rest);
      assert [a[0]] + a[1..] == a;
    } else {
      assert a + rest == rest;
    }
  }

  /** `color + text + Reset` shows as `text`. */
  lemma StripStyled(color: string, text: string)
    requires IsSgr(color) && Esc !in text
    ensures Strip(color + text + Reset) == text
  {
    StylesAreWellFormed();
    assert color + text + Reset == color + (text + Reset);
    StripSgr(color, text + Reset);
    StripPlain(text, Reset);
    assert Reset == Reset + "";
    StripSgr(Reset, "");
  }
}
