/** The `Logger` class of src/logger.ts as an immutable state record. Each
    public method is a transition that returns the new state together with
    the lines written; a line is the destination stream and the four values
    handed to the console, which this model does not write anywhere. The
    colour support of the two streams and the timestamp are inputs. */
module Logging {
  import opened JsSemantics
  import opened ConsoleStyles
  import opened ModuleHash
  import opened SupportsColor

  datatype Level = INFO | WARN | ERROR | DEBUG {
    function Name(): string
    {
      match this
      case INFO => "INFO"
      case WARN => "WARN"
      case ERROR => "ERROR"
      case DEBUG => "DEBUG"
    }

    /** WARN and ERROR are written to the error stream. */
    predicate ToStderr()
    {
      this == WARN || this == ERROR
    }
  }

  /** `ConsoleLevelColors`: a style per level. */
  datatype LevelColors = LevelColors(info: string, warn: string, error: string, debug: string) {
    function Of(level: Level): string
    {
      match level
      case INFO => info
      case WARN => warn
      case ERROR => error
      case DEBUG => debug
    }

    predicate WellFormed()
    {
      IsSgr(info) && IsSgr(warn) && IsSgr(error) && IsSgr(debug)
    }
  }

  /** `defaultConsoleLevelColors` */
  const DefaultLevelColors: LevelColors := LevelColors(FgCyan, FgYellow, FgRed, FgPink)

  /** A logged message: a string, or any other value, which passes through
      untouched and whose rendering is the console's business. */
  datatype Message = Text(text: string) | Other(handle: nat)

  datatype Stream = Stdout | Stderr

  /** One console call: the stream and its four arguments. */
  datatype LogLine = LogLine(stream: Stream, timePart: string, modulePart: string, levelPart: string, body: Message)

  /** The palette index of a module, freshly computed. */
  function ModuleIndex(moduleName: string): (i: int)
    ensures 0 <= i < |ModuleColors|
  {
    IntHash(CodeUnits(moduleName), |ModuleColors|)
  }

  /** `consoleModuleColors[i]` inside a template literal: an index outside the
      palette reads `undefined`, which renders as that word. */
  function PaletteEntry(i: int): string
  {
    if 0 <= i < |ModuleColors| then ModuleColors[i] else "undefined"
  }

  /** Every cached index is the fresh hash of its key. */
  ghost predicate CacheValid(cache: map<string, int>)
  {
    forall k :: k in cache ==> cache[k] == ModuleIndex(k)
  }

  datatype CacheResult = CacheResult(index: int, cache: map<string, int>)

  /** `intHash(module)` with its cache, keyed by the module's own entries only.
      A cached 0 is falsy and is computed again. */
  function CachedIndex(cache: map<string, int>, key: string): (r: CacheResult)
    ensures CacheValid(cache) ==> r.index == ModuleIndex(key) && CacheValid(r.cache)
    ensures key in r.cache && r.cache.Keys == cache.Keys + {key}
    ensures forall k :: k in cache && k != key ==> r.cache[k] == cache[k]
  {
    if key in cache && cache[key] != 0 then CacheResult(cache[key], cache)
    else
      var h := ModuleIndex(key);
      CacheResult(h, cache[key := h])
  }

  /** A cached 0 is computed again, gives 0 again, and leaves the cache as it was. */
  lemma CachedZeroIsRecomputed(cache: map<string, int>, key: string)
    requires CacheValid(cache) && key in cache && cache[key] == 0
    ensures CachedIndex(cache, key) == CacheResult(0, cache)
  {
    assert cache[key := 0] == cache;
  }

  datatype Logger = Logger(defaultModule: string, debugMode: bool, levelColors: LevelColors, hashCache: map<string, int>)

  /** `new Logger({ defaultModule, debugMode, consoleLevelColors })`;
      `defaultDebugMode` is the value `checkDebug()` had when the module was loaded. */
  function NewLogger(defaultModule: string, debugMode: Option<bool>, levelColors: Option<LevelColors>,
                     defaultDebugMode: bool): (lg: Logger)
    ensures lg.defaultModule == defaultModule
    ensures lg.debugMode == if debugMode.Some? then debugMode.value else defaultDebugMode
    ensures lg.levelColors == if levelColors.Some? then levelColors.value else DefaultLevelColors
    ensures CacheValid(lg.hashCache)
  {
    Logger(defaultModule, Coalesce(debugMode, Some(defaultDebugMode)).value,
           Coalesce(levelColors, Some(DefaultLevelColors)).value, map[])
  }

  /** Whether the stream a level is written to supports colour. */
  function ShouldUseColor(colors: ColorSupport, level: Level): bool
  {
    if level.ToStderr() then colors.stderr else colors.stdout
  }

  /** The time part: the timestamp, gray for DEBUG and cyan otherwise when coloured. */
  function TimePart(useColor: bool, level: Level, now: string): string
  {
    if useColor then (if level == DEBUG then FgGray else FgCyan) + now + Reset else now
  }

  /** The module part: `[module]`, the name in its palette colour when coloured. */
  function ModulePart(useColor: bool, moduleColor: string, m: string): string
  {
    if useColor then "[" + moduleColor + m + Reset + "]" else "[" + m + "]"
  }

  /** The level part: `LEVEL:`, in the level's colour when coloured. */
  function LevelPart(useColor: bool, levelColor: string, level: Level): string
  {
    if useColor then levelColor + level.Name() + ":" + Reset else level.Name() + ":"
  }

  /** The console method each level is written with, and its stream. */
  function StreamOf(level: Level): Stream
  {
    match level
    case INFO => Stdout
    case WARN => Stderr
    case ERROR => Stderr
    case DEBUG => Stdout
  }

  /** The fourth argument of each console call: a string message wrapped in
      the level's body colour when colour is on, otherwise the message itself. */
  function Body(level: Level, messageShouldUseColor: bool, msg: Message): Message
    requires messageShouldUseColor ==> msg.Text?
  {
    match level
    case INFO => msg
    case WARN => if messageShouldUseColor then Text(FgYellow + msg.text + Reset) else msg
    case ERROR => if messageShouldUseColor then Text(FgRed + msg.text + Reset) else msg
    case DEBUG => if messageShouldUseColor then Text(FgGray + msg.text + Reset) else msg
  }

  datatype Logged = Logged(logger: Logger, line: LogLine)

  /** The line `log` writes once the module name and its colour are known. */
  function Line(lg: Logger, colors: ColorSupport, now: string, msg: Message, level: Level,
                m: string, moduleColor: string): (line: LogLine)
    ensures line.stream == Stderr <==> level.ToStderr()
  {
    var shouldUseColor := ShouldUseColor(colors, level);
    var messageShouldUseColor := msg.Text? && shouldUseColor;
    var levelColor := if shouldUseColor then lg.levelColors.Of(level) else "";
    LogLine(StreamOf(level), TimePart(shouldUseColor, level, now),
            ModulePart(shouldUseColor, moduleColor, m),
            LevelPart(shouldUseColor, levelColor, level),
            Body(level, messageShouldUseColor, msg))
  }

  /** `log(msg, level, module)`, with the corrected module-colour cache. */
  function Log(lg: Logger, colors: ColorSupport, now: string, msg: Message, level: Level,
               moduleName: Option<string>): (r: Logged)
    ensures r.logger == lg.(hashCache := r.logger.hashCache)
    ensures CacheValid(lg.hashCache) ==> CacheValid(r.logger.hashCache)
    ensures r.line.stream == Stderr <==> level.ToStderr()
  {
    var m := if moduleName.Some? then moduleName.value else lg.defaultModule;
    var hashed := CachedIndex(lg.hashCache, m);
    Logged(lg.(hashCache := hashed.cache), Line(lg, colors, now, msg, level, m, PaletteEntry(hashed.index)))
  }

  /** The style wrapped around a string message when colour is on; INFO has none. */
  function BodyColor(level: Level): Option<string>
  {
    match level
    case INFO => None
    case WARN => Some(FgYellow)
    case ERROR => Some(FgRed)
    case DEBUG => Some(FgGray)
  }

  /** An omitted module is the default module. */
  lemma OmittedModuleIsDefault(lg: Logger, colors: ColorSupport, now: string, msg: Message, level: Level)
    ensures Log(lg, colors, now, msg, level, None) == Log(lg, colors, now, msg, level, Some(lg.defaultModule))
  {
  }

  /** With colour off the four parts are plain: the timestamp, `[module]`,
      `LEVEL:` and the message itself. */
  lemma ColorOffParts(lg: Logger, colors: ColorSupport, now: string, msg: Message, level: Level, m: string)
    requires !ShouldUseColor(colors, level)
    ensures Log(lg, colors, now, msg, level, Some(m)).line ==
              LogLine(if level.ToStderr() then Stderr else Stdout, now, "[" + m + "]", level.Name() + ":", msg)
  {
  }

  /** With colour on: a gray (DEBUG) or cyan timestamp, the module in its
      palette colour, the level in its configured colour, each followed by a
      reset; a string message is wrapped in the level's body colour, anything
      else passes through. */
  lemma ColorOnParts(lg: Logger, colors: ColorSupport, now: string, msg: Message, level: Level, m: string)
    requires ShouldUseColor(colors, level)
    requires CacheValid(lg.hashCache)
    ensures var line := Log(lg, colors, now, msg, level, Some(m)).line;
            && line.timePart == (if level == DEBUG then FgGray else FgCyan) + now + Reset
            && line.modulePart == "[" + ModuleColors[ModuleIndex(m)] + m + Reset + "]"
            && line.levelPart == lg.levelColors.Of(level) + level.Name() + ":" + Reset
            && line.body == if msg.Text? && BodyColor(level).Some?
                            then Text(BodyColor(level).value + msg.text + Reset)
                            else msg
  {
  }

  /** What a terminal shows of a message. */
  function Shown(msg: Message): Message
  {
    if msg.Text? then Text(Strip(msg.text)) else msg
  }

  lemma TimePartCosmetic(level: Level, now: string)
    requires Esc !in now
    ensures Strip(TimePart(true, level, now)) == TimePart(false, level, now)
  {
    StylesAreWellFormed();
    StripStyled(if level == DEBUG then FgGray else FgCyan, now);
  }

  lemma ModulePartCosmetic(c: string, m: string)
    requires IsSgr(c) && Esc !in m
    ensures Strip(ModulePart(true, c, m)) == ModulePart(false, c, m)
  {
    var close := "]";
    var tail := m + (Reset + close);
    assert ModulePart(true, c, m) == "[" + (c + tail);
    assert ModulePart(false, c, m) == "[" + (m + close);
    StylesAreWellFormed();
    StripPlain(close, "");
    assert close + "" == close;
    StripSgr(Reset, close);
    StripPlain(m, Reset + close);
    StripSgr(c, tail);
    StripPlain("[", c + tail);
  }

  lemma LevelPartCosmetic(c: string, level: Level)
    requires IsSgr(c)
    ensures Strip(LevelPart(true, c, level)) == LevelPart(false, c, level)
  {
    var t := level.Name() + ":";
    LevelTagIsPlain(level);
    StripStyled(c, t);
    assert c + level.Name() + ":" + Reset == c + t + Reset;
  }

  /** `LEVEL:` holds no escape character. */
  lemma LevelTagIsPlain(level: Level)
    ensures Esc !in level.Name() + ":"
  {
  }

  lemma BodyCosmetic(level: Level, msg: Message)
    requires msg.Text? ==> Esc !in msg.text
    ensures Shown(Body(level, msg.Text?, msg)) == Body(level, false, msg)
  {
    StylesAreWellFormed();
    if msg.Text? {
      if level == INFO {
        StripPlain(msg.text, "");
        assert msg.text + "" == msg.text;
      } else {
        StripStyled(BodyColor(level).value, msg.text);
      }
    }
  }

  /** Colour is cosmetic: removing the escape sequences from the coloured line
      gives exactly the uncoloured line, provided the level colours are SGR
      sequences and the timestamp, module and message carry no escape. */
  lemma ColorIsCosmetic(lg: Logger, now: string, msg: Message, level: Level, m: string)
    requires CacheValid(lg.hashCache) && lg.levelColors.WellFormed()
    requires Esc !in now && Esc !in m && (msg.Text? ==> Esc !in msg.text)
    ensures var on := Log(lg, ColorSupport(true, true), now, msg, level, Some(m)).line;
            var off := Log(lg, ColorSupport(false, false), now, msg, level, Some(m)).line;
            && on.stream == off.stream
            && Strip(on.timePart) == off.timePart
            && Strip(on.modulePart) == off.modulePart
            && Strip(on.levelPart) == off.levelPart
            && Shown(on.body) == off.body
  {
    var c := ModuleColors[ModuleIndex(m)];
    var on := Log(lg, ColorSupport(true, true), now, msg, level, Some(m)).line;
    var off := Log(lg, ColorSupport(false, false), now, msg, level, Some(m)).line;
    ColorOnParts(lg, ColorSupport(true, true), now, msg, level, m);
    ColorOffParts(lg, ColorSupport(false, false), now, msg, level, m);
    StylesAreWellFormed();
    TimePartCosmetic(level, now);
    ModulePartCosmetic(c, m);
    LevelPartCosmetic(lg.levelColors.Of(level), level);
    BodyCosmetic(level, msg);
    assert on.body == Body(level, msg.Text?, msg);
  }

  /** The result of a public method: the new state, the lines written, and the
      exit code when the method ends the process. */
  datatype Outcome = Outcome(logger: Logger, lines: seq<LogLine>, exitCode: Option<int>)

  /** `info`, `warn` and `error`: one line at that level. */
  function Emit(lg: Logger, colors: ColorSupport, now: string, msg: Message, level: Level,
                moduleName: Option<string>): (r: Outcome)
    requires level != DEBUG
    ensures r.lines == [Log(lg, colors, now, msg, level, moduleName).line] && r.exitCode == None
  {
    var logged := Log(lg, colors, now, msg, level, moduleName);
    Outcome(logged.logger, [logged.line], None)
  }

  /** `debug`: one DEBUG line when debug mode is on, nothing at all otherwise. */
  function Debug(lg: Logger, colors: ColorSupport, now: string, msg: Message, moduleName: Option<string>): (r: Outcome)
    ensures !lg.debugMode ==> r == Outcome(lg, [], None)
    ensures lg.debugMode ==> r.lines == [Log(lg, colors, now, msg, DEBUG, moduleName).line]
    ensures r.exitCode == None
  {
    if lg.debugMode then
      var logged := Log(lg, colors, now, msg, DEBUG, moduleName);
      Outcome(logged.logger, [logged.line], None)
    else Outcome(lg, [], None)
  }

  /** `exception`: one ERROR line carrying the text, then exit status 1. */
  function Exception(lg: Logger, colors: ColorSupport, now: string, text: string, moduleName: Option<string>): (r: Outcome)
    ensures |r.lines| == 1 && r.lines[0].stream == Stderr
    ensures r.lines[0] == Log(lg, colors, now, Text(text), ERROR, moduleName).line
    ensures r.exitCode == Some(1)
  {
    var logged := Log(lg, colors, now, Text(text), ERROR, moduleName);
    Outcome(logged.logger, [logged.line], Some(1))
  }

  /** `setDebugMode`: only the debug flag changes. */
  function SetDebugMode(lg: Logger, enabled: bool): (r: Logger)
    ensures r.debugMode == enabled
    ensures r.defaultModule == lg.defaultModule && r.levelColors == lg.levelColors && r.hashCache == lg.hashCache
  {
    lg.(debugMode := enabled)
  }

  /** After `setDebugMode(true)` a `debug` call writes exactly one DEBUG line,
      to standard output. */
  lemma DebugAfterEnabling(lg: Logger, colors: ColorSupport, now: string, msg: Message, moduleName: Option<string>)
    ensures var r := Debug(SetDebugMode(lg, true), colors, now, msg, moduleName);
            |r.lines| == 1 && r.lines[0].stream == Stdout
    ensures Debug(SetDebugMode(lg, false), colors, now, msg, moduleName).lines == []
  {
  }

  /** A call on the logger's public interface. */
  datatype Call =
    | Info(msg: Message, moduleName: Option<string>, now: string)
    | Warn(msg: Message, moduleName: Option<string>, now: string)
    | Error(msg: Message, moduleName: Option<string>, now: string)
    | DebugCall(msg: Message, moduleName: Option<string>, now: string)
    | ExceptionCall(text: string, moduleName: Option<string>, now: string)
    | SetDebug(enabled: bool)

  function Apply(lg: Logger, colors: ColorSupport, call: Call): Outcome
  {
    match call
    case Info(msg, moduleName, now) => Emit(lg, colors, now, msg, INFO, moduleName)
    case Warn(msg, moduleName, now) => Emit(lg, colors, now, msg, WARN, moduleName)
    case Error(msg, moduleName, now) => Emit(lg, colors, now, msg, ERROR, moduleName)
    case DebugCall(msg, moduleName, now) => Debug(lg, colors, now, msg, moduleName)
    case ExceptionCall(text, moduleName, now) => Exception(lg, colors, now, text, moduleName)
    case SetDebug(enabled) => Outcome(SetDebugMode(lg, enabled), [], None)
  }

  /** Every call keeps the cache valid and touches nothing but the cache and,
      for `setDebugMode`, the debug flag. */
  lemma ApplyKeepsCacheValid(lg: Logger, colors: ColorSupport, call: Call)
    requires CacheValid(lg.hashCache)
    ensures var r := Apply(lg, colors, call);
            && CacheValid(r.logger.hashCache)
            && r.logger.defaultModule == lg.defaultModule && r.logger.levelColors == lg.levelColors
            && (!call.SetDebug? ==> r.logger.debugMode == lg.debugMode)
  {
    match call
    case Info(msg, moduleName, now) =>
      var l := Log(lg, colors, now, msg, INFO, moduleName);
    case Warn(msg, moduleName, now) =>
      var l := Log(lg, colors, now, msg, WARN, moduleName);
    case Error(msg, moduleName, now) =>
      var l := Log(lg, colors, now, msg, ERROR, moduleName);
    case DebugCall(msg, moduleName, now) =>
      var l := Log(lg, colors, now, msg, DEBUG, moduleName);
    case ExceptionCall(text, moduleName, now) =>
      var l := Log(lg, colors, now, Text(text), ERROR, moduleName);
    case SetDebug(enabled) =>
  }

  /** A program's calls in order; an exception ends the process, so no later
      call runs. */
  function Run(lg: Logger, colors: ColorSupport, calls: seq<Call>): (r: Outcome)
    decreases |calls|
  {
    if |calls| == 0 then Outcome(lg, [], None)
    else
      var first := Apply(lg, colors, calls[0]);
      if first.exitCode.Some? then first
      else
        var rest := Run(first.logger, colors, calls[1..]);
        Outcome(rest.logger, first.lines + rest.lines, rest.exitCode)
  }

  /** The process exits exactly when some call is an exception, always with
      status 1, and no call writes more than one line. */
  lemma {:induction false} RunExit(lg: Logger, colors: ColorSupport, calls: seq<Call>)
    ensures Run(lg, colors, calls).exitCode.Some? <==> exists i :: 0 <= i < |calls| && calls[i].ExceptionCall?
    ensures Run(lg, colors, calls).exitCode in {None, Some(1)}
    ensures |Run(lg, colors, calls).lines| <= |calls|
    decreases |calls|
  {
    if |calls| > 0 {
      var first := Apply(lg, colors, calls[0]);
      if first.exitCode.None? {
        RunExit(first.logger, colors, calls[1..]);
        assert forall i :: 1 <= i < |calls| ==> calls[i] == calls[1..][i - 1];
        assert !calls[0].ExceptionCall?;
        if exists i :: 0 <= i < |calls| && calls[i].ExceptionCall? {
          var i :| 0 <= i < |calls| && calls[i].ExceptionCall?;
          assert calls[1..][i - 1].ExceptionCall?;
        }
      }
    }
  }

  /** Running two call sequences one after the other is running their
      concatenation, except that nothing runs after an exit. */
  lemma {:induction false} RunAppend(lg: Logger, colors: ColorSupport, pre: seq<Call>, post: seq<Call>)
    ensures var a := Run(lg, colors, pre);
            var b := Run(a.logger, colors, post);
            Run(lg, colors, pre + post) ==
              if a.exitCode.Some? then a else Outcome(b.logger, a.lines + b.lines, b.exitCode)
    decreases |pre|
  {
    if |pre| == 0 {
      assert pre + post == post;
    } else {
      assert (pre + post)[0] == pre[0];
      assert (pre + post)[1..] == pre[1..] + post;
      var first := Apply(lg, colors, pre[0]);
      if first.exitCode.None? {
        RunAppend(first.logger, colors, pre[1..], post);
        var a' := Run(first.logger, colors, pre[1..]);
        var b := Run(a'.logger, colors, post);
        assert first.lines + (a'.lines + b.lines) == (first.lines + a'.lines) + b.lines;
      }
    }
  }

  /** Every call keeps every cache entry equal to a fresh hash of its key. */
  lemma {:induction false} RunKeepsCacheValid(lg: Logger, colors: ColorSupport, calls: seq<Call>)
    requires CacheValid(lg.hashCache)
    ensures CacheValid(Run(lg, colors, calls).logger.hashCache)
    decreases |calls|
  {
    if |calls| > 0 {
      var first := Apply(lg, colors, calls[0]);
      ApplyKeepsCacheValid(lg, colors, calls[0]);
      if first.exitCode.None? {
        RunKeepsCacheValid(first.logger, colors, calls[1..]);
      }
    }
  }

  // ---------------------------------------------------------------------
  // The cache as the source writes it

  /** The members every plain object inherits from `Object.prototype`; all of
      them are truthy. */
  const ObjectPrototypeMembers: set<string> :=
    { "constructor", "__proto__", "hasOwnProperty", "isPrototypeOf", "propertyIsEnumerable",
      "toString", "toLocaleString", "valueOf",
      "__defineGetter__", "__defineSetter__", "__lookupGetter__", "__lookupSetter__" }

  /** What `this.hashCache[str]` yields when truthy: a cached number, or an
      inherited member (a function or the prototype object). */
  datatype HashAnswer = Index(i: int) | InheritedMember

  datatype AsWrittenResult = AsWrittenResult(answer: HashAnswer, cache: map<string, int>)

  /** `intHash` exactly as written: the cache is a plain `{}` object, so a
      lookup of an inherited member's name is truthy and is returned. */
  function IntHashAsWritten(cache: map<string, int>, key: string): (r: AsWrittenResult)
    ensures CacheValid(cache) && key !in ObjectPrototypeMembers ==> r.answer == Index(ModuleIndex(key))
    ensures key !in cache && key in ObjectPrototypeMembers ==> r == AsWrittenResult(InheritedMember, cache)
  {
    if key in cache && cache[key] != 0 then AsWrittenResult(Index(cache[key]), cache)
    else if key !in cache && key in ObjectPrototypeMembers then AsWrittenResult(InheritedMember, cache)
    else
      var h := ModuleIndex(key);
      AsWrittenResult(Index(h), cache[key := h])
  }

  /** The module colour as `consoleModuleColors[answer]` renders it. */
  function AnswerColor(a: HashAnswer): string
  {
    if a.Index? then PaletteEntry(a.i) else "undefined"
  }

  /** A module named `toString` gets no palette colour as written: its cache
      lookup answers with the inherited method, and the coloured tag becomes
      `[undefinedtoString` + reset + `]`, while the corrected cache gives a
      palette entry. */
  lemma AsWrittenCacheIsNotTransparent()
    ensures IntHashAsWritten(map[], "toString").answer == InheritedMember
    ensures AnswerColor(IntHashAsWritten(map[], "toString").answer) == "undefined"
    ensures CachedIndex(map[], "toString").index == ModuleIndex("toString")
    ensures PaletteEntry(CachedIndex(map[], "toString").index) in ModuleColors
  {
  }

  /** `log(msg, level, module)` exactly as written, over the plain-object cache. */
  function LogAsWritten(lg: Logger, colors: ColorSupport, now: string, msg: Message, level: Level,
                        moduleName: Option<string>): (r: Logged)
    ensures r.logger == lg.(hashCache := r.logger.hashCache)
    ensures r.line.stream == Stderr <==> level.ToStderr()
  {
    var m := if moduleName.Some? then moduleName.value else lg.defaultModule;
    var hashed := IntHashAsWritten(lg.hashCache, m);
    Logged(lg.(hashCache := hashed.cache), Line(lg, colors, now, msg, level, m, AnswerColor(hashed.answer)))
  }

  /** The corrected logger differs from the source as written only for module
      names that an `Object.prototype` member shadows. */
  lemma LogAgreesOutsidePrototypeNames(lg: Logger, colors: ColorSupport, now: string, msg: Message, level: Level,
                                       moduleName: Option<string>)
    requires (if moduleName.Some? then moduleName.value else lg.defaultModule) !in ObjectPrototypeMembers
    ensures LogAsWritten(lg, colors, now, msg, level, moduleName) == Log(lg, colors, now, msg, level, moduleName)
  {
  }

  /** With colour on, as written, a module named after an `Object.prototype`
      member that the cache does not hold prints as `[undefined` + name +
      reset + `]`, and nothing is cached. */
  lemma AsWrittenPrototypeNameTag(lg: Logger, now: string, msg: Message, level: Level, k: string)
    requires k in ObjectPrototypeMembers && k !in lg.hashCache
    ensures var r := LogAsWritten(lg, ColorSupport(true, true), now, msg, level, Some(k));
            r.line.modulePart == "[" + "undefined" + k + Reset + "]" && r.logger.hashCache == lg.hashCache
  {
    assert IntHashAsWritten(lg.hashCache, k) == AsWrittenResult(InheritedMember, lg.hashCache);
  }

  /** For such a module the corrected logger prints a different tag: it opens
      with the palette colour's escape character where the source prints `u`. */
  lemma PrototypeNameTagDiffers(lg: Logger, now: string, msg: Message, level: Level, k: string)
    requires CacheValid(lg.hashCache)
    requires k in ObjectPrototypeMembers && k !in lg.hashCache
    ensures Log(lg, ColorSupport(true, true), now, msg, level, Some(k)).line.modulePart
            != LogAsWritten(lg, ColorSupport(true, true), now, msg, level, Some(k)).line.modulePart
  {
    AsWrittenPrototypeNameTag(lg, now, msg, level, k);
    ColorOnParts(lg, ColorSupport(true, true), now, msg, level, k);
    StylesAreWellFormed();
    var i := ModuleIndex(k);
    TagsDiffer(ModuleColors[i], k);
  }

  /** A tag opening with an SGR colour is never the tag opening with `undefined`. */
  lemma TagsDiffer(c: string, k: string)
    requires IsSgr(c)
    ensures "[" + c + k + Reset + "]" != "[" + "undefined" + k + Reset + "]"
  {
    assert ("[" + c + k + Reset + "]")[1] == c[0];
    assert ("[" + "undefined" + k + Reset + "]")[1] == 'u';
  }
}
