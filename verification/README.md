# node-logger in Dafny

This project models the core of the `node-logger` package. It has three parts:

- the command-line flag lookup `hasFlag` and the debug-mode default `checkDebug` (src/util.ts);
- the colour-support detection `supportsColor` (src/supports-color.ts);
- the `Logger` class (src/logger.ts). It formats a log line from a timestamp, a module tag, a level tag and the message. It colours each part when the target stream supports colour. It picks the module colour by hashing the module name into a ten-entry palette. It filters debug lines and exits the process on `exception`.

Everything is pure. The process environment, the argument list, the TTY status of stdout and stderr, and the timestamp are all parameters. A logger call returns the updated logger, the line it would print, and the exit code it would request. The model has seven modules:

- `JsSemantics`: the JavaScript arithmetic the hash relies on. This covers `Math.imul`, the `| 0` wrap to signed 32 bits, the truncating `%`, and `charCodeAt` as UTF-16 code units.
- `Strings`: `indexOf`, prefix, suffix and substring tests, and ASCII lower-casing.
- `Util`: `hasFlag` and `checkDebug`.
- `SupportsColor`: `checkFlag`, `checkEnv`, `checkSupport` and `supportsColor`.
- `ModuleHash`: the uncached `intHash`, as a fold and as a loop.
- `ConsoleStyles` and `Logging`: the styles, the logger state, `log`, the public methods, and call sequences.

Three behaviours of the code that are easy to misread:

- `checkDebug` turns debug mode off only when `--no-debug` is passed, `--debug` is not passed, and `NODE_ENV` is exactly `production`. It is on in every other case, including when `NODE_ENV` is unset.
- Colour support with `CI` and `TRAVIS` set is `true` only on a TTY, when colour is forced on, or under Azure Pipelines (`TF_BUILD` and `AGENT_NAME` set). Otherwise an unforced non-TTY stream answers `false` before the CI rule is reached.
- JavaScript's truncating `%` can make the intermediate `hash % length` negative in `intHash`. The final index is still the Euclidean remainder of `hash + str.length` (`ModuleHash.IntHashIsEuclidean`), so it never differs from a floor-mod implementation.

## Model

| member | source | states |
|---|---|---|
| Strings.IndexOf | src/util.ts:6-7 | `indexOf` gives -1 exactly when the item is absent; otherwise it gives the position of its first occurrence |
| Util.SearchedArg | src/util.ts:5 | the searched argument always starts with `-` and ends with the flag; it is the flag itself when that starts with `-`, `-flag` when the flag's JavaScript length is 1, `--flag` otherwise |
| JsSemantics.JsLengthIsOneMeaning | src/util.ts:5 | the one-character test holds exactly when the flag is one UTF-16 code unit long, which is what `flag.length === 1` counts |
| Util.LongFlagGetsTwoDashes | src/util.ts:5 | any flag of two or more characters not starting with `-` is searched as `--flag` |
| Util.AstralFlagGetsTwoDashes | src/util.ts:5 | a single character above the Basic Multilingual Plane has JavaScript length 2, so it is searched with two dashes |
| Util.HasFlagMeaning | src/util.ts:4-9 | `hasFlag` holds if and only if the searched argument occurs with no `--` at or before that occurrence |
| Util.HasFlagWithoutTerminator | src/util.ts:6-8 | with no `--` in the arguments, `hasFlag` is plain membership |
| Util.HasFlagIgnoresAfterTerminator | src/util.ts:6-8 | appending `--` and any arguments after it never changes any `hasFlag` answer |
| Util.TerminatorIsNeverAFlag | src/util.ts:5-8 | `hasFlag('--')` is always false |
| Util.CheckDebugOffExactly | src/util.ts:11-13 | debug mode defaults to off if and only if `--no-debug` is passed, `--debug` is not, and `NODE_ENV` is `production` |
| SupportsColor.CheckFlag | src/supports-color.ts:7-15 | false exactly when a disabling flag is passed; true exactly when none is but `--color` or `--colors` is; undefined otherwise |
| SupportsColor.DisableFlagBeatsEnableFlag | src/supports-color.ts:8-12 | with both `--color` and `--no-color` passed, the flags say false |
| SupportsColor.CheckEnv | src/supports-color.ts:17-26 | `FORCE_COLOR` of `true` or empty forces on, `false` forces off, and any other value or absence forces nothing |
| SupportsColor.EnvOverridesFlags | src/supports-color.ts:40 | a decisive `FORCE_COLOR` fixes the forced value whatever the flags are |
| SupportsColor.EnvTrueBeatsNoColorFlag | src/supports-color.ts:40 | `FORCE_COLOR=true` with `--no-color` passed still forces colour on |
| SupportsColor.ForceDisableWins | src/supports-color.ts:42-43 | colour forced off means no colour, on a TTY or not |
| SupportsColor.AzurePipelinesWins | src/supports-color.ts:45-46 | with `TF_BUILD` and `AGENT_NAME` set and colour not forced off, colour is supported even without a TTY |
| SupportsColor.NoTtyUnforced | src/supports-color.ts:48-49 | an unforced non-TTY stream has colour if and only if it runs under Azure Pipelines |
| SupportsColor.ForcedOnWithDumbTerm | src/supports-color.ts:51-52 | forcing colour on is not enough: `TERM=dumb` still answers false outside Azure Pipelines |
| SupportsColor.UnrecognisedEnvHasNoColor | src/supports-color.ts:54-73 | outside Azure Pipelines, with none of `TERM`, `CI`, `TEAMCITY_VERSION`, `TERM_PROGRAM` or `COLORTERM` set, the answer is false even when forced on |
| SupportsColor.CiRuleDecides | src/supports-color.ts:54-55 | once the CI rule is reached, the answer is exactly whether a known CI variable is set or `CI_NAME` is `codeship` |
| SupportsColor.BareCiHasNoColor | src/supports-color.ts:54-55 | `CI` with no known provider variable and no `CI_NAME=codeship` gives no colour outside Azure Pipelines, whatever `TERM`, the flags or the terminal say |
| SupportsColor.TravisHasColor | src/supports-color.ts:28-55 | `CI` with `TRAVIS` (one of the known providers listed at lines 28-37) on a TTY gives colour through the CI rule at lines 54-55 |
| SupportsColor.TeamCityExamples | src/supports-color.ts:57-58 | versions `9.1.`, `10.` and `9.01.2` match the TeamCity pattern; `9.0.`, `8.4.` and `10` do not |
| SupportsColor.TeamCityLooksAtPrefixOnly | src/supports-color.ts:58 | the TeamCity pattern is anchored at the start only: any extension of a matching version matches |
| SupportsColor.TermMatchIgnoresCase | src/supports-color.ts:67 | the `TERM` pattern is case-insensitive |
| SupportsColor.TermExamples | src/supports-color.ts:67 | `xterm-256color`, `XTERM`, `putty-256` and `Eterm-color` match the `TERM` pattern |
| SupportsColor.UndefinedTermMatchesNothing | src/supports-color.ts:67 | an unset `TERM`, matched as the text `undefined`, matches nothing |
| SupportsColor.ColorTermOnTtyHasColor | src/supports-color.ts:60-68 | `TERM=xterm-256color` on a TTY, with nothing else set, gives colour |
| SupportsColor.TtyMonotone | src/supports-color.ts:39-74 | a TTY never loses colour that a non-TTY has, and forcing makes the TTY status irrelevant |
| SupportsColor.DetectColorSupport | src/supports-color.ts:76-79 | stdout and stderr agree when their TTY status agrees or colour is forced; whichever stream is a TTY has colour whenever the other one does |
| JsSemantics.Wrap32 | src/logger.ts:154 | or-ing with 0 gives the unique signed 32-bit value congruent to `x` modulo 2^32 and leaves signed 32-bit values alone |
| JsSemantics.TruncRem | src/logger.ts:156 | JavaScript's `%` takes the sign of the dividend, is below the divisor in magnitude, and satisfies `a == n * trunc(a / n) + r` |
| JsSemantics.CodeUnits | src/logger.ts:153-154 | `charCodeAt` yields at least one code unit per character, and exactly the character codes for BMP text |
| ModuleHash.Fold | src/logger.ts:152-155 | the loop's hash is always a signed 32-bit integer |
| ModuleHash.FoldIsWrappedPolynomial | src/logger.ts:152-155 | the wrapped loop equals the exact polynomial `sum of c[i] * 31^(n-1-i)`, reduced modulo 2^32 to signed 32 bits |
| ModuleHash.IntHash | src/logger.ts:156 | the index always lies in `[0, length)` |
| ModuleHash.IntHashIsEuclidean | src/logger.ts:156 | the index is the Euclidean remainder of `hash + str.length`, despite the truncating `%` |
| ModuleHash.LoggerFold | src/logger.ts:152-155 | the module name `logger` hashes to -1097337456, with a wrap on the last step |
| ModuleHash.LoggerHashExample | src/logger.ts:156 | for `logger` the truncating and Euclidean remainders differ (-6 against 4), but both give index 0 |
| ModuleHash.ComputeIntHash | src/logger.ts:152-156 | the imperative loop computes exactly the fold's index |
| ConsoleStyles.StylesAreWellFormed | src/logger.ts:5-50 | every style and palette entry the logger uses is a well-formed SGR escape sequence |
| ConsoleStyles.StripStyled | src/logger.ts:126-128 | `color + text + Reset` shows on a terminal as `text` |
| Logging.ModuleIndex | src/logger.ts:124 | the module colour index always lies within the ten-entry palette |
| Logging.CachedIndex | src/logger.ts:148-159 | over a valid cache the cached hash answers like the uncached one and keeps the cache valid; it adds exactly the key and changes no other entry |
| Logging.CachedZeroIsRecomputed | src/logger.ts:149-150 | a cached index 0 is falsy and is recomputed, to the same value and the same cache |
| Logging.NewLogger | src/logger.ts:77-89 | omitted options take the defaults: the process-wide debug default and the default level colours; the cache starts valid |
| Logging.Log | src/logger.ts:116-146 | logging, with the corrected module cache, changes only the hash cache and keeps it valid; WARN and ERROR go to stderr, INFO and DEBUG to stdout |
| Logging.LogAsWritten | src/logger.ts:116-146 | logging over the as-written plain-object cache changes only the hash cache; WARN and ERROR go to stderr, INFO and DEBUG to stdout |
| Logging.LogAgreesOutsidePrototypeNames | src/logger.ts:116-159 | for every module name that no `Object.prototype` member shadows, the as-written and the corrected `log` give the same line and the same logger |
| Logging.AsWrittenPrototypeNameTag | src/logger.ts:124-127 | as written, with colour on, an uncached module named after an `Object.prototype` member prints as `[undefined` + name + reset + `]` and is not cached |
| Logging.PrototypeNameTagDiffers | src/logger.ts:124-127 | for such a module the corrected logger prints a different module tag from the source as written |
| Logging.OmittedModuleIsDefault | src/logger.ts:117 | omitting the module is the same as passing the default module |
| Logging.ColorOffParts | src/logger.ts:123-128 | without colour the parts are the plain timestamp, `[module]`, `LEVEL:` and the message unchanged |
| Logging.ColorOnParts | src/logger.ts:123-141 | with colour the parts are wrapped in the time colour, the hashed module colour and the level colour; string messages of WARN, ERROR and DEBUG get the level's body colour; other messages are left alone |
| Logging.ColorIsCosmetic | src/logger.ts:119-141 | with well-formed level colours and escape-free text, stripping the escape sequences from a coloured line gives the uncoloured line |
| Logging.Emit | src/logger.ts:91-101 | `info`, `warn` and `error` print exactly one line and never exit |
| Logging.Debug | src/logger.ts:103-105 | `debug` prints one DEBUG line when debug mode is on and leaves everything unchanged when it is off |
| Logging.Exception | src/logger.ts:107-110 | `exception` prints one ERROR line on stderr and then exits with code 1 |
| Logging.SetDebugMode | src/logger.ts:112-114 | `setDebugMode` sets the flag and changes nothing else |
| Logging.DebugAfterEnabling | src/logger.ts:103-114 | after `setDebugMode(true)` a debug call prints its line; after `setDebugMode(false)` it prints nothing |
| Logging.ApplyKeepsCacheValid | src/logger.ts:91-114 | every public call keeps the hash cache valid |
| Logging.RunExit | src/logger.ts:107-110 | a call sequence exits if and only if it contains an `exception` call; the exit code is always 1; it prints at most one line per call |
| Logging.RunAppend | src/logger.ts:107-110 | nothing after an exit runs; without an exit, running two sequences one after the other is running their concatenation |
| Logging.RunKeepsCacheValid | src/logger.ts:148-159 | any call sequence keeps the hash cache valid |
| Logging.IntHashAsWritten | src/logger.ts:148-159 | the hash as written answers correctly for ordinary keys; for a key that names an `Object.prototype` member and is not yet cached, it returns the inherited member and does not cache |
| Logging.AsWrittenCacheIsNotTransparent | src/logger.ts:149-150 | for the module name `toString` the as-written cache yields an inherited function, and hence an `undefined` module colour; the corrected cache yields a palette colour |

## Left out

- Console output is not performed. `log` returns the stream and the four arguments it would pass to `console.*`. Node's rendering of a non-string message (`util.inspect`) is not modelled: such a message is an opaque handle.
- `process.exit(1)` is modelled as an exit code in the call outcome. A call sequence stops there.
- `new Date().toISOString()` is a parameter `now`.
- `process.env`, `process.argv`, `tty.isatty(1)` and `tty.isatty(2)` are parameters. The default debug mode is a parameter of `NewLogger`; `CheckDebug` computes it.
- The option types exclude `null`, so `None` in `NewLogger` stands for an omitted option, which the destructuring defaults replace. Passing `null` explicitly is not modelled: the defaults apply only to `undefined`. Only `??=` on the module name treats `null` and `undefined` alike, and there `None` stands for both.
- The `default:` branch of the level switch is left out: every `LogLevel` value has its own case.
- Styles the logger never uses (`Bright`, `Dim`, backgrounds, and so on) are left out.
- The TeamCity and `TERM` regular expressions are written out as predicates over the text, not run through a regular-expression engine.
- Logging.Log: uses the corrected own-key module cache (`Logging.CachedIndex`), and so do `Emit`, `Debug`, `Exception`, `Apply` and `Run`. For the twelve `ObjectPrototypeMembers` names the source as written caches nothing and, with colour on, prints an `undefined` module colour; with colour off both print `[name]` and only the cache differs. `Logging.LogAsWritten` models that, and `Logging.LogAgreesOutsidePrototypeNames` proves the two agree for every other name.
- JsSemantics.CodeUnits: only well-formed UTF-16 strings are modelled. A Dafny `char` is a Unicode scalar value, so a JavaScript string holding an unpaired surrogate (a flag `'\uD800'`, a module name `'\uD83C'`) cannot be stated, and the model says nothing about `hasFlag` or the hash on such strings.
- ModuleHash.IntHash: requires a positive `length`. The only caller passes 10; with 0 JavaScript would produce `NaN`.
- JsSemantics.TruncRem: requires a positive divisor, which is the only case the hash uses.
- Logging.ColorIsCosmetic: requires escape-free timestamp, module name and message text, and well-formed level colours. User-supplied level colours are arbitrary strings in the source.
- Numbers are exact integers. The hash values stay far below 2^53, so JavaScript's doubles compute them exactly.

## Findings

| source | as written | input that shows it | evidently intended | confidence | as-written member | corrected member |
|---|---|---|---|---|---|---|
| src/logger.ts:71, 149-150 | the cache is a plain `{}` object, so `hashCache[str]` also finds members inherited from `Object.prototype` | the module name `toString` returns a function, so `consoleModuleColors[fn]` is `undefined` and the tag prints as `[undefinedtoString<reset>]` | only indices this logger stored are cache hits; every module name gets a palette colour | not executed | Logging.IntHashAsWritten and Logging.LogAsWritten, shown by Logging.AsWrittenCacheIsNotTransparent and Logging.PrototypeNameTagDiffers | Logging.CachedIndex, used by Logging.Log |
