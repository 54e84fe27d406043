# php-tracer in Dafny

A model of `Tracer`, a home-made PHP execution tracer. While the traced script
runs, PHP calls `Tracer::tickHandler` on every tick. The handler looks at the
caller frame and filters it by namespace or by file. It builds a call
signature with the formatted arguments. When that signature differs from the
top of its call stack, it pushes it and appends an indented `-> signature`
line to the log. `start` sets up the log file, the options and the handler.
`stop` removes the handler and writes a summary line with the elapsed time.

The model is functional. The tracer's static state is an immutable record.
Each operation is a pure function. A script is a sequence of `start` / tick /
`stop` events. The modules follow the pieces of the class:

| module | what it models |
|---|---|
| `Wrappers` | `Option` and `Result` |
| `Text` | PHP 8 `strpos`, prefix and substring tests, `str_repeat`, `implode` |
| `Decimal` | `(string)` of integers, `%.4f` of the duration under the C locale, and their parsers |
| `Slashes` | `addslashes`, `stripslashes`, and the scan for a closing quote |
| `Args` | `formatArgs`, plus a reader that decodes the rendered list back |
| `Filter` | caller frames, the options, and the `include_namespaces` / `include_files` filter |
| `Tracker` | self-exclusion, signatures, call lines, one handler run (`Tick`), runs of ticks |
| `Session` | `start`, `stop`, repeated handler registration, whole scripts |
| `Scenarios` | a complete session worked through on concrete calls |

Strings are `seq<char>` with one character per byte, so lengths are what
`strlen` counts. The log is the sequence of messages written to the current
log file. `PHP_EOL` is not included.

## Model

| member | source | states |
|---|---|---|
| `Text.StrPos` | src/Tracer.php:75-88 | `strpos` as PHP 8 computes it: offset 0 exactly when the needle is a prefix, and some offset exactly when the needle occurs in the haystack, at a real occurrence |
| `Text.StrPosFrom` | src/Tracer.php:75-88 | the scan returns the first occurrence at or after the start offset, or nothing when there is none |
| `Text.Repeat` | src/Tracer.php:112 | `str_repeat(s, n)` is `n * |s|` bytes long and consists only of bytes of `s` |
| `Text.JoinAppend` | src/Tracer.php:144 | `implode` of two non-empty lists puts exactly one separator between the two joined halves |
| `Text.JoinLength` | src/Tracer.php:144 | `implode` output is the parts' total length plus one separator for each neighbouring pair |
| `Decimal.NatToString` | src/Tracer.php:131 | a count renders as a non-empty run of decimal digits with no leading zero |
| `Decimal.NatToStringRoundTrip` | src/Tracer.php:131 | the digits of an element count read back to the count |
| `Decimal.IntToStringRoundTrip` | src/Tracer.php:140 | the `(string)` of any integer, sign included, parses back to that integer |
| `Decimal.Fixed4RoundTrip` | src/Tracer.php:47 | the `%.4f` seconds read back to the same number of ten-thousandths |
| `Slashes.AddSlashes` | src/Tracer.php:134 | escaping adds exactly one byte per quote, double quote, backslash or NUL, and leaves text without those bytes unchanged |
| `Slashes.StripAddSlashes` | src/Tracer.php:134 | `stripslashes` recovers the original bytes from the escaped string |
| `Slashes.EscapedThenQuote` | src/Tracer.php:134 | escaped text never contains a bare double quote, so the quote placed after it is the first unescaped one |
| `Args.Shorten` | src/Tracer.php:133 | a string of at most 40 bytes is kept whole; a longer one becomes its first 37 bytes and `...`, exactly 40 bytes |
| `Args.Quote` | src/Tracer.php:134 | the quoted token is 2 bytes longer than the payload, plus one byte per escaped byte |
| `Args.Tokens` | src/Tracer.php:126-142 | there is exactly one token per argument, in argument order |
| `Args.FormatArgsAppend` | src/Tracer.php:122-144 | formatting a concatenated argument list is the two renderings joined by `, ` |
| `Args.TokenRoundTrip` | src/Tracer.php:127-141 | each token reads back to what its argument shows: the class of an object, the element count of an array, the shortened bytes of a string, the boolean, null, or the integer |
| `Args.SplitJoin` | src/Tracer.php:144 | the joined list of decodable tokens splits back into exactly those tokens, even when strings contain `, ` or quotes |
| `Args.FormatArgsRoundTrip` | src/Tracer.php:120-145 | the whole argument string decodes to what every argument shows, in order; no arguments give the empty string |
| `Filter.AnyPrefixOf` | src/Tracer.php:73-79 | the namespace loop succeeds iff some listed entry is a prefix of the class name |
| `Filter.AnyPatternIn` | src/Tracer.php:86-92 | the file loop succeeds iff some listed entry occurs in the file name |
| `Filter.Accepts` | src/Tracer.php:65-95 | a method frame passes iff `include_namespaces` is absent or one of its entries prefixes the class. A function frame passes iff `include_files` is absent or one of its entries occurs in the file |
| `Filter.AxesIndependent` | src/Tracer.php:69-95 | a method frame's fate does not depend on `include_files`, nor a function frame's on `include_namespaces` |
| `Filter.EmptyAndAbsentLists` | src/Tracer.php:72-94 | a present empty list rejects every frame on its axis; an absent key accepts every frame |
| `Filter.NamespaceExample` | src/Tracer.php:72-80 | with `["App\\"]`, class `App\Service` passes and `Lib\Service` does not |
| `Filter.FileExample` | src/Tracer.php:85-93 | with `["controllers/"]`, a function from a controllers path passes and one from a models path does not |
| `Tracker.SelfCallIsStaticTracer` | src/Tracer.php:98-103 | a frame is excluded as the tracer itself iff it is a static call on class `Tracer`; `Tracer->` calls are not excluded |
| `Tracker.SignatureSeparatesArgs` | src/Tracer.php:106-110 | two calls of the same function whose decodable arguments show differently get different signatures, so the dedup tells them apart |
| `Tracker.SignatureFollowsViews` | src/Tracer.php:106-110 | conversely, calls of the same function whose arguments show alike get the same signature, whatever the arguments were |
| `Tracker.SignatureIffViews` | src/Tracer.php:106-110 | for decodable arguments, two calls of the same function have equal signatures iff their arguments show alike |
| `Tracker.LongStringsShareSignature` | src/Tracer.php:106-134 | a call with a string over 40 bytes gets the same signature as one with another such string sharing its first 37 bytes |
| `Args.SameViewsSameFormat` | src/Tracer.php:120-145 | argument lists that show alike render to the same text |
| `Args.LongStringsShowAlike` | src/Tracer.php:133 | two strings over 40 bytes sharing their first 37 bytes show the same payload |
| `Tracker.EntryLine` | src/Tracer.php:112-113 | the call line at stack position `d` is `2d` indent bytes, the 3-byte arrow, then the signature |
| `Tracker.EntryLineRoundTrip` | src/Tracer.php:112-113 | a call line reads back to its depth and its signature |
| `Tracker.Tick` | src/Tracer.php:57-114 | one handler run pushes at most one entry and changes none below it. It pushes iff a caller exists, passes the filter, is not the tracer and differs from the top. A push appends one line for the pushed signature, indented `2 * (new depth - 1)`; otherwise the log is unchanged |
| `Tracker.TickRejected` | src/Tracer.php:59-103 | with no caller frame, a filtered-out frame or a `Tracer::` frame, the stack and log stay unchanged |
| `Tracker.TickSameTop` | src/Tracer.php:109-110 | a caller whose signature is already on top pushes and logs nothing |
| `Tracker.AlikeCallNotLogged` | src/Tracer.php:106-114 | a call whose arguments only show like those of the open call on top, such as a different long string with the same first 37 bytes, is taken for that call and not logged |
| `Tracker.TickIdempotent` | src/Tracer.php:109-114 | handling the same tick twice is the same as handling it once |
| `Tracker.TickExtends` | src/Tracer.php:110-113 | after one tick the log has grown by the call line of each new stack entry and by nothing else |
| `Tracker.ExtendsTransitive` | src/Tracer.php:110-113 | two such extensions in a row are one extension |
| `Tracker.RunExtends` | src/Tracer.php:110-113 | over any run of ticks the stack never shrinks and old entries and lines never change. Each appended line is the call line of one pushed entry, in push order, indented by its position |
| `Tracker.TickKeepsNeighboursDistinct` | src/Tracer.php:110-111 | a push never repeats the entry on top |
| `Tracker.RunKeepsNeighboursDistinct` | src/Tracer.php:110-111 | over any run no stack entry equals the one directly below it |
| `Tracker.RunSameCallLogsNothing` | src/Tracer.php:59-110 | ticks that only repeat the call on top, or are rejected, leave stack and log unchanged, on an empty stack too |
| `Tracker.RunRepeatedSite` | src/Tracer.php:109-114 | the same caller seen on `n >= 1` consecutive ticks has the effect of one tick: one line at most |
| `Session.Start` | src/Tracer.php:27-38 | `start` records path and options, truncates the log, registers the handler once more and keeps the call stack |
| `Session.Stop` | src/Tracer.php:43-48 | `stop` fails iff no `start` came first. Otherwise it drops one handler registration, appends the summary line and leaves the stack alone |
| `Session.SummaryLineRoundTrip` | src/Tracer.php:47 | the duration can be read back from the summary line |
| `Session.HandleTimesIsOneTick` | src/Tracer.php:37 | a handler registered `n >= 1` times acts on a tick exactly as one registration does |
| `Session.OnTick` | src/Tracer.php:37-45 | without a registration a tick changes nothing; with any number of registrations it is one handler run |
| `Session.ExecuteFailsOnlyBeforeStart` | src/Tracer.php:27-48 | once `start` has run, no script fails, whatever order of ticks, starts and stops follows |
| `Session.StopBeforeStartFails` | src/Tracer.php:46 | `stop` as the first event fails |
| `Session.StepKeepsValid` | src/Tracer.php:29-37 | the handler is never registered while the log file is unset |
| `Session.StepOnlyGrowsStack` | src/Tracer.php:27-48 | no event, `start` included, removes or changes a stack entry |
| `Session.ExecuteOnlyGrowsStack` | src/Tracer.php:27-114 | over a whole script the stack only grows |
| `Session.RestartSameTopNotLogged` | src/Tracer.php:27-114 | after a restart, a first call whose signature equals the previous session's top changes nothing, and the new log stays empty |
| `Session.OnTickKeepsLogExplained` | src/Tracer.php:110-113 | a handler run appends only the positioned call lines of the entries it pushes |
| `Session.StopKeepsLogExplained` | src/Tracer.php:43-48 | `stop` appends only a summary line |
| `Session.StepKeepsLogExplained` | src/Tracer.php:34-47 | after every event each log line is a call line of some stack entry, or a summary line |
| `Session.ExecuteKeepsLogExplained` | src/Tracer.php:27-152 | over a whole script the log file holds only call lines of stack entries and summary lines |
| `Session.TicksAreTrackerRun` | src/Tracer.php:37-114 | between `start` and `stop` the ticks of a session amount to one tracker run, however often the handler is registered |
| `Scenarios.TwoCallsOnEmptyStack` | src/Tracer.php:107-113 | two different calls on an empty stack give `-> f` then `  -> g` |
| `Scenarios.StartTwoCallsStopAny` | src/Tracer.php:27-113 | start, two different calls, stop: exactly two call lines, the second indented, then the summary |
| `Scenarios.StartTwoCallsStop` | src/Tracer.php:27-145 | the same on `App\Foo::bar(1, <50-byte string>)` and `App\Foo::baz()`: the long string shows as its first 37 bytes and `...` |

## Behaviour worth knowing

- `start` does not reset the call stack (src/Tracer.php:27-38). Only the log
  file is truncated, so a new session's first call line is indented by the
  depth the previous session left. Worse, when the new session's first traced
  call has the same signature as the previous session's top call, the new log
  file gets no line for it at all. (`Session.Start`,
  `Session.StepOnlyGrowsStack`, `Session.RestartSameTopNotLogged`.)
- Calling `stop` twice is not an error: a second summary line is written.
  Calling `start` twice is not an error either; the handler is then
  registered twice (see `hooks`). Only `stop` before any `start` fails, since
  it reads the unset start time (src/Tracer.php:43-48).
- The stack never pops (src/Tracer.php:110-113), so in the end-to-end example
  the second call line is indented by two spaces: the second call sits at
  depth 1.
- Self-exclusion compares the class part with `Tracer::` after the filter has
  run (src/Tracer.php:101). Only static calls of the tracer are excluded.
- A string argument is cut to 37 bytes and `...` when it is longer than 40
  bytes (src/Tracer.php:133). Two calls of one function whose long string
  arguments share their first 37 bytes therefore get the same signature, and
  the second is taken for the open first call and not logged
  (`Tracker.LongStringsShareSignature`, `Tracker.AlikeCallNotLogged`).
- `addslashes` writes a NUL byte as a backslash followed by the digit `0`, not
  a backslash followed by NUL (src/Tracer.php:134). `stripslashes` turns that
  pair back into NUL.
- `strpos` follows PHP 8 (src/Tracer.php:75, 88): an empty needle is found at
  offset 0, so an empty entry in either list accepts every frame on its axis.

## Left out

- Log file I/O: `file_put_contents`, the actual truncation and `PHP_EOL` are
  not modelled. The log is the sequence of messages written since the last
  truncation. Several log files are not tracked separately: only the current
  one is.
- `register_tick_function` / `unregister_tick_function` are modelled as a count
  of registrations. `unregister` is taken to remove one registration.
  `declare(ticks=1)` is not modelled: the ticks a script produces are an
  input sequence.
- `debug_backtrace`: the caller frame is an input, `None` when there is none.
  A function frame always carries a file name: a frame without one, where PHP
  would pass null to `strpos`, is not modelled.
- `microtime` and floating point: `stop` takes the elapsed time already
  rounded to ten-thousandths of a second. The rounding of `%.4f` and negative
  durations are not modelled.
- `get_class` and `(string)` of floats and resources: an object carries its
  class name, and a float or resource argument carries the text PHP would
  produce. Such text is not decoded by `Args.ParseToken`, so
  `Args.TokenRoundTrip` excludes it.
- Arrays are represented only by their element count, the one thing the
  formatter shows of them.
- Integers are unbounded. PHP's 64-bit range does not change how an integer
  is rendered.
- Option values that are not lists of strings are not modelled: PHP would
  warn or throw in `foreach` or `strpos` on them.
- Args.FormatArgsRoundTrip: holds only for arguments whose class names contain
  no comma and that are not floats or resources. Named classes cannot contain
  a comma; anonymous classes, whose names embed the defining file's path, are
  excluded.
- Decimal.Fixed4RoundTrip: PHP's `%f` takes its decimal point from the
  LC_NUMERIC locale; the model writes `.`, as under PHP's default C locale.
  Under a locale such as `fr_FR` the duration would be written with `,`.
- Session.SummaryLineRoundTrip: for the same reason, the summary line is the
  one written under the C locale.
- PHP versions before 8.0 are not modelled. The typed static properties need
  only PHP 7.4, but there `strpos` with an empty needle warns and returns
  `false`, so an empty list entry would reject instead of accept.
- Exceptions inside the handler are not modelled. No operation of the model
  can fail there.
