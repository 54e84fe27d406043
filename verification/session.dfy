/**
 * The tracing session: `Tracer::start`, `Tracer::stop` and the ticks of the
 * traced program in between, over the class's static state.
 */
module Session {
  import opened Wrappers
  import opened Decimal
  import opened Filter
  import opened Tracker

  /**
   * The static state of class `Tracer`. `logFile` is `None` until the first
   * `start` (the typed static properties are uninitialised until then);
   * `hooks` counts how many times `tickHandler` is registered; `trace.log`
   * holds the lines written to the current log file since it was truncated.
   */
  datatype Tracer = Tracer(logFile: Option<string>, config: Config, hooks: nat, trace: Trace)

  /** The state of the class when the script begins. */
  const Initial: Tracer := Tracer(None, NoFilters, 0, Trace([], []))

  /** The log file `start` uses when given none. */
  const DefaultLogFile: string := "trace.log"

  /** The error a script hits by calling `stop` before any `start`. */
  datatype SessionError = ReadBeforeStart

  /** The handler is only registered after the log file and configuration are set. */
  ghost predicate Valid(t: Tracer) {
    t.hooks > 0 ==> t.logFile.Some?
  }

  /**
   * `Tracer::start(path, config)`: records the path and the configuration,
   * truncates the log file and registers the handler once more. The stack
   * of a previous session is kept.
   */
  function Start(t: Tracer, path: string, config: Config): (r: Tracer)
    ensures r.logFile == Some(path) && r.config == config
    ensures r.hooks == t.hooks + 1
    ensures r.trace.stack == t.trace.stack && r.trace.log == []
  {
    Tracer(Some(path), config, t.hooks + 1, Trace(t.trace.stack, []))
  }

  /** The summary line `stop` writes, for a duration of `units` ten-thousandths of a second. */
  function SummaryLine(units: nat): string {
    "\n--- TRACE TERMINEE EN " + Fixed4(units) + " secondes ---"
  }

  /** The duration can be read back from the summary line. */
  lemma SummaryLineRoundTrip(units: nat)
    ensures var line := SummaryLine(units);
      |line| >= 42 && ParseFixed4(line[23..|line| - 13]) == Some(units)
  {
    var line := SummaryLine(units);
    assert line[23..|line| - 13] == Fixed4(units);
    Fixed4RoundTrip(units);
  }

  /**
   * `Tracer::stop()` after `units` ten-thousandths of a second: removes one
   * registration of the handler and appends the summary line. Before any
   * `start` the start time is unset and the call fails. Nothing prevents a
   * second `stop`, which writes a second summary.
   */
  function Stop(t: Tracer, units: nat): (r: Result<Tracer, SessionError>)
    ensures r.Failure? <==> t.logFile.None?
    ensures r.Success? ==>
      && r.value.logFile == t.logFile && r.value.config == t.config
      && r.value.hooks == (if t.hooks == 0 then 0 else t.hooks - 1)
      && r.value.trace.stack == t.trace.stack
      && r.value.trace.log == t.trace.log + [SummaryLine(units)]
  {
    var hooks := if t.hooks == 0 then 0 else t.hooks - 1;
    if t.logFile.None? then Failure(ReadBeforeStart)
    else Success(t.(hooks := hooks, trace := t.trace.(log := t.trace.log + [SummaryLine(units)])))
  }

  /** The handler run `n` times on the same tick, once per registration. */
  function HandleTimes(config: Config, trace: Trace, site: Option<Frame>, n: nat): Trace
    decreases n
  {
    if n == 0 then trace else HandleTimes(config, Tick(config, trace, site), site, n - 1)
  }

  /** However often the handler is registered, a tick has the effect of one handler run. */
  lemma {:induction false} HandleTimesIsOneTick(config: Config, trace: Trace, site: Option<Frame>, n: nat)
    requires n >= 1
    ensures HandleTimes(config, trace, site, n) == Tick(config, trace, site)
    decreases n
  {
    var once := Tick(config, trace, site);
    if n > 1 {
      HandleTimesIsOneTick(config, once, site, n - 1);
      TickIdempotent(config, trace, site);
    }
  }

  /** One tick of the traced program: every registered copy of the handler runs. */
  function OnTick(t: Tracer, site: Option<Frame>): (r: Tracer)
    ensures r.logFile == t.logFile && r.config == t.config && r.hooks == t.hooks
    ensures t.hooks == 0 ==> r == t
    ensures t.hooks > 0 ==> r.trace == Tick(t.config, t.trace, site)
  {
    if t.hooks == 0 then t
    else
      HandleTimesIsOneTick(t.config, t.trace, site, t.hooks);
      t.(trace := HandleTimes(t.config, t.trace, site, t.hooks))
  }

  /**
   * Because `start` keeps the stack, a first call after a restart whose
   * signature equals the previous session's top call is taken for that call:
   * the new log file gets no line for it.
   */
  lemma RestartSameTopNotLogged(t: Tracer, path: string, config: Config, frame: Frame)
    requires |t.trace.stack| > 0 && Top(t.trace.stack) == Signature(frame)
    ensures OnTick(Start(t, path, config), Some(frame)) == Start(t, path, config)
    ensures OnTick(Start(t, path, config), Some(frame)).trace.log == []
  {
    TickSameTop(config, Start(t, path, config).trace, frame);
  }

  /** What can happen to the tracer. */
  datatype Event =
    | StartEvent(path: string, config: Config)
    | TickEvent(site: Option<Frame>)
    | StopEvent(units: nat)

  function Step(t: Tracer, e: Event): Result<Tracer, SessionError>
  {
    match e
    case StartEvent(path, config) => Success(Start(t, path, config))
    case TickEvent(site) => Success(OnTick(t, site))
    case StopEvent(units) => Stop(t, units)
  }

  /** Events in order; the first failure is thrown out of the script and ends it. */
  function Execute(t: Tracer, events: seq<Event>): Result<Tracer, SessionError>
    decreases |events|
  {
    if |events| == 0 then Success(t)
    else match Step(t, events[0])
      case Failure(e) => Failure(e)
      case Success(next) => Execute(next, events[1..])
  }

  /** Only a `stop` before any `start` fails; every session that begins with `start` runs to the end. */
  lemma {:induction false} ExecuteFailsOnlyBeforeStart(t: Tracer, events: seq<Event>)
    requires t.logFile.Some?
    ensures Execute(t, events).Success?
    decreases |events|
  {
    if |events| > 0 {
      ExecuteFailsOnlyBeforeStart(Step(t, events[0]).value, events[1..]);
    }
  }

  /** `stop` straight away fails. */
  lemma StopBeforeStartFails(units: nat)
    ensures Execute(Initial, [StopEvent(units)]) == Failure(ReadBeforeStart)
  {
  }

  lemma StepKeepsValid(t: Tracer, e: Event)
    requires Valid(t)
    ensures Step(t, e).Success? ==> Valid(Step(t, e).value)
  {
  }

  /** Nothing ever pops the stack: no event, `start` included, removes or changes an entry. */
  lemma StepOnlyGrowsStack(t: Tracer, e: Event)
    ensures Step(t, e).Success? ==>
      var s, r := t.trace.stack, Step(t, e).value.trace.stack;
      |s| <= |r| && r[..|s|] == s
  {
    if e.TickEvent? && t.hooks > 0 {
      var r := Tick(t.config, t.trace, e.site);
    }
  }

  lemma {:induction false} ExecuteOnlyGrowsStack(t: Tracer, events: seq<Event>)
    ensures Execute(t, events).Success? ==>
      var s, r := t.trace.stack, Execute(t, events).value.trace.stack;
      |s| <= |r| && r[..|s|] == s
    decreases |events|
  {
    if |events| > 0 && Step(t, events[0]).Success? {
      var next := Step(t, events[0]).value;
      StepOnlyGrowsStack(t, events[0]);
      ExecuteOnlyGrowsStack(next, events[1..]);
      if Execute(t, events).Success? {
        var r := Execute(t, events).value.trace.stack;
        assert r[..|t.trace.stack|] == r[..|next.trace.stack|][..|t.trace.stack|];
      }
    }
  }

  /** Every line of the log file is the call line of some stack entry or a summary line. */
  ghost predicate LogExplained(t: Tracer) {
    forall k :: 0 <= k < |t.trace.log| ==> LineExplained(t.trace.stack, t.trace.log[k])
  }

  ghost predicate LineExplained(stack: seq<string>, line: string) {
    || (exists i :: 0 <= i < |stack| && line == EntryLine(i, stack[i]))
    || (exists units: nat :: line == SummaryLine(units))
  }

  lemma ExplainedOnLongerStack(stack: seq<string>, longer: seq<string>, line: string)
    requires LineExplained(stack, line)
    requires |stack| <= |longer| && longer[..|stack|] == stack
    ensures LineExplained(longer, line)
  {
    if exists i :: 0 <= i < |stack| && line == EntryLine(i, stack[i]) {
      var i :| 0 <= i < |stack| && line == EntryLine(i, stack[i]);
      assert longer[i] == longer[..|stack|][i];
    }
  }

  /** A handler run appends only the call lines of the entries it pushes. */
  lemma OnTickKeepsLogExplained(t: Tracer, site: Option<Frame>)
    requires LogExplained(t)
    ensures LogExplained(OnTick(t, site))
  {
    var r := OnTick(t, site);
    if t.hooks > 0 {
      forall k | 0 <= k < |r.trace.log|
        ensures LineExplained(r.trace.stack, r.trace.log[k])
      {
        if k < |t.trace.log| {
          assert r.trace.log[k] == t.trace.log[k];
          ExplainedOnLongerStack(t.trace.stack, r.trace.stack, t.trace.log[k]);
        } else {
          var i := |t.trace.stack|;
          assert r.trace.log[k] == EntryLine(i, r.trace.stack[i]);
        }
      }
    }
  }

  /** `stop` appends only a summary line. */
  lemma StopKeepsLogExplained(t: Tracer, units: nat)
    requires LogExplained(t)
    ensures Stop(t, units).Success? ==> LogExplained(Stop(t, units).value)
  {
    if Stop(t, units).Success? {
      var r := Stop(t, units).value;
      assert LineExplained(r.trace.stack, SummaryLine(units));
      forall k | 0 <= k < |r.trace.log|
        ensures LineExplained(r.trace.stack, r.trace.log[k])
      {
        if k < |t.trace.log| {
          assert r.trace.log[k] == t.trace.log[k];
        }
      }
    }
  }

  lemma StepKeepsLogExplained(t: Tracer, e: Event)
    requires LogExplained(t)
    ensures Step(t, e).Success? ==> LogExplained(Step(t, e).value)
  {
    match e
    case StartEvent(_, _) =>
    case StopEvent(units) => StopKeepsLogExplained(t, units);
    case TickEvent(site) => OnTickKeepsLogExplained(t, site);
  }

  /** Over a whole script, the log never holds a line that is neither a call line nor a summary. */
  lemma {:induction false} ExecuteKeepsLogExplained(t: Tracer, events: seq<Event>)
    requires LogExplained(t)
    ensures Execute(t, events).Success? ==> LogExplained(Execute(t, events).value)
    decreases |events|
  {
    if |events| > 0 && Step(t, events[0]).Success? {
      StepKeepsLogExplained(t, events[0]);
      ExecuteKeepsLogExplained(Step(t, events[0]).value, events[1..]);
    }
  }

  /** The ticks of a running session, however often the handler is registered, are a tracker run. */
  lemma {:induction false} TicksAreTrackerRun(t: Tracer, sites: seq<Option<Frame>>)
    requires t.hooks > 0
    ensures Execute(t, seq(|sites|, i requires 0 <= i < |sites| => TickEvent(sites[i])))
            == Success(t.(trace := Run(t.config, t.trace, sites)))
    decreases |sites|
  {
    var events := seq(|sites|, i requires 0 <= i < |sites| => TickEvent(sites[i]));
    if |sites| > 0 {
      var next := OnTick(t, sites[0]);
      assert events[0] == TickEvent(sites[0]);
      assert events[1..] == seq(|sites[1..]|, i requires 0 <= i < |sites[1..]| => TickEvent(sites[1..][i]));
      TicksAreTrackerRun(next, sites[1..]);
    }
  }
}
