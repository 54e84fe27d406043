/**
 * The call-stack tracker of `Tracer::tickHandler`: it builds the signature of
 * the caller frame, compares it with the top of the stack, and on a change
 * pushes it and logs an indented `-> signature` line. The stack never pops.
 */
module Tracker {
  import opened Wrappers
  import opened Text
  import opened Args
  import opened Filter

  /** The class part of the tracer's own static methods, which are never traced. */
  const SelfClassPart: string := "Tracer::"
  /** Each stack entry below the new one indents the line by this much. */
  const IndentUnit: string := "  "
  /** What follows the indent on every call line. */
  const Arrow: string := "-> "

  /** The separator `debug_backtrace` reports in a frame's `type`. */
  function CallSeparator(t: CallType): string {
    match t
    case Static => "::"
    case Instance => "->"
  }

  /** The class and separator of a method frame; nothing for a function. */
  function ClassPart(frame: Frame): string {
    match frame
    case MethodCall(c, t, _, _) => c + CallSeparator(t)
    case FunctionCall(_, _, _) => ""
  }

  /** The frame's argument list, empty when the frame has none. */
  function ArgsOf(frame: Frame): seq<Arg> {
    match frame.args
    case None => []
    case Some(args) => args
  }

  /** The self-exclusion test of the handler. */
  predicate IsSelfCall(frame: Frame) {
    ClassPart(frame) == SelfClassPart
  }

  /** Exactly the static methods of class `Tracer` are excluded; `Tracer->` calls are not. */
  lemma SelfCallIsStaticTracer(frame: Frame)
    ensures IsSelfCall(frame) <==> frame.MethodCall? && frame.className == "Tracer" && frame.callType == Static
  {
    if IsSelfCall(frame) {
      var c := frame.className;
      var p := ClassPart(frame);
      assert |c| == 6;
      assert c == p[..6];
      assert p[6..] == CallSeparator(frame.callType);
    }
  }

  /** The call signature: class part, function name, then the formatted arguments in parentheses. */
  function Signature(frame: Frame): string {
    ClassPart(frame) + frame.name + "(" + FormatArgs(ArgsOf(frame)) + ")"
  }

  /**
   * The signature keeps the arguments apart: two calls of the same function
   * whose decodable arguments show differently have different signatures, so
   * the second one is logged as a new call.
   */
  lemma SignatureSeparatesArgs(f1: Frame, f2: Frame)
    requires ClassPart(f1) + f1.name == ClassPart(f2) + f2.name
    requires forall i :: 0 <= i < |ArgsOf(f1)| ==> Decodable(ArgsOf(f1)[i])
    requires forall i :: 0 <= i < |ArgsOf(f2)| ==> Decodable(ArgsOf(f2)[i])
    requires Views(ArgsOf(f1)) != Views(ArgsOf(f2))
    ensures Signature(f1) != Signature(f2)
  {
    var head := ClassPart(f1) + f1.name + "(";
    var a1, a2 := FormatArgs(ArgsOf(f1)), FormatArgs(ArgsOf(f2));
    FormatArgsRoundTrip(ArgsOf(f1));
    FormatArgsRoundTrip(ArgsOf(f2));
    assert a1 != a2;
    var s1, s2 := Signature(f1), Signature(f2);
    assert s1 == head + a1 + ")" && s1[|head|..|s1| - 1] == a1;
    assert s2 == head + a2 + ")" && s2[|head|..|s2| - 1] == a2;
  }

  /**
   * Conversely, the signature sees only what the arguments show: calls of the
   * same function whose arguments show alike get the same signature, whatever
   * the arguments actually were.
   */
  lemma SignatureFollowsViews(f1: Frame, f2: Frame)
    requires ClassPart(f1) + f1.name == ClassPart(f2) + f2.name
    requires Views(ArgsOf(f1)) == Views(ArgsOf(f2))
    ensures Signature(f1) == Signature(f2)
  {
    SameViewsSameFormat(ArgsOf(f1), ArgsOf(f2));
  }

  /** For decodable arguments the signature is equal exactly when the arguments show alike. */
  lemma SignatureIffViews(f1: Frame, f2: Frame)
    requires ClassPart(f1) + f1.name == ClassPart(f2) + f2.name
    requires forall i :: 0 <= i < |ArgsOf(f1)| ==> Decodable(ArgsOf(f1)[i])
    requires forall i :: 0 <= i < |ArgsOf(f2)| ==> Decodable(ArgsOf(f2)[i])
    ensures Signature(f1) == Signature(f2) <==> Views(ArgsOf(f1)) == Views(ArgsOf(f2))
  {
    if Views(ArgsOf(f1)) == Views(ArgsOf(f2)) {
      SignatureFollowsViews(f1, f2);
    } else {
      SignatureSeparatesArgs(f1, f2);
    }
  }

  /**
   * Two calls of one function, each with a single string longer than 40 bytes,
   * get the same signature when the strings share their first 37 bytes.
   */
  lemma LongStringsShareSignature(file: string, name: string, s1: string, s2: string)
    requires |s1| > MaxShown && |s2| > MaxShown && s1[..KeptBytes] == s2[..KeptBytes]
    ensures Signature(FunctionCall(file, name, Some([Str(s1)])))
         == Signature(FunctionCall(file, name, Some([Str(s2)])))
  {
    LongStringsShowAlike(s1, s2);
    SignatureFollowsViews(FunctionCall(file, name, Some([Str(s1)])), FunctionCall(file, name, Some([Str(s2)])));
  }

  /** The line logged for a call pushed at 0-based stack position `depth`. */
  function EntryLine(depth: nat, sig: string): (r: string)
    ensures |r| == 2 * depth + |Arrow| + |sig|
  {
    Repeat(IndentUnit, depth) + Arrow + sig
  }

  /** Reads a call line back into its depth and signature. */
  function ParseEntryLine(line: string): Option<(nat, string)>
  {
    if |line| >= 2 && line[..2] == IndentUnit then
      match ParseEntryLine(line[2..])
      case Some((d, sig)) => Some((d + 1, sig))
      case None => None
    else if |line| >= 3 && line[..3] == Arrow then Some((0, line[3..]))
    else None
  }

  /** A call line is unambiguous: its indentation gives the depth, the rest the signature. */
  lemma {:induction false} EntryLineRoundTrip(depth: nat, sig: string)
    ensures ParseEntryLine(EntryLine(depth, sig)) == Some((depth, sig))
  {
    var line := EntryLine(depth, sig);
    if depth == 0 {
      assert line == Arrow + sig;
      assert line[..2] == "->";
    } else {
      var inner := EntryLine(depth - 1, sig);
      assert line == IndentUnit + inner;
      assert line[2..] == inner;
      EntryLineRoundTrip(depth - 1, sig);
    }
  }

  /** The tracker's state: the stack of signatures (deepest last) and the lines logged so far. */
  datatype Trace = Trace(stack: seq<string>, log: seq<string>)

  /** The signature on top of a non-empty stack. */
  function Top(stack: seq<string>): string
    requires |stack| > 0
  {
    stack[|stack| - 1]
  }

  /** Whether the handler pushes: a caller exists, passes the filter, is not the tracer, and differs from the top. */
  predicate Pushes(config: Config, stack: seq<string>, site: Option<Frame>) {
    && site.Some?
    && Accepts(config, site.value)
    && !IsSelfCall(site.value)
    && (|stack| == 0 || Top(stack) != Signature(site.value))
  }

  /** One run of the tick handler; `site` is the caller frame, or `None` at top level. */
  function Tick(config: Config, t: Trace, site: Option<Frame>): (r: Trace)
    ensures |t.stack| <= |r.stack| <= |t.stack| + 1 && r.stack[..|t.stack|] == t.stack
    ensures |r.stack| == |t.stack| + 1 <==> Pushes(config, t.stack, site)
    ensures |r.stack| == |t.stack| ==> r.log == t.log
    ensures |r.stack| == |t.stack| + 1 ==>
      Top(r.stack) == Signature(site.value) && r.log == t.log + [EntryLine(|r.stack| - 1, Top(r.stack))]
  {
    match site
    case None => t
    case Some(frame) =>
      if !Accepts(config, frame) then t
      else if ClassPart(frame) == SelfClassPart then t
      else
        var sig := Signature(frame);
        if |t.stack| == 0 || Top(t.stack) != sig then
          var stack := t.stack + [sig];
          Trace(stack, t.log + [EntryLine(|stack| - 1, sig)])
        else t
  }

  /** A rejected tick — no caller, filtered out, or the tracer itself — changes nothing. */
  lemma TickRejected(config: Config, t: Trace, site: Option<Frame>)
    requires site.None? || !Accepts(config, site.value) || IsSelfCall(site.value)
    ensures Tick(config, t, site) == t
  {
    var r := Tick(config, t, site);
    assert r.stack == r.stack[..|t.stack|];
  }

  /** A caller whose signature is already on top is the same open call: nothing is pushed or logged. */
  lemma TickSameTop(config: Config, t: Trace, frame: Frame)
    requires |t.stack| > 0 && Top(t.stack) == Signature(frame)
    ensures Tick(config, t, Some(frame)) == t
  {
    var r := Tick(config, t, Some(frame));
    assert r.stack == r.stack[..|t.stack|];
  }

  /**
   * A call whose arguments only show like those of the open call on top is
   * taken for that call: nothing is pushed or logged.
   */
  lemma AlikeCallNotLogged(config: Config, t: Trace, f1: Frame, f2: Frame)
    requires ClassPart(f1) + f1.name == ClassPart(f2) + f2.name
    requires Views(ArgsOf(f1)) == Views(ArgsOf(f2))
    requires |t.stack| > 0 && Top(t.stack) == Signature(f1)
    ensures Tick(config, t, Some(f2)) == t
  {
    SignatureFollowsViews(f1, f2);
    TickSameTop(config, t, f2);
  }

  /** Handling the same tick twice is the same as handling it once. */
  lemma TickIdempotent(config: Config, t: Trace, site: Option<Frame>)
    ensures Tick(config, Tick(config, t, site), site) == Tick(config, t, site)
  {
    var r := Tick(config, t, site);
    if |r.stack| == |t.stack| + 1 {
      TickSameTop(config, r, site.value);
    } else {
      assert r.stack == r.stack[..|t.stack|];
    }
  }

  /** The ticks handled in order. */
  function Run(config: Config, t: Trace, sites: seq<Option<Frame>>): Trace
    decreases |sites|
  {
    if |sites| == 0 then t
    else Run(config, Tick(config, t, sites[0]), sites[1..])
  }

  /** `log` holds, in order, the call lines of the stack entries from position `from` on. */
  ghost predicate Mirrors(log: seq<string>, stack: seq<string>, from: nat) {
    && from + |log| <= |stack|
    && forall k :: 0 <= k < |log| ==> log[k] == EntryLine(from + k, stack[from + k])
  }

  /**
   * `r` extends `t`: the stack and the log only grew, nothing already there
   * changed, and the new lines are exactly one call line per new stack
   * entry, in push order, each indented by the entry's position.
   */
  ghost predicate Extends(t: Trace, r: Trace) {
    && |t.stack| <= |r.stack| && r.stack[..|t.stack|] == t.stack
    && |t.log| <= |r.log| && r.log[..|t.log|] == t.log
    && |r.log| - |t.log| == |r.stack| - |t.stack|
    && Mirrors(r.log[|t.log|..], r.stack, |t.stack|)
  }

  /** Two mirroring stretches of log, the second starting where the first ends, mirror together. */
  lemma MirrorsAppend(a: seq<string>, b: seq<string>, stack: seq<string>, from: nat)
    requires Mirrors(a, stack, from) && Mirrors(b, stack, from + |a|)
    ensures Mirrors(a + b, stack, from)
  {
    assert forall k :: |a| <= k < |a + b| ==> (a + b)[k] == b[k - |a|];
  }

  /** Mirroring survives pushes on top of the stack. */
  lemma MirrorsWiden(log: seq<string>, stack: seq<string>, longer: seq<string>, from: nat)
    requires Mirrors(log, stack, from)
    requires |stack| <= |longer| && longer[..|stack|] == stack
    ensures Mirrors(log, longer, from)
  {
    forall k | 0 <= k < |log|
      ensures log[k] == EntryLine(from + k, longer[from + k])
    {
      assert longer[from + k] == longer[..|stack|][from + k];
    }
  }

  /** The part of `r` after `t`, where `t` <= `m` <= `r` as prefixes, is `m`'s part then `r`'s part after `m`. */
  lemma SuffixSplit(t: seq<string>, m: seq<string>, r: seq<string>)
    requires |t| <= |m| <= |r| && r[..|m|] == m && m[..|t|] == t
    ensures r[|t|..] == m[|t|..] + r[|m|..]
    ensures r[..|t|] == t
  {
    assert r == r[..|m|] + r[|m|..];
    assert r[..|t|] == r[..|m|][..|t|];
  }

  lemma ExtendsTransitive(t: Trace, m: Trace, r: Trace)
    requires Extends(t, m) && Extends(m, r)
    ensures Extends(t, r)
  {
    SuffixSplit(t.stack, m.stack, r.stack);
    SuffixSplit(t.log, m.log, r.log);
    MirrorsWiden(m.log[|t.log|..], m.stack, r.stack, |t.stack|);
    MirrorsAppend(m.log[|t.log|..], r.log[|m.log|..], r.stack, |t.stack|);
  }

  /** One tick appends a call line exactly when it pushes, for the entry it pushes. */
  lemma TickExtends(config: Config, t: Trace, site: Option<Frame>)
    ensures Extends(t, Tick(config, t, site))
  {
    var m := Tick(config, t, site);
    if |m.stack| == |t.stack| + 1 {
      assert m.log[|t.log|..] == [EntryLine(|t.stack|, m.stack[|t.stack|])];
    }
  }

  /**
   * Over any run of ticks the stack only grows, entries already on it never
   * change, and the lines appended are exactly one call line per pushed
   * entry, in push order, each indented by the entry's position.
   */
  lemma {:induction false} RunExtends(config: Config, t: Trace, sites: seq<Option<Frame>>)
    ensures Extends(t, Run(config, t, sites))
    decreases |sites|
  {
    if |sites| == 0 {
      assert t.stack[..|t.stack|] == t.stack && t.log[..|t.log|] == t.log;
    } else {
      var m := Tick(config, t, sites[0]);
      TickExtends(config, t, sites[0]);
      RunExtends(config, m, sites[1..]);
      ExtendsTransitive(t, m, Run(config, m, sites[1..]));
    }
  }

  /** No entry of the stack repeats the one just below it. */
  ghost predicate NoAdjacentRepeats(stack: seq<string>) {
    forall i :: 0 < i < |stack| ==> stack[i - 1] != stack[i]
  }

  /** A push never repeats the entry on top, so neighbours stay distinct. */
  lemma TickKeepsNeighboursDistinct(config: Config, t: Trace, site: Option<Frame>)
    requires NoAdjacentRepeats(t.stack)
    ensures NoAdjacentRepeats(Tick(config, t, site).stack)
  {
    var m := Tick(config, t, site);
    if |m.stack| == |t.stack| {
      assert m.stack == m.stack[..|t.stack|];
    } else {
      forall i | 0 < i < |m.stack|
        ensures m.stack[i - 1] != m.stack[i]
      {
        if i < |t.stack| {
          assert m.stack[i - 1] == m.stack[..|t.stack|][i - 1] && m.stack[i] == m.stack[..|t.stack|][i];
        } else {
          assert m.stack[i - 1] == m.stack[..|t.stack|][i - 1] == Top(t.stack);
        }
      }
    }
  }

  /** Dedup keeps neighbouring stack entries distinct over any run of ticks. */
  lemma {:induction false} RunKeepsNeighboursDistinct(config: Config, t: Trace, sites: seq<Option<Frame>>)
    requires NoAdjacentRepeats(t.stack)
    ensures NoAdjacentRepeats(Run(config, t, sites).stack)
    decreases |sites|
  {
    if |sites| > 0 {
      TickKeepsNeighboursDistinct(config, t, sites[0]);
      RunKeepsNeighboursDistinct(config, Tick(config, t, sites[0]), sites[1..]);
    }
  }

  /**
   * Ticks that all repeat the call on top of the stack or are rejected log
   * nothing at all, on an empty stack too (top-level ticks before the first
   * traced call): the handler turns a stream of steps inside one call into a
   * single entry line.
   */
  lemma {:induction false} RunSameCallLogsNothing(config: Config, t: Trace, sites: seq<Option<Frame>>)
    requires forall i :: 0 <= i < |sites| ==> !Pushes(config, t.stack, sites[i])
    ensures Run(config, t, sites) == t
    decreases |sites|
  {
    if |sites| > 0 {
      var m := Tick(config, t, sites[0]);
      assert m.stack == m.stack[..|t.stack|];
      assert forall i :: 0 <= i < |sites[1..]| ==> sites[1..][i] == sites[i + 1];
      RunSameCallLogsNothing(config, m, sites[1..]);
    }
  }

  /** The same caller observed on `n >= 1` consecutive ticks produces what one tick produces. */
  lemma {:induction false} RunRepeatedSite(config: Config, t: Trace, site: Option<Frame>, n: nat)
    requires n >= 1
    ensures Run(config, t, seq(n, _ => site)) == Tick(config, t, site)
    decreases n
  {
    var sites := seq(n, _ => site);
    var m := Tick(config, t, site);
    assert sites[0] == site;
    if n > 1 {
      assert sites[1..] == seq(n - 1, _ => site);
      RunRepeatedSite(config, m, site, n - 1);
      TickIdempotent(config, t, site);
    } else {
      assert sites[1..] == [];
    }
  }
}
