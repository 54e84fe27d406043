/** Whole sessions worked through on concrete calls. */
module Scenarios {
  import opened Wrappers
  import opened Text
  import opened Args
  import opened Filter
  import opened Tracker
  import opened Session

  const LongText: string := "hello world this is a long string over forty chars"
  const CutText: string := "hello world this is a long string ove..."
  const Bar: Frame := MethodCall("App\\Foo", Static, "bar", Some([Int(1), Str(LongText)]))
  const Baz: Frame := MethodCall("App\\Foo", Static, "baz", None)
  /** The signature of `Bar`: the 50-byte string is cut to its first 37 bytes and "...". */
  const BarSignature: string := "App\\Foo::bar(1, \"" + CutText + "\")"
  const BazSignature: string := "App\\Foo::baz()"

  lemma PlainTextUnescaped()
    ensures Slashes.AddSlashes(CutText) == CutText
  {
    var s := CutText;
    assert forall i :: 0 <= i < |s| ==> !Slashes.IsSpecial(s[i]);
    NoSpecialUnescaped(s);
  }

  lemma {:induction false} NoSpecialUnescaped(s: string)
    requires forall i :: 0 <= i < |s| ==> !Slashes.IsSpecial(s[i])
    ensures Slashes.AddSlashes(s) == s
  {
    if |s| > 0 {
      assert forall i :: 0 <= i < |s[1..]| ==> s[1..][i] == s[i + 1];
      NoSpecialUnescaped(s[1..]);
    }
  }

  lemma ShortenLong()
    ensures Shorten(LongText) == CutText
  {
    assert |LongText| == 50;
    assert LongText[..37] + "..." == CutText;
  }

  lemma StrToken()
    ensures FormatArg(Str(LongText)) == "\"" + CutText + "\""
  {
    ShortenLong();
    PlainTextUnescaped();
  }

  lemma IntToken()
    ensures FormatArg(Int(1)) == "1"
  {
    assert Decimal.DigitChar(1) == '1';
  }

  lemma TwoArgs(a: Arg, b: Arg)
    ensures FormatArgs([a, b]) == FormatArg(a) + ", " + FormatArg(b)
  {
    FormatArgsAppend([a], [b]);
    assert [a] + [b] == [a, b];
    FormatArgsSingle(a);
    FormatArgsSingle(b);
  }

  lemma Glue(x: string, y: string)
    requires x == "1" && y == "\"" + CutText + "\""
    ensures x + ", " + y == "1, \"" + CutText + "\""
  {
  }

  lemma BarArgs()
    ensures FormatArgs([Int(1), Str(LongText)]) == "1, \"" + CutText + "\""
  {
    TwoArgs(Int(1), Str(LongText));
    StrToken();
    IntToken();
    Glue(FormatArg(Int(1)), FormatArg(Str(LongText)));
  }

  lemma SignatureGlue(classPart: string, args: string)
    requires classPart == "App\\Foo::" && args == "1, \"" + CutText + "\""
    ensures classPart + "bar" + "(" + args + ")" == BarSignature
  {
    assert classPart + "bar" + "(" + args + ")" == ("App\\Foo::" + "bar" + "(" + "1, \"") + CutText + ("\"" + ")");
    assert "App\\Foo::" + "bar" + "(" + "1, \"" == "App\\Foo::bar(1, \"";
    assert "\"" + ")" == "\")";
  }

  lemma Signatures()
    ensures Signature(Bar) == BarSignature
    ensures Signature(Baz) == BazSignature
  {
    assert ArgsOf(Bar) == [Int(1), Str(LongText)];
    BarArgs();
    SignatureGlue(ClassPart(Bar), FormatArgs(ArgsOf(Bar)));
  }

  /** Two different unfiltered calls on an empty stack: both pushed, the second one level deeper. */
  lemma TwoCallsOnEmptyStack(f: Frame, g: Frame)
    requires !IsSelfCall(f) && !IsSelfCall(g) && Signature(f) != Signature(g)
    ensures Tick(NoFilters, Tick(NoFilters, Trace([], []), Some(f)), Some(g)) ==
      Trace([Signature(f), Signature(g)], ["-> " + Signature(f), "  -> " + Signature(g)])
  {
    var t1 := Tick(NoFilters, Trace([], []), Some(f));
    assert t1 == Trace([Signature(f)], [EntryLine(0, Signature(f))]);
    assert Repeat(IndentUnit, 0) == "" && Repeat(IndentUnit, 1) == "  ";
    assert EntryLine(0, Signature(f)) == "-> " + Signature(f);
    assert "  " + "-> " == "  -> ";
    assert EntryLine(1, Signature(g)) == "  -> " + Signature(g);
  }

  /**
   * Start without filters, then two different calls, then stop: two call
   * lines, the second indented one level because the stack never pops, then
   * the summary line.
   */
  lemma StartTwoCallsStopAny(f: Frame, g: Frame, units: nat)
    requires !IsSelfCall(f) && !IsSelfCall(g) && Signature(f) != Signature(g)
    ensures
      var events := [StartEvent(DefaultLogFile, NoFilters), TickEvent(Some(f)), TickEvent(Some(g)), StopEvent(units)];
      Execute(Initial, events).Success? &&
      Execute(Initial, events).value.trace.log == ["-> " + Signature(f), "  -> " + Signature(g), SummaryLine(units)]
  {
    var events := [StartEvent(DefaultLogFile, NoFilters), TickEvent(Some(f)), TickEvent(Some(g)), StopEvent(units)];
    var s1 := Start(Initial, DefaultLogFile, NoFilters);
    var s2 := OnTick(s1, Some(f));
    var s3 := OnTick(s2, Some(g));
    TwoCallsOnEmptyStack(f, g);
    var s4 := Stop(s3, units).value;
    assert Execute(s3, events[3..]) == Success(s4);
    assert Execute(s2, events[2..]) == Success(s4);
    assert Execute(s1, events[1..]) == Success(s4);
  }

  /**
   * The same session on `App\Foo::bar(1, <50-byte string>)` then
   * `App\Foo::baz()`: the long string is cut to 37 bytes and "...".
   */
  lemma StartTwoCallsStop(units: nat)
    ensures
      var events := [StartEvent(DefaultLogFile, NoFilters), TickEvent(Some(Bar)), TickEvent(Some(Baz)), StopEvent(units)];
      Execute(Initial, events).Success? &&
      Execute(Initial, events).value.trace.log ==
        ["-> " + BarSignature, "  -> " + BazSignature, SummaryLine(units)]
  {
    Signatures();
    SelfCallIsStaticTracer(Bar);
    SelfCallIsStaticTracer(Baz);
    StartTwoCallsStopAny(Bar, Baz, units);
  }
}
