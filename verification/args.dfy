/**
 * The argument formatter (`Tracer::formatArgs`): each argument of the traced
 * call becomes a short token, and the tokens are joined with ", ".
 *
 * Its partner is a reader that recovers, from the rendered text, what each
 * argument showed: the class of an object, the size of an array, the
 * (possibly shortened) bytes of a string, a boolean, null or an integer.
 */
module Args {
  import opened Wrappers
  import opened Text
  import opened Decimal
  import opened Slashes

  /**
   * An argument value as the formatter distinguishes it. An object carries
   * the class name `get_class` would report, an array its element count;
   * `OtherScalar` is a float or resource already cast to a string by PHP.
   * PHP never produces empty text for those; the model leaves `rendered`
   * unconstrained and no property relies on it being non-empty.
   */
  datatype Arg =
    | Object(className: string)
    | Array(count: nat)
    | Str(bytes: string)
    | Bool(b: bool)
    | Null
    | Int(i: int)
    | OtherScalar(rendered: string)

  /** Strings longer than this many bytes are shortened. */
  const MaxShown: nat := 40
  /** How many leading bytes of a shortened string are kept. */
  const KeptBytes: nat := 37
  const Ellipsis: string := "..."
  /** What `implode` puts between two tokens. */
  const ListSeparator: string := ", "

  /** The payload shown for a string argument: unchanged up to 40 bytes, else 37 bytes and "...". */
  function Shorten(s: string): (r: string)
    ensures |r| <= MaxShown
    ensures |s| <= MaxShown ==> r == s
    ensures |s| > MaxShown ==> |r| == MaxShown && r[..KeptBytes] == s[..KeptBytes] && r[KeptBytes..] == Ellipsis
  {
    if |s| > MaxShown then s[..KeptBytes] + Ellipsis else s
  }

  /** A payload escaped by `addslashes` and wrapped in double quotes. */
  function Quote(payload: string): (r: string)
    ensures |r| == |payload| + CountSpecial(payload) + 2
  {
    "\"" + AddSlashes(payload) + "\""
  }

  /** The token for one argument. */
  function FormatArg(a: Arg): string
  {
    match a
    case Object(c) => "object(" + c + ")"
    case Array(n) => "array[" + NatToString(n) + "]"
    case Str(s) => Quote(Shorten(s))
    case Bool(b) => if b then "true" else "false"
    case Null => "null"
    case Int(i) => IntToString(i)
    case OtherScalar(text) => text
  }

  /** The tokens of all arguments: one per argument, in argument order. */
  function Tokens(args: seq<Arg>): (r: seq<string>)
    ensures |r| == |args|
    ensures forall i :: 0 <= i < |args| ==> r[i] == FormatArg(args[i])
  {
    if |args| == 0 then []
    else [FormatArg(args[0])] + Tokens(args[1..])
  }

  /** `Tracer::formatArgs`: empty for no arguments, else the tokens joined by ", ". */
  function FormatArgs(args: seq<Arg>): string
  {
    if |args| == 0 then "" else Join(ListSeparator, Tokens(args))
  }

  /** Formatting a concatenation puts one separator between the two renderings. */
  lemma FormatArgsAppend(xs: seq<Arg>, ys: seq<Arg>)
    requires |xs| > 0 && |ys| > 0
    ensures FormatArgs(xs + ys) == FormatArgs(xs) + ListSeparator + FormatArgs(ys)
  {
    TokensAppend(xs, ys);
    JoinAppend(ListSeparator, Tokens(xs), Tokens(ys));
  }

  lemma {:induction false} TokensAppend(xs: seq<Arg>, ys: seq<Arg>)
    ensures Tokens(xs + ys) == Tokens(xs) + Tokens(ys)
  {
    if |xs| == 0 {
      assert xs + ys == ys;
    } else {
      assert (xs + ys)[1..] == xs[1..] + ys;
      TokensAppend(xs[1..], ys);
    }
  }

  /** A single argument renders as its own token. */
  lemma FormatArgsSingle(a: Arg)
    ensures FormatArgs([a]) == FormatArg(a)
  {
  }

  // ---------------------------------------------------------------------------
  // Reading tokens back
  // ---------------------------------------------------------------------------

  /** What a reader of the trace can tell about one argument. */
  datatype Shown =
    | ShownObject(className: string)
    | ShownArray(count: nat)
    | ShownString(payload: string)
    | ShownBool(b: bool)
    | ShownNull
    | ShownInt(i: int)
    | ShownText(text: string)

  /** What the token of `a` is meant to show; a float or resource shows only its text. */
  function View(a: Arg): Shown
  {
    match a
    case Object(c) => ShownObject(c)
    case Array(n) => ShownArray(n)
    case Str(s) => ShownString(Shorten(s))
    case Bool(b) => ShownBool(b)
    case Null => ShownNull
    case Int(i) => ShownInt(i)
    case OtherScalar(text) => ShownText(text)
  }

  /** Reads one token; text of no other shape is taken as an opaque scalar. */
  function ParseToken(t: string): Shown
  {
    if |t| >= 2 && t[0] == '"' && t[|t| - 1] == '"' then ShownString(StripSlashes(t[1..|t| - 1]))
    else if t == "true" then ShownBool(true)
    else if t == "false" then ShownBool(false)
    else if t == "null" then ShownNull
    else if |t| >= 8 && t[..7] == "object(" && t[|t| - 1] == ')' then ShownObject(t[7..|t| - 1])
    else if |t| >= 7 && t[..6] == "array[" && t[|t| - 1] == ']' && AllDigits(t[6..|t| - 1]) then
      ShownArray(DigitsValue(t[6..|t| - 1]))
    else match ParseInt(t)
      case Some(i) => ShownInt(i)
      case None => ShownText(t)
  }

  lemma ObjectTokenRoundTrip(c: string)
    ensures ParseToken(FormatArg(Object(c))) == ShownObject(c)
  {
    var t := FormatArg(Object(c));
    assert t[0] == 'o' && t[..7] == "object(" && t[|t| - 1] == ')';
    assert t[7..|t| - 1] == c;
  }

  lemma ArrayTokenRoundTrip(n: nat)
    ensures ParseToken(FormatArg(Array(n))) == ShownArray(n)
  {
    var t := FormatArg(Array(n));
    var d := NatToString(n);
    assert t[0] == 'a' && t[..6] == "array[" && t[|t| - 1] == ']';
    assert t[6..|t| - 1] == d;
    NatToStringRoundTrip(n);
  }

  lemma StrTokenRoundTrip(s: string)
    ensures ParseToken(FormatArg(Str(s))) == ShownString(Shorten(s))
  {
    var t := FormatArg(Str(s));
    assert t[1..|t| - 1] == AddSlashes(Shorten(s));
    StripAddSlashes(Shorten(s));
  }

  lemma IntTokenRoundTrip(i: int)
    ensures ParseToken(FormatArg(Int(i))) == ShownInt(i)
  {
    var t := FormatArg(Int(i));
    assert t[0] == '-' || IsDigit(t[0]);
    assert t[0] != '"' && t != "true" && t != "false" && t != "null";
    assert !(|t| >= 8 && t[..7] == "object(") by {
      if |t| >= 8 { assert t[..7][0] == t[0]; }
    }
    assert !(|t| >= 7 && t[..6] == "array[") by {
      if |t| >= 7 { assert t[..6][0] == t[0]; }
    }
    IntToStringRoundTrip(i);
  }

  /** Every token but an opaque scalar's reads back to what its argument shows. */
  lemma TokenRoundTrip(a: Arg)
    requires !a.OtherScalar?
    ensures ParseToken(FormatArg(a)) == View(a)
  {
    match a
    case Object(c) => ObjectTokenRoundTrip(c);
    case Array(n) => ArrayTokenRoundTrip(n);
    case Str(s) => StrTokenRoundTrip(s);
    case Bool(b) =>
    case Null =>
    case Int(i) => IntTokenRoundTrip(i);
  }

  /**
   * The arguments whose tokens can be told apart in a joined list. Named
   * classes cannot contain a comma; anonymous classes, whose names embed the
   * defining file's path, are excluded along with floats and resources.
   */
  predicate Decodable(a: Arg) {
    !a.OtherScalar? && (a.Object? ==> NoComma(a.className))
  }

  predicate NoComma(t: string) {
    forall i :: 0 <= i < |t| ==> t[i] != ','
  }

  /**
   * The length of the token at the start of `s`: a quoted string runs to its
   * closing quote, any other token to the first ", ".
   */
  function TokenLength(s: string): (n: nat)
    ensures n <= |s|
  {
    if |s| > 0 && s[0] == '"' then
      match ClosingQuote(s[1..])
      case Some(k) => k + 2
      case None => |s|
    else match StrPos(s, ListSeparator)
      case Some(k) => k
      case None => |s|
  }

  /** Splits a non-empty rendering into its tokens. */
  function SplitTokens(s: string): Option<seq<string>>
    decreases |s|
  {
    var n := TokenLength(s);
    if n == |s| then Some([s])
    else if n + 2 <= |s| && s[n..n + 2] == ListSeparator then
      match SplitTokens(s[n + 2..])
      case Some(ts) => Some([s[..n]] + ts)
      case None => None
    else None
  }

  /** Reads each token of a list. */
  function ParseTokens(ts: seq<string>): seq<Shown>
  {
    if |ts| == 0 then [] else [ParseToken(ts[0])] + ParseTokens(ts[1..])
  }

  /** Reads a whole rendered argument list. */
  function ParseArgs(s: string): Option<seq<Shown>>
  {
    if |s| == 0 then Some([])
    else match SplitTokens(s)
      case Some(ts) => Some(ParseTokens(ts))
      case None => None
  }

  /** What each argument of a list shows, in order. */
  function Views(args: seq<Arg>): (r: seq<Shown>)
    ensures |r| == |args|
    ensures forall i :: 0 <= i < |args| ==> r[i] == View(args[i])
  {
    if |args| == 0 then [] else [View(args[0])] + Views(args[1..])
  }

  /** The token of an argument depends only on what it shows. */
  lemma SameViewSameToken(a: Arg, b: Arg)
    requires View(a) == View(b)
    ensures FormatArg(a) == FormatArg(b)
  {
  }

  /**
   * Argument lists that show the same render the same: in particular two
   * long strings that share their first 37 bytes are indistinguishable.
   */
  lemma SameViewsSameFormat(xs: seq<Arg>, ys: seq<Arg>)
    requires Views(xs) == Views(ys)
    ensures FormatArgs(xs) == FormatArgs(ys)
  {
    forall i | 0 <= i < |xs|
      ensures Tokens(xs)[i] == Tokens(ys)[i]
    {
      assert View(xs[i]) == Views(xs)[i] == Views(ys)[i] == View(ys[i]);
      SameViewSameToken(xs[i], ys[i]);
    }
    assert Tokens(xs) == Tokens(ys);
  }

  /** Two strings longer than 40 bytes with the same first 37 bytes show the same payload. */
  lemma LongStringsShowAlike(s1: string, s2: string)
    requires |s1| > MaxShown && |s2| > MaxShown && s1[..KeptBytes] == s2[..KeptBytes]
    ensures View(Str(s1)) == View(Str(s2))
  {
  }

  /** A non-string token holds no comma, so the first ", " after it is its end. */
  lemma NoCommaToken(a: Arg)
    requires Decodable(a) && !a.Str?
    ensures NoComma(FormatArg(a)) && |FormatArg(a)| > 0 && FormatArg(a)[0] != '"'
  {
    var t := FormatArg(a);
    match a
    case Object(c) =>
      assert forall i :: 7 <= i < |t| - 1 ==> t[i] == c[i - 7];
    case Array(n) =>
      var d := NatToString(n);
      assert forall i :: 6 <= i < |t| - 1 ==> t[i] == d[i - 6];
    case Int(i) =>
      if i < 0 {
        var d := NatToString(-i);
        assert forall k :: 1 <= k < |t| ==> t[k] == d[k - 1];
      }
    case Bool(b) =>
    case Null =>
  }

  lemma FirstSeparator(t: string, rest: string)
    requires NoComma(t)
    ensures StrPos(t, ListSeparator).None?
    ensures StrPos(t + ListSeparator + rest, ListSeparator) == Some(|t|)
  {
    var s := t + ListSeparator + rest;
    assert OccursAt(s, ListSeparator, |t|);
    assert forall j: nat :: j < |t| ==> !OccursAt(s, ListSeparator, j) by {
      forall j: nat | j < |t|
        ensures !OccursAt(s, ListSeparator, j)
      {
        assert s[j] == t[j];
      }
    }
    assert forall j: nat :: !OccursAt(t, ListSeparator, j) by {
      forall j: nat
        ensures !OccursAt(t, ListSeparator, j)
      {
        if j + 2 <= |t| {
          assert t[j..j + 2][0] == t[j] != ',';
        }
      }
    }
    var r := StrPosFrom(s, ListSeparator, 0);
    assert r.Some?;
  }

  /** The token of a decodable argument ends exactly where its rendering ends. */
  lemma TokenEnds(a: Arg, rest: string)
    requires Decodable(a)
    requires rest == [] || (|rest| >= 2 && rest[..2] == ListSeparator)
    ensures TokenLength(FormatArg(a) + rest) == |FormatArg(a)|
  {
    var t := FormatArg(a);
    var s := t + rest;
    if a.Str? {
      var e := AddSlashes(Shorten(a.bytes));
      assert s[1..] == e + (['"'] + rest);
      EscapedThenQuote(Shorten(a.bytes), ['"'] + rest);
    } else {
      NoCommaToken(a);
      assert s[0] == t[0];
      if rest == [] {
        assert s == t;
        FirstSeparator(t, []);
      } else {
        assert s == t + ListSeparator + rest[2..];
        FirstSeparator(t, rest[2..]);
      }
    }
  }

  /** Splitting a joined list of decodable arguments gives back its tokens. */
  lemma {:induction false} SplitJoin(args: seq<Arg>)
    requires |args| > 0
    requires forall i :: 0 <= i < |args| ==> Decodable(args[i])
    ensures SplitTokens(Join(ListSeparator, Tokens(args))) == Some(Tokens(args))
  {
    var ts := Tokens(args);
    var t := ts[0];
    if |args| == 1 {
      assert t + [] == t;
      TokenEnds(args[0], []);
      assert ts == [t];
    } else {
      var tail := Join(ListSeparator, ts[1..]);
      var s := t + ListSeparator + tail;
      assert Join(ListSeparator, ts) == s;
      assert ts[1..] == Tokens(args[1..]);
      assert s == t + (ListSeparator + tail);
      TokenEnds(args[0], ListSeparator + tail);
      assert s[|t|..|t| + 2] == ListSeparator;
      assert s[|t| + 2..] == tail;
      assert s[..|t|] == t;
      SplitJoin(args[1..]);
    }
  }

  lemma {:induction false} ParseTokensOfArgs(args: seq<Arg>)
    requires forall i :: 0 <= i < |args| ==> Decodable(args[i])
    ensures ParseTokens(Tokens(args)) == Views(args)
  {
    if |args| > 0 {
      TokenRoundTrip(args[0]);
      assert Tokens(args)[1..] == Tokens(args[1..]);
      ParseTokensOfArgs(args[1..]);
    }
  }

  /**
   * The rendered argument list is unambiguous: reading it back yields, in
   * order, what every argument shows, even when strings contain ", " or quotes.
   */
  lemma {:induction false} FormatArgsRoundTrip(args: seq<Arg>)
    requires forall i :: 0 <= i < |args| ==> Decodable(args[i])
    ensures ParseArgs(FormatArgs(args)) == Some(Views(args))
  {
    if |args| > 0 {
      var s := FormatArgs(args);
      SplitJoin(args);
      ParseTokensOfArgs(args);
      var t := FormatArg(args[0]);
      assert |s| > 0 by {
        JoinLength(ListSeparator, Tokens(args));
        assert TotalLength(Tokens(args)) >= |t|;
        TokenNonEmpty(args[0]);
      }
    }
  }

  lemma TokenNonEmpty(a: Arg)
    requires Decodable(a)
    ensures |FormatArg(a)| > 0
  {
    if !a.Str? {
      NoCommaToken(a);
    }
  }
}
