/**
 * The filter policy of the tick handler: which caller frames are worth
 * tracing under the `include_namespaces` and `include_files` options.
 */
module Filter {
  import opened Wrappers
  import opened Text
  import Args

  /** How a method was called: `::` (static) or `->` (on an instance). */
  datatype CallType = Static | Instance

  /**
   * The caller frame `debug_backtrace` reports one level above the handler.
   * A frame with a class is a method call; otherwise it is a plain function
   * call, described by the file the frame records. `args` is absent when the
   * frame has no argument list.
   */
  datatype Frame =
    | MethodCall(className: string, callType: CallType, name: string, args: Option<seq<Args.Arg>>)
    | FunctionCall(file: string, name: string, args: Option<seq<Args.Arg>>)

  /**
   * The options the handler reads. A list is `None` when its key is absent
   * (or null, which `isset` treats the same way).
   */
  datatype Config = Config(includeNamespaces: Option<seq<string>>, includeFiles: Option<seq<string>>)

  /** The configuration a fresh tracer holds before `start`: no filtering at all. */
  const NoFilters: Config := Config(None, None)

  /** The `include_namespaces` loop: some entry is found at offset 0 of the class name. */
  function AnyPrefixOf(name: string, prefixes: seq<string>): (r: bool)
    ensures r <==> exists i :: 0 <= i < |prefixes| && IsPrefix(prefixes[i], name)
  {
    if |prefixes| == 0 then false
    else if StrPos(name, prefixes[0]) == Some(0) then true
    else
      var r := AnyPrefixOf(name, prefixes[1..]);
      assert forall i :: 1 <= i < |prefixes| ==> prefixes[i] == prefixes[1..][i - 1];
      r
  }

  /** The `include_files` loop: some entry is found somewhere in the file name. */
  function AnyPatternIn(file: string, patterns: seq<string>): (r: bool)
    ensures r <==> exists i :: 0 <= i < |patterns| && Contains(file, patterns[i])
  {
    if |patterns| == 0 then false
    else if StrPos(file, patterns[0]).Some? then true
    else
      var r := AnyPatternIn(file, patterns[1..]);
      assert forall i :: 1 <= i < |patterns| ==> patterns[i] == patterns[1..][i - 1];
      r
  }

  /**
   * Whether the handler goes on past the filter. A method frame is judged by
   * the namespace list alone, a function frame by the file list alone; an
   * absent list lets everything through on its axis, an empty one nothing.
   */
  function Accepts(config: Config, frame: Frame): (r: bool)
    ensures frame.MethodCall? ==>
      (r <==> (config.includeNamespaces.None? ||
               exists i :: 0 <= i < |config.includeNamespaces.value| &&
                           IsPrefix(config.includeNamespaces.value[i], frame.className)))
    ensures frame.FunctionCall? ==>
      (r <==> (config.includeFiles.None? ||
               exists i :: 0 <= i < |config.includeFiles.value| &&
                           Contains(frame.file, config.includeFiles.value[i])))
  {
    match frame
    case MethodCall(c, _, _, _) =>
      (match config.includeNamespaces
       case None => true
       case Some(prefixes) => AnyPrefixOf(c, prefixes))
    case FunctionCall(file, _, _) =>
      (match config.includeFiles
       case None => true
       case Some(patterns) => AnyPatternIn(file, patterns))
  }

  /** Each axis is blind to the other list: methods ignore `include_files`, functions `include_namespaces`. */
  lemma AxesIndependent(frame: Frame, namespaces: Option<seq<string>>, files: Option<seq<string>>, other: Option<seq<string>>)
    ensures frame.MethodCall? ==> Accepts(Config(namespaces, files), frame) == Accepts(Config(namespaces, other), frame)
    ensures frame.FunctionCall? ==> Accepts(Config(namespaces, files), frame) == Accepts(Config(other, files), frame)
  {
  }

  /** A present but empty list rejects every frame on its axis; an absent one accepts every frame. */
  lemma EmptyAndAbsentLists(frame: Frame, other: Option<seq<string>>)
    ensures frame.MethodCall? ==> !Accepts(Config(Some([]), other), frame) && Accepts(Config(None, other), frame)
    ensures frame.FunctionCall? ==> !Accepts(Config(other, Some([])), frame) && Accepts(Config(other, None), frame)
  {
  }

  /** With `include_namespaces = ["App\\"]`, `App\Service` passes and `Lib\Service` does not. */
  lemma NamespaceExample(t: CallType, f: string, args: Option<seq<Args.Arg>>)
    ensures Accepts(Config(Some(["App\\"]), None), MethodCall("App\\Service", t, f, args))
    ensures !Accepts(Config(Some(["App\\"]), None), MethodCall("Lib\\Service", t, f, args))
  {
    assert !IsPrefix("App\\", "Lib\\Service") by {
      assert "Lib\\Service"[..4][0] == 'L';
    }
  }

  /** With `include_files = ["controllers/"]`, a function from a controllers path passes, one from models does not. */
  lemma {:induction false} FileExample(f: string, args: Option<seq<Args.Arg>>)
    ensures Accepts(Config(None, Some(["controllers/"])), FunctionCall("/src/controllers/user.php", f, args))
    ensures !Accepts(Config(None, Some(["controllers/"])), FunctionCall("/src/models/user.php", f, args))
  {
    assert OccursAt("/src/controllers/user.php", "controllers/", 5);
    var m := "/src/models/user.php";
    forall j: nat
      ensures !OccursAt(m, "controllers/", j)
    {
      if j + 12 <= |m| {
        assert m[j..j + 12][0] == m[j] && m[j..j + 12][1] == m[j + 1];
      }
    }
  }
}
