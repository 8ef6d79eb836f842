/** From the line to its output: what the tokeniser, the expander, the split and the pipeline engine do
    together to a line of builtins. */
module Lines {
  import opened CStrings
  import opened Options
  import opened Tokenizer
  import opened TokenArrays
  import opened Variables
  import opened Shell
  import opened PipelineSplit
  import opened WordCount
  import opened Descriptors
  import opened PipelineSetup
  import opened PipelineFlow
  import opened PipelineStreams
  import opened Stages

  /** What a child makes of its tokens, if that is one of the builtins modelled here; `files` holds the
      files that can be opened. */
  function AsBuiltin(files: map<string, Bytes>, seg: seq<string>): Option<Builtin> {
    if seg == [] then None
    else if IsAssignment(seg[0]) then Some(Assign)
    else if seg[0] == "echo" then Some(Echo(seg[1..]))
    else if seg[0] == "cat" then Some(if |seg| == 1 then Cat else CatOf(Content(files, seg[1])))
    else if seg[0] == "wc" then Some(if |seg| == 1 then Wc else WcOf(Content(files, seg[1])))
    else None
  }

  function Content(files: map<string, Bytes>, name: string): Option<Bytes> {
    if name in files then Some(files[name]) else None
  }

  predicate AllBuiltin(files: map<string, Bytes>, segs: seq<seq<string>>) {
    forall i :: 0 <= i < |segs| ==> AsBuiltin(files, segs[i]).Some?
  }

  function Builtins(files: map<string, Bytes>, segs: seq<seq<string>>): (r: seq<Builtin>)
    requires AllBuiltin(files, segs)
    ensures |r| == |segs|
  {
    seq(|segs|, i requires 0 <= i < |segs| => AsBuiltin(files, segs[i]).value)
  }

  /** A line dispatched as a pipeline has at least two commands, whatever the variables hold. */
  lemma PipelineHasTwo(env: Env, line: string)
    requires DispatchOf(env, line).Pipeline?
    ensures |Segments(DispatchOf(env, line).tokens)| >= 2
  {
    var ts, ex := TokensOf(line), DispatchOf(env, line).tokens;
    var i :| 0 <= i < |ts| && ts[i] == "|";
    assert '$' !in "|" && ex[i] == "|";
    SegmentsInterleave(ex);
    PipesIn(ex);
  }

  /** Any line, any variables: if it is dispatched as a pipeline whose commands are builtins, then under
      every schedule in which no `pipe` or `fork` fails and nothing times out, standard output receives
      the composition of the stream functions of the commands between its `|`s. */
  lemma LinePrints(
      env: Env, line: string, files: map<string, Bytes>,
      input: Bytes, init: Table, cap: nat, size: nat, es: seq<Event>)
    requires cap >= 1 && size >= 1 && ShellTable(init) && Unhindered(es)
    requires DispatchOf(env, line).Pipeline?
    requires AllBuiltin(files, Commands(Segments(DispatchOf(env, line).tokens)))
    requires
      var cmds := Builtins(files, Commands(Segments(DispatchOf(env, line).tokens)));
      var plan := PlanFor(cmds, DupFailures(es), input, init, cap, size);
      Schedule(plan, Initial(plan), es) && Completed(Outcome(plan, Initial(plan), es))
    ensures
      var cmds := Builtins(files, Commands(Segments(DispatchOf(env, line).tokens)));
      var plan := PlanFor(cmds, DupFailures(es), input, init, cap, size);
      var net := Outcome(plan, Initial(plan), es);
      && |net.chan| == |cmds| + 1 && net.sys.parent == init
      && net.chan[|cmds|] == Compose(Survivors(cmds, DupFailures(es)), input)
  {
    PipelineHasTwo(env, line);
    BuiltinPipeline(Builtins(files, Commands(Segments(DispatchOf(env, line).tokens))), input, init, cap, size, es);
  }

  // ----- echo w1 ... wn | wc -----

  predicate Ordinary(t: string) {
    Plain(t) && t != "|" && '$' !in t && '\r' !in t
  }

  function EchoWcTokens(words: seq<string>): seq<string> {
    ["echo"] + (words + ["|", "wc"])
  }

  lemma EchoWcDispatch(env: Env, words: seq<string>)
    requires forall t :: t in words ==> Ordinary(t)
    ensures DispatchOf(env, Join(EchoWcTokens(words)) + "\n") == Pipeline(EchoWcTokens(words))
  {
    var ts := EchoWcTokens(words);
    EchoLineRoundTrip(words + ["|", "wc"]);
    assert TokensOf(Join(ts) + "\n") == ts && ts[|words| + 1] == "|";
    forall i | 0 <= i < |ts| ensures ExpandedToken(env, ts, i) == ts[i] {
      if 1 <= i <= |words| { assert ts[i] == words[i - 1] && ts[i] in words; }
      assert '$' !in ts[i];
    }
    assert ExpandedTokens(env, ts) == ts;
  }

  lemma EchoWcSegments(words: seq<string>)
    requires forall t :: t in words ==> Ordinary(t)
    ensures Commands(Segments(EchoWcTokens(words))) == [["echo"] + words, ["wc"]]
  {
    var first := ["echo"] + words;
    assert EchoWcTokens(words) == first + ["|"] + ["wc"];
    SegmentsOfJoined(first, ["wc"]);
    SegmentsOfJoined(["wc"], []);
  }

  /** What the shell makes of `echo w1 ... wn | wc`, with any variables set. */
  lemma EchoWcCommands(env: Env, words: seq<string>)
    requires forall t :: t in words ==> Ordinary(t)
    ensures var ts := EchoWcTokens(words);
      && DispatchOf(env, Join(ts) + "\n") == Pipeline(ts)
      && AllBuiltin(map[], Commands(Segments(ts)))
      && Builtins(map[], Commands(Segments(ts))) == [Echo(words), Wc]
  {
    EchoWcDispatch(env, words);
    EchoWcSegments(words);
    assert (["echo"] + words)[1..] == words;
  }

  /** It prints n words, the characters between and the newline, and one line, however the processes
      interleave. */
  lemma EchoWcLine(words: seq<string>, input: Bytes, init: Table, cap: nat, size: nat, es: seq<Event>)
    requires cap >= 1 && size >= 1 && ShellTable(init) && Unhindered(es) && DupFailures(es) == {}
    requires forall t :: t in words ==> Ordinary(t)
    requires var plan := PlanFor([Echo(words), Wc], {}, input, init, cap, size);
      Schedule(plan, Initial(plan), es) && Completed(Outcome(plan, Initial(plan), es))
    ensures var plan := PlanFor([Echo(words), Wc], {}, input, init, cap, size);
      var net := Outcome(plan, Initial(plan), es);
      |net.chan| == 3 && net.chan[2] ==
        ("word count " + Dec(|words|) + "\n") + ("character count " + Dec(|Join(words)| + 1) + "\n")
        + "newline count 1\n"
  {
    var cmds := [Echo(words), Wc];
    BuiltinPipeline(cmds, input, init, cap, size, es);
    NobodyDead(cmds);
    EchoWcComposed(words, input);
  }

  lemma EchoWcComposed(words: seq<string>, input: Bytes)
    requires forall t :: t in words ==> Ordinary(t)
    ensures Compose([Echo(words), Wc], input) ==
            ("word count " + Dec(|words|) + "\n") + ("character count " + Dec(|Join(words)| + 1) + "\n")
            + "newline count 1\n"
  {
    forall t | t in words ensures GapFree(t) {
      assert Ordinary(t);
    }
    EchoWcPrints(words, 0, input);
    assert [Echo(words)] + (seq(0, _ => Cat) + [Wc]) == [Echo(words), Wc];
  }

  // ----- What single commands make of their input -----

  lemma CatStream(files: map<string, Bytes>, f: string, more: seq<string>, input: Bytes)
    ensures AsBuiltin(files, ["cat"]).Some? && StreamOf(AsBuiltin(files, ["cat"]).value, input) == input
    ensures var b := AsBuiltin(files, ["cat", f] + more);
      b.Some? && StreamOf(b.value, input) == if f in files then files[f] else ""
  {
    assert '=' !in "cat";
  }

  lemma WcStream(files: map<string, Bytes>, f: string, more: seq<string>, input: Bytes)
    ensures AsBuiltin(files, ["wc"]).Some? && StreamOf(AsBuiltin(files, ["wc"]).value, input) == WcText(input)
    ensures var b := AsBuiltin(files, ["wc", f] + more);
      b.Some? && StreamOf(b.value, input) == if f in files then WcText(files[f]) else ""
  {
    assert '=' !in "wc";
  }

  lemma EchoStream(files: map<string, Bytes>, words: seq<string>, input: Bytes)
    ensures var b := AsBuiltin(files, ["echo"] + words);
      b.Some? && StreamOf(b.value, input) == Join(words) + "\n"
  {
    assert '=' !in "echo" && (["echo"] + words)[1..] == words;
  }

  lemma AssignmentStream(files: map<string, Bytes>, t: string, more: seq<string>, i: nat, input: Bytes)
    requires 0 < i < |t| && t[i] == '=' && t[0] != '='
    ensures var b := AsBuiltin(files, [t] + more);
      b.Some? && StreamOf(b.value, input) == ""
  {
    AssignmentShape(t);
  }

  // ----- cat f | wc -----

  /** Tokens without attached operators, on a line of their own, are read back whatever the flag. */
  lemma CleanLine(ts: seq<string>)
    requires forall t :: t in ts ==> Clean(t)
    ensures TokensOf(Join(ts) + "\n") == ts
  {
    var line := Join(ts) + "\n";
    JoinLays(ts);
    LaysLine(Join(ts), ts);
    TokensAreLexed(line);
    LexLays(EchoFlag(line), line, ts);
  }

  lemma CatWcDispatch(env: Env, f: string)
    requires Ordinary(f) && Clean(f)
    ensures DispatchOf(env, Join(["cat", f, "|", "wc"]) + "\n") == Pipeline(["cat", f, "|", "wc"])
  {
    var ts := ["cat", f, "|", "wc"];
    CleanLine(ts);
    assert ts[2] == "|" && '=' !in "cat";
    forall i | 0 <= i < |ts| ensures ExpandedToken(env, ts, i) == ts[i] {
      assert '$' !in ts[i];
    }
    assert ExpandedTokens(env, ts) == ts;
  }

  lemma CatWcSegments(f: string)
    requires f != "|"
    ensures Commands(Segments(["cat", f, "|", "wc"])) == [["cat", f], ["wc"]]
  {
    assert ["cat", f, "|", "wc"] == ["cat", f] + ["|"] + ["wc"];
    SegmentsOfJoined(["cat", f], ["wc"]);
    SegmentsOfJoined(["wc"], []);
  }

  /** `cat f | wc`, typed at the prompt with any variables set, is the pipeline of just these two... */
  lemma CatWcCommands(env: Env, f: string, files: map<string, Bytes>)
    requires Ordinary(f) && Clean(f)
    ensures var ts := ["cat", f, "|", "wc"];
      && DispatchOf(env, Join(ts) + "\n") == Pipeline(ts)
      && AllBuiltin(files, Commands(Segments(ts)))
      && Builtins(files, Commands(Segments(ts))) == [CatOf(Content(files, f)), Wc]
  {
    CatWcDispatch(env, f);
    CatWcSegments(f);
    assert '=' !in "cat" && '=' !in "wc";
  }

  /** ...and prints the counts of the file, or of nothing if it cannot be opened. */
  lemma CatWcLine(
      f: string, files: map<string, Bytes>, input: Bytes, init: Table, cap: nat, size: nat, es: seq<Event>)
    requires cap >= 1 && size >= 1 && ShellTable(init) && Unhindered(es) && DupFailures(es) == {}
    requires var plan := PlanFor([CatOf(Content(files, f)), Wc], {}, input, init, cap, size);
      Schedule(plan, Initial(plan), es) && Completed(Outcome(plan, Initial(plan), es))
    ensures var plan := PlanFor([CatOf(Content(files, f)), Wc], {}, input, init, cap, size);
      var net := Outcome(plan, Initial(plan), es);
      |net.chan| == 3 && net.chan[2] == if f in files then WcText(files[f]) else WcText("")
  {
    var cmds := [CatOf(Content(files, f)), Wc];
    BuiltinPipeline(cmds, input, init, cap, size, es);
    NobodyDead(cmds);
    ComposeTwo(cmds[0], Wc, input);
  }
}
