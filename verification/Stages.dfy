/** Builtins as pipeline stages: `cat`, `wc`, `echo` and a lone assignment, reading and writing the way
    builtins.c does, are programs that compute stream functions; pipelines of them compute the
    composition. */
module Stages {
  import opened CStrings
  import opened Options
  import opened WordCount
  import opened Descriptors
  import opened PipelineSetup
  import opened PipelineFlow
  import opened PipelineProgress
  import opened PipelineStreams

  const CAT_BUFFER: nat := 128

  datatype Counts = Counts(words: nat, chars: nat, newlines: nat, inWord: bool)

  datatype State =
    | CatLoop
    | CatPut(chunk: Bytes)
    | WcLoop(counts: Counts)
    | Printing(pieces: seq<Bytes>)

  /** `content` is what the named file holds, if it can be opened. */
  datatype Builtin =
    | Cat
    | CatOf(content: Option<Bytes>)
    | Wc
    | WcOf(content: Option<Bytes>)
    | Echo(args: seq<string>)
    | Assign

  const NO_COUNTS := Counts(0, 0, 0, false)

  function Fed(c: Counts, s: Bytes): Counts {
    Counts(c.words + Started(c.inWord, s), c.chars + |s|, c.newlines + Newlines(s), EndsInWord(c.inWord, s))
  }

  function Report(c: Counts): seq<Bytes> {
    ["word count " + Dec(c.words) + "\n",
     "character count " + Dec(c.chars) + "\n",
     "newline count " + Dec(c.newlines) + "\n"]
  }

  /** The separate writes of `bn_echo`. */
  function EchoPieces(args: seq<string>): seq<Bytes> {
    if args == [] then ["\n"]
    else if |args| == 1 then [args[0], "\n"]
    else [args[0], " "] + EchoPieces(args[1..])
  }

  /** The blocks `fread` returns. */
  function Blocks(content: Bytes): seq<Bytes> {
    if |content| <= CAT_BUFFER then (if content == [] then [] else [content])
    else [content[..CAT_BUFFER]] + Blocks(content[CAT_BUFFER..])
  }

  /** All the builtins; `wc` reads through a stdio buffer of some size. */
  function Program(stdioSize: nat): State -> Action<State> {
    (s: State) =>
      match s
      case CatLoop => Read(CAT_BUFFER, chunk => CatPut(chunk), Printing([]))
      case CatPut(chunk) => Write(chunk, CatLoop)
      case WcLoop(c) => Read(stdioSize, chunk => WcLoop(Fed(c, chunk)), Printing(Report(c)))
      case Printing(pieces) => if pieces == [] then Halt else Write(pieces[0], Printing(pieces[1..]))
  }

  function StartState(b: Builtin): State {
    match b
    case Cat => CatLoop
    case CatOf(None) => Printing([])
    case CatOf(Some(content)) => Printing(Blocks(content))
    case Wc => WcLoop(NO_COUNTS)
    case WcOf(None) => Printing([])
    case WcOf(Some(content)) => Printing(Report(Fed(NO_COUNTS, content)))
    case Echo(args) => Printing(EchoPieces(args))
    case Assign => Printing([])
  }

  function Concat(pieces: seq<Bytes>): Bytes {
    if pieces == [] then [] else pieces[0] + Concat(pieces[1..])
  }

  /** What the stage makes of its input, as a reader of its manual would say. */
  function StreamOf(b: Builtin, input: Bytes): Bytes {
    match b
    case Cat => input
    case CatOf(content) => if content == None then [] else content.value
    case Wc => WcText(input)
    case WcOf(content) => if content == None then [] else WcText(content.value)
    case Echo(args) => EchoText(args)
    case Assign => []
  }

  function WcText(s: Bytes): Bytes {
    Concat(Report(Counts(WordsIn(s), |s|, Newlines(s), false)))
  }

  lemma {:induction false} PrintingComputes(size: nat, pieces: seq<Bytes>, input: Bytes, fuel: nat)
    requires fuel >= |Concat(pieces)| + |pieces|
    ensures Computes(Program(size), Printing(pieces), input, Concat(pieces), fuel)
    decreases |pieces|
  {
    if pieces != [] {
      assert Concat(pieces)[|pieces[0]|..] == Concat(pieces[1..]);
      PrintingComputes(size, pieces[1..], input, fuel - |pieces[0]| - 1);
    }
  }

  lemma {:induction false} CatComputes(size: nat, input: Bytes, fuel: nat)
    requires fuel >= 3 * |input| + 2
    ensures Computes(Program(size), CatLoop, input, input, fuel)
    decreases |input|
  {
    if input == [] {
      PrintingComputes(size, [], input, fuel - 1);
    } else {
      forall k: nat | 1 <= k <= CAT_BUFFER && k <= |input|
        ensures Computes(Program(size), CatPut(input[..k]), input[k..], input, fuel - 1)
      {
        assert input[|input[..k]|..] == input[k..];
        CatComputes(size, input[k..], fuel - k - 2);
      }
    }
  }

  lemma FedTwice(c: Counts, a: Bytes, b: Bytes)
    ensures Fed(Fed(c, a), b) == Fed(c, a + b)
  {
    StartedAppend(c.inWord, a, b);
  }

  lemma WcAtEnd(size: nat, c: Counts, fuel: nat, out: Bytes)
    requires out == Concat(Report(c)) && fuel >= |out| + 4
    ensures Computes(Program(size), WcLoop(c), [], out, fuel)
  {
    PrintingComputes(size, Report(c), [], fuel - 1);
  }

  lemma WcReads(size: nat, c: Counts, input: Bytes, out: Bytes, fuel: nat)
    requires size > 0 && input != [] && fuel > 0
    requires forall k: nat {:trigger Fed(c, input[..k])} | 1 <= k <= size && k <= |input| ::
      Computes(Program(size), WcLoop(Fed(c, input[..k])), input[k..], out, fuel - 1)
    ensures Computes(Program(size), WcLoop(c), input, out, fuel)
  {
  }

  /** The report after a chunk and the rest is the report after both. */
  lemma FedRest(c: Counts, input: Bytes, k: nat)
    requires k <= |input|
    ensures Fed(Fed(c, input[..k]), input[k..]) == Fed(c, input)
  {
    assert input[..k] + input[k..] == input;
    FedTwice(c, input[..k], input[k..]);
  }

  /** `wc` behind a chunk of its input, with the final report `out` in view. */
  lemma {:induction false} WcRest(size: nat, c: Counts, input: Bytes, out: Bytes, fuel: nat, k: nat)
    requires size > 0 && out == Concat(Report(Fed(c, input)))
    requires fuel >= |input| + 4 + |out| && 1 <= k <= |input|
    ensures Computes(Program(size), WcLoop(Fed(c, input[..k])), input[k..], out, fuel - 1)
    decreases |input|, 0
  {
    FedRest(c, input, k);
    WcComputesTo(size, Fed(c, input[..k]), input[k..], out, fuel - 1);
  }

  lemma {:induction false} WcComputesTo(size: nat, c: Counts, input: Bytes, out: Bytes, fuel: nat)
    requires size > 0 && out == Concat(Report(Fed(c, input)))
    requires fuel >= |input| + 4 + |out|
    ensures Computes(Program(size), WcLoop(c), input, out, fuel)
    decreases |input|, 1
  {
    if input == [] {
      assert Report(Fed(c, [])) == Report(c);
      WcAtEnd(size, c, fuel, out);
    } else {
      forall k: nat | 1 <= k <= size && k <= |input|
        ensures Computes(Program(size), WcLoop(Fed(c, input[..k])), input[k..], out, fuel - 1)
      {
        WcRest(size, c, input, out, fuel, k);
      }
      WcReads(size, c, input, out, fuel);
    }
  }

  lemma WcComputes(size: nat, c: Counts, input: Bytes, fuel: nat)
    requires size > 0
    requires fuel >= |input| + 4 + |Concat(Report(Fed(c, input)))|
    ensures Computes(Program(size), WcLoop(c), input, Concat(Report(Fed(c, input))), fuel)
  {
    WcComputesTo(size, c, input, Concat(Report(Fed(c, input))), fuel);
  }

  lemma {:induction false} EchoPiecesText(args: seq<string>)
    ensures Concat(EchoPieces(args)) == EchoText(args)
  {
    if args == [] {
      assert Concat(["\n"]) == "\n" + Concat([]) by { assert ["\n"][1..] == []; }
    } else if |args| == 1 {
      assert [args[0], "\n"][1..] == ["\n"] && ["\n"][1..] == [];
    } else {
      EchoPiecesText(args[1..]);
      var p := EchoPieces(args);
      assert p[1..] == [" "] + EchoPieces(args[1..]) && p[1..][1..] == EchoPieces(args[1..]);
      assert args[0] + (" " + EchoText(args[1..])) == EchoText(args);
    }
  }

  lemma {:induction false} BlocksText(content: Bytes)
    ensures Concat(Blocks(content)) == content
    decreases |content|
  {
    if |content| > CAT_BUFFER {
      BlocksText(content[CAT_BUFFER..]);
      assert Blocks(content)[1..] == Blocks(content[CAT_BUFFER..]);
      assert content[..CAT_BUFFER] + content[CAT_BUFFER..] == content;
    } else if content != [] {
      assert [content][1..] == [] && content + [] == content;
    }
  }

  lemma WcReportText(s: Bytes)
    ensures Concat(Report(Fed(NO_COUNTS, s))) == WcText(s)
  {
    assert Report(Fed(NO_COUNTS, s)) == Report(Counts(WordsIn(s), |s|, Newlines(s), false));
  }

  /** Actions and bytes the pieces take. */
  function Work(pieces: seq<Bytes>): nat {
    |Concat(pieces)| + |pieces|
  }

  function Fuel(b: Builtin, input: Bytes): nat {
    match b
    case Cat => 3 * |input| + 2
    case Wc => |input| + 4 + |StreamOf(Wc, input)|
    case _ => if StartState(b).Printing? then Work(StartState(b).pieces) else 0
  }

  /** Every builtin computes its stream function, however its reads are cut. */
  lemma BuiltinComputes(size: nat, b: Builtin, input: Bytes)
    requires size > 0
    ensures Computes(Program(size), StartState(b), input, StreamOf(b, input), Fuel(b, input))
  {
    match b
    case Cat => CatComputes(size, input, Fuel(b, input));
    case Wc =>
      WcReportText(input);
      WcComputes(size, NO_COUNTS, input, Fuel(b, input));
    case _ =>
      PiecesText(b, input);
      PrintingComputes(size, StartState(b).pieces, input, Fuel(b, input));
  }

  lemma PiecesText(b: Builtin, input: Bytes)
    requires !b.Cat? && !b.Wc?
    ensures StartState(b).Printing? && Concat(StartState(b).pieces) == StreamOf(b, input)
  {
    match b
    case CatOf(Some(content)) => BlocksText(content);
    case WcOf(Some(content)) => WcReportText(content);
    case Echo(args) => EchoPiecesText(args);
    case _ =>
  }

  // ----- Halting on any input -----

  lemma {:induction false} PrintingHalts(size: nat, pieces: seq<Bytes>, room: nat, fuel: nat)
    requires fuel >= Work(pieces)
    ensures Halts(Program(size), Printing(pieces), room, fuel)
    decreases |pieces|
  {
    if pieces != [] { PrintingHalts(size, pieces[1..], room, fuel - |pieces[0]| - 1); }
  }

  lemma {:induction false} CatHalts(size: nat, room: nat, fuel: nat)
    requires fuel >= 3 * room + 2
    ensures Halts(Program(size), CatLoop, room, fuel)
    decreases room
  {
    PrintingHalts(size, [], room, fuel - 1);
    forall c: Bytes | 1 <= |c| <= CAT_BUFFER && |c| <= room
      ensures Halts(Program(size), CatPut(c), room - |c|, fuel - 1)
    {
      CatHalts(size, room - |c|, fuel - |c| - 2);
    }
  }

  lemma {:induction false} DecShort(n: nat)
    ensures |Dec(n)| <= n + 1
  {
    if n >= 10 { DecShort(n / 10); }
  }

  function Total(c: Counts): nat {
    c.words + c.chars + c.newlines
  }

  lemma ReportShort(c: Counts)
    ensures Work(Report(c)) <= Total(c) + 50
  {
    DecShort(c.words);
    DecShort(c.chars);
    DecShort(c.newlines);
    ConcatThree(Report(c)[0], Report(c)[1], Report(c)[2]);
  }

  lemma {:induction false} FedTotal(c: Counts, s: Bytes)
    ensures Total(Fed(c, s)) <= Total(c) + 3 * |s|
  {
    StartedBound(c.inWord, s);
  }

  lemma {:induction false} StartedBound(inWord: bool, s: Bytes)
    ensures Started(inWord, s) <= |s| && Newlines(s) <= |s|
    decreases |s|
  {
    if s != [] { StartedBound(!Gap(s[0]), s[1..]); }
  }

  lemma {:induction false} WcHaltsAfter(size: nat, c: Counts, room: nat, fuel: nat, chunk: Bytes)
    requires size > 0 && fuel >= Total(c) + 4 * room + 51 && 1 <= |chunk| <= room
    ensures Halts(Program(size), WcLoop(Fed(c, chunk)), room - |chunk|, fuel - 1)
    decreases room, 0
  {
    FedTotal(c, chunk);
    WcHalts(size, Fed(c, chunk), room - |chunk|, fuel - 1);
  }

  lemma WcHaltsOn(size: nat, c: Counts, room: nat, fuel: nat)
    requires size > 0 && fuel > 0
    requires Halts(Program(size), Printing(Report(c)), room, fuel - 1)
    requires forall chunk: Bytes {:trigger Fed(c, chunk)} | 1 <= |chunk| <= size && |chunk| <= room ::
      Halts(Program(size), WcLoop(Fed(c, chunk)), room - |chunk|, fuel - 1)
    ensures Halts(Program(size), WcLoop(c), room, fuel)
  {
  }

  lemma {:induction false} WcHalts(size: nat, c: Counts, room: nat, fuel: nat)
    requires size > 0 && fuel >= Total(c) + 4 * room + 51
    ensures Halts(Program(size), WcLoop(c), room, fuel)
    decreases room, 1
  {
    ReportShort(c);
    PrintingHalts(size, Report(c), room, fuel - 1);
    forall chunk: Bytes | 1 <= |chunk| <= size && |chunk| <= room
      ensures Halts(Program(size), WcLoop(Fed(c, chunk)), room - |chunk|, fuel - 1)
    {
      WcHaltsAfter(size, c, room, fuel, chunk);
    }
    WcHaltsOn(size, c, room, fuel);
  }

  /** Enough for a builtin that can read at most `room` bytes. */
  function HaltFuel(b: Builtin, room: nat): nat {
    match b
    case Cat => 3 * room + 2
    case Wc => 4 * room + 51
    case _ => Fuel(b, [])
  }

  lemma BuiltinHalts(size: nat, b: Builtin, room: nat)
    requires size > 0
    ensures Halts(Program(size), StartState(b), room, HaltFuel(b, room))
  {
    match b
    case Cat => CatHalts(size, room, HaltFuel(b, room));
    case Wc => WcHalts(size, NO_COUNTS, room, HaltFuel(b, room));
    case _ => PrintingHalts(size, StartState(b).pieces, room, HaltFuel(b, room));
  }

  // ----- Pipelines of builtins -----

  function Compose(cmds: seq<Builtin>, input: Bytes): Bytes {
    if cmds == [] then input else Compose(cmds[1..], StreamOf(cmds[0], input))
  }

  function StreamAt(cmds: seq<Builtin>, input: Bytes, i: nat): Bytes
    requires i <= |cmds|
  {
    if i == 0 then input else StreamOf(cmds[i - 1], StreamAt(cmds, input, i - 1))
  }

  lemma {:induction false} ComposeIsLastStream(cmds: seq<Builtin>, input: Bytes, i: nat)
    requires i <= |cmds|
    ensures Compose(cmds[i..], StreamAt(cmds, input, i)) == Compose(cmds, input)
    decreases i
  {
    if i == 0 {
      assert cmds[0..] == cmds;
    } else {
      ComposeIsLastStream(cmds, input, i - 1);
      assert cmds[i - 1..][1..] == cmds[i..];
    }
  }

  /** A command that never starts reads and writes nothing, like a lone assignment. */
  function Survivors(cmds: seq<Builtin>, dead: set<nat>): seq<Builtin> {
    seq(|cmds|, i requires 0 <= i < |cmds| => if i in dead then Assign else cmds[i])
  }

  lemma NobodyDead(cmds: seq<Builtin>)
    ensures Survivors(cmds, {}) == cmds
  {
  }

  lemma ComposeTwo(a: Builtin, b: Builtin, input: Bytes)
    ensures Compose([a, b], input) == StreamOf(b, StreamOf(a, input))
  {
    var mid := StreamOf(a, input);
    assert [a, b][1..] == [b] && [b][1..] == [];
    assert Compose([b], mid) == StreamOf(b, mid);
  }

  function PlanFor(cmds: seq<Builtin>, dead: set<nat>, input: Bytes, init: Table, cap: nat, size: nat): Plan<State> {
    Plan(init,
         seq(|cmds|, _ => Program(size)),
         seq(|cmds|, i requires 0 <= i < |cmds| => StartState(cmds[i])),
         cap,
         seq(|cmds| + 1, i requires 0 <= i <= |cmds| => StreamAt(Survivors(cmds, dead), input, i)),
         dead)
  }

  function FuelsFor(cmds: seq<Builtin>, dead: set<nat>, input: Bytes): seq<nat> {
    seq(|cmds|, i requires 0 <= i < |cmds| => Fuel(cmds[i], StreamAt(Survivors(cmds, dead), input, i)))
  }

  lemma PlanAt(cmds: seq<Builtin>, dead: set<nat>, input: Bytes, init: Table, cap: nat, size: nat, i: nat)
    requires i < |cmds|
    ensures var plan := PlanFor(cmds, dead, input, init, cap, size);
      && plan.progs[i] == Program(size) && plan.start[i] == StartState(cmds[i])
      && plan.streams[i + 1] == (if i in dead then [] else StreamOf(cmds[i], plan.streams[i]))
      && FuelsFor(cmds, dead, input)[i] == Fuel(cmds[i], plan.streams[i])
  {
  }

  /** What command `i` makes of its stream, if it gets to run. */
  lemma SurvivorComputes(
      cmds: seq<Builtin>, dead: set<nat>, input: Bytes, init: Table, cap: nat, size: nat, i: nat)
    requires |cmds| >= 2 && cap >= 1 && size >= 1 && ShellTable(init) && i < |cmds|
    ensures StageComputes(PlanFor(cmds, dead, input, init, cap, size), FuelsFor(cmds, dead, input), i)
  {
    PlanAt(cmds, dead, input, init, cap, size, i);
    var plan := PlanFor(cmds, dead, input, init, cap, size);
    if i !in dead {
      var fed, b := plan.streams[i], cmds[i];
      BuiltinComputes(size, b, fed);
      StageGiven(plan, FuelsFor(cmds, dead, input), i,
                 Program(size), StartState(b), fed, StreamOf(b, fed), Fuel(b, fed));
    }
  }

  lemma BuiltinsCompute(cmds: seq<Builtin>, dead: set<nat>, input: Bytes, init: Table, cap: nat, size: nat)
    requires |cmds| >= 2 && cap >= 1 && size >= 1 && ShellTable(init)
    ensures var plan := PlanFor(cmds, dead, input, init, cap, size);
      PlanOk(plan) && StagesCompute(plan, FuelsFor(cmds, dead, input))
  {
    forall i | 0 <= i < |cmds|
      ensures StageComputes(PlanFor(cmds, dead, input, init, cap, size), FuelsFor(cmds, dead, input), i)
    {
      SurvivorComputes(cmds, dead, input, init, cap, size, i);
    }
  }

  /** Any pipeline of builtins, over pipes of any capacity, under any schedule in which no `pipe` or
      `fork` fails and nothing times out: when all is over, standard output has received the composition
      of the stream functions of those commands that got to run. */
  lemma BuiltinPipeline(
      cmds: seq<Builtin>, input: Bytes, init: Table, cap: nat, size: nat, es: seq<Event>)
    requires |cmds| >= 2 && cap >= 1 && size >= 1 && ShellTable(init) && Unhindered(es)
    requires var plan := PlanFor(cmds, DupFailures(es), input, init, cap, size);
      Schedule(plan, Initial(plan), es) && Completed(Outcome(plan, Initial(plan), es))
    ensures var plan := PlanFor(cmds, DupFailures(es), input, init, cap, size);
      var net := Outcome(plan, Initial(plan), es);
      && |net.chan| == |cmds| + 1 && net.sys.parent == init
      && net.chan[|cmds|] == Compose(Survivors(cmds, DupFailures(es)), input)
  {
    var dead := DupFailures(es);
    BuiltinsCompute(cmds, dead, input, init, cap, size);
    PipelineComputesComposition(PlanFor(cmds, dead, input, init, cap, size), FuelsFor(cmds, dead, input), es);
    ComposeIsLastStream(Survivors(cmds, dead), input, |cmds|);
  }

  /** The most that can reach command `i`. */
  function RoomAt(cmds: seq<Builtin>, input: Bytes, i: nat): nat
    requires i <= |cmds|
  {
    if i == 0 then |input| else HaltFuel(cmds[i - 1], RoomAt(cmds, input, i - 1))
  }

  function RoomsFor(cmds: seq<Builtin>, input: Bytes): seq<nat> {
    seq(|cmds|, i requires 0 <= i < |cmds| => RoomAt(cmds, input, i))
  }

  function HaltFuelsFor(cmds: seq<Builtin>, input: Bytes): seq<nat> {
    seq(|cmds|, i requires 0 <= i < |cmds| => RoomAt(cmds, input, i + 1))
  }

  /** The room of each command is what the one before it can write. */
  lemma RoomsAt(cmds: seq<Builtin>, input: Bytes, i: nat)
    requires i < |cmds|
    ensures RoomsFor(cmds, input)[i] == RoomAt(cmds, input, i)
    ensures HaltFuelsFor(cmds, input)[i] == HaltFuel(cmds[i], RoomAt(cmds, input, i))
    ensures i + 1 < |cmds| ==> HaltFuelsFor(cmds, input)[i] == RoomsFor(cmds, input)[i + 1]
  {
  }

  lemma RoomEnough(cmds: seq<Builtin>, dead: set<nat>, input: Bytes, init: Table, cap: nat, size: nat, i: nat)
    requires |cmds| >= 2 && cap >= 1 && size >= 1 && ShellTable(init) && i < |cmds|
    ensures StageHalts(PlanFor(cmds, dead, input, init, cap, size),
                       RoomsFor(cmds, input), HaltFuelsFor(cmds, input), i)
  {
    var b, room := cmds[i], RoomAt(cmds, input, i);
    PlanAt(cmds, dead, input, init, cap, size, i);
    RoomsAt(cmds, input, i);
    BuiltinHalts(size, b, room);
    StageHaltsGiven(PlanFor(cmds, dead, input, init, cap, size), RoomsFor(cmds, input), HaltFuelsFor(cmds, input), i,
                    Program(size), StartState(b), room, HaltFuel(b, room));
  }

  lemma BuiltinsHalt(cmds: seq<Builtin>, dead: set<nat>, input: Bytes, init: Table, cap: nat, size: nat)
    requires |cmds| >= 2 && cap >= 1 && size >= 1 && ShellTable(init)
    ensures var plan := PlanFor(cmds, dead, input, init, cap, size);
      PlanOk(plan) && StagesHalt(plan, RoomsFor(cmds, input), HaltFuelsFor(cmds, input))
  {
    forall i | 0 <= i < |cmds|
      ensures StageHalts(PlanFor(cmds, dead, input, init, cap, size),
                         RoomsFor(cmds, input), HaltFuelsFor(cmds, input), i)
    {
      RoomEnough(cmds, dead, input, init, cap, size, i);
    }
  }

  /** And every schedule comes to its end, whatever fails or times out: it takes a bounded number of
      steps... */
  lemma BuiltinPipelineEnds(
      cmds: seq<Builtin>, dead: set<nat>, input: Bytes, init: Table, cap: nat, size: nat, es: seq<Event>)
    requires |cmds| >= 2 && cap >= 1 && size >= 1 && ShellTable(init)
    requires var plan := PlanFor(cmds, dead, input, init, cap, size); Schedule(plan, Initial(plan), es)
    ensures |es| <= Bound(PlanFor(cmds, dead, input, init, cap, size), HaltFuelsFor(cmds, input))
  {
    BuiltinsHalt(cmds, dead, input, init, cap, size);
    AnyRunIsBounded(PlanFor(cmds, dead, input, init, cap, size),
                    RoomsFor(cmds, input), HaltFuelsFor(cmds, input), es);
  }

  /** ...and never gets stuck before. */
  lemma BuiltinPipelineGoesOn(
      cmds: seq<Builtin>, dead: set<nat>, input: Bytes, init: Table, cap: nat, size: nat, es: seq<Event>)
    requires |cmds| >= 2 && cap >= 1 && size >= 1 && ShellTable(init)
    requires var plan := PlanFor(cmds, dead, input, init, cap, size); Schedule(plan, Initial(plan), es)
    ensures var plan := PlanFor(cmds, dead, input, init, cap, size);
      var net := Outcome(plan, Initial(plan), es);
      Completed(net) || exists e :: CanStepNet(plan, net, e) && Succeeds(e)
  {
    BuiltinsHalt(cmds, dead, input, init, cap, size);
    AnyRunCanGoOn(PlanFor(cmds, dead, input, init, cap, size),
                  RoomsFor(cmds, input), HaltFuelsFor(cmds, input), es);
  }

  lemma OneNewline()
    ensures "newline count " + Dec(1) + "\n" == "newline count 1\n"
  {
    assert Dec(1) == "1";
  }

  lemma WcOfEcho(args: seq<string>)
    requires forall t :: t in args ==> GapFree(t)
    ensures StreamOf(Wc, EchoText(args)) ==
            ("word count " + Dec(|args|) + "\n") + ("character count " + Dec(|Join(args)| + 1) + "\n")
            + "newline count 1\n"
  {
    EchoCounts(args);
    OneNewline();
    ConcatThree("word count " + Dec(|args|) + "\n",
                "character count " + Dec(|Join(args)| + 1) + "\n",
                "newline count " + Dec(1) + "\n");
  }

  /** What `wc` prints, by the characters of its input. */
  lemma WcTextExactly(s: Bytes)
    ensures WcText(s) ==
            ("word count " + Dec(|set i: nat | i < |s| && WordStartsAt(s, i)|) + "\n")
            + ("character count " + Dec(|s|) + "\n")
            + ("newline count " + Dec(|set i: nat | i < |s| && s[i] == '\n'|) + "\n")
  {
    WordsExactly(s);
    NewlinesExactly(s);
    ConcatThree("word count " + Dec(WordsIn(s)) + "\n",
                "character count " + Dec(|s|) + "\n",
                "newline count " + Dec(Newlines(s)) + "\n");
  }

  /** `echo w1 ... wn | wc`, with any number of `cat`s between them. */
  lemma EchoWcPrints(args: seq<string>, cats: nat, input: Bytes)
    requires forall t :: t in args ==> GapFree(t)
    ensures Compose([Echo(args)] + (seq(cats, _ => Cat) + [Wc]), input) ==
            ("word count " + Dec(|args|) + "\n") + ("character count " + Dec(|Join(args)| + 1) + "\n")
            + "newline count 1\n"
  {
    var rest := seq(cats, _ => Cat) + [Wc];
    assert ([Echo(args)] + rest)[1..] == rest;
    CatsChangeNothing(cats, EchoText(args));
    WcOfEcho(args);
  }

  lemma ConcatThree(a: Bytes, b: Bytes, c: Bytes)
    ensures Concat([a, b, c]) == a + b + c
  {
    assert [a, b, c][1..] == [b, c] && [b, c][1..] == [c] && [c][1..] == [];
    assert Concat([c]) == c + [] == c;
    assert Concat([b, c]) == b + c;
    assert a + (b + c) == a + b + c;
  }

  lemma {:induction false} CatsChangeNothing(cats: nat, input: Bytes)
    ensures Compose(seq(cats, _ => Cat) + [Wc], input) == StreamOf(Wc, input)
  {
    var cmds := seq(cats, _ => Cat) + [Wc];
    if cats > 0 {
      assert cmds[1..] == seq(cats - 1, _ => Cat) + [Wc];
      CatsChangeNothing(cats - 1, input);
    } else {
      assert cmds[1..] == [];
    }
  }
}
