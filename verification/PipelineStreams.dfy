/** What a pipeline computes: the composition of what its commands compute. */
module PipelineStreams {
  import opened Descriptors
  import opened PipelineSetup
  import opened PipelineFlow
  import opened PipelineProgress

  /** From `s`, with `input` to come, the program writes `output` and halts, however its reads are cut
      into chunks; `fuel` bounds the actions and bytes this takes. */
  ghost predicate Computes<S>(prog: S -> Action<S>, s: S, input: Bytes, output: Bytes, fuel: nat)
    decreases fuel
  {
    match prog(s)
    case Halt => output == []
    case Write(d, next) =>
      |d| < fuel && d <= output && Computes(prog, next, input, output[|d|..], fuel - |d| - 1)
    case Read(max, onData, onEof) =>
      fuel > 0 &&
      if input == [] then Computes(prog, onEof, input, output, fuel - 1)
      else max > 0 && forall k: nat {:trigger onData(input[..k])} | 1 <= k <= max && k <= |input| ::
             Computes(prog, onData(input[..k]), input[k..], output, fuel - 1)
  }

  /** Command `i` computes its stream, or never starts and writes nothing. */
  ghost predicate StageComputes<S>(plan: Plan<S>, fuels: seq<nat>, i: nat)
    requires PlanOk(plan) && i < plan.N() == |fuels|
  {
    if i in plan.dead then plan.streams[i + 1] == []
    else Computes(plan.progs[i], plan.start[i], plan.streams[i], plan.streams[i + 1], fuels[i])
  }

  ghost predicate StagesCompute<S>(plan: Plan<S>, fuels: seq<nat>)
    requires PlanOk(plan)
  {
    |fuels| == plan.N() && forall i :: 0 <= i < plan.N() ==> StageComputes(plan, fuels, i)
  }

  /** A stage, looked at on its own. */
  lemma StageGiven<S>(
      plan: Plan<S>, fuels: seq<nat>, i: nat, prog: S -> Action<S>, s: S, input: Bytes, output: Bytes, fuel: nat)
    requires PlanOk(plan) && i < plan.N() == |fuels|
    requires plan.progs[i] == prog && plan.start[i] == s && fuels[i] == fuel
    requires plan.streams[i] == input && plan.streams[i + 1] == output
    requires Computes(prog, s, input, output, fuel)
    ensures i !in plan.dead ==> StageComputes(plan, fuels, i)
  {
  }

  /** Nothing goes wrong in this event but what the plan expects: `pipe` and `fork` succeed, `dup2` fails
      for the dead only, the dead never run, and no child times out. */
  predicate Follows<S>(plan: Plan<S>, e: Event) {
    match e
    case Act(i, _) => i !in plan.dead
    case Setup(ev) =>
      match ev
      case PipeFails => false
      case ForkFails => false
      case TimesOut(_) => false
      case ChildStep(i, ok) => ok || i in plan.dead
      case _ => true
  }

  // ----- What every step keeps -----

  /** A live command has exactly the rest of its stream still to come. */
  ghost predicate LiveOk<S>(prog: S -> Action<S>, p: Proc<S>, input: Bytes, output: Bytes, fuel: nat) {
    && !p.killed
    && p.taken <= input
    && p.sent + p.pending <= output
    && Computes(prog, p.state, input[|p.taken|..], output[|p.sent + p.pending|..], fuel)
  }

  /** An exited one has written its whole stream, unless SIGPIPE ended it: then its reader was gone. */
  predicate DoneOk<S>(p: Proc<S>, output: Bytes, readerGone: bool) {
    if p.killed then readerGone && p.sent <= output else p.sent == output
  }

  ghost predicate StageOk<S>(plan: Plan<S>, net: Net<S>, fuels: seq<nat>, i: nat)
    requires PlanOk(plan) && Sized(plan, net) && i < plan.N() == |fuels|
  {
    if i in plan.dead then net.procs[i].sent == [] == plan.streams[i + 1]
    else if Ended(net, i) then DoneOk(net.procs[i], plan.streams[i + 1], Ended(net, i + 1))
    else LiveOk(plan.progs[i], net.procs[i], plan.streams[i], plan.streams[i + 1], fuels[i])
  }

  function Source<S>(plan: Plan<S>, net: Net<S>, i: nat): Bytes
    requires i <= |net.procs| && |plan.streams| > 0
  {
    if i == 0 then plan.streams[0] else net.procs[i - 1].sent
  }

  /** What was written to a channel is what was read from it followed by what is still in it. */
  predicate LinkedAt<S>(plan: Plan<S>, net: Net<S>, i: nat)
    requires i <= |net.procs| && i < |net.chan| && |plan.streams| > 0
  {
    Source(plan, net, i) == (if i < |net.procs| then net.procs[i].taken else []) + net.chan[i]
  }

  ghost predicate Linked<S>(plan: Plan<S>, net: Net<S>)
    requires PlanOk(plan) && Sized(plan, net)
  {
    forall i :: 0 <= i <= plan.N() ==> LinkedAt(plan, net, i)
  }

  ghost predicate Flowing<S>(plan: Plan<S>, net: Net<S>, fuels: seq<nat>) {
    && PlanOk(plan) && Sized(plan, net) && |fuels| == plan.N() && |net.sys.kids| <= plan.N()
    && Linked(plan, net)
    && forall i :: 0 <= i < plan.N() ==> StageOk(plan, net, fuels, i)
  }

  predicate NoErrors(s: Sys) {
    s.ppc.Building? || (s.ppc.ParentClosing? && s.ppc.ok) || s.ppc == Returned(true)
  }

  ghost predicate NetInv<S>(plan: Plan<S>, net: Net<S>, fuels: seq<nat>) {
    Flowing(plan, net, fuels) && Inv(net.sys, plan.init) && NoErrors(net.sys)
  }

  lemma InitialInv<S>(plan: Plan<S>, fuels: seq<nat>)
    requires PlanOk(plan) && StagesCompute(plan, fuels)
    ensures NetInv(plan, Initial(plan), fuels)
  {
    var net := Initial(plan);
    forall i | 0 <= i < plan.N() ensures StageOk(plan, net, fuels, i) {
      assert StageComputes(plan, fuels, i);
      assert plan.streams[i][0..] == plan.streams[i];
      assert plan.streams[i + 1][0..] == plan.streams[i + 1];
    }
  }

  lemma SentIsPrefix<S>(plan: Plan<S>, net: Net<S>, fuels: seq<nat>, i: nat)
    requires Flowing(plan, net, fuels) && i <= plan.N()
    ensures Source(plan, net, i) <= plan.streams[i]
  {
    if i > 0 { assert StageOk(plan, net, fuels, i - 1); }
  }

  /** End-of-file tells the truth: the command before has finished, and all it wrote was read. */
  lemma EofMeansAllRead<S>(plan: Plan<S>, net: Net<S>, fuels: seq<nat>, i: nat)
    requires Flowing(plan, net, fuels) && i < plan.N() && !Ended(net, i)
    requires net.chan[i] == [] && (i > 0 ==> Ended(net, i - 1))
    ensures net.procs[i].taken == plan.streams[i]
  {
    assert LinkedAt(plan, net, i);
    if i > 0 { assert StageOk(plan, net, fuels, i - 1); }
  }

  lemma EofMeansWriterGone<S>(plan: Plan<S>, net: Net<S>, i: nat)
    requires Inv(net.sys, plan.init) && NoErrors(net.sys) && Sized(plan, net)
    requires i < |net.sys.kids| && AtEof(net, i)
    ensures i > 0 ==> Ended(net, i - 1)
  {
    if i > 0 {
      assert WriteEnd(i - 1) == EndOf(2 * (i - 1) + 1);
      UnheldMeansGone(net.sys, plan.init, 2 * (i - 1) + 1);
    }
  }

  lemma BrokenMeansReaderGone<S>(plan: Plan<S>, net: Net<S>, i: nat)
    requires Inv(net.sys, plan.init) && NoErrors(net.sys) && Sized(plan, net)
    requires i < |net.sys.kids| && Broken(net, i + 1)
    ensures Ended(net, i + 1)
  {
    assert ReadEnd(i) == EndOf(2 * i);
    UnheldMeansGone(net.sys, plan.init, 2 * i);
  }

  /** What is in the pipe is what the streams say comes next. */
  lemma NextChunk(all: Bytes, taken: Bytes, queue: Bytes, k: nat)
    requires taken + queue <= all && k <= |queue|
    ensures all[|taken|..][..k] == queue[..k]
    ensures all[|taken|..][k..] == all[|taken + queue[..k]|..]
    ensures taken + queue[..k] <= all
    ensures |queue| <= |all[|taken|..]|
  {
    assert queue == all[|taken|..|taken| + |queue|];
  }

  lemma OthersKeep<S>(plan: Plan<S>, net: Net<S>, net': Net<S>, fuels: seq<nat>, fuels': seq<nat>, i: nat)
    requires Flowing(plan, net, fuels) && Sized(plan, net') && |fuels'| == plan.N()
    requires |net'.sys.kids| == |net.sys.kids|
    requires i < plan.N()
    requires forall j :: 0 <= j < plan.N() && j != i ==>
               net'.procs[j] == net.procs[j] && fuels'[j] == fuels[j]
    requires forall j :: 0 <= j < plan.N() && j != i ==> Ended(net', j) == Ended(net, j)
    requires Ended(net, i) ==> Ended(net', i)
    requires StageOk(plan, net', fuels', i)
    ensures forall j :: 0 <= j < plan.N() ==> StageOk(plan, net', fuels', j)
  {
    forall j | 0 <= j < plan.N() ensures StageOk(plan, net', fuels', j) {
      assert StageOk(plan, net, fuels, j);
    }
  }

  lemma FlushKeeps<S>(plan: Plan<S>, net: Net<S>, fuels: seq<nat>, i: nat, k: nat)
    requires Flowing(plan, net, fuels) && CanAct(plan, net, i, k) && Between(plan, net, i) && i !in plan.dead
    requires net.procs[i].pending != [] && !Broken(net, Out(net, i))
    ensures Flowing(plan, StepAct(plan, net, i, k), fuels)
  {
    var net' := StepAct(plan, net, i, k);
    var p, p' := net.procs[i], net'.procs[i];
    assert StageOk(plan, net, fuels, i);
    assert p'.sent + p'.pending == p.sent + p.pending;
    assert StageOk(plan, net', fuels, i);
    OthersKeep(plan, net, net', fuels, fuels, i);
    LinkedKeeps(plan, net, net', i, net.procs[i].pending[..k]);
  }

  /** A step of command `i` moves bytes only between it and its two channels: `d` is what it adds. */
  lemma LinkedKeeps<S>(plan: Plan<S>, net: Net<S>, net': Net<S>, i: nat, d: Bytes)
    requires PlanOk(plan) && Sized(plan, net) && Sized(plan, net') && Linked(plan, net) && i < plan.N()
    requires forall j :: 0 <= j < plan.N() && j != i ==> net'.procs[j] == net.procs[j]
    requires forall j :: 0 <= j <= plan.N() && j != i && j != i + 1 ==> net'.chan[j] == net.chan[j]
    requires net'.procs[i].taken + net'.chan[i] == net.procs[i].taken + net.chan[i]
    requires net'.procs[i].sent == net.procs[i].sent + d && net'.chan[i + 1] == net.chan[i + 1] + d
    ensures Linked(plan, net')
  {
    forall j | 0 <= j <= plan.N() ensures LinkedAt(plan, net', j) {
      assert LinkedAt(plan, net, j);
      if j == i + 1 {
        assert j < plan.N() ==>
          net.procs[j].taken + (net.chan[j] + d) == net.procs[j].taken + net.chan[j] + d;
        assert j == plan.N() ==> [] + net'.chan[j] == net'.chan[j] && [] + net.chan[j] == net.chan[j];
      }
    }
  }

  lemma ExitKeeps<S>(plan: Plan<S>, net: Net<S>, fuels: seq<nat>, i: nat, killed: bool)
    requires Flowing(plan, net, fuels) && Between(plan, net, i) && i !in plan.dead
    requires if killed then Ended(net, i + 1)
             else net.procs[i].pending == [] && plan.progs[i](net.procs[i].state).Halt?
    ensures Flowing(plan, Exit(net, i, killed), fuels)
  {
    var net' := Exit(net, i, killed);
    assert StageOk(plan, net, fuels, i);
    assert StageOk(plan, net', fuels, i);
    OthersKeep(plan, net, net', fuels, fuels, i);
    LinkedKeeps(plan, net, net', i, []);
  }

  lemma StartWrite<S>(prog: S -> Action<S>, p: Proc<S>, input: Bytes, output: Bytes, fuel: nat)
    requires LiveOk(prog, p, input, output, fuel) && p.pending == [] && prog(p.state).Write?
    ensures var d := prog(p.state).data;
      |d| < fuel && LiveOk(prog, p.(state := prog(p.state).next, pending := d), input, output, fuel - |d| - 1)
  {
    var d := prog(p.state).data;
    assert p.sent + p.pending == p.sent;
    assert output[|p.sent|..][|d|..] == output[|p.sent + d|..];
  }

  lemma ReadData<S>(prog: S -> Action<S>, p: Proc<S>, input: Bytes, output: Bytes, fuel: nat, q: Bytes, k: nat)
    requires LiveOk(prog, p, input, output, fuel) && p.pending == [] && prog(p.state).Read?
    requires p.taken + q <= input && 1 <= k <= prog(p.state).max && k <= |q|
    ensures fuel > 0 && LiveOk(prog, p.(state := prog(p.state).onData(q[..k]), taken := p.taken + q[..k]),
                               input, output, fuel - 1)
  {
    NextChunk(input, p.taken, q, k);
    var rest := input[|p.taken|..];
    assert Computes(prog, prog(p.state).onData(rest[..k]), rest[k..], output[|p.sent + p.pending|..], fuel - 1);
  }

  lemma ReadEof<S>(prog: S -> Action<S>, p: Proc<S>, input: Bytes, output: Bytes, fuel: nat)
    requires LiveOk(prog, p, input, output, fuel) && p.pending == [] && prog(p.state).Read?
    requires p.taken == input
    ensures fuel > 0 && LiveOk(prog, p.(state := prog(p.state).onEof), input, output, fuel - 1)
  {
  }

  lemma WriteKeeps<S>(plan: Plan<S>, net: Net<S>, fuels: seq<nat>, i: nat, k: nat)
    requires Flowing(plan, net, fuels) && CanAct(plan, net, i, k) && Between(plan, net, i) && i !in plan.dead
    requires net.procs[i].pending == [] && plan.progs[i](net.procs[i].state).Write?
    ensures var spent := |plan.progs[i](net.procs[i].state).data| + 1;
      spent <= fuels[i] && Flowing(plan, StepAct(plan, net, i, k), Burn(fuels, i, spent))
  {
    var net' := StepAct(plan, net, i, k);
    assert StageOk(plan, net, fuels, i);
    StartWrite(plan.progs[i], net.procs[i], plan.streams[i], plan.streams[i + 1], fuels[i]);
    var fuels' := Burn(fuels, i, |plan.progs[i](net.procs[i].state).data| + 1);
    assert StageOk(plan, net', fuels', i);
    OthersKeep(plan, net, net', fuels, fuels', i);
    LinkedKeeps(plan, net, net', i, []);
  }

  lemma ReadKeeps<S>(plan: Plan<S>, net: Net<S>, fuels: seq<nat>, i: nat, k: nat)
    requires Flowing(plan, net, fuels) && CanAct(plan, net, i, k) && Between(plan, net, i) && i !in plan.dead
    requires net.procs[i].pending == [] && plan.progs[i](net.procs[i].state).Read?
    requires net.chan[i] == [] && i > 0 ==> Ended(net, i - 1)
    ensures fuels[i] > 0 && Flowing(plan, StepAct(plan, net, i, k), Burn(fuels, i, 1))
  {
    var net' := StepAct(plan, net, i, k);
    var p := net.procs[i];
    assert StageOk(plan, net, fuels, i);
    assert LinkedAt(plan, net, i);
    SentIsPrefix(plan, net, fuels, i);
    if net.chan[i] != [] {
      ReadData(plan.progs[i], p, plan.streams[i], plan.streams[i + 1], fuels[i], net.chan[i], k);
      assert net.chan[i][..k] + net.chan[i][k..] == net.chan[i];
    } else {
      EofMeansAllRead(plan, net, fuels, i);
      ReadEof(plan.progs[i], p, plan.streams[i], plan.streams[i + 1], fuels[i]);
    }
    var fuels' := Burn(fuels, i, 1);
    assert StageOk(plan, net', fuels', i);
    OthersKeep(plan, net, net', fuels, fuels', i);
    LinkedKeeps(plan, net, net', i, []);
  }

  /** A child exits during set-up only if it is one of the dead. */
  lemma SetupEnds<S>(plan: Plan<S>, s: Sys, ev: SetupEvent, j: nat)
    requires Inv(s, plan.init) && NoErrors(s) && CanStep(s, ev) && !ev.ChildExits? && Follows(plan, Setup(ev))
    ensures var s' := PipelineSetup.Step(s, ev);
      && NoErrors(s')
      && (j < |s.kids| && s.kids[j].pc.Exited? ==> j < |s'.kids| && s'.kids[j].pc.Exited?)
      && (j < |s'.kids| && s'.kids[j].pc.Exited? ==> (j < |s.kids| && s.kids[j].pc.Exited?) || j in plan.dead)
  {
    if ev.ChildStep? { assert KidOk(s, plan.init, ev.i); }
  }

  lemma SetupFlows<S>(plan: Plan<S>, net: Net<S>, fuels: seq<nat>, sys': Sys)
    requires Flowing(plan, net, fuels) && sys'.n == net.sys.n && |sys'.kids| <= plan.N()
    requires forall j: nat :: Ended(net, j) ==> Ended(net.(sys := sys'), j)
    requires forall j: nat :: Ended(net.(sys := sys'), j) ==> Ended(net, j) || j in plan.dead
    ensures Flowing(plan, net.(sys := sys'), fuels)
  {
    var net' := net.(sys := sys');
    forall j | 0 <= j < plan.N() ensures StageOk(plan, net', fuels, j) {
      assert StageOk(plan, net, fuels, j);
    }
    forall j | 0 <= j <= plan.N() ensures LinkedAt(plan, net', j) {
      assert LinkedAt(plan, net, j);
    }
  }

  lemma SetupStepKeeps<S>(plan: Plan<S>, net: Net<S>, fuels: seq<nat>, ev: SetupEvent)
    requires NetInv(plan, net, fuels) && CanStepNet(plan, net, Setup(ev)) && Follows(plan, Setup(ev))
    ensures NetInv(plan, StepNet(plan, net, Setup(ev)), fuels)
  {
    var sys' := PipelineSetup.Step(net.sys, ev);
    StepKeeps(net.sys, plan.init, ev);
    forall j: nat
      ensures Ended(net, j) ==> Ended(net.(sys := sys'), j)
      ensures Ended(net.(sys := sys'), j) ==> Ended(net, j) || j in plan.dead
    {
      SetupEnds(plan, net.sys, ev, j);
    }
    SetupFlows(plan, net, fuels, sys');
    SetupEnds(plan, net.sys, ev, 0);
  }

  lemma ActFlows<S>(plan: Plan<S>, net: Net<S>, fuels: seq<nat>, i: nat, k: nat)
    requires NetInv(plan, net, fuels) && CanAct(plan, net, i, k) && i !in plan.dead
    ensures Flowing(plan, StepAct(plan, net, i, k), FuelAfter(plan, net, fuels, i))
  {
    RunningWired(plan, net, i);
    var p := net.procs[i];
    if p.pending != [] {
      if Broken(net, i + 1) {
        BrokenMeansReaderGone(plan, net, i);
        ExitKeeps(plan, net, fuels, i, true);
      } else {
        FlushKeeps(plan, net, fuels, i, k);
      }
    } else {
      match plan.progs[i](p.state)
      case Halt => ExitKeeps(plan, net, fuels, i, false);
      case Write(d, _) => WriteKeeps(plan, net, fuels, i, k);
      case Read(_, _, _) =>
        if net.chan[i] == [] { EofMeansWriterGone(plan, net, i); }
        ReadKeeps(plan, net, fuels, i, k);
    }
  }

  /** A command that computes its stream can always pay for its next step. */
  lemma FlowPays<S>(plan: Plan<S>, net: Net<S>, fuels: seq<nat>, i: nat)
    requires NetInv(plan, net, fuels) && i < |net.sys.kids| && net.sys.kids[i].pc.Running? && i !in plan.dead
    ensures CanPay(plan, net, fuels, i)
  {
    assert StageOk(plan, net, fuels, i) && LinkedAt(plan, net, i);
    SentIsPrefix(plan, net, fuels, i);
    if net.procs[i].pending == [] { NextChunk(plan.streams[i], net.procs[i].taken, net.chan[i], 0); }
  }

  lemma ActKeepsSetup<S>(plan: Plan<S>, net: Net<S>, i: nat, k: nat)
    requires Inv(net.sys, plan.init) && NoErrors(net.sys) && CanAct(plan, net, i, k)
    ensures Inv(StepAct(plan, net, i, k).sys, plan.init) && NoErrors(StepAct(plan, net, i, k).sys)
  {
    StepKeeps(net.sys, plan.init, ChildExits(i));
  }

  lemma NetStepKeeps<S>(plan: Plan<S>, net: Net<S>, fuels: seq<nat>, e: Event) returns (fuels': seq<nat>)
    requires NetInv(plan, net, fuels) && CanStepNet(plan, net, e) && Follows(plan, e)
    ensures NetInv(plan, StepNet(plan, net, e), fuels')
    ensures Cost(StepNet(plan, net, e), fuels', plan.N()) < Cost(net, fuels, plan.N())
  {
    match e
    case Setup(ev) =>
      SetupStepKeeps(plan, net, fuels, ev);
      SetupCosts(plan, net, fuels, ev);
      fuels' := fuels;
    case Act(i, k) =>
      fuels' := FuelAfter(plan, net, fuels, i);
      RunningWired(plan, net, i);
      FlowPays(plan, net, fuels, i);
      ActFlows(plan, net, fuels, i, k);
      ActCosts(plan, net, fuels, i, k);
      ActKeepsSetup(plan, net, i, k);
  }

  ghost predicate AllFollow<S>(plan: Plan<S>, es: seq<Event>) {
    forall e :: e in es ==> Follows(plan, e)
  }

  lemma {:induction false} ScheduleKeeps<S>(plan: Plan<S>, net: Net<S>, fuels: seq<nat>, es: seq<Event>)
    returns (fuels': seq<nat>)
    requires NetInv(plan, net, fuels) && Schedule(plan, net, es) && AllFollow(plan, es)
    ensures NetInv(plan, Outcome(plan, net, es), fuels')
    ensures |es| + Cost(Outcome(plan, net, es), fuels', plan.N()) <= Cost(net, fuels, plan.N())
    decreases |es|
  {
    if es == [] {
      fuels' := fuels;
    } else {
      assert es[0] in es && forall e :: e in es[1..] ==> e in es;
      var mid := NetStepKeeps(plan, net, fuels, es[0]);
      fuels' := ScheduleKeeps(plan, StepNet(plan, net, es[0]), mid, es[1..]);
    }
  }

  // ----- Children whose dup2 fails -----

  /** The children whose `dup2` fails in a schedule. */
  function DupFailures(es: seq<Event>): set<nat> {
    if es == [] then {}
    else (if es[0].Setup? && es[0].ev.ChildStep? && !es[0].ev.ok then {es[0].ev.i} else {}) + DupFailures(es[1..])
  }

  /** No `pipe` or `fork` fails and no child times out. */
  predicate Unhindered(es: seq<Event>) {
    forall e :: e in es && e.Setup? ==> !e.ev.PipeFails? && !e.ev.ForkFails? && !e.ev.TimesOut?
  }

  /** Child `i` runs or has run: nothing of its set-up is left to fail. */
  predicate PastSetup<S>(net: Net<S>, i: nat) {
    i < |net.sys.kids| && (net.sys.kids[i].pc.Running? || net.sys.kids[i].pc.Exited?)
  }

  lemma PastStays<S>(plan: Plan<S>, net: Net<S>, e: Event, i: nat)
    requires CanStepNet(plan, net, e)
    ensures PastSetup(net, i) ==> PastSetup(StepNet(plan, net, e), i)
    ensures Ended(net, i) ==> Ended(StepNet(plan, net, e), i)
  {
  }

  lemma {:induction false} PastHasNoFailure<S>(plan: Plan<S>, net: Net<S>, es: seq<Event>, i: nat)
    requires Schedule(plan, net, es) && PastSetup(net, i)
    ensures i !in DupFailures(es)
    decreases |es|
  {
    if es != [] {
      PastStays(plan, net, es[0], i);
      PastHasNoFailure(plan, StepNet(plan, net, es[0]), es[1..], i);
    }
  }

  lemma {:induction false} EndedNeverActs<S>(plan: Plan<S>, net: Net<S>, es: seq<Event>, i: nat, k: nat)
    requires Schedule(plan, net, es) && Ended(net, i)
    ensures Act(i, k) !in es
    decreases |es|
  {
    if es != [] {
      PastStays(plan, net, es[0], i);
      EndedNeverActs(plan, StepNet(plan, net, es[0]), es[1..], i, k);
      assert es == [es[0]] + es[1..];
    }
  }

  /** A child whose `dup2` fails never gets to run its command... */
  lemma {:induction false} FailedNeverActs<S>(plan: Plan<S>, net: Net<S>, es: seq<Event>, i: nat, k: nat)
    requires Schedule(plan, net, es) && i in DupFailures(es)
    ensures Act(i, k) !in es
    decreases |es|
  {
    assert es == [es[0]] + es[1..];
    var next := StepNet(plan, net, es[0]);
    if i in DupFailures(es[1..]) {
      FailedNeverActs(plan, next, es[1..], i, k);
      if es[0] == Act(i, k) {
        PastHasNoFailure(plan, net, es, i);
      }
    } else {
      assert Ended(next, i);
      EndedNeverActs(plan, next, es[1..], i, k);
    }
  }

  lemma {:induction false} EndedStays<S>(plan: Plan<S>, net: Net<S>, es: seq<Event>, i: nat)
    requires Schedule(plan, net, es) && Ended(net, i)
    ensures Ended(Outcome(plan, net, es), i)
    decreases |es|
  {
    if es != [] {
      PastStays(plan, net, es[0], i);
      EndedStays(plan, StepNet(plan, net, es[0]), es[1..], i);
    }
  }

  /** ...and has exited in the end. */
  lemma {:induction false} FailedHasEnded<S>(plan: Plan<S>, net: Net<S>, es: seq<Event>, i: nat)
    requires Schedule(plan, net, es) && i in DupFailures(es)
    ensures Ended(Outcome(plan, net, es), i)
    decreases |es|
  {
    var next := StepNet(plan, net, es[0]);
    if i in DupFailures(es[1..]) {
      FailedHasEnded(plan, next, es[1..], i);
    } else {
      assert Ended(next, i);
      EndedStays(plan, next, es[1..], i);
    }
  }

  lemma {:induction false} FailuresCollected(es: seq<Event>, e: Event)
    requires e in es && e.Setup? && e.ev.ChildStep? && !e.ev.ok
    ensures e.ev.i in DupFailures(es)
  {
    if e != es[0] { FailuresCollected(es[1..], e); }
  }

  lemma FailuresFollow<S>(plan: Plan<S>, es: seq<Event>)
    requires PlanOk(plan) && Schedule(plan, Initial(plan), es)
    requires Unhindered(es) && plan.dead == DupFailures(es)
    ensures AllFollow(plan, es)
  {
    forall e | e in es ensures Follows(plan, e) {
      if e.Act? && e.i in plan.dead {
        FailedNeverActs(plan, Initial(plan), es, e.i, e.k);
      } else if e.Setup? && e.ev.ChildStep? && !e.ev.ok {
        FailuresCollected(es, e);
      }
    }
  }

  // ----- The theorems -----

  lemma OutputSoFar<S>(plan: Plan<S>, net: Net<S>, fuels: seq<nat>)
    requires NetInv(plan, net, fuels)
    ensures net.chan[plan.N()] <= plan.streams[plan.N()]
    ensures Completed(net) ==> net.chan[plan.N()] == plan.streams[plan.N()] && net.sys.parent == plan.init
  {
    var n := plan.N();
    SentIsPrefix(plan, net, fuels, n);
    assert LinkedAt(plan, net, n);
    assert StageOk(plan, net, fuels, n - 1);
    assert !Ended(net, n);
  }

  /** A pipeline computes the composition of its commands, whatever the interleaving, the chunking and
      the capacity of the pipes: at any moment standard output has received a prefix of the stream the
      last command makes of what the one before makes, and so on back to standard input; when all is
      over it has received all of it, and the shell has the descriptor table it had. A child whose
      `dup2` fails counts as a command that reads and writes nothing. */
  lemma PipelineComputesComposition<S>(plan: Plan<S>, fuels: seq<nat>, es: seq<Event>)
    requires PlanOk(plan) && StagesCompute(plan, fuels)
    requires Schedule(plan, Initial(plan), es)
    requires Unhindered(es) && plan.dead == DupFailures(es)
    ensures var net := Outcome(plan, Initial(plan), es);
      && Sized(plan, net)
      && net.chan[plan.N()] <= plan.streams[plan.N()]
      && (Completed(net) ==>
            net.chan[plan.N()] == plan.streams[plan.N()] && net.sys.parent == plan.init)
  {
    FailuresFollow(plan, es);
    InitialInv(plan, fuels);
    var fuels' := ScheduleKeeps(plan, Initial(plan), fuels, es);
    OutputSoFar(plan, Outcome(plan, Initial(plan), es), fuels');
  }

  lemma FlowIsSound<S>(plan: Plan<S>, net: Net<S>, fuels: seq<nat>)
    requires NetInv(plan, net, fuels) && forall i :: i in plan.dead ==> Ended(net, i)
    ensures Sound(plan, net, fuels)
  {
    forall i | 0 <= i < |net.sys.kids| && net.sys.kids[i].pc.Running? ensures CanPay(plan, net, fuels, i) {
      FlowPays(plan, net, fuels, i);
    }
  }

  /** For commands that halt on the input they get, if not on every other, a schedule in which at most
      `dup2`s fail is no longer than a bound known in advance... */
  lemma SchedulesAreBounded<S>(plan: Plan<S>, fuels: seq<nat>, es: seq<Event>)
    requires PlanOk(plan) && StagesCompute(plan, fuels)
    requires Schedule(plan, Initial(plan), es)
    requires Unhindered(es) && plan.dead == DupFailures(es)
    ensures |es| <= Bound(plan, fuels)
  {
    FailuresFollow(plan, es);
    InitialInv(plan, fuels);
    var fuels' := ScheduleKeeps(plan, Initial(plan), fuels, es);
  }

  /** ...and does not get stuck before everything has exited. */
  lemma NoDeadlock<S>(plan: Plan<S>, fuels: seq<nat>, es: seq<Event>)
    requires PlanOk(plan) && StagesCompute(plan, fuels)
    requires Schedule(plan, Initial(plan), es)
    requires Unhindered(es) && plan.dead == DupFailures(es)
    ensures var net := Outcome(plan, Initial(plan), es);
      Completed(net) || exists e :: CanStepNet(plan, net, e) && Succeeds(e)
  {
    FailuresFollow(plan, es);
    InitialInv(plan, fuels);
    var fuels' := ScheduleKeeps(plan, Initial(plan), fuels, es);
    var net := Outcome(plan, Initial(plan), es);
    forall i | i in plan.dead ensures Ended(net, i) {
      FailedHasEnded(plan, Initial(plan), es, i);
    }
    FlowIsSound(plan, net, fuels');
    if !Completed(net) {
      var e := CanAlwaysStep(plan, net, fuels');
    }
  }

  /** From any state that can be reached without failures there is a way to completion without any. */
  lemma {:induction false} FinishFrom<S>(plan: Plan<S>, net: Net<S>, fuels: seq<nat>) returns (es: seq<Event>)
    requires NetInv(plan, net, fuels) && plan.dead == {}
    ensures Schedule(plan, net, es) && Completed(Outcome(plan, net, es))
    ensures forall e :: e in es ==> Succeeds(e)
    decreases Cost(net, fuels, plan.N())
  {
    if Completed(net) {
      es := [];
    } else {
      FlowIsSound(plan, net, fuels);
      var e := CanAlwaysStep(plan, net, fuels);
      var fuels' := NetStepKeeps(plan, net, fuels, e);
      var rest := FinishFrom(plan, StepNet(plan, net, e), fuels');
      es := [e] + rest;
      assert es[1..] == rest;
    }
  }

  lemma PipelineCanComplete<S>(plan: Plan<S>, fuels: seq<nat>)
    requires PlanOk(plan) && StagesCompute(plan, fuels) && plan.dead == {}
    ensures exists es :: Schedule(plan, Initial(plan), es) && Completed(Outcome(plan, Initial(plan), es))
                         && forall e :: e in es ==> Succeeds(e)
  {
    InitialInv(plan, fuels);
    var es := FinishFrom(plan, Initial(plan), fuels);
  }

  /** So any two completed schedules of one pipeline in which the same children fail print the same. */
  lemma SchedulesAgree<S>(plan: Plan<S>, fuels: seq<nat>, es1: seq<Event>, es2: seq<Event>)
    requires PlanOk(plan) && StagesCompute(plan, fuels)
    requires Unhindered(es1) && Unhindered(es2) && plan.dead == DupFailures(es1) == DupFailures(es2)
    requires Schedule(plan, Initial(plan), es1) && Completed(Outcome(plan, Initial(plan), es1))
    requires Schedule(plan, Initial(plan), es2) && Completed(Outcome(plan, Initial(plan), es2))
    ensures |Outcome(plan, Initial(plan), es1).chan| == |Outcome(plan, Initial(plan), es2).chan| == plan.N() + 1
    ensures Outcome(plan, Initial(plan), es1).chan[plan.N()]
         == Outcome(plan, Initial(plan), es2).chan[plan.N()]
  {
    PipelineComputesComposition(plan, fuels, es1);
    PipelineComputesComposition(plan, fuels, es2);
  }
}
