/** Commands at work in a pipeline. Every child that has been wired runs its command, a deterministic
    program that reads descriptor 0 and writes descriptor 1; pipes are bounded queues; `read` may return
    any non-empty part of what is there and `write` may move any part of its data, as POSIX allows.
    Set-up calls, failing or not, command steps and timeouts of all processes interleave freely. */
module PipelineFlow {
  import opened Descriptors
  import opened PipelineSetup

  type Bytes = seq<char>

  datatype Action<S> =
    | Read(max: nat, onData: Bytes -> S, onEof: S)
    | Write(data: Bytes, next: S)
    | Halt

  /** A running command: its state, what its current `write` has still to move, and, as bookkeeping,
      what it has read and written so far and whether SIGPIPE ended it. */
  datatype Proc<S> = Proc(state: S, pending: Bytes, taken: Bytes, sent: Bytes, killed: bool)

  /** `chan[0]` is the shell's standard input, `chan[p + 1]` the content of pipe p, and `chan[n]` what
      has reached the shell's standard output. */
  datatype Net<S> = Net(sys: Sys, procs: seq<Proc<S>>, chan: seq<Bytes>)

  datatype Event = Setup(ev: SetupEvent) | Act(i: nat, k: nat)

  /** The commands with their initial states and the capacity of a pipe; and what the theorem about
      their output needs: `streams[i]` enters command i and `streams[i + 1]` is what it makes of it,
      nothing if it is one of the `dead`, the children whose `dup2` fails. */
  datatype Plan<!S> = Plan(
    init: Table, progs: seq<S -> Action<S>>, start: seq<S>, cap: nat, streams: seq<Bytes>, dead: set<nat>)
  {
    function N(): nat { |progs| }
  }

  ghost predicate PlanOk<S>(plan: Plan<S>) {
    && plan.N() >= 2 && plan.cap >= 1 && ShellTable(plan.init)
    && |plan.start| == plan.N() && |plan.streams| == plan.N() + 1
  }

  function Initial<S>(plan: Plan<S>): Net<S>
    requires |plan.start| == plan.N() && |plan.streams| == plan.N() + 1
  {
    Net(Start(plan.init, plan.N()),
        seq(plan.N(), i requires 0 <= i < plan.N() => Proc(plan.start[i], [], [], [], false)),
        seq(plan.N() + 1, i => if i == 0 then plan.streams[0] else []))
  }

  // ----- Steps -----

  function InChan(f: File): nat {
    if f.ReadEnd? then f.pipe + 1 else 0
  }

  function OutChan(n: nat, f: File): nat {
    if f.WriteEnd? then f.pipe + 1 else n
  }

  ghost predicate Sized<S>(plan: Plan<S>, net: Net<S>) {
    net.sys.n == |net.procs| == plan.N() && |net.chan| == plan.N() + 1
  }

  ghost predicate CanRun<S>(plan: Plan<S>, net: Net<S>, i: nat) {
    && Sized(plan, net)
    && i < |net.sys.kids| && i < plan.N() && net.sys.kids[i].pc.Running?
    && var t := net.sys.kids[i].table;
       && STDIN in t && STDOUT in t
       && InChan(t[STDIN]) <= plan.N() && OutChan(plan.N(), t[STDOUT]) <= plan.N()
  }

  function In<S>(net: Net<S>, i: nat): nat
    requires i < |net.sys.kids| && STDIN in net.sys.kids[i].table
  {
    InChan(net.sys.kids[i].table[STDIN])
  }

  function Out<S>(net: Net<S>, i: nat): nat
    requires i < |net.sys.kids| && STDOUT in net.sys.kids[i].table
  {
    OutChan(net.sys.n, net.sys.kids[i].table[STDOUT])
  }

  /** The queue is drained and nobody can write to it any more. */
  ghost predicate AtEof<S>(net: Net<S>, c: nat)
    requires c < |net.chan|
  {
    net.chan[c] == [] && (c == 0 || Unheld(net.sys, WriteEnd(c - 1)))
  }

  /** A write here would raise SIGPIPE. */
  ghost predicate Broken<S>(net: Net<S>, c: nat) {
    0 < c < net.sys.n && Unheld(net.sys, ReadEnd(c - 1))
  }

  ghost predicate CanAct<S>(plan: Plan<S>, net: Net<S>, i: nat, k: nat) {
    && CanRun(plan, net, i)
    && var p := net.procs[i];
       var inp, out := In(net, i), Out(net, i);
       if p.pending != [] then
         || Broken(net, out)
         || (1 <= k <= |p.pending| && (out < plan.N() ==> |net.chan[out]| + k <= plan.cap))
       else
         match plan.progs[i](p.state)
         case Halt => true
         case Write(_, _) => true
         case Read(max, _, _) =>
           if net.chan[inp] != [] then 1 <= k <= max && k <= |net.chan[inp]| else AtEof(net, inp)
  }

  function Exit<S>(net: Net<S>, i: nat, killed: bool): Net<S>
    requires CanStep(net.sys, ChildExits(i)) && i < |net.procs|
  {
    net.(sys := PipelineSetup.Step(net.sys, ChildExits(i)), procs := net.procs[i := net.procs[i].(killed := killed)])
  }

  ghost function StepAct<S>(plan: Plan<S>, net: Net<S>, i: nat, k: nat): Net<S>
    requires net.sys.n >= 2 && CanAct(plan, net, i, k)
  {
    var p := net.procs[i];
    var inp, out := In(net, i), Out(net, i);
    if p.pending != [] then
      if Broken(net, out) then Exit(net, i, true)
      else
        net.(procs := net.procs[i := p.(pending := p.pending[k..], sent := p.sent + p.pending[..k])],
             chan := net.chan[out := net.chan[out] + p.pending[..k]])
    else
      match plan.progs[i](p.state)
      case Halt => Exit(net, i, false)
      case Write(d, next) => net.(procs := net.procs[i := p.(state := next, pending := d)])
      case Read(_, onData, onEof) =>
        var q := net.chan[inp];
        if q != [] then
          net.(procs := net.procs[i := p.(state := onData(q[..k]), taken := p.taken + q[..k])],
               chan := net.chan[inp := q[k..]])
        else
          net.(procs := net.procs[i := p.(state := onEof)])
  }

  /** Children exit through their commands, or because a `dup2` failed or the shell lost patience. */
  ghost predicate CanStepNet<S>(plan: Plan<S>, net: Net<S>, e: Event) {
    net.sys.n >= 2 &&
    match e
    case Setup(ev) => !ev.ChildExits? && CanStep(net.sys, ev)
    case Act(i, k) => CanAct(plan, net, i, k)
  }

  ghost function StepNet<S>(plan: Plan<S>, net: Net<S>, e: Event): Net<S>
    requires CanStepNet(plan, net, e)
  {
    match e
    case Setup(ev) => net.(sys := PipelineSetup.Step(net.sys, ev))
    case Act(i, k) => StepAct(plan, net, i, k)
  }

  ghost predicate Schedule<S>(plan: Plan<S>, net: Net<S>, es: seq<Event>)
    decreases |es|
  {
    es == [] || (CanStepNet(plan, net, es[0]) && Schedule(plan, StepNet(plan, net, es[0]), es[1..]))
  }

  ghost function Outcome<S>(plan: Plan<S>, net: Net<S>, es: seq<Event>): Net<S>
    requires Schedule(plan, net, es)
    decreases |es|
  {
    if es == [] then net else Outcome(plan, StepNet(plan, net, es[0]), es[1..])
  }

  /** The shell is done with set-up and every child has exited. */
  predicate Completed<S>(net: Net<S>) {
    net.sys.ppc.Returned? && forall i :: 0 <= i < |net.sys.kids| ==> net.sys.kids[i].pc.Exited?
  }

  predicate Ended<S>(net: Net<S>, i: nat) {
    i < |net.sys.kids| && net.sys.kids[i].pc.Exited?
  }

  /** Child `i` runs between its own two channels. */
  ghost predicate Between<S>(plan: Plan<S>, net: Net<S>, i: nat) {
    CanRun(plan, net, i) && In(net, i) == i && Out(net, i) == i + 1
  }

  lemma RunningWired<S>(plan: Plan<S>, net: Net<S>, i: nat)
    requires Inv(net.sys, plan.init) && Sized(plan, net)
    requires i < |net.sys.kids| && net.sys.kids[i].pc.Running?
    ensures Between(plan, net, i)
  {
    assert KidOk(net.sys, plan.init, i);
  }

  /** The descriptors are wired as `PipelineSetup` says. */
  ghost predicate WiredUp<S>(plan: Plan<S>, net: Net<S>) {
    PlanOk(plan) && Sized(plan, net) && Inv(net.sys, plan.init)
  }

  lemma StepWiredUp<S>(plan: Plan<S>, net: Net<S>, e: Event)
    requires WiredUp(plan, net) && CanStepNet(plan, net, e)
    ensures WiredUp(plan, StepNet(plan, net, e))
  {
    match e
    case Setup(ev) => StepKeeps(net.sys, plan.init, ev);
    case Act(i, _) => StepKeeps(net.sys, plan.init, ChildExits(i));
  }

  // ----- Capacity -----

  /** No pipe holds more than it can. */
  ghost predicate WithinCapacity<S>(plan: Plan<S>, net: Net<S>) {
    WiredUp(plan, net) && forall c :: 0 < c < plan.N() ==> |net.chan[c]| <= plan.cap
  }

  lemma StepWithinCapacity<S>(plan: Plan<S>, net: Net<S>, e: Event)
    requires WithinCapacity(plan, net) && CanStepNet(plan, net, e)
    ensures WithinCapacity(plan, StepNet(plan, net, e))
  {
    StepWiredUp(plan, net, e);
    if e.Act? { RunningWired(plan, net, e.i); }
  }

  lemma {:induction false} PipesStayWithinCapacity<S>(plan: Plan<S>, net: Net<S>, es: seq<Event>)
    requires WithinCapacity(plan, net) && Schedule(plan, net, es)
    ensures WithinCapacity(plan, Outcome(plan, net, es))
    decreases |es|
  {
    if es != [] {
      StepWithinCapacity(plan, net, es[0]);
      PipesStayWithinCapacity(plan, StepNet(plan, net, es[0]), es[1..]);
    }
  }

  // ----- Failed set-up -----

  /** The last command is the only one that writes where the shell's output goes. */
  ghost predicate Quiet<S>(plan: Plan<S>, net: Net<S>) {
    WiredUp(plan, net) && (|net.sys.kids| < plan.N() ==> net.chan[plan.N()] == [])
  }

  lemma StepQuiet<S>(plan: Plan<S>, net: Net<S>, e: Event)
    requires Quiet(plan, net) && CanStepNet(plan, net, e)
    ensures Quiet(plan, StepNet(plan, net, e))
  {
    StepWiredUp(plan, net, e);
    if e.Act? { RunningWired(plan, net, e.i); }
  }

  lemma {:induction false} ScheduleQuiet<S>(plan: Plan<S>, net: Net<S>, es: seq<Event>)
    requires Quiet(plan, net) && Schedule(plan, net, es)
    ensures Quiet(plan, Outcome(plan, net, es))
    decreases |es|
  {
    if es != [] {
      StepQuiet(plan, net, es[0]);
      ScheduleQuiet(plan, StepNet(plan, net, es[0]), es[1..]);
    }
  }

  predicate SetupFailed(ppc: ParentPc) {
    (ppc.ParentClosing? && !ppc.ok) || ppc.Killing? || ppc == Returned(false)
  }

  /** When a `pipe` or `fork` has failed, nothing has been printed and nothing will be. */
  lemma FailedSetupPrintsNothing<S>(plan: Plan<S>, es: seq<Event>, net: Net<S>)
    requires PlanOk(plan) && Schedule(plan, Initial(plan), es) && net == Outcome(plan, Initial(plan), es)
    requires SetupFailed(net.sys.ppc)
    ensures Sized(plan, net) && net.chan[plan.N()] == []
  {
    ScheduleQuiet(plan, Initial(plan), es);
  }
}
