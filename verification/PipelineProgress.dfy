/** Every run of a pipeline comes to an end, and none gets stuck on the way, whatever fails. */
module PipelineProgress {
  import opened Descriptors
  import opened PipelineSetup
  import opened PipelineFlow

  // ----- A bound on every schedule -----

  function ParentCost(s: Sys): nat {
    match s.ppc
    case Building => (if |s.fds| < Slots(s.n + 1) then Slots(s.n + 1) - |s.fds| else 0)
                     + (if |s.kids| < s.n then s.n - |s.kids| else 0) + Slots(s.n + 1) + s.n + 4
    case ParentClosing(k, ok) =>
      (if k < |s.fds| then |s.fds| - k else 0) + (if ok then 1 else |s.kids| + 3)
    case Killing(k) => (if k < |s.kids| then |s.kids| - k else 0) + 1
    case Returned(_) => 0
  }

  function ChildCost(pc: ChildPc, slots: nat, work: nat): nat {
    match pc
    case RedirectIn => work + slots + 3
    case RedirectOut => work + slots + 2
    case ChildClosing(k) => work + (if k < slots then slots - k else 0) + 1
    case Running => work
    case Exited => 0
  }

  /** A child not yet forked will start at the beginning. */
  function PcOf(s: Sys, i: nat): ChildPc {
    if i < |s.kids| then s.kids[i].pc else RedirectIn
  }

  function KidCost<S>(net: Net<S>, fuels: seq<nat>, i: nat): nat
    requires i < |net.procs| == |fuels|
  {
    ChildCost(PcOf(net.sys, i), Slots(net.sys.n + 1), 1 + |net.procs[i].pending| + fuels[i])
  }

  function Cost<S>(net: Net<S>, fuels: seq<nat>, upTo: nat): nat
    requires upTo <= |net.procs| == |fuels|
  {
    if upTo == 0 then ParentCost(net.sys) else Cost(net, fuels, upTo - 1) + KidCost(net, fuels, upTo - 1)
  }

  lemma {:induction false} CostDrops<S>(
      a: Net<S>, fa: seq<nat>, b: Net<S>, fb: seq<nat>, upTo: nat, i: int)
    requires upTo <= |a.procs| == |fa| == |b.procs| == |fb|
    requires ParentCost(b.sys) <= ParentCost(a.sys)
    requires forall j :: 0 <= j < upTo ==> KidCost(b, fb, j) <= KidCost(a, fa, j)
    requires 0 <= i < upTo ==> KidCost(b, fb, i) < KidCost(a, fa, i)
    ensures Cost(b, fb, upTo) <= Cost(a, fa, upTo)
    ensures 0 <= i < upTo || ParentCost(b.sys) < ParentCost(a.sys) ==> Cost(b, fb, upTo) < Cost(a, fa, upTo)
  {
    if upTo > 0 { CostDrops(a, fa, b, fb, upTo - 1, i); }
  }

  lemma ChildStepCosts(s: Sys, i: nat, ok: bool, work: nat)
    requires CanStep(s, ChildStep(i, ok)) && work > 0
    ensures ChildCost(StepChild(s, i, ok).pc, Slots(s.n + 1), work) < ChildCost(s.kids[i].pc, Slots(s.n + 1), work)
  {
  }

  lemma PcAfter(s: Sys, ev: SetupEvent, j: nat)
    requires CanStep(s, ev)
    ensures var pc, pc' := PcOf(s, j), PcOf(PipelineSetup.Step(s, ev), j);
      if j != Mover(ev) then pc' == pc || pc' == Exited
      else if ev.ChildStep? then pc' == StepChild(s, j, ev.ok).pc
      else pc' == Exited && pc != Exited
    ensures PipelineSetup.Step(s, ev).n == s.n
  {
  }

  lemma SetupKidCosts<S>(net: Net<S>, fuels: seq<nat>, ev: SetupEvent, j: nat)
    requires j < |fuels| == |net.procs| && CanStep(net.sys, ev)
    ensures var net' := net.(sys := PipelineSetup.Step(net.sys, ev));
      && KidCost(net', fuels, j) <= KidCost(net, fuels, j)
      && (j == Mover(ev) ==> KidCost(net', fuels, j) < KidCost(net, fuels, j))
  {
    PcAfter(net.sys, ev, j);
    if ev.ChildStep? { ChildStepCosts(net.sys, ev.i, ev.ok, 1 + |net.procs[j].pending| + fuels[j]); }
  }

  /** The child a set-up event is about, or none. */
  function Mover(ev: SetupEvent): int {
    match ev
    case ChildStep(i, _) => i
    case ChildExits(i) => i
    case TimesOut(i) => i
    case _ => -1
  }

  lemma SetupParentCosts(s: Sys, init: Table, ev: SetupEvent)
    requires Inv(s, init) && CanStep(s, ev)
    ensures var s' := PipelineSetup.Step(s, ev);
      if Mover(ev) == -1 then ParentCost(s') < ParentCost(s) else ParentCost(s') == ParentCost(s)
  {
  }

  lemma SetupCosts<S>(plan: Plan<S>, net: Net<S>, fuels: seq<nat>, ev: SetupEvent)
    requires WiredUp(plan, net) && |fuels| == plan.N() && CanStep(net.sys, ev)
    ensures Cost(net.(sys := PipelineSetup.Step(net.sys, ev)), fuels, plan.N()) < Cost(net, fuels, plan.N())
  {
    var net' := net.(sys := PipelineSetup.Step(net.sys, ev));
    forall j | 0 <= j < plan.N()
      ensures KidCost(net', fuels, j) <= KidCost(net, fuels, j)
      ensures j == Mover(ev) ==> KidCost(net', fuels, j) < KidCost(net, fuels, j)
    {
      SetupKidCosts(net, fuels, ev, j);
    }
    SetupParentCosts(net.sys, plan.init, ev);
    CostDrops(net, fuels, net', fuels, plan.N(), Mover(ev));
  }

  /** A step of command `i` other than an exit or a transfer uses up some of its fuel. */
  function Burn(fuels: seq<nat>, i: nat, spent: nat): seq<nat>
    requires i < |fuels| && spent <= fuels[i]
  {
    fuels[i := fuels[i] - spent]
  }

  /** Fuel left after the step `e` of command `i`. */
  ghost function FuelAfter<S>(plan: Plan<S>, net: Net<S>, fuels: seq<nat>, i: nat): seq<nat>
    requires i < |fuels| == |plan.progs| == |net.procs|
  {
    if net.procs[i].pending != [] then fuels
    else
      match plan.progs[i](net.procs[i].state)
      case Halt => fuels
      case Write(d, _) => if |d| < fuels[i] then Burn(fuels, i, |d| + 1) else fuels
      case Read(_, _, _) => if fuels[i] > 0 then Burn(fuels, i, 1) else fuels
  }

  /** What command `i` does next is within its means: a `write` fits its fuel, and a `read` with data
      waiting has room for some. */
  ghost predicate CanPay<S>(plan: Plan<S>, net: Net<S>, fuels: seq<nat>, i: nat)
    requires i < plan.N() == |fuels| == |net.procs| && i < |net.chan|
  {
    net.procs[i].pending != [] ||
    match plan.progs[i](net.procs[i].state)
    case Halt => true
    case Write(d, _) => |d| < fuels[i]
    case Read(max, _, _) => fuels[i] > 0 && (net.chan[i] != [] ==> max > 0)
  }

  /** A step of command `i` leaves the other commands, and all channels but its own two, as they are. */
  lemma ActElsewhere<S>(plan: Plan<S>, net: Net<S>, fuels: seq<nat>, i: nat, k: nat)
    requires net.sys.n >= 2 && |fuels| == plan.N() && CanAct(plan, net, i, k) && Between(plan, net, i)
    ensures var net', fuels' := StepAct(plan, net, i, k), FuelAfter(plan, net, fuels, i);
      && |net'.procs| == |net.procs| && |net'.chan| == |net.chan| && |fuels'| == |fuels|
      && net'.sys.ppc == net.sys.ppc && net'.sys.n == net.sys.n && net'.sys.fds == net.sys.fds
      && |net'.sys.kids| == |net.sys.kids|
      && (forall j :: 0 <= j < plan.N() && j != i ==>
            net'.procs[j] == net.procs[j] && fuels'[j] == fuels[j]
            && (j < |net.sys.kids| ==> net'.sys.kids[j] == net.sys.kids[j]))
      && (forall j :: 0 <= j <= plan.N() && j != i && j != i + 1 ==> net'.chan[j] == net.chan[j])
  {
  }

  lemma ActKidCosts<S>(plan: Plan<S>, net: Net<S>, fuels: seq<nat>, i: nat, k: nat)
    requires net.sys.n >= 2 && |fuels| == plan.N() && CanAct(plan, net, i, k) && Between(plan, net, i)
    requires CanPay(plan, net, fuels, i)
    ensures KidCost(StepAct(plan, net, i, k), FuelAfter(plan, net, fuels, i), i) < KidCost(net, fuels, i)
  {
  }

  lemma ActCosts<S>(plan: Plan<S>, net: Net<S>, fuels: seq<nat>, i: nat, k: nat)
    requires net.sys.n >= 2 && |fuels| == plan.N() && CanAct(plan, net, i, k) && Between(plan, net, i)
    requires CanPay(plan, net, fuels, i)
    ensures Cost(StepAct(plan, net, i, k), FuelAfter(plan, net, fuels, i), plan.N()) < Cost(net, fuels, plan.N())
  {
    ActElsewhere(plan, net, fuels, i, k);
    ActKidCosts(plan, net, fuels, i, k);
    CostDrops(net, fuels, StepAct(plan, net, i, k), FuelAfter(plan, net, fuels, i), plan.N(), i);
  }

  // ----- No deadlock -----

  /** Every running command can pay for its next step. */
  ghost predicate Sound<S>(plan: Plan<S>, net: Net<S>, fuels: seq<nat>) {
    && WiredUp(plan, net) && |fuels| == plan.N()
    && forall i :: 0 <= i < |net.sys.kids| && net.sys.kids[i].pc.Running? ==> CanPay(plan, net, fuels, i)
  }

  predicate BeforeRunning(pc: ChildPc) {
    pc.RedirectIn? || pc.RedirectOut? || pc.ChildClosing?
  }

  /** An event in which nothing fails. */
  predicate Succeeds(e: Event) {
    e.Setup? ==> match e.ev
      case PipeFails => false
      case ForkFails => false
      case ChildStep(_, ok) => ok
      case TimesOut(_) => false
      case _ => true
  }

  lemma ShellCanStep<S>(plan: Plan<S>, net: Net<S>) returns (e: Event)
    requires WiredUp(plan, net) && !net.sys.ppc.Returned?
    ensures CanStepNet(plan, net, e) && Succeeds(e)
  {
    var s := net.sys;
    if s.ppc.ParentClosing? {
      e := Setup(ParentCloses);
    } else if s.ppc.Killing? {
      e := Setup(ParentKills);
    } else if |s.fds| < Slots(s.n) {
      var r := FreeDescriptor(s.parent.Keys);
      e := Setup(PipeOk(r, r + 1));
    } else {
      e := Setup(ForkOk);
    }
  }

  /** Once set-up is over, if every command before `i` has ended and the queue feeding `i` is not the
      problem, then `i` or some later command can move: the last one is never blocked on a full pipe. */
  lemma {:induction false} SomeCommandCanStep<S>(plan: Plan<S>, net: Net<S>, fuels: seq<nat>, i: nat)
    returns (e: Event)
    requires Sound(plan, net, fuels) && Settled(net.sys)
    requires i < plan.N() && !Ended(net, i)
    requires net.chan[i] != [] || AtEof(net, i)
    ensures CanStepNet(plan, net, e) && e.Act?
    decreases plan.N() - i
  {
    RunningWired(plan, net, i);
    e := Act(i, 1);
    if !CanStepNet(plan, net, e) {
      ReaderNeverStuck(plan, net, fuels, i);
      assert ReadEnd(i) == EndOf(2 * i);
      EndLivesWithKeeper(net.sys, plan.init, 2 * i);
      e := SomeCommandCanStep(plan, net, fuels, i + 1);
    }
  }

  /** A command with something (or end-of-file) to read can only be held up by a full pipe after it. */
  lemma ReaderNeverStuck<S>(plan: Plan<S>, net: Net<S>, fuels: seq<nat>, i: nat)
    requires Sound(plan, net, fuels) && i < |net.sys.kids| && net.sys.kids[i].pc.Running?
    requires Between(plan, net, i)
    requires net.chan[i] != [] || AtEof(net, i)
    requires !CanAct(plan, net, i, 1)
    ensures i + 1 < plan.N() && net.chan[i + 1] != [] && !Broken(net, i + 1)
  {
    assert CanPay(plan, net, fuels, i);
  }

  lemma SettledCanStep<S>(plan: Plan<S>, net: Net<S>, fuels: seq<nat>) returns (e: Event)
    requires Sound(plan, net, fuels) && !Completed(net) && Settled(net.sys)
    ensures CanStepNet(plan, net, e) && e.Act?
  {
    var i := FirstLive(net, 0);
    if i > 0 {
      assert WriteEnd(i - 1) == EndOf(2 * (i - 1) + 1) && Keeper(2 * (i - 1) + 1) == i - 1;
      assert Ended(net, i - 1);
      EndLivesWithKeeper(net.sys, plan.init, 2 * (i - 1) + 1);
    }
    assert net.chan[i] == [] ==> AtEof(net, i);
    e := SomeCommandCanStep(plan, net, fuels, i);
  }

  lemma {:induction false} FirstLive<S>(net: Net<S>, lo: nat) returns (i: nat)
    requires !Completed(net) && net.sys.ppc == Returned(true) && lo <= |net.sys.kids| == net.sys.n
    requires forall j :: 0 <= j < lo ==> net.sys.kids[j].pc.Exited?
    ensures i < net.sys.n && !Ended(net, i)
    ensures forall j :: 0 <= j < i ==> Ended(net, j)
    decreases net.sys.n - lo
  {
    if lo < net.sys.n && !net.sys.kids[lo].pc.Exited? {
      i := lo;
    } else {
      i := FirstLive(net, lo + 1);
    }
  }

  /** Whatever has failed: until all is over somebody can move, without anything else failing. */
  lemma CanAlwaysStep<S>(plan: Plan<S>, net: Net<S>, fuels: seq<nat>) returns (e: Event)
    requires Sound(plan, net, fuels) && !Completed(net)
    ensures CanStepNet(plan, net, e) && Succeeds(e)
  {
    if !net.sys.ppc.Returned? {
      e := ShellCanStep(plan, net);
    } else if i :| 0 <= i < |net.sys.kids| && BeforeRunning(net.sys.kids[i].pc) {
      assert KidOk(net.sys, plan.init, i);
      e := Setup(ChildStep(i, true));
    } else {
      e := SettledCanStep(plan, net, fuels);
    }
  }

  // ----- Commands that halt on any input -----

  /** Whatever it reads, at most `room` bytes in all and with end-of-file at any point, the program halts
      within `fuel` actions and bytes written. */
  ghost predicate Halts<S>(prog: S -> Action<S>, s: S, room: nat, fuel: nat)
    decreases fuel
  {
    match prog(s)
    case Halt => true
    case Write(d, next) => |d| < fuel && Halts(prog, next, room, fuel - |d| - 1)
    case Read(max, onData, onEof) =>
      && fuel > 0 && max > 0
      && Halts(prog, onEof, room, fuel - 1)
      && forall c: Bytes {:trigger onData(c)} | 1 <= |c| <= max && |c| <= room ::
           Halts(prog, onData(c), room - |c|, fuel - 1)
  }

  /** Command `i` halts, and what it can write fits what the next one can read. */
  ghost predicate StageHalts<S>(plan: Plan<S>, rooms: seq<nat>, fuels: seq<nat>, i: nat)
    requires PlanOk(plan) && i < plan.N() == |rooms| == |fuels|
  {
    && Halts(plan.progs[i], plan.start[i], rooms[i], fuels[i])
    && (i + 1 < plan.N() ==> fuels[i] <= rooms[i + 1])
  }

  ghost predicate StagesHalt<S>(plan: Plan<S>, rooms: seq<nat>, fuels: seq<nat>)
    requires PlanOk(plan)
  {
    && |rooms| == |fuels| == plan.N() && |plan.streams[0]| <= rooms[0]
    && forall i :: 0 <= i < plan.N() ==> StageHalts(plan, rooms, fuels, i)
  }

  /** A stage, looked at on its own. */
  lemma StageHaltsGiven<S>(
      plan: Plan<S>, rooms: seq<nat>, fuels: seq<nat>, i: nat, prog: S -> Action<S>, s: S, room: nat, fuel: nat)
    requires PlanOk(plan) && i < plan.N() == |rooms| == |fuels|
    requires plan.progs[i] == prog && plan.start[i] == s && rooms[i] == room && fuels[i] == fuel
    requires Halts(prog, s, room, fuel) && (i + 1 < plan.N() ==> fuel <= rooms[i + 1])
    ensures StageHalts(plan, rooms, fuels, i)
  {
  }

  /** All that command `i` has read or can ever come to read. */
  function Incoming<S>(net: Net<S>, fuels: seq<nat>, i: nat): nat
    requires i < |net.procs| == |fuels| && i < |net.chan|
  {
    |net.procs[i].taken| + |net.chan[i]|
    + (if i > 0 then |net.procs[i - 1].pending| + fuels[i - 1] else 0)
  }

  ghost predicate HaltOk<S>(plan: Plan<S>, net: Net<S>, rooms: seq<nat>, fuels: seq<nat>, i: nat)
    requires Sized(plan, net) && |rooms| == |fuels| == plan.N() && i < plan.N()
  {
    && Incoming(net, fuels, i) <= rooms[i]
    && Halts(plan.progs[i], net.procs[i].state, rooms[i] - |net.procs[i].taken|, fuels[i])
  }

  ghost predicate Halting<S>(plan: Plan<S>, net: Net<S>, rooms: seq<nat>, fuels: seq<nat>) {
    && WiredUp(plan, net) && |rooms| == |fuels| == plan.N()
    && forall i :: 0 <= i < plan.N() ==> HaltOk(plan, net, rooms, fuels, i)
  }

  lemma HaltingIsSound<S>(plan: Plan<S>, net: Net<S>, rooms: seq<nat>, fuels: seq<nat>)
    requires Halting(plan, net, rooms, fuels)
    ensures Sound(plan, net, fuels)
  {
    forall i | 0 <= i < |net.sys.kids| && net.sys.kids[i].pc.Running? ensures CanPay(plan, net, fuels, i) {
      assert HaltOk(plan, net, rooms, fuels, i);
    }
  }

  /** The command that acts. */
  lemma ActorHalts<S>(plan: Plan<S>, net: Net<S>, rooms: seq<nat>, fuels: seq<nat>, i: nat, k: nat)
    requires WiredUp(plan, net) && |rooms| == |fuels| == plan.N()
    requires CanAct(plan, net, i, k) && Between(plan, net, i) && HaltOk(plan, net, rooms, fuels, i)
    ensures HaltOk(plan, StepAct(plan, net, i, k), rooms, FuelAfter(plan, net, fuels, i), i)
  {
  }

  /** The one behind it has no more to come than before. */
  lemma NextHalts<S>(plan: Plan<S>, net: Net<S>, rooms: seq<nat>, fuels: seq<nat>, i: nat, k: nat)
    requires WiredUp(plan, net) && |rooms| == |fuels| == plan.N() && i + 1 < plan.N()
    requires CanAct(plan, net, i, k) && Between(plan, net, i) && CanPay(plan, net, fuels, i)
    requires HaltOk(plan, net, rooms, fuels, i + 1)
    ensures HaltOk(plan, StepAct(plan, net, i, k), rooms, FuelAfter(plan, net, fuels, i), i + 1)
  {
  }

  lemma OtherHalts<S>(
      plan: Plan<S>, net: Net<S>, net': Net<S>, rooms: seq<nat>, fuels: seq<nat>, fuels': seq<nat>, j: nat)
    requires Sized(plan, net) && Sized(plan, net') && |rooms| == |fuels| == |fuels'| == plan.N() && j < plan.N()
    requires HaltOk(plan, net, rooms, fuels, j)
    requires net'.procs[j] == net.procs[j] && net'.chan[j] == net.chan[j] && fuels'[j] == fuels[j]
    requires j > 0 ==> net'.procs[j - 1] == net.procs[j - 1] && fuels'[j - 1] == fuels[j - 1]
    ensures HaltOk(plan, net', rooms, fuels', j)
  {
  }

  lemma ActHalts<S>(plan: Plan<S>, net: Net<S>, rooms: seq<nat>, fuels: seq<nat>, i: nat, k: nat)
    requires Halting(plan, net, rooms, fuels) && CanAct(plan, net, i, k) && Between(plan, net, i)
    ensures Halting(plan, StepAct(plan, net, i, k), rooms, FuelAfter(plan, net, fuels, i))
  {
    StepWiredUp(plan, net, Act(i, k));
    ActElsewhere(plan, net, fuels, i, k);
    var net', fuels' := StepAct(plan, net, i, k), FuelAfter(plan, net, fuels, i);
    forall j | 0 <= j < plan.N() ensures HaltOk(plan, net', rooms, fuels', j) {
      assert HaltOk(plan, net, rooms, fuels, j);
      if j == i {
        ActorHalts(plan, net, rooms, fuels, i, k);
      } else if j == i + 1 {
        assert HaltOk(plan, net, rooms, fuels, i);
        NextHalts(plan, net, rooms, fuels, i, k);
      } else {
        OtherHalts(plan, net, net', rooms, fuels, fuels', j);
      }
    }
  }

  lemma StepHalts<S>(plan: Plan<S>, net: Net<S>, rooms: seq<nat>, fuels: seq<nat>, e: Event) returns (fuels': seq<nat>)
    requires Halting(plan, net, rooms, fuels) && CanStepNet(plan, net, e)
    ensures Halting(plan, StepNet(plan, net, e), rooms, fuels')
    ensures Cost(StepNet(plan, net, e), fuels', plan.N()) < Cost(net, fuels, plan.N())
  {
    match e
    case Setup(ev) =>
      fuels' := fuels;
      StepWiredUp(plan, net, e);
      forall j | 0 <= j < plan.N() ensures HaltOk(plan, StepNet(plan, net, e), rooms, fuels, j) {
        assert HaltOk(plan, net, rooms, fuels, j);
      }
      SetupCosts(plan, net, fuels, ev);
    case Act(i, k) =>
      fuels' := FuelAfter(plan, net, fuels, i);
      RunningWired(plan, net, i);
      HaltingIsSound(plan, net, rooms, fuels);
      ActHalts(plan, net, rooms, fuels, i, k);
      ActCosts(plan, net, fuels, i, k);
  }

  lemma {:induction false} ScheduleHalts<S>(
      plan: Plan<S>, net: Net<S>, rooms: seq<nat>, fuels: seq<nat>, es: seq<Event>)
    returns (fuels': seq<nat>)
    requires Halting(plan, net, rooms, fuels) && Schedule(plan, net, es)
    ensures Halting(plan, Outcome(plan, net, es), rooms, fuels')
    ensures |es| + Cost(Outcome(plan, net, es), fuels', plan.N()) <= Cost(net, fuels, plan.N())
    decreases |es|
  {
    if es == [] {
      fuels' := fuels;
    } else {
      var mid := StepHalts(plan, net, rooms, fuels, es[0]);
      fuels' := ScheduleHalts(plan, StepNet(plan, net, es[0]), rooms, mid, es[1..]);
    }
  }

  // ----- The theorems -----

  /** The most steps any schedule of the plan can take. */
  function Bound<S>(plan: Plan<S>, fuels: seq<nat>): nat
    requires |plan.start| == plan.N() == |fuels| && |plan.streams| == plan.N() + 1
  {
    Cost(Initial(plan), fuels, plan.N())
  }

  lemma InitialHalts<S>(plan: Plan<S>, rooms: seq<nat>, fuels: seq<nat>)
    requires PlanOk(plan) && StagesHalt(plan, rooms, fuels)
    ensures Halting(plan, Initial(plan), rooms, fuels)
  {
    forall i | 0 <= i < plan.N() ensures HaltOk(plan, Initial(plan), rooms, fuels, i) {
      assert StageHalts(plan, rooms, fuels, i);
      assert i > 0 ==> StageHalts(plan, rooms, fuels, i - 1);
    }
  }

  /** No schedule of halting commands is longer than a bound known in advance, whichever `pipe`s, `fork`s
      and `dup2`s fail and whichever children time out. */
  lemma AnyRunIsBounded<S>(plan: Plan<S>, rooms: seq<nat>, fuels: seq<nat>, es: seq<Event>)
    requires PlanOk(plan) && StagesHalt(plan, rooms, fuels)
    requires Schedule(plan, Initial(plan), es)
    ensures |es| <= Bound(plan, fuels)
  {
    InitialHalts(plan, rooms, fuels);
    var fuels' := ScheduleHalts(plan, Initial(plan), rooms, fuels, es);
  }

  /** And none gets stuck before the shell is done and every child has exited. */
  lemma AnyRunCanGoOn<S>(plan: Plan<S>, rooms: seq<nat>, fuels: seq<nat>, es: seq<Event>)
    requires PlanOk(plan) && StagesHalt(plan, rooms, fuels)
    requires Schedule(plan, Initial(plan), es)
    ensures var net := Outcome(plan, Initial(plan), es);
      Completed(net) || exists e :: CanStepNet(plan, net, e) && Succeeds(e)
  {
    InitialHalts(plan, rooms, fuels);
    var fuels' := ScheduleHalts(plan, Initial(plan), rooms, fuels, es);
    var net := Outcome(plan, Initial(plan), es);
    HaltingIsSound(plan, net, rooms, fuels');
    if !Completed(net) {
      var e := CanAlwaysStep(plan, net, fuels');
    }
  }
}
