/** How `handle_pipeline` wires n commands together: the shell creates n-1 pipes, forks n children and
    closes its pipe ends, while every child, concurrently, moves its two ends onto descriptors 0 and 1
    and closes the rest. One step is one system call of one process, in any interleaving. */
module PipelineSetup {
  import opened Descriptors

  /** The shell: creating pipes and forking; closing slot `next`; after a failed `fork`, killing the
      children already started; done with set-up. `ok` is false on the error paths. */
  datatype ParentPc =
    | Building
    | ParentClosing(next: nat, ok: bool)
    | Killing(next: nat)
    | Returned(ok: bool)

  datatype ChildPc =
    | RedirectIn
    | RedirectOut
    | ChildClosing(next: nat)
    | Running
    | Exited

  datatype Child = Child(pc: ChildPc, table: Table)

  /** `fds` is the array `pipes` flattened: slot 2p reads pipe p, slot 2p+1 writes it. */
  datatype Sys = Sys(n: nat, ppc: ParentPc, parent: Table, fds: seq<nat>, kids: seq<Child>)

  datatype SetupEvent =
    | PipeOk(r: nat, w: nat)
    | PipeFails
    | ForkOk
    | ForkFails
    | ParentCloses
    | ParentKills
    | ChildStep(i: nat, ok: bool)
    | ChildExits(i: nat)
    | TimesOut(i: nat)

  function Slots(n: nat): nat
    requires n >= 1
  {
    2 * (n - 1)
  }

  function Start(init: Table, n: nat): Sys {
    Sys(n, Building, init, [], [])
  }

  predicate CanStep(s: Sys, ev: SetupEvent) {
    && s.n >= 2
    && match ev
       case PipeOk(r, w) =>
         s.ppc == Building && |s.fds| < Slots(s.n) && r !in s.parent && w !in s.parent && r != w
       case PipeFails => s.ppc == Building && |s.fds| < Slots(s.n)
       case ForkOk => s.ppc == Building && |s.fds| == Slots(s.n) && |s.kids| < s.n
       case ForkFails => s.ppc == Building && |s.fds| == Slots(s.n) && |s.kids| < s.n
       case ParentCloses => s.ppc.ParentClosing? && s.ppc.next <= |s.fds|
       case ParentKills => s.ppc.Killing? && s.ppc.next <= |s.kids|
       case ChildStep(i, ok) =>
         && i < |s.kids|
         && |s.fds| == Slots(s.n)
         && i < s.n
         && (s.kids[i].pc.RedirectIn? || s.kids[i].pc.RedirectOut?
             || (s.kids[i].pc.ChildClosing? && s.kids[i].pc.next <= |s.fds|))
         && (ok || Duplicates(s, i))
       case ChildExits(i) => i < |s.kids| && s.kids[i].pc.Running?
       case TimesOut(i) => s.ppc == Returned(true) && i < |s.kids| && !s.kids[i].pc.Exited?
  }

  /** The next call of child `i` is a `dup2`, which can fail; `close` is not looked at. */
  predicate Duplicates(s: Sys, i: nat)
    requires i < |s.kids|
  {
    (s.kids[i].pc.RedirectIn? && i > 0) || (s.kids[i].pc.RedirectOut? && i + 1 < s.n)
  }

  const GONE := Child(Exited, map[])

  /** `dup2` either succeeds or makes the child exit. */
  function Redirected(c: Child, from: nat, to: nat, ok: bool, pc: ChildPc): Child {
    if ok && from in c.table then Child(pc, Dup2(c.table, from, to)) else GONE
  }

  function StepChild(s: Sys, i: nat, ok: bool): Child
    requires CanStep(s, ChildStep(i, ok))
  {
    var c := s.kids[i];
    match c.pc
    case RedirectIn =>
      if i > 0 then Redirected(c, s.fds[2 * (i - 1)], STDIN, ok, RedirectOut)
      else c.(pc := RedirectOut)
    case RedirectOut =>
      if i < s.n - 1 then Redirected(c, s.fds[2 * i + 1], STDOUT, ok, ChildClosing(0))
      else c.(pc := ChildClosing(0))
    case ChildClosing(k) =>
      if k < |s.fds| then Child(ChildClosing(k + 1), Close(c.table, s.fds[k]))
      else c.(pc := Running)
    case _ => c
  }

  function Step(s: Sys, ev: SetupEvent): Sys
    requires CanStep(s, ev)
  {
    match ev
    case PipeOk(r, w) =>
      var p := |s.fds| / 2;
      s.(parent := s.parent[r := ReadEnd(p)][w := WriteEnd(p)], fds := s.fds + [r, w])
    case PipeFails => s.(ppc := ParentClosing(0, false))
    case ForkOk =>
      s.(kids := s.kids + [Child(RedirectIn, s.parent)],
         ppc := if |s.kids| + 1 == s.n then ParentClosing(0, true) else Building)
    case ForkFails => s.(ppc := ParentClosing(0, false))
    case ParentCloses =>
      var k := s.ppc.next;
      if k < |s.fds| then
        s.(parent := Close(s.parent, s.fds[k]), ppc := ParentClosing(k + 1, s.ppc.ok))
      else
        s.(ppc := if s.ppc.ok then Returned(true) else Killing(0))
    case ParentKills =>
      var k := s.ppc.next;
      if k < |s.kids| then s.(kids := s.kids[k := GONE], ppc := Killing(k + 1))
      else s.(ppc := Returned(false))
    case ChildStep(i, ok) => s.(kids := s.kids[i := StepChild(s, i, ok)])
    case ChildExits(i) => s.(kids := s.kids[i := GONE])
    case TimesOut(i) => s.(kids := s.kids[i := GONE])
  }

  predicate Allowed(s: Sys, evs: seq<SetupEvent>)
    decreases |evs|
  {
    evs == [] || (CanStep(s, evs[0]) && Allowed(Step(s, evs[0]), evs[1..]))
  }

  function After(s: Sys, evs: seq<SetupEvent>): Sys
    requires Allowed(s, evs)
    decreases |evs|
  {
    if evs == [] then s else After(Step(s, evs[0]), evs[1..])
  }

  // ----- What every step keeps -----

  /** Descriptors 0 and 1 are open, and nothing open is an end of a pipe yet to be created. */
  ghost predicate ShellTable(init: Table) {
    && STDIN in init && STDOUT in init
    && forall fd :: fd in init ==> init[fd].Inherited?
  }

  /** The table of child `i` once wired, apart from the pipe ends it has yet to close. */
  function WiredIn(init: Table, i: nat): Table {
    if i > 0 then init[STDIN := ReadEnd(i - 1)] else init
  }

  function Wired(init: Table, n: nat, i: nat): Table {
    if i + 1 < n then WiredIn(init, i)[STDOUT := WriteEnd(i)] else WiredIn(init, i)
  }

  ghost predicate ChildOk(c: Child, n: nat, fds: seq<nat>, init: Table, i: nat) {
    match c.pc
    case RedirectIn => TableIs(c.table, init, fds, 0)
    case RedirectOut => TableIs(c.table, WiredIn(init, i), fds, 0)
    case ChildClosing(k) => k <= |fds| && TableIs(c.table, Wired(init, n, i), fds, k)
    case Running => c.table == Wired(init, n, i)
    case Exited => c.table == map[]
  }

  ghost predicate KidOk(s: Sys, init: Table, i: nat)
    requires i < |s.kids|
  {
    ChildOk(s.kids[i], s.n, s.fds, init, i)
  }

  predicate AllExited(kids: seq<Child>, upTo: nat) {
    forall i :: 0 <= i < upTo && i < |kids| ==> kids[i].pc.Exited?
  }

  ghost predicate ParentOk(s: Sys, init: Table) {
    match s.ppc
    case Building => TableIs(s.parent, init, s.fds, 0) && |s.kids| < s.n
    case ParentClosing(k, ok) =>
      k <= |s.fds| && TableIs(s.parent, init, s.fds, k) && (if ok then |s.kids| == s.n else |s.kids| < s.n)
    case Killing(k) => s.parent == init && k <= |s.kids| < s.n && AllExited(s.kids, k)
    case Returned(ok) =>
      s.parent == init && if ok then |s.kids| == s.n else |s.kids| < s.n && AllExited(s.kids, |s.kids|)
  }

  predicate Sizes(s: Sys) {
    && s.n >= 2
    && |s.fds| % 2 == 0 && |s.fds| <= Slots(s.n)
    && |s.kids| <= s.n
    && (s.kids != [] ==> |s.fds| == Slots(s.n))
  }

  ghost predicate NewSlots(fds: seq<nat>, init: Table) {
    Distinct(fds) && forall k :: 0 <= k < |fds| ==> fds[k] !in init
  }

  ghost predicate Inv(s: Sys, init: Table) {
    && Sizes(s)
    && ShellTable(init)
    && NewSlots(s.fds, init)
    && ParentOk(s, init)
    && (forall i :: 0 <= i < |s.kids| ==> KidOk(s, init, i))
  }

  /** A `dup2` of a child, whether it fails or not. */
  lemma RedirectKeeps(c: Child, base: Table, fds: seq<nat>, slot: nat, to: nat, ok: bool, pc: ChildPc)
    requires TableIs(c.table, base, fds, 0) && slot < |fds|
    requires forall k :: 0 <= k < |fds| ==> fds[k] != to
    ensures var d := Redirected(c, fds[slot], to, ok, pc);
      d == GONE || (d.pc == pc && TableIs(d.table, base[to := EndOf(slot)], fds, 0))
  {
    Rewire(c.table, base, fds, slot, to);
  }

  lemma ChildInKeeps(s: Sys, init: Table, i: nat, ok: bool)
    requires Inv(s, init) && CanStep(s, ChildStep(i, ok)) && s.kids[i].pc.RedirectIn?
    ensures ChildOk(StepChild(s, i, ok), s.n, s.fds, init, i)
  {
    assert KidOk(s, init, i);
    if i > 0 { RedirectKeeps(s.kids[i], init, s.fds, 2 * (i - 1), STDIN, ok, RedirectOut); }
  }

  lemma ChildOutKeeps(s: Sys, init: Table, i: nat, ok: bool)
    requires Inv(s, init) && CanStep(s, ChildStep(i, ok)) && s.kids[i].pc.RedirectOut?
    ensures ChildOk(StepChild(s, i, ok), s.n, s.fds, init, i)
  {
    assert KidOk(s, init, i);
    if i < s.n - 1 {
      RedirectKeeps(s.kids[i], WiredIn(init, i), s.fds, 2 * i + 1, STDOUT, ok, ChildClosing(0));
    }
  }

  lemma ChildCloseKeeps(s: Sys, init: Table, i: nat, ok: bool)
    requires Inv(s, init) && CanStep(s, ChildStep(i, ok)) && s.kids[i].pc.ChildClosing?
    ensures ChildOk(StepChild(s, i, ok), s.n, s.fds, init, i)
  {
    assert KidOk(s, init, i);
    var c, base := s.kids[i], Wired(init, s.n, i);
    if c.pc.next < |s.fds| {
      assert STDIN in init && STDOUT in init;
      CloseSlot(c.table, base, s.fds, c.pc.next);
    } else {
      AllClosed(c.table, base, s.fds);
    }
  }

  lemma ChildStepKeeps(s: Sys, init: Table, i: nat, ok: bool)
    requires Inv(s, init) && CanStep(s, ChildStep(i, ok))
    ensures ChildOk(StepChild(s, i, ok), s.n, s.fds, init, i)
  {
    if s.kids[i].pc.RedirectIn? {
      ChildInKeeps(s, init, i, ok);
    } else if s.kids[i].pc.RedirectOut? {
      ChildOutKeeps(s, init, i, ok);
    } else {
      ChildCloseKeeps(s, init, i, ok);
    }
  }

  lemma SizesKeep(s: Sys, ev: SetupEvent)
    requires Sizes(s) && CanStep(s, ev)
    ensures Sizes(Step(s, ev))
  {
  }

  lemma ParentCloseKeeps(s: Sys, init: Table)
    requires Inv(s, init) && CanStep(s, ParentCloses)
    ensures ParentOk(Step(s, ParentCloses), init)
  {
    if s.ppc.next < |s.fds| {
      CloseSlot(s.parent, init, s.fds, s.ppc.next);
    } else {
      AllClosed(s.parent, init, s.fds);
    }
  }

  lemma PipeKeeps(s: Sys, init: Table, r: nat, w: nat)
    requires Inv(s, init) && CanStep(s, PipeOk(r, w))
    ensures ParentOk(Step(s, PipeOk(r, w)), init) && NewSlots(s.fds + [r, w], init)
  {
    OpenPipe(s.parent, init, s.fds, r, w);
  }

  lemma ParentStepKeeps(s: Sys, init: Table, ev: SetupEvent)
    requires Inv(s, init) && CanStep(s, ev)
    ensures ParentOk(Step(s, ev), init) && NewSlots(Step(s, ev).fds, init)
  {
    match ev
    case PipeOk(r, w) => PipeKeeps(s, init, r, w);
    case ParentCloses => ParentCloseKeeps(s, init);
    case _ =>
  }

  lemma KidsStepKeep(s: Sys, init: Table, ev: SetupEvent, j: nat)
    requires Inv(s, init) && CanStep(s, ev) && j < |Step(s, ev).kids|
    ensures KidOk(Step(s, ev), init, j)
  {
    if j < |s.kids| { assert KidOk(s, init, j); }
    if ev.ChildStep? { ChildStepKeeps(s, init, ev.i, ev.ok); }
  }

  lemma StepKeeps(s: Sys, init: Table, ev: SetupEvent)
    requires Inv(s, init) && CanStep(s, ev)
    ensures Inv(Step(s, ev), init)
  {
    SizesKeep(s, ev);
    ParentStepKeeps(s, init, ev);
    var s' := Step(s, ev);
    forall j | 0 <= j < |s'.kids| ensures KidOk(s', init, j) {
      KidsStepKeep(s, init, ev, j);
    }
  }

  lemma {:induction false} RunKeeps(s: Sys, init: Table, evs: seq<SetupEvent>)
    requires Inv(s, init) && Allowed(s, evs)
    ensures Inv(After(s, evs), init)
    decreases |evs|
  {
    if evs != [] {
      StepKeeps(s, init, evs[0]);
      RunKeeps(Step(s, evs[0]), init, evs[1..]);
    }
  }

  /** A child that runs its command has its two ends as descriptors 0 and 1, the first and the last child
      one of the shell's, and otherwise the shell's descriptors and no more. */
  lemma RunningTable(init: Table, n: nat, evs: seq<SetupEvent>, i: nat, fd: nat)
    requires n >= 2 && ShellTable(init) && Allowed(Start(init, n), evs)
    requires var s := After(Start(init, n), evs); i < |s.kids| && s.kids[i].pc.Running?
    ensures var t := After(Start(init, n), evs).kids[i].table;
      && 0 in t && t[0] == (if i > 0 then ReadEnd(i - 1) else init[0])
      && 1 in t && t[1] == (if i + 1 < n then WriteEnd(i) else init[1])
      && (fd in t <==> fd in init) && (fd in t && fd != 0 && fd != 1 ==> t[fd] == init[fd])
  {
    RunKeeps(Start(init, n), init, evs);
    NumberKept(Start(init, n), evs);
    assert KidOk(After(Start(init, n), evs), init, i);
  }

  lemma {:induction false} NumberKept(s: Sys, evs: seq<SetupEvent>)
    requires Allowed(s, evs)
    ensures After(s, evs).n == s.n
    decreases |evs|
  {
    if evs != [] { NumberKept(Step(s, evs[0]), evs[1..]); }
  }

  /** When a `pipe` or `fork` has failed and the call has returned, no child is left running, and not
      all have been started. */
  lemma FailedSetupLeavesNobody(init: Table, n: nat, evs: seq<SetupEvent>)
    requires n >= 2 && ShellTable(init) && Allowed(Start(init, n), evs)
    requires After(Start(init, n), evs).ppc == Returned(false)
    ensures var kids := After(Start(init, n), evs).kids;
      |kids| < n && forall i :: 0 <= i < |kids| ==> kids[i].pc.Exited?
  {
    RunKeeps(Start(init, n), init, evs);
    NumberKept(Start(init, n), evs);
  }

  // ----- Who holds an end -----

  /** Child `i` has not yet passed slot `slot` of its close loop. */
  predicate Unswept(c: Child, slot: nat) {
    c.pc.RedirectIn? || c.pc.RedirectOut? || (c.pc.ChildClosing? && c.pc.next <= slot)
  }

  /** The only child that keeps the end in `slot`: the writer of its pipe, or the reader. */
  function Keeper(slot: nat): nat {
    if slot % 2 == 0 then slot / 2 + 1 else slot / 2
  }

  lemma WiredHolds(init: Table, n: nat, i: nat, slot: nat)
    requires ShellTable(init) && i < n && slot < Slots(n)
    ensures !Holds(init, EndOf(slot))
    ensures Holds(Wired(init, n, i), EndOf(slot)) <==> i == Keeper(slot)
    ensures Holds(WiredIn(init, i), EndOf(slot)) ==> i == Keeper(slot)
  {
    var t := Wired(init, n, i);
    if i == Keeper(slot) {
      var fd := if slot % 2 == 0 then STDIN else STDOUT;
      assert fd in t && t[fd] == EndOf(slot);
    }
  }

  /** Exactly which children hold the pipe end in `slot`. */
  lemma KidHolds(s: Sys, init: Table, i: nat, slot: nat)
    requires Inv(s, init) && i < |s.kids| && slot < |s.fds|
    ensures Holds(s.kids[i].table, EndOf(slot)) <==>
              Unswept(s.kids[i], slot)
              || (i == Keeper(slot) && (s.kids[i].pc.ChildClosing? || s.kids[i].pc.Running?))
  {
    assert KidOk(s, init, i);
    WiredHolds(init, s.n, i, slot);
    var c := s.kids[i];
    match c.pc
    case RedirectIn => TableHolds(c.table, init, s.fds, 0, slot);
    case RedirectOut => TableHolds(c.table, WiredIn(init, i), s.fds, 0, slot);
    case ChildClosing(k) => TableHolds(c.table, Wired(init, s.n, i), s.fds, k, slot);
    case _ =>
  }

  lemma ParentHolds(s: Sys, init: Table, slot: nat)
    requires Inv(s, init) && slot < |s.fds|
    ensures Holds(s.parent, EndOf(slot)) <==>
              s.ppc.Building? || (s.ppc.ParentClosing? && s.ppc.next <= slot)
  {
    WiredHolds(init, s.n, 0, slot);
    match s.ppc
    case Building => TableHolds(s.parent, init, s.fds, 0, slot);
    case ParentClosing(k, _) => TableHolds(s.parent, init, s.fds, k, slot);
    case _ =>
  }

  /** No process holds the end: a reader of the pipe sees end-of-file, a writer gets SIGPIPE. */
  ghost predicate Unheld(s: Sys, f: File) {
    && !Holds(s.parent, f)
    && forall i :: 0 <= i < |s.kids| ==> !Holds(s.kids[i].table, f)
  }

  /** Ownership of pipe ends, for every interleaving and every pattern of failing calls. */
  lemma PipeEndOwnership(init: Table, n: nat, evs: seq<SetupEvent>, slot: nat)
    requires n >= 2 && ShellTable(init)
    requires Allowed(Start(init, n), evs)
    requires slot < |After(Start(init, n), evs).fds|
    ensures var s := After(Start(init, n), evs);
      && (Holds(s.parent, EndOf(slot)) <==>
            s.ppc.Building? || (s.ppc.ParentClosing? && s.ppc.next <= slot))
      && (forall i :: 0 <= i < |s.kids| ==>
            (Holds(s.kids[i].table, EndOf(slot)) <==>
               Unswept(s.kids[i], slot)
               || (i == Keeper(slot) && (s.kids[i].pc.ChildClosing? || s.kids[i].pc.Running?))))
  {
    RunKeeps(Start(init, n), init, evs);
    var s := After(Start(init, n), evs);
    ParentHolds(s, init, slot);
    forall i | 0 <= i < |s.kids|
      ensures Holds(s.kids[i].table, EndOf(slot)) <==>
                Unswept(s.kids[i], slot)
                || (i == Keeper(slot) && (s.kids[i].pc.ChildClosing? || s.kids[i].pc.Running?))
    {
      KidHolds(s, init, i, slot);
    }
  }

  /** Whichever way the call ends, the shell's own table is the one it had. */
  lemma ShellTableRestored(init: Table, n: nat, evs: seq<SetupEvent>)
    requires n >= 2 && ShellTable(init)
    requires Allowed(Start(init, n), evs)
    ensures After(Start(init, n), evs).ppc.Returned? ==> After(Start(init, n), evs).parent == init
  {
    RunKeeps(Start(init, n), init, evs);
  }

  /** The shell and every child are past their close loops. */
  predicate Settled(s: Sys) {
    && s.ppc == Returned(true)
    && forall i :: 0 <= i < |s.kids| ==> s.kids[i].pc.Running? || s.kids[i].pc.Exited?
  }

  /** After set-up an end is held exactly while the one child that needs it lives: so a reader sees
      end-of-file exactly when the stage before it has exited. */
  lemma EndLivesWithKeeper(s: Sys, init: Table, slot: nat)
    requires Inv(s, init) && Settled(s) && slot < Slots(s.n)
    ensures Unheld(s, EndOf(slot)) <==> s.kids[Keeper(slot)].pc.Exited?
  {
    ParentHolds(s, init, slot);
    forall i | 0 <= i < |s.kids|
      ensures Holds(s.kids[i].table, EndOf(slot)) <==> i == Keeper(slot) && s.kids[i].pc.Running?
    {
      KidHolds(s, init, i, slot);
    }
  }

  /** Before that, while no call has failed, an unheld end means its keeper has come and gone. */
  lemma UnheldMeansGone(s: Sys, init: Table, slot: nat)
    requires Inv(s, init) && slot < |s.fds|
    requires s.ppc.Building? || (s.ppc.ParentClosing? && s.ppc.ok) || s.ppc == Returned(true)
    requires Unheld(s, EndOf(slot))
    ensures Keeper(slot) < |s.kids| && s.kids[Keeper(slot)].pc.Exited?
  {
    ParentHolds(s, init, slot);
    KidHolds(s, init, Keeper(slot), slot);
  }
}
