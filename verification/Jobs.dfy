/** Background jobs: the process list, the job numbers and the queue of completion messages. */
module Jobs {
  import opened CStrings
  import opened LinkedLists
  import opened Options

  datatype Job = Job(pid: int, id: nat, command: string)

  // ----- Specification -----

  datatype JobState = JobState(jobs: seq<Job>, next: nat, queue: seq<string>)

  /** The newest job comes first in the list. */
  function Added(s: JobState, pid: int, command: string): JobState {
    s.(jobs := [Job(pid, s.next, command)] + s.jobs, next := s.next + 1)
  }

  function FindJob(jobs: seq<Job>, pid: int): Option<Job> {
    if jobs == [] then None else if jobs[0].pid == pid then Some(jobs[0]) else FindJob(jobs[1..], pid)
  }

  function WithoutFirst(jobs: seq<Job>, pid: int): seq<Job> {
    if jobs == [] then [] else if jobs[0].pid == pid then jobs[1..] else [jobs[0]] + WithoutFirst(jobs[1..], pid)
  }

  /** Numbering starts again when the last job leaves. */
  function Removed(s: JobState, pid: int): JobState {
    if FindJob(s.jobs, pid) == None then s
    else
      var jobs := WithoutFirst(s.jobs, pid);
      s.(jobs := jobs, next := if jobs == [] then 1 else s.next)
  }

  /** The text is built in a buffer of 128 characters. */
  function DoneMessage(j: Job): string {
    Cut(MAX_STR_LEN - 1, "[" + Dec(j.id) + "]+  Done " + j.command)
  }

  function Completed(s: JobState, pid: int): JobState {
    match FindJob(s.jobs, pid)
    case None => s
    case Some(j) => Removed(s.(queue := s.queue + [DoneMessage(j)]), pid)
  }

  lemma {:induction false} FindJobAt(jobs: seq<Job>, pid: int, i: nat)
    requires i < |jobs| && jobs[i].pid == pid && forall j :: 0 <= j < i ==> jobs[j].pid != pid
    ensures FindJob(jobs, pid) == Some(jobs[i])
    ensures WithoutFirst(jobs, pid) == jobs[..i] + jobs[i + 1..]
  {
    if i > 0 {
      FindJobAt(jobs[1..], pid, i - 1);
      assert jobs[1..][..i - 1] == jobs[1..i] && jobs[1..][i..] == jobs[i + 1..];
      assert [jobs[0]] + (jobs[1..i] + jobs[i + 1..]) == jobs[..i] + jobs[i + 1..];
    }
  }

  lemma {:induction false} NoSuchJob(jobs: seq<Job>, pid: int)
    ensures FindJob(jobs, pid) == None <==> forall i :: 0 <= i < |jobs| ==> jobs[i].pid != pid
    ensures FindJob(jobs, pid).Some? ==> FindJob(jobs, pid).value in jobs && FindJob(jobs, pid).value.pid == pid
  {
    if jobs != [] {
      NoSuchJob(jobs[1..], pid);
      assert jobs == [jobs[0]] + jobs[1..];
    }
  }

  // ----- Whole runs -----

  datatype Event = Begin(pid: int, command: string) | Reap(pid: int) | Drain

  /** A run with what it has registered, completed and delivered so far, in order. */
  datatype History = History(s: JobState, begun: seq<Job>, finished: seq<Job>, delivered: seq<string>)

  function Start(): History {
    History(JobState([], 1, []), [], [], [])
  }

  function Next(h: History, e: Event): History {
    match e
    case Begin(pid, command) =>
      History(Added(h.s, pid, command), h.begun + [Job(pid, h.s.next, command)], h.finished, h.delivered)
    case Reap(pid) =>
      h.(s := Completed(h.s, pid),
         finished := match FindJob(h.s.jobs, pid) case None => h.finished case Some(j) => h.finished + [j])
    case Drain => h.(s := h.s.(queue := []), delivered := h.delivered + h.s.queue)
  }

  function After(h: History, es: seq<Event>): History
    decreases |es|
  {
    if es == [] then h else After(Next(h, es[0]), es[1..])
  }

  function Messages(js: seq<Job>): seq<string> {
    if js == [] then [] else Messages(js[..|js| - 1]) + [DoneMessage(js[|js| - 1])]
  }

  function Count(js: seq<Job>, j: Job): nat {
    if js == [] then 0 else (if js[0] == j then 1 else 0) + Count(js[1..], j)
  }

  /** `begun` is a permutation of `jobs` and `finished` together. */
  ghost predicate Balanced(begun: seq<Job>, jobs: seq<Job>, finished: seq<Job>) {
    forall j :: Count(begun, j) == Count(jobs, j) + Count(finished, j)
  }

  /** Nothing is lost or doubled: every job begun is active or finished; the messages delivered,
      followed by those queued, are those of the finished jobs in order; numbers decrease along the
      list, stay below the next one, and start from 1 when the list is empty. */
  ghost predicate Accounted(h: History) {
    && Balanced(h.begun, h.s.jobs, h.finished)
    && h.delivered + h.s.queue == Messages(h.finished)
    && h.s.next >= 1 && (h.s.jobs == [] ==> h.s.next == 1)
    && Numbered(h.s.jobs, h.s.next)
  }

  /** The first number is below `next`, every other below the one before it, and all are positive. */
  predicate Numbered(jobs: seq<Job>, next: nat) {
    jobs == [] || (1 <= jobs[0].id < next && Numbered(jobs[1..], jobs[0].id))
  }

  lemma NumberedBelow(jobs: seq<Job>, a: nat, b: nat)
    requires Numbered(jobs, a) && a <= b
    ensures Numbered(jobs, b)
  {
  }

  /** What being numbered comes to: numbers decrease along the list and lie between 1 and `next`. */
  lemma {:induction false} NumberedMeans(jobs: seq<Job>, next: nat, i: nat, j: nat)
    requires Numbered(jobs, next) && i <= j < |jobs|
    ensures 1 <= jobs[j].id <= jobs[i].id < next && (i < j ==> jobs[j].id < jobs[i].id)
  {
    if i > 0 {
      NumberedMeans(jobs[1..], jobs[0].id, i - 1, j - 1);
    } else if j > 0 {
      NumberedMeans(jobs[1..], jobs[0].id, 0, j - 1);
    }
  }

  lemma {:induction false} IndexOf(jobs: seq<Job>, pid: int) returns (i: nat)
    requires FindJob(jobs, pid).Some?
    ensures i < |jobs| && jobs[i] == FindJob(jobs, pid).value && jobs[i].pid == pid
    ensures forall j :: 0 <= j < i ==> jobs[j].pid != pid
  {
    if jobs[0].pid == pid {
      i := 0;
    } else {
      i := IndexOf(jobs[1..], pid);
      i := i + 1;
    }
  }

  lemma {:induction false} CountMore(js: seq<Job>, x: Job, j: Job)
    ensures Count(js + [x], j) == Count(js, j) + (if x == j then 1 else 0)
  {
    if js == [] {
      assert js + [x] == [x];
    } else {
      assert (js + [x])[1..] == js[1..] + [x];
      CountMore(js[1..], x, j);
    }
  }

  lemma {:induction false} CountMultiset(js: seq<Job>, j: Job)
    ensures multiset(js)[j] == Count(js, j)
  {
    if js != [] {
      CountMultiset(js[1..], j);
      assert js == [js[0]] + js[1..];
    }
  }

  /** What being balanced comes to. */
  lemma BalancedMeans(begun: seq<Job>, jobs: seq<Job>, finished: seq<Job>)
    ensures Balanced(begun, jobs, finished) <==> multiset(begun) == multiset(jobs) + multiset(finished)
  {
    forall j ensures multiset(begun)[j] == Count(begun, j)
      ensures (multiset(jobs) + multiset(finished))[j] == Count(jobs, j) + Count(finished, j)
    {
      CountMultiset(begun, j);
      CountMultiset(jobs, j);
      CountMultiset(finished, j);
    }
  }

  lemma {:induction false} TakeOutCounts(jobs: seq<Job>, i: nat, j: Job)
    requires i < |jobs|
    ensures Count(jobs, j) == Count(jobs[..i] + jobs[i + 1..], j) + (if jobs[i] == j then 1 else 0)
  {
    if i == 0 {
      assert jobs[..0] + jobs[1..] == jobs[1..];
    } else {
      TakeOutCounts(jobs[1..], i - 1, j);
      assert (jobs[..i] + jobs[i + 1..])[1..] == jobs[1..][..i - 1] + jobs[1..][i..];
    }
  }

  lemma {:induction false} TakeOut(jobs: seq<Job>, next: nat, i: nat)
    requires Numbered(jobs, next) && i < |jobs|
    ensures Numbered(jobs[..i] + jobs[i + 1..], next)
  {
    if i == 0 {
      assert jobs[..0] + jobs[1..] == jobs[1..];
      NumberedBelow(jobs[1..], jobs[0].id, next);
    } else {
      TakeOut(jobs[1..], jobs[0].id, i - 1);
      assert (jobs[..i] + jobs[i + 1..])[1..] == jobs[1..][..i - 1] + jobs[1..][i..];
    }
  }

  /** What a reap of an active job comes to. */
  lemma ReapAt(h: History, pid: int) returns (i: nat)
    requires FindJob(h.s.jobs, pid).Some?
    ensures i < |h.s.jobs|
    ensures var rest, j := h.s.jobs[..i] + h.s.jobs[i + 1..], h.s.jobs[i];
      Next(h, Reap(pid)) == History(
        JobState(rest, if rest == [] then 1 else h.s.next, h.s.queue + [DoneMessage(j)]),
        h.begun, h.finished + [j], h.delivered)
  {
    i := IndexOf(h.s.jobs, pid);
    FindJobAt(h.s.jobs, pid, i);
  }

  lemma MessagesMore(js: seq<Job>, j: Job)
    ensures Messages(js + [j]) == Messages(js) + [DoneMessage(j)]
  {
    assert (js + [j])[..|js|] == js;
  }

  lemma FinishedMore(delivered: seq<string>, queue: seq<string>, finished: seq<Job>, j: Job)
    requires delivered + queue == Messages(finished)
    ensures delivered + (queue + [DoneMessage(j)]) == Messages(finished + [j])
  {
    MessagesMore(finished, j);
    assert delivered + (queue + [DoneMessage(j)]) == (delivered + queue) + [DoneMessage(j)];
  }

  /** Taking job `i` from the active ones to the finished ones. */
  lemma MovedCounts(begun: seq<Job>, jobs: seq<Job>, finished: seq<Job>, i: nat)
    requires Balanced(begun, jobs, finished) && i < |jobs|
    ensures Balanced(begun, jobs[..i] + jobs[i + 1..], finished + [jobs[i]])
  {
    forall j ensures Count(begun, j) == Count(jobs[..i] + jobs[i + 1..], j) + Count(finished + [jobs[i]], j) {
      TakeOutCounts(jobs, i, j);
      CountMore(finished, jobs[i], j);
    }
  }

  lemma ReapAccounted(h: History, pid: int)
    requires Accounted(h)
    ensures Accounted(Next(h, Reap(pid)))
  {
    if FindJob(h.s.jobs, pid).Some? {
      var i := ReapAt(h, pid);
      TakeOut(h.s.jobs, h.s.next, i);
      MovedCounts(h.begun, h.s.jobs, h.finished, i);
      FinishedMore(h.delivered, h.s.queue, h.finished, h.s.jobs[i]);
    }
  }

  lemma BegunCounts(begun: seq<Job>, jobs: seq<Job>, finished: seq<Job>, x: Job)
    requires Balanced(begun, jobs, finished)
    ensures Balanced(begun + [x], [x] + jobs, finished)
  {
    forall j ensures Count(begun + [x], j) == Count([x] + jobs, j) + Count(finished, j) {
      CountMore(begun, x, j);
      assert ([x] + jobs)[1..] == jobs;
    }
  }

  lemma BeginNumbered(jobs: seq<Job>, next: nat, j: Job)
    requires Numbered(jobs, next) && j.id == next >= 1
    ensures Numbered([j] + jobs, next + 1)
  {
    assert ([j] + jobs)[1..] == jobs;
  }

  lemma BeginAccounted(h: History, pid: int, command: string)
    requires Accounted(h)
    ensures Accounted(Next(h, Begin(pid, command)))
  {
    var j := Job(pid, h.s.next, command);
    BegunCounts(h.begun, h.s.jobs, h.finished, j);
    BeginNumbered(h.s.jobs, h.s.next, j);
  }

  lemma EventAccounted(h: History, e: Event)
    requires Accounted(h)
    ensures Accounted(Next(h, e))
  {
    match e
    case Begin(pid, command) => BeginAccounted(h, pid, command);
    case Reap(pid) => ReapAccounted(h, pid);
    case Drain =>
      assert h.delivered + h.s.queue + [] == h.delivered + h.s.queue;
  }

  /** Conservation over every run, whatever pids it uses and in whatever order. */
  lemma {:induction false} JobsAreConserved(h: History, es: seq<Event>)
    requires Accounted(h)
    ensures Accounted(After(h, es))
    decreases |es|
  {
    if es != [] {
      EventAccounted(h, es[0]);
      JobsAreConserved(Next(h, es[0]), es[1..]);
    }
  }

  lemma JobsAreConservedFromStart(es: seq<Event>)
    ensures Accounted(After(Start(), es))
  {
    JobsAreConserved(Start(), es);
  }

  // ----- Numbers and texts -----

  /** A new job comes first, under the next number, and the one after it gets the number behind. */
  lemma BeginExactly(h: History, pid: int, command: string)
    ensures var s := Next(h, Begin(pid, command)).s;
      && |s.jobs| == |h.s.jobs| + 1 && s.jobs[1..] == h.s.jobs
      && s.jobs[0] == Job(pid, h.s.next, command) && s.next == h.s.next + 1 && s.queue == h.s.queue
  {
  }

  function Begins(es: seq<Event>): nat {
    if es == [] then 0 else (if es[0].Begin? then 1 else 0) + Begins(es[1..])
  }

  /** While nothing is reaped numbers count up by one. */
  lemma {:induction false} NumbersCountUp(h: History, es: seq<Event>)
    requires forall e :: e in es ==> !e.Reap?
    ensures After(h, es).s.next == h.s.next + Begins(es)
    decreases |es|
  {
    if es != [] {
      assert es[0] in es && forall e :: e in es[1..] ==> e in es;
      NumbersCountUp(Next(h, es[0]), es[1..]);
    }
  }

  /** A reap of a listed pid queues one text: the number in brackets, a plus, two spaces, `Done` and the
      command, of which 127 characters are kept; and numbers start again if the list is empty then. */
  lemma ReapExactly(h: History, pid: int)
    ensures var r := Next(h, Reap(pid));
      match FindJob(h.s.jobs, pid)
      case None => r == h
      case Some(j) =>
        var full := "[" + Dec(j.id) + "]+  Done " + j.command;
        && r.s.queue == h.s.queue + [if |full| <= 127 then full else full[..127]]
        && r.s.next == if r.s.jobs == [] then 1 else h.s.next
  {
    if FindJob(h.s.jobs, pid) == None {
      NothingToReap(h, pid);
    } else {
      var j := FindJob(h.s.jobs, pid).value;
      var full := "[" + Dec(j.id) + "]+  Done " + j.command;
      assert DoneMessage(j) == if |full| <= 127 then full else full[..127];
    }
  }

  // ----- Jobs under one pid -----

  /** The listed jobs with a given pid, newest first. There is more than one if the process of a listed
      job has been reaped unnoticed and its pid handed out again. */
  function Of(jobs: seq<Job>, pid: int): seq<Job> {
    if jobs == [] then []
    else (if jobs[0].pid == pid then [jobs[0]] else []) + Of(jobs[1..], pid)
  }

  lemma {:induction false} OfIn(jobs: seq<Job>, pid: int, j: Job)
    ensures j in Of(jobs, pid) <==> j in jobs && j.pid == pid
  {
    if jobs != [] {
      OfIn(jobs[1..], pid, j);
      assert jobs == [jobs[0]] + jobs[1..];
    }
  }

  lemma {:induction false} OfFind(jobs: seq<Job>, pid: int)
    ensures FindJob(jobs, pid) == if Of(jobs, pid) == [] then None else Some(Of(jobs, pid)[0])
  {
    if jobs != [] { OfFind(jobs[1..], pid); }
  }

  /** Taking out a job takes it from the top of its stack and leaves the other stacks alone. */
  lemma {:induction false} OfWithout(jobs: seq<Job>, pid: int, other: int)
    ensures Of(WithoutFirst(jobs, pid), other) ==
            if other == pid && Of(jobs, pid) != [] then Of(jobs, pid)[1..] else Of(jobs, other)
  {
    if jobs != [] {
      OfWithout(jobs[1..], pid, other);
      if jobs[0].pid != pid {
        var more := [jobs[0]] + WithoutFirst(jobs[1..], pid);
        assert more[1..] == WithoutFirst(jobs[1..], pid) && WithoutFirst(jobs, pid) == more;
      }
    }
  }

  lemma {:induction false} OfNumbered(jobs: seq<Job>, next: nat, pid: int)
    requires Numbered(jobs, next)
    ensures Numbered(Of(jobs, pid), next)
  {
    if jobs != [] {
      OfNumbered(jobs[1..], jobs[0].id, pid);
      if jobs[0].pid != pid {
        NumberedBelow(Of(jobs[1..], pid), jobs[0].id, next);
        assert [] + Of(jobs[1..], pid) == Of(jobs[1..], pid);
      } else {
        assert ([jobs[0]] + Of(jobs[1..], pid))[1..] == Of(jobs[1..], pid);
      }
    }
  }

  /** What an event makes of the jobs under `pid`: registering puts one on top, a reap takes one off. */
  function OfAfter(h: History, e: Event, pid: int): seq<Job> {
    var was := Of(h.s.jobs, pid);
    match e
    case Begin(p, command) => if p == pid then [Job(pid, h.s.next, command)] + was else was
    case Reap(p) => if p == pid && was != [] then was[1..] else was
    case Drain => was
  }

  lemma OfNext(h: History, e: Event, pid: int)
    ensures Of(Next(h, e).s.jobs, pid) == OfAfter(h, e, pid)
  {
    if e.Begin? {
      var j := Job(e.pid, h.s.next, e.command);
      assert ([j] + h.s.jobs)[1..] == h.s.jobs;
    } else if e.Reap? {
      OfFind(h.s.jobs, e.pid);
      OfWithout(h.s.jobs, e.pid, pid);
    }
  }

  /** A reap takes the newest job with the pid, if there is one, and no other. */
  lemma ReapTakesNewest(h: History, pid: int)
    requires Accounted(h) && Of(h.s.jobs, pid) != []
    ensures var j := Of(h.s.jobs, pid)[0];
      && Next(h, Reap(pid)).finished == h.finished + [j]
      && Of(Next(h, Reap(pid)).s.jobs, pid) == Of(h.s.jobs, pid)[1..]
      && forall o :: o in h.s.jobs && o.pid == pid && o != j ==> o.id < j.id
  {
    var stack := Of(h.s.jobs, pid);
    OfFind(h.s.jobs, pid);
    OfNext(h, Reap(pid), pid);
    OfNumbered(h.s.jobs, h.s.next, pid);
    forall o | o in h.s.jobs && o.pid == pid && o != stack[0] ensures o.id < stack[0].id {
      OfIn(h.s.jobs, pid, o);
      var i :| 0 <= i < |stack| && stack[i] == o;
      NumberedMeans(stack, h.s.next, 0, i);
    }
  }

  /** Every reap of `pid` in the run finds one of `above` jobs registered before, or of those registered
      in the run itself. */
  predicate Matched(above: nat, pid: int, es: seq<Event>)
    decreases |es|
  {
    es == [] ||
    match es[0]
    case Begin(p, _) => Matched(if p == pid then above + 1 else above, pid, es[1..])
    case Reap(p) => if p == pid then above > 0 && Matched(above - 1, pid, es[1..]) else Matched(above, pid, es[1..])
    case Drain => Matched(above, pid, es[1..])
  }

  lemma {:induction false} FinishedGrows(h: History, es: seq<Event>)
    ensures h.finished <= After(h, es).finished
    decreases |es|
  {
    if es != [] { FinishedGrows(Next(h, es[0]), es[1..]); }
  }

  /** What a run has finished. */
  function Finishes(h: History, es: seq<Event>): seq<Job> {
    FinishedGrows(h, es);
    After(h, es).finished[|h.finished|..]
  }

  lemma FinishesStep(h: History, es: seq<Event>, j: Job)
    requires es != []
    ensures j in Finishes(h, es) <==>
            (Next(h, es[0]).finished == h.finished + [j]) || j in Finishes(Next(h, es[0]), es[1..])
  {
    var h1 := Next(h, es[0]);
    FinishedGrows(h1, es[1..]);
    var all := After(h, es).finished;
    assert all[|h.finished|..] == h1.finished[|h.finished|..] + all[|h1.finished|..];
    if h1.finished == h.finished + [j] { assert h1.finished[|h.finished|..] == [j]; }
  }

  /** Where job `j` is among those with its pid: `above` are newer, `below` older. */
  ghost predicate ListedAt(h: History, above: seq<Job>, j: Job, below: seq<Job>) {
    Accounted(h) && Of(h.s.jobs, j.pid) == above + ([j] + below)
  }

  lemma NewerDiffer(h: History, above: seq<Job>, j: Job, below: seq<Job>)
    requires ListedAt(h, above, j, below)
    ensures j !in above
  {
    OfNumbered(h.s.jobs, h.s.next, j.pid);
    var stack := Of(h.s.jobs, j.pid);
    forall i | 0 <= i < |above| ensures above[i] != j {
      assert stack[i] == above[i] && stack[|above|] == j;
      NumberedMeans(stack, h.s.next, i, |above|);
    }
  }

  lemma ListedBegin(h: History, above: seq<Job>, j: Job, below: seq<Job>, command: string)
    returns (above': seq<Job>)
    requires ListedAt(h, above, j, below)
    ensures ListedAt(Next(h, Begin(j.pid, command)), above', j, below) && |above'| == |above| + 1
  {
    var e := Begin(j.pid, command);
    EventAccounted(h, e);
    OfNext(h, e, j.pid);
    above' := [Job(j.pid, h.s.next, command)] + above;
    assert [above'[0]] + (above + ([j] + below)) == above' + ([j] + below);
  }

  lemma LastDiffers(done: seq<Job>, a: Job, b: Job)
    requires a != b
    ensures done + [a] != done + [b]
  {
    assert (done + [a])[|done|] == a && (done + [b])[|done|] == b;
  }

  lemma ListedReap(h: History, above: seq<Job>, j: Job, below: seq<Job>)
    requires ListedAt(h, above, j, below) && above != []
    ensures ListedAt(Next(h, Reap(j.pid)), above[1..], j, below)
    ensures Next(h, Reap(j.pid)).finished != h.finished + [j]
  {
    EventAccounted(h, Reap(j.pid));
    NewerDiffer(h, above, j, below);
    ReapTakesNewest(h, j.pid);
    assert (above + ([j] + below))[1..] == above[1..] + ([j] + below);
    LastDiffers(h.finished, above[0], j);
  }

  lemma ListedElse(h: History, above: seq<Job>, j: Job, below: seq<Job>, e: Event)
    requires ListedAt(h, above, j, below) && (e.Drain? || e.pid != j.pid)
    ensures ListedAt(Next(h, e), above, j, below) && Next(h, e).finished != h.finished + [j]
  {
    EventAccounted(h, e);
    OfNext(h, e, j.pid);
    if e.Reap? {
      NoSuchJob(h.s.jobs, e.pid);
      var f := FindJob(h.s.jobs, e.pid);
      if f.Some? { LastDiffers(h.finished, f.value, j); }
    }
  }

  /** The job after one event, unless that is the reap that takes it. */
  lemma ListedNext(h: History, above: seq<Job>, j: Job, below: seq<Job>, e: Event) returns (above': seq<Job>)
    requires ListedAt(h, above, j, below) && !(e == Reap(j.pid) && above == [])
    ensures ListedAt(Next(h, e), above', j, below) && Next(h, e).finished != h.finished + [j]
    ensures |above'| == |above| + (if e.Drain? || e.pid != j.pid then 0 else if e.Begin? then 1 else -1)
  {
    if e.Drain? || e.pid != j.pid {
      ListedElse(h, above, j, below, e);
      above' := above;
    } else if e.Begin? {
      above' := ListedBegin(h, above, j, below, e.command);
    } else {
      ListedReap(h, above, j, below);
      above' := above[1..];
    }
  }

  /** Exactly when a listed job is finished in a run: when some reap of its pid has no newer job to take.
      Until then it stays in the list. */
  lemma {:induction false} FinishedExactly(h: History, above: seq<Job>, j: Job, below: seq<Job>, es: seq<Event>)
    requires ListedAt(h, above, j, below)
    ensures Matched(|above|, j.pid, es) <==> j !in Finishes(h, es)
    ensures Matched(|above|, j.pid, es) ==> j in After(h, es).s.jobs
    decreases |es|
  {
    if es == [] {
      OfIn(h.s.jobs, j.pid, j);
      assert (above + ([j] + below))[|above|] == j;
    } else {
      FinishesStep(h, es, j);
      if es[0] == Reap(j.pid) && above == [] {
        ReapTakesNewest(h, j.pid);
      } else {
        var above' := ListedNext(h, above, j, below, es[0]);
        FinishedExactly(Next(h, es[0]), above', j, below, es[1..]);
      }
    }
  }

  lemma NothingToReap(h: History, pid: int)
    requires FindJob(h.s.jobs, pid) == None
    ensures Next(h, Reap(pid)) == h
  {
    var r := Next(h, Reap(pid));
    assert r.s == h.s && r.begun == h.begun && r.finished == h.finished && r.delivered == h.delivered;
  }

  /** A child reaped before it is registered is listed from then on, and its completion is not reported,
      until some later reap of its pid, which the kernel is free to hand out again, is not that of a job
      registered in between: exactly then it is reported as done. */
  lemma EarlyReapIsLost(h: History, pid: int, command: string, es: seq<Event>)
    requires Accounted(h) && FindJob(h.s.jobs, pid) == None
    ensures var j := Job(pid, h.s.next, command);
      var lost := After(h, [Reap(pid), Begin(pid, command)]);
      && lost.finished == h.finished && lost.s.queue == h.s.queue
      && (Matched(0, pid, es) <==> j !in Finishes(lost, es))
      && (Matched(0, pid, es) ==> j in After(lost, es).s.jobs)
  {
    var j := Job(pid, h.s.next, command);
    var lost := Next(h, Begin(pid, command));
    var e := Begin(pid, command);
    assert [Reap(pid), e][1..] == [e] && [e][1..] == [];
    NothingToReap(h, pid);
    assert After(h, [e]) == lost;
    assert After(h, [Reap(pid), e]) == After(h, [e]);
    EventAccounted(h, Begin(pid, command));
    OfFind(h.s.jobs, pid);
    OfNext(h, Begin(pid, command), pid);
    assert [j] + [] == [j] && [] + [j] == [j];
    FinishedExactly(lost, [], j, [], es);
  }

  // ----- Fresh pids -----

  /** When no listed job has lost its process the kernel gives a new one a pid that is not listed. */
  predicate CanHappen(s: JobState, e: Event) {
    e.Begin? ==> FindJob(s.jobs, e.pid) == None
  }

  predicate Possible(h: History, es: seq<Event>)
    decreases |es|
  {
    es == [] || (CanHappen(h.s, es[0]) && Possible(Next(h, es[0]), es[1..]))
  }

  ghost predicate OneEach(jobs: seq<Job>) {
    forall pid :: |Of(jobs, pid)| <= 1
  }

  /** Then live jobs have different pids, over every run. */
  lemma {:induction false} PidsDiffer(h: History, es: seq<Event>)
    requires OneEach(h.s.jobs) && Possible(h, es)
    ensures OneEach(After(h, es).s.jobs)
    decreases |es|
  {
    if es != [] {
      forall pid ensures |Of(Next(h, es[0]).s.jobs, pid)| <= 1 {
        OfNext(h, es[0], pid);
        OfFind(h.s.jobs, pid);
      }
      PidsDiffer(Next(h, es[0]), es[1..]);
    }
  }

  lemma EventOnOther(h: History, e: Event, j: Job)
    requires !e.Drain? ==> e.pid != j.pid
    ensures j in Next(h, e).s.jobs <==> j in h.s.jobs
  {
    OfNext(h, e, j.pid);
    OfIn(h.s.jobs, j.pid, j);
    OfIn(Next(h, e).s.jobs, j.pid, j);
  }

  /** The only job under its pid leaves when that is reaped. */
  lemma ReapRemoves(h: History, j: Job)
    requires |Of(h.s.jobs, j.pid)| <= 1
    ensures j !in Next(h, Reap(j.pid)).s.jobs
  {
    OfNext(h, Reap(j.pid), j.pid);
    OfIn(Next(h, Reap(j.pid)).s.jobs, j.pid, j);
  }

  /** Exactly when a job, the only one under its pid, is listed after a run in which that pid is not given
      out again: when it was listed before and not reaped in that run. */
  lemma {:induction false} ListedUntilReaped(h: History, j: Job, es: seq<Event>)
    requires |Of(h.s.jobs, j.pid)| <= 1
    requires forall e :: e in es && e.Begin? ==> e.pid != j.pid
    ensures j in After(h, es).s.jobs <==> j in h.s.jobs && Reap(j.pid) !in es
    decreases |es|
  {
    if es != [] {
      assert es == [es[0]] + es[1..] && es[0] in es;
      OfNext(h, es[0], j.pid);
      ListedUntilReaped(Next(h, es[0]), j, es[1..]);
      if es[0] == Reap(j.pid) {
        ReapRemoves(h, j);
      } else {
        EventOnOther(h, es[0], j);
      }
    }
  }

  // ----- The text of a single command -----

  /** The loop that writes it, a space before every token but the first; `strcat` leaves the buffer, and
      there is no text, exactly if it does not fit. */
  method CommandText(tokens: seq<string>) returns (text: Option<string>)
    ensures text == if |Join(tokens)| < MAX_STR_LEN then Some(Join(tokens)) else None
  {
    var buf := new char[MAX_STR_LEN];
    buf[0] := NUL;
    var len, ok := 0, true;
    for i := 0 to |tokens|
      invariant Written(buf, Join(tokens[..i])) && len == |Join(tokens[..i])|
    {
      if i > 0 { TextGrows(tokens, i); } else { assert tokens[..1] == [tokens[0]] && "" + tokens[0] == tokens[0]; }
      PrefixShorter(tokens, i + 1);
      ghost var text := Join(tokens[..i]);
      if i > 0 {
        ok := Append(buf, len, " ", text);
        if !ok {
          return None;
        }
        len, text := len + 1, text + " ";
      }
      ok := Append(buf, len, tokens[i], text);
      if !ok {
        return None;
      }
      len := len + |tokens[i]|;
    }
    assert tokens[..|tokens|] == tokens;
    text := Some(buf[..len]);
  }

  // ----- The lists -----

  /** The queue of completion messages, in order of completion. */
  class MessageQueue {
    var head: Cell?<string>
    ghost var cells: seq<Cell<string>>
    ghost var texts: seq<string>

    ghost predicate Valid()
      reads this, cells
    {
      Chain(head, cells, texts)
    }

    constructor ()
      ensures Valid() && cells == [] && texts == []
    {
      head, cells, texts := null, [], [];
    }

    method Last() returns (last: Cell?<string>)
      requires Valid()
      ensures last == if cells == [] then null else cells[|cells| - 1]
    {
      last := head;
      if last != null {
        ghost var at := 0;
        while last.next != null
          invariant at < |cells| && last == cells[at]
          decreases |cells| - at
        {
          last, at := last.next, at + 1;
        }
      }
    }

    method Attach(last: Cell?<string>, cell: Cell<string>)
      requires Valid() && cell !in cells && cell.next == null
      requires last == if cells == [] then null else cells[|cells| - 1]
      modifies this, last
      ensures Valid() && cells == old(cells) + [cell] && texts == old(texts) + [cell.data]
    {
      if last == null {
        head := cell;
      } else {
        last.next := cell;
      }
      Appended(head, cells, texts, cell);
      cells, texts := cells + [cell], texts + [cell.data];
    }

    /** `add_bg_message`: to the end of the queue. */
    method Add(message: string)
      requires Valid()
      modifies this, cells
      ensures Valid() && texts == old(texts) + [message]
    {
      var cell := new Cell(message, null);
      var last := Last();
      Attach(last, cell);
    }

    /** `get_next_bg_message`. */
    method GetNext() returns (message: Option<string>)
      requires Valid()
      modifies this
      ensures Valid()
      ensures if old(texts) == [] then message == None && texts == []
              else message == Some(old(texts)[0]) && texts == old(texts)[1..]
    {
      if head == null {
        return None;
      }
      message := Some(head.data);
      head := head.next;
      cells, texts := cells[1..], texts[1..];
    }

    /** What the main loop prints before each prompt: everything queued, in order. */
    method Drain() returns (printed: seq<string>)
      requires Valid()
      modifies this
      ensures Valid() && printed == old(texts) && texts == []
    {
      printed := [];
      ghost var all := texts;
      var message := GetNext();
      MoveOn([], all);
      while message.Some?
        invariant Valid()
        invariant message.Some? ==> all == printed + [message.value] + texts
        invariant message == None ==> all == printed && texts == []
        decreases |texts|, message.Some?
      {
        printed := printed + [message.value];
        MoveOn(printed, texts);
        message := GetNext();
      }
    }
  }

  /** Messages yet to be read, behind those already printed. */
  lemma MoveOn(done: seq<string>, rest: seq<string>)
    ensures done + [] == done
    ensures rest != [] ==> done + rest == done + [rest[0]] + rest[1..]
  {
    if rest != [] { assert rest == [rest[0]] + rest[1..]; }
  }

  /** The list of running jobs and the number of the next one. */
  class JobTable {
    var head: Cell?<Job>
    var nextJobId: nat
    ghost var cells: seq<Cell<Job>>
    ghost var jobs: seq<Job>

    ghost predicate Valid()
      reads this, cells
    {
      Chain(head, cells, jobs)
    }

    /** `init_bg_processes`. */
    constructor ()
      ensures Valid() && cells == [] && View([]) == Start().s
    {
      head, nextJobId, cells, jobs := null, 1, [], [];
    }

    /** The abstract state, together with what is queued. */
    ghost function View(queue: seq<string>): JobState
      reads this
    {
      JobState(jobs, nextJobId, queue)
    }

    /** `add_bg_process`. */
    method Add(pid: int, command: string) returns (id: nat)
      requires Valid()
      modifies this
      ensures Valid() && id == old(nextJobId)
      ensures forall q :: View(q) == Added(old(View(q)), pid, command)
    {
      id := nextJobId;
      nextJobId := nextJobId + 1;
      var cell := new Cell(Job(pid, id, command), head);
      Prepended(cell, head, cells, jobs);
      head, cells, jobs := cell, [cell] + cells, [cell.data] + jobs;
    }

    /** The search both the lookup and the removal begin with; it also keeps the cell before. */
    method Find(pid: int) returns (prev: Cell?<Job>, current: Cell?<Job>, ghost at: nat)
      requires Valid()
      ensures at <= |cells| && current == At(cells, at)
      ensures prev == if at == 0 then null else cells[at - 1]
      ensures current != null ==> jobs[at].pid == pid
      ensures forall j :: 0 <= j < at ==> jobs[j].pid != pid
    {
      current, prev, at := head, null, 0;
      while current != null && current.data.pid != pid
        invariant at <= |cells| && current == At(cells, at)
        invariant prev == if at == 0 then null else cells[at - 1]
        invariant forall j :: 0 <= j < at ==> jobs[j].pid != pid
        decreases |cells| - at
      {
        prev, current, at := current, current.next, at + 1;
      }
    }

    /** `find_bg_process_by_pid`. */
    method FindByPid(pid: int) returns (job: Option<Job>)
      requires Valid()
      ensures job == FindJob(jobs, pid)
    {
      ghost var at;
      var prev, current;
      prev, current, at := Find(pid);
      NoSuchJob(jobs, pid);
      if current == null {
        return None;
      }
      FindJobAt(jobs, pid, at);
      job := Some(current.data);
    }

    /** Unlink the cell at `at`: the head moves, or the cell before is relinked. */
    method Unlink(prev: Cell?<Job>, current: Cell<Job>, ghost at: nat)
      requires Valid() && at < |cells| && current == cells[at]
      requires prev == if at == 0 then null else cells[at - 1]
      modifies this`head, this`cells, this`jobs, prev
      ensures Valid() && jobs == old(jobs)[..at] + old(jobs)[at + 1..]
    {
      if prev == null {
        head := current.next;
      } else {
        prev.next := current.next;
      }
      Bypassed(head, cells, jobs, at);
      cells, jobs := cells[..at] + cells[at + 1..], jobs[..at] + jobs[at + 1..];
    }

    /** `remove_bg_process`. */
    method Remove(pid: int)
      requires Valid()
      modifies this, cells
      ensures Valid() && forall q :: View(q) == Removed(old(View(q)), pid)
    {
      ghost var at;
      var prev, current;
      prev, current, at := Find(pid);
      NoSuchJob(jobs, pid);
      if current != null {
        FindJobAt(jobs, pid, at);
        Unlink(prev, current, at);
        if head == null {
          nextJobId := 1;
        }
      }
    }

    /** `mark_process_completed`. */
    method MarkCompleted(pid: int, queue: MessageQueue)
      requires Valid() && queue.Valid()
      modifies this, cells, queue, queue.cells
      ensures Valid() && queue.Valid()
      ensures View(queue.texts) == Completed(old(View(queue.texts)), pid)
    {
      var job := FindByPid(pid);
      if job.Some? {
        queue.Add(DoneMessage(job.value));
        Remove(pid);
      }
    }
  }
}
