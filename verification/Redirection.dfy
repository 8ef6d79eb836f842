/** `execute_command`: a builtin runs in the shell's own process, so descriptors 0 and 1 are saved,
    replaced and put back around it; an external command runs in a child. */
module Redirection {
  import opened CStrings
  import opened Options
  import opened Descriptors
  import opened Jobs

  class Process {
    var fds: Table

    constructor (fds: Table)
      ensures this.fds == fds
    {
      this.fds := fds;
    }

    /** `dup`; `ok` says whether the system has a descriptor to spare. */
    method Dup(fd: nat, ok: bool) returns (copy: int)
      modifies this
      ensures copy == -1 || (copy >= 0 && copy !in old(fds))
      ensures copy != -1 <==> ok && fd in old(fds)
      ensures fds == if copy == -1 then old(fds) else old(fds)[copy := old(fds)[fd]]
    {
      copy := -1;
      if ok && fd in fds {
        copy := 0;
        ghost var bound := FreeDescriptor(fds.Keys);
        while copy in fds
          invariant 0 <= copy <= bound
          decreases bound - copy
        {
          copy := copy + 1;
        }
        fds := fds[copy := fds[fd]];
      }
    }

    method Dup2(from: int, to: nat, ok: bool) returns (done: bool)
      modifies this
      ensures done <==> ok && from in old(fds)
      ensures fds == if done then Descriptors.Dup2(old(fds), from, to) else old(fds)
    {
      done := ok && from in fds;
      if done {
        fds := Descriptors.Dup2(fds, from, to);
      }
    }

    /** `safe_close`. */
    method SafeClose(fd: int)
      modifies this
      ensures fds == if fd >= 0 then Descriptors.Close(old(fds), fd) else old(fds)
    {
      if fd >= 0 {
        fds := Descriptors.Close(fds, fd);
      }
    }
  }

  /** Which of the calls around the builtin succeed. */
  datatype Luck = Luck(dupIn: bool, dup2In: bool, dupOut: bool, dup2Out: bool, backIn: bool, backOut: bool)

  predicate Redirects(fds: Table, input: nat, output: nat) {
    && STDIN in fds && STDOUT in fds
    && (input == STDIN || (input > 2 && input in fds))
    && (output == STDOUT || (output > 2 && output in fds))
    && input != output
  }

  function WithoutRedirected(fds: Table, input: nat, output: nat): Table {
    fds - (if input == STDIN then {} else {input}) - (if output == STDOUT then {} else {output})
  }

  predicate InRedirected(input: nat, luck: Luck) {
    input != STDIN && luck.dupIn && luck.dup2In
  }

  predicate OutRedirected(input: nat, output: nat, luck: Luck) {
    output != STDOUT && (input == STDIN || InRedirected(input, luck)) && luck.dupOut && luck.dup2Out
  }

  /** The table in the end: the redirected descriptors are closed, and a standard descriptor refers to
      another file than before only if it was redirected and could not be put back. */
  function Final(t: Table, input: nat, output: nat, luck: Luck): Table
    requires Redirects(t, input, output)
  {
    WithoutRedirected(t, input, output)
      [STDIN := if InRedirected(input, luck) && !luck.backIn then t[input] else t[STDIN]]
      [STDOUT := if OutRedirected(input, output, luck) && !luck.backOut then t[output] else t[STDOUT]]
  }

  /** The same, descriptor by descriptor. */
  lemma FinalMeans(t: Table, input: nat, output: nat, luck: Luck, fd: nat)
    requires Redirects(t, input, output)
    ensures var f := Final(t, input, output, luck);
      var inOk, outOk := luck.dupIn && luck.dup2In, luck.dupOut && luck.dup2Out;
      && (fd in f <==> fd in t && (fd == 0 || fd != input) && (fd == 1 || fd != output))
      && (fd in f && fd != 0 && fd != 1 ==> f[fd] == t[fd])
      && f[0] == (if input != 0 && inOk && !luck.backIn then t[input] else t[0])
      && f[1] == if output != 1 && (input == 0 || inOk) && outOk && !luck.backOut then t[output] else t[1]
  {
  }

  lemma WithoutMeans(t: Table, input: nat, output: nat, fd: nat)
    ensures var w := WithoutRedirected(t, input, output);
      && (fd in w <==> fd in t && (fd != input || input == 0) && (fd != output || output == 1))
      && (fd in w ==> w[fd] == t[fd])
  {
  }

  /** Exactly when the shell has its own table back, less the redirected descriptors. */
  lemma RestoredExactly(t: Table, input: nat, output: nat, luck: Luck)
    requires Redirects(t, input, output)
    ensures Final(t, input, output, luck) == WithoutRedirected(t, input, output)
      <==> (InRedirected(input, luck) && !luck.backIn ==> t[input] == t[STDIN])
           && (OutRedirected(input, output, luck) && !luck.backOut ==> t[output] == t[STDOUT])
  {
    var f, w := Final(t, input, output, luck), WithoutRedirected(t, input, output);
    assert STDIN in w && w[STDIN] == t[STDIN] && STDOUT in w && w[STDOUT] == t[STDOUT];
    if f == w {
      assert f[STDIN] == w[STDIN] && f[STDOUT] == w[STDOUT];
    }
  }

  /** Standard descriptor `fd` saved at `saved`, replaced by `given`, and `given` closed. */
  function Swapped(t: Table, fd: nat, given: nat, saved: nat): Table
    requires fd in t && given in t
  {
    Close(t[saved := t[fd]][fd := t[given]], given)
  }

  /** `dup2` back, if it works, and close of the saved copy. */
  function PutBack(s: Table, saved: nat, fd: nat, ok: bool): Table
    requires saved in s
  {
    Close(if ok then Descriptors.Dup2(s, saved, fd) else s, saved)
  }

  /** What both together leave. */
  function Left(t: Table, fd: nat, given: nat, ok: bool): Table
    requires fd in t && given in t
  {
    Close(t, given)[fd := if ok then t[fd] else t[given]]
  }

  /** Restoring undoes a swap, and leaves an outer swap of another descriptor as it is. */
  lemma SwapUndone(t: Table, fd: nat, given: nat, saved: nat, ok: bool)
    requires fd in t && given in t && given != fd && saved !in t
    ensures var s := Swapped(t, fd, given, saved);
      saved in s && PutBack(s, saved, fd, ok) == Left(t, fd, given, ok)
  {
  }

  lemma InnerSwapUndone(
      t: Table, a: nat, givenA: nat, savedA: nat, b: nat, givenB: nat, savedB: nat, ok: bool)
    requires a in t && b in t && givenA in t && givenB in t && savedA !in t
    requires a != b && givenA != givenB && {givenA, givenB} !! {a, b}
    requires savedB !in Swapped(t, a, givenA, savedA)
    ensures var s := Swapped(Swapped(t, a, givenA, savedA), b, givenB, savedB);
      savedA in s && PutBack(s, savedA, a, ok) == Swapped(Left(t, a, givenA, ok), b, givenB, savedB)
  {
  }

  /** Redirect one standard descriptor; a failure closes what it was given. */
  method Redirect(p: Process, fd: nat, given: nat, dupOk: bool, dup2Ok: bool) returns (saved: int)
    requires fd in p.fds && given in p.fds && given != fd
    modifies p
    ensures saved == -1 <==> !(dupOk && dup2Ok)
    ensures saved == -1 ==> p.fds == Close(old(p.fds), given)
    ensures saved != -1 ==> saved >= 0 && saved !in old(p.fds) && p.fds == Swapped(old(p.fds), fd, given, saved)
  {
    saved := p.Dup(fd, dupOk);
    if saved != -1 {
      var done := p.Dup2(given, fd, dup2Ok);
      if !done {
        p.SafeClose(saved);
        saved := -1;
      }
    }
    p.SafeClose(given);
  }

  /** Put one standard descriptor back. */
  method Restore(p: Process, saved: nat, fd: nat, ok: bool)
    requires saved in p.fds
    modifies p
    ensures p.fds == PutBack(old(p.fds), saved, fd, ok)
  {
    var done := p.Dup2(saved, fd, ok);
    p.SafeClose(saved);
  }

  method Release(p: Process, fd: nat, standard: nat)
    modifies p
    ensures p.fds == if fd == standard then old(p.fds) else Close(old(p.fds), fd)
  {
    if fd != standard {
      p.SafeClose(fd);
    }
  }

  /** The table once the input is redirected; `oldIn` is the saved copy, or -1. */
  function InputDone(t: Table, input: nat, oldIn: int): Table
    requires STDIN in t && input in t
  {
    if oldIn < 0 then t else Swapped(t, STDIN, input, oldIn)
  }

  predicate InputState(t: Table, input: nat, output: nat, oldIn: int, luck: Luck) {
    && Redirects(t, input, output)
    && if oldIn < 0 then input == STDIN else InRedirected(input, luck) && oldIn !in t
  }

  /** When the output cannot be redirected, putting the input back leaves the final table. */
  lemma OutputFailed(t: Table, input: nat, output: nat, oldIn: int, luck: Luck)
    requires InputState(t, input, output, oldIn, luck)
    requires output != STDOUT && !OutRedirected(input, output, luck)
    ensures var s := Close(InputDone(t, input, oldIn), output);
      && (oldIn >= 0 ==> oldIn in s)
      && (if oldIn < 0 then s else PutBack(s, oldIn, STDIN, luck.backIn)) == Final(t, input, output, luck)
  {
  }

  /** When only the input is redirected. */
  lemma InputPutBack(t: Table, input: nat, oldIn: int, luck: Luck)
    requires InputState(t, input, STDOUT, oldIn, luck)
    ensures var s := InputDone(t, input, oldIn);
      && (oldIn >= 0 ==> oldIn in s)
      && (if oldIn < 0 then s else PutBack(s, oldIn, STDIN, luck.backIn)) == Final(t, input, STDOUT, luck)
  {
    if oldIn >= 0 { SwapUndone(t, STDIN, input, oldIn, luck.backIn); }
  }

  /** When the output is redirected, too: input and output are put back, in this order. */
  lemma BothPutBack(t: Table, input: nat, output: nat, oldIn: int, oldOut: nat, luck: Luck)
    requires InputState(t, input, output, oldIn, luck) && OutRedirected(input, output, luck)
    requires oldOut !in InputDone(t, input, oldIn)
    ensures var s := Swapped(InputDone(t, input, oldIn), STDOUT, output, oldOut);
      && (oldIn >= 0 ==> oldIn in s)
      && var s' := if oldIn < 0 then s else PutBack(s, oldIn, STDIN, luck.backIn);
         oldOut in s' && PutBack(s', oldOut, STDOUT, luck.backOut) == Final(t, input, output, luck)
  {
    if oldIn >= 0 {
      InnerSwapUndone(t, STDIN, input, oldIn, STDOUT, output, oldOut, luck.backIn);
      SwapUndone(Left(t, STDIN, input, luck.backIn), STDOUT, output, oldOut, luck.backOut);
    } else {
      SwapUndone(t, STDOUT, output, oldOut, luck.backOut);
    }
  }

  /** Run the builtin with its output redirected, and put everything back. */
  method RunRedirected(p: Process, ghost t: Table, input: nat, oldIn: int, output: nat, luck: Luck)
    returns (ran: bool, ghost during: Table)
    requires InputState(t, input, output, oldIn, luck) && p.fds == InputDone(t, input, oldIn)
    requires output != STDOUT
    modifies p
    ensures p.fds == Final(t, input, output, luck)
    ensures ran <==> OutRedirected(input, output, luck)
    ensures ran ==> STDIN in during && during[STDIN] == t[input] && STDOUT in during && during[STDOUT] == t[output]
  {
    var oldOut := Redirect(p, STDOUT, output, luck.dupOut, luck.dup2Out);
    ran := oldOut != -1;
    if ran {
      BothPutBack(t, input, output, oldIn, oldOut, luck);
    } else {
      OutputFailed(t, input, output, oldIn, luck);
    }
    during := p.fds;
    if oldIn >= 0 {
      Restore(p, oldIn, STDIN, luck.backIn);
    }
    if ran {
      Restore(p, oldOut, STDOUT, luck.backOut);
    }
  }

  /** Run the builtin with the output left alone, and put the input back. */
  method RunPlain(p: Process, ghost t: Table, input: nat, oldIn: int, luck: Luck) returns (ghost during: Table)
    requires InputState(t, input, STDOUT, oldIn, luck) && p.fds == InputDone(t, input, oldIn)
    modifies p
    ensures p.fds == Final(t, input, STDOUT, luck)
    ensures STDIN in during && during[STDIN] == t[input] && STDOUT in during && during[STDOUT] == t[STDOUT]
  {
    InputPutBack(t, input, oldIn, luck);
    during := p.fds;
    if oldIn >= 0 {
      Restore(p, oldIn, STDIN, luck.backIn);
    }
  }

  /** Around a builtin, for every pattern of failing calls: the table in the end, with no saved copy left
      open; when the builtin runs, and on which files; and the one failure that has the queued messages
      printed. */
  method ExecuteBuiltin(p: Process, input: nat, output: nat, luck: Luck, queue: MessageQueue)
    returns (ran: bool, printed: seq<string>, ghost during: Table)
    requires Redirects(p.fds, input, output) && queue.Valid()
    modifies p, queue
    ensures p.fds == Final(old(p.fds), input, output, luck)
    ensures ran <==> (input == 0 || (luck.dupIn && luck.dup2In)) && (output == 1 || (luck.dupOut && luck.dup2Out))
    ensures ran ==> STDIN in during && during[STDIN] == old(p.fds)[input]
                    && STDOUT in during && during[STDOUT] == old(p.fds)[output]
    ensures queue.Valid() && printed + queue.texts == old(queue.texts)
    ensures if output != 1 && (input == 0 || (luck.dupIn && luck.dup2In)) && luck.dupOut && !luck.dup2Out
            then queue.texts == [] else printed == []
  {
    ghost var t := p.fds;
    during, printed := t, [];
    var oldIn := -1;
    if input != STDIN {
      oldIn := Redirect(p, STDIN, input, luck.dupIn, luck.dup2In);
      if oldIn == -1 {
        Release(p, output, STDOUT);
        return false, printed, during;
      }
    }
    if output == STDOUT {
      during := RunPlain(p, t, input, oldIn, luck);
      ran := true;
    } else {
      ran, during := RunRedirected(p, t, input, oldIn, output, luck);
      if !ran && luck.dupOut {
        printed := queue.Drain();
      }
    }
  }

  /** What became of an external command. */
  datatype Launch = Unknown | NotForked | Awaited(pid: int) | Recorded(id: nat) | TextTooLong

  /** What the status variable says once `waitpid` has returned for a foreground command. */
  datatype WaitStatus = ExitedWith(code: int) | NotExited

  /** The shell's side of an external command. If the command is unknown both descriptors stay open; a
      background command is registered under the text of its tokens, which has to fit its buffer; a
      foreground command is waited for. */
  method ExecuteExternal(p: Process, input: nat, output: nat, known: bool, forked: Option<int>,
                         tokens: seq<string>, background: bool, jobs: JobTable, wait: WaitStatus)
    returns (r: Launch, status: int)
    requires jobs.Valid()
    modifies p, jobs
    ensures p.fds == if known then WithoutRedirected(old(p.fds), input, output) else old(p.fds)
    ensures r == if !known then Unknown
                 else if forked == None then NotForked
                 else if !background then Awaited(forked.value)
                 else if |Join(tokens)| >= MAX_STR_LEN then TextTooLong
                 else Recorded(old(jobs.nextJobId))
    ensures status == if r.Awaited? && wait.ExitedWith? then wait.code else if r.Recorded? then 0 else -1
    ensures jobs.Valid()
    ensures forall q ::
      jobs.View(q) == (if r.Recorded? then Added(old(jobs.View(q)), forked.value, Join(tokens)) else old(jobs.View(q)))
  {
    if !known {
      return Unknown, -1;
    }
    Release(p, input, STDIN);
    Release(p, output, STDOUT);
    if forked == None {
      return NotForked, -1;
    }
    if !background {
      return Awaited(forked.value), if wait.ExitedWith? then wait.code else -1;
    }
    var text := CommandText(tokens);
    if text == None {
      return TextTooLong, -1;
    }
    var id := jobs.Add(forked.value, text.value);
    r, status := Recorded(id), 0;
  }

  /** The child's side: when it gets to replace itself by the command, that has the redirected files as
      its descriptors 0 and 1 and no other copy of them. */
  method ExternalChild(p: Process, input: nat, output: nat, dup2In: bool, dup2Out: bool) returns (execs: bool)
    requires Redirects(p.fds, input, output)
    modifies p
    ensures execs <==> (input == STDIN || dup2In) && (output == STDOUT || dup2Out)
    ensures execs ==>
      p.fds == WithoutRedirected(old(p.fds), input, output)
                 [STDIN := old(p.fds)[input]][STDOUT := old(p.fds)[output]]
  {
    if input != STDIN {
      var done := p.Dup2(input, STDIN, dup2In);
      if !done {
        return false;
      }
      p.SafeClose(input);
    }
    if output != STDOUT {
      var done := p.Dup2(output, STDOUT, dup2Out);
      if !done {
        return false;
      }
      p.SafeClose(output);
    }
    execs := true;
  }
}
