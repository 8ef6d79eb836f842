/** The first half of `handle_pipeline`: the token array is cut at its `|`s in place, the commands are
    verified, a final `&` is taken off, and a background pipeline is written down as text. */
module PipelineSplit {
  import opened CStrings
  import opened Tokenizer
  import opened Options
  import opened TokenArrays

  // ----- Specification -----

  function Segments(ts: seq<string>): (segs: seq<seq<string>>)
    ensures segs != []
  {
    if ts == [] then [[]]
    else
      var rest := Segments(ts[1..]);
      if ts[0] == "|" then [[]] + rest
      else [[ts[0]] + rest[0]] + rest[1..]
  }

  function Interleave(segs: seq<seq<string>>): seq<string>
    requires segs != []
  {
    if |segs| == 1 then segs[0] else segs[0] + ["|"] + Interleave(segs[1..])
  }

  function Pipes(ts: seq<string>): nat {
    if ts == [] then 0 else (if ts[0] == "|" then 1 else 0) + Pipes(ts[1..])
  }

  lemma InterleaveFirst(t: string, segs: seq<seq<string>>)
    requires segs != []
    ensures Interleave([[t] + segs[0]] + segs[1..]) == [t] + Interleave(segs)
  {
    var more := [[t] + segs[0]] + segs[1..];
    assert more[1..] == segs[1..];
    if |segs| > 1 {
      assert [t] + segs[0] + ["|"] + Interleave(segs[1..]) == [t] + Interleave(segs);
    }
  }

  /** The split is lossless... */
  lemma {:induction false} SegmentsInterleave(ts: seq<string>)
    ensures Interleave(Segments(ts)) == ts
    ensures |Segments(ts)| == Pipes(ts) + 1
    ensures forall s :: s in Segments(ts) ==> "|" !in s
  {
    if ts != [] {
      var rest := Segments(ts[1..]);
      SegmentsInterleave(ts[1..]);
      assert ts == [ts[0]] + ts[1..];
      if ts[0] == "|" {
        assert Segments(ts)[1..] == rest;
      } else {
        InterleaveFirst(ts[0], rest);
        forall s | s in Segments(ts) ensures "|" !in s {
          if s != [ts[0]] + rest[0] { assert s in rest; } else { assert rest[0] in rest; }
        }
      }
    }
  }

  lemma {:induction false} SegmentsOfJoined(seg: seq<string>, ts: seq<string>)
    requires "|" !in seg
    ensures Segments(seg + ["|"] + ts) == [seg] + Segments(ts)
    ensures Segments(seg) == [seg]
    decreases |seg|
  {
    if seg == [] {
      assert (seg + ["|"] + ts)[1..] == ts;
    } else {
      assert (seg + ["|"] + ts)[1..] == seg[1..] + ["|"] + ts;
      SegmentsOfJoined(seg[1..], ts);
      assert [seg[0]] + seg[1..] == seg;
      assert ([seg[1..]] + Segments(ts))[1..] == Segments(ts);
    }
  }

  /** ...and the only one there is. */
  lemma {:induction false} SplitIsUnique(segs: seq<seq<string>>)
    requires segs != [] && forall s :: s in segs ==> "|" !in s
    ensures Segments(Interleave(segs)) == segs
    decreases |segs|
  {
    assert segs[0] in segs;
    if |segs| == 1 {
      SegmentsOfJoined(segs[0], []);
    } else {
      assert forall s :: s in segs[1..] ==> s in segs;
      SplitIsUnique(segs[1..]);
      SegmentsOfJoined(segs[0], Interleave(segs[1..]));
      assert segs == [segs[0]] + segs[1..];
    }
  }

  // ----- Cutting in place -----

  /** Progress of the cut: the commands found so far, in place, and the one being read. */
  ghost predicate Cutting(a: seq<Token>, cmds: seq<nat>, done: seq<seq<string>>, cur: seq<string>,
                          i: nat, rest: seq<string>)
  {
    && |cmds| == |done| + 1
    && (forall k :: 0 <= k < |done| ==> Vector(a, cmds[k], done[k]) && cmds[k] + |done[k]| < cmds[|done|])
    && cmds[|done|] + |cur| == i
    && i + |rest| < |a|
    && (forall k :: 0 <= k < |cur| ==> a[cmds[|done|] + k] == Some(cur[k]))
    && Vector(a, i, rest)
  }

  lemma CutHere(a: seq<Token>, cmds: seq<nat>, done: seq<seq<string>>, cur: seq<string>,
                i: nat, rest: seq<string>)
    requires Cutting(a, cmds, done, cur, i, rest) && rest != []
    ensures Cutting(a[i := None], cmds + [i + 1], done + [cur], [], i + 1, rest[1..])
  {
    var a', cmds', done' := a[i := None], cmds + [i + 1], done + [cur];
    forall k | 0 <= k < |done'| ensures Vector(a', cmds'[k], done'[k]) && cmds'[k] + |done'[k]| < i + 1 {
      if k < |done| { assert Vector(a, cmds[k], done[k]) && done'[k] == done[k]; }
    }
    forall k | 0 <= k < |rest[1..]| ensures a'[i + 1 + k] == Some(rest[1..][k]) {
      assert a[i + (k + 1)] == Some(rest[k + 1]);
    }
    assert a[i + |rest|] == None;
  }

  lemma ReadOn(a: seq<Token>, cmds: seq<nat>, done: seq<seq<string>>, cur: seq<string>,
               i: nat, rest: seq<string>)
    requires Cutting(a, cmds, done, cur, i, rest) && rest != []
    ensures Cutting(a, cmds, done, cur + [rest[0]], i + 1, rest[1..])
  {
    assert a[i + 0] == Some(rest[0]);
    forall k | 0 <= k < |rest[1..]| ensures a[i + 1 + k] == Some(rest[1..][k]) {
      assert a[i + (k + 1)] == Some(rest[k + 1]);
    }
  }

  /** The segments completed after token `tok`, and what begins the next one. */
  function DoneAfter(done: seq<seq<string>>, cur: seq<string>, tok: string): seq<seq<string>> {
    if tok == "|" then done + [cur] else done
  }

  function CurAfter(cur: seq<string>, tok: string): seq<string> {
    if tok == "|" then [] else cur + [tok]
  }

  lemma SegmentsStep(done: seq<seq<string>>, cur: seq<string>, rest: seq<string>)
    requires rest != []
    ensures Joined(done, cur, rest) == Joined(DoneAfter(done, cur, rest[0]), CurAfter(cur, rest[0]), rest[1..])
  {
    var r := Segments(rest[1..]);
    if rest[0] == "|" {
      assert ([[]] + r)[1..] == r && cur + [] == cur && [] + r[0] == r[0];
      assert [r[0]] + r[1..] == r;
      assert done + ([cur] + r) == (done + [cur]) + r;
    } else {
      assert ([[rest[0]] + r[0]] + r[1..])[1..] == r[1..];
      assert cur + ([rest[0]] + r[0]) == (cur + [rest[0]]) + r[0];
    }
  }

  /** All segments, when `done` are complete, `cur` begins the next one and `rest` is to come. */
  function Joined(done: seq<seq<string>>, cur: seq<string>, rest: seq<string>): seq<seq<string>> {
    done + ([cur + Segments(rest)[0]] + Segments(rest)[1..])
  }

  /** `v[i] = NULL`. */
  method Clear(tokens: array<Token>, i: nat)
    requires i < tokens.Length
    modifies tokens
    ensures tokens[..] == old(tokens[..])[i := None]
  {
    tokens[i] := None;
  }

  /** What one turn of the loop does to the token under the cursor. */
  method SplitStep(tokens: array<Token>, i: nat, tok: string, cmds: seq<nat>,
                   ghost done: seq<seq<string>>, ghost cur: seq<string>, ghost rest: seq<string>)
    returns (cmds': seq<nat>)
    requires Cutting(tokens[..], cmds, done, cur, i, rest) && rest != [] && tok == rest[0]
    modifies tokens
    ensures Cutting(tokens[..], cmds', DoneAfter(done, cur, tok), CurAfter(cur, tok), i + 1, rest[1..])
  {
    cmds' := cmds;
    if tok == "|" {
      CutHere(tokens[..], cmds, done, cur, i, rest);
      Clear(tokens, i);
      cmds' := cmds + [i + 1];
    } else {
      ReadOn(tokens[..], cmds, done, cur, i, rest);
    }
  }

  lemma CutFinished(a: seq<Token>, cmds: seq<nat>, done: seq<seq<string>>, cur: seq<string>,
                    i: nat, ts: seq<string>)
    requires Cutting(a, cmds, done, cur, i, []) && Joined(done, cur, []) == Segments(ts)
    ensures |cmds| == |Segments(ts)|
    ensures forall k :: 0 <= k < |cmds| ==> Vector(a, cmds[k], Segments(ts)[k])
    ensures forall k :: 0 <= k < |cmds| - 1 ==> cmds[k] + |Segments(ts)[k]| < cmds[|cmds| - 1]
  {
    assert cur + [] == cur;
    assert Segments(ts) == done + [cur];
    forall k | 0 <= k < |cmds| ensures Vector(a, cmds[k], Segments(ts)[k]) {
      if k < |done| { assert Segments(ts)[k] == done[k]; }
    }
  }

  /** Every `|` in the array becomes NULL and each command pointer denotes its segment. */
  method SplitInPlace(tokens: array<Token>, ghost ts: seq<string>) returns (cmds: seq<nat>)
    requires Vector(tokens[..], 0, ts)
    modifies tokens
    ensures |cmds| == |Segments(ts)|
    ensures forall k :: 0 <= k < |cmds| ==> Vector(tokens[..], cmds[k], Segments(ts)[k])
    ensures forall k :: 0 <= k < |cmds| - 1 ==> cmds[k] + |Segments(ts)[k]| < cmds[|cmds| - 1]
  {
    cmds := [0];
    var i: nat := 0;
    ghost var done, cur, rest := [], [], ts;
    assert [] + Segments(ts)[0] == Segments(ts)[0];
    assert Joined(done, cur, rest) == Segments(ts);
    var tok := TokenAt(tokens, 0, ts, 0);
    while tok.Some?
      invariant Cutting(tokens[..], cmds, done, cur, i, rest)
      invariant tok == if rest == [] then None else Some(rest[0])
      invariant Joined(done, cur, rest) == Segments(ts)
      decreases |rest|
    {
      SegmentsStep(done, cur, rest);
      cmds := SplitStep(tokens, i, tok.value, cmds, done, cur, rest);
      done, cur := DoneAfter(done, cur, tok.value), CurAfter(cur, tok.value);
      rest, i := rest[1..], i + 1;
      tok := TokenAt(tokens, i, rest, 0);
    }
    CutFinished(tokens[..], cmds, done, cur, i, ts);
  }

  // ----- Verifying, and the background mark -----

  datatype Prepared =
    | EmptyCommand
    | UnknownCommand(name: string)
    | Single(background: bool)
    | Ready(cmds: seq<nat>, background: bool)

  /** `known` stands for the builtins and whatever `command_exists` finds. */
  predicate Runnable(seg: seq<string>, known: set<string>) {
    seg != [] && (IsAssignment(seg[0]) || seg[0] in known)
  }

  predicate IsBackground(segs: seq<seq<string>>)
    requires segs != []
  {
    var last := segs[|segs| - 1];
    last != [] && last[|last| - 1] == "&"
  }

  /** The commands that run: without the final `&`. */
  function Commands(segs: seq<seq<string>>): (r: seq<seq<string>>)
    requires segs != []
    ensures |r| == |segs|
  {
    var last := segs[|segs| - 1];
    if IsBackground(segs) then segs[|segs| - 1 := last[..|last| - 1]] else segs
  }

  lemma VectorCut(a: seq<Token>, at: nat, seg: seq<string>)
    requires Vector(a, at, seg) && seg != []
    ensures Vector(a[at + |seg| - 1 := None], at, seg[..|seg| - 1])
  {
  }

  /** Taking the mark off the last command leaves the others alone. */
  lemma OthersUncut(a: seq<Token>, at: nat, seg: seq<string>, from: nat, last: seq<string>)
    requires Vector(a, at, seg) && Vector(a, from, last) && at + |seg| < from && last != []
    ensures Vector(a[from + |last| - 1 := None], at, seg)
  {
  }

  method LastIndex(tokens: array<Token>, at: nat, ghost seg: seq<string>) returns (last: nat)
    requires Vector(tokens[..], at, seg) && seg != []
    ensures last == at + |seg| - 1
  {
    last := at;
    VectorAt(tokens[..], at, seg, 1);
    while tokens[last + 1] != None
      invariant at <= last < at + |seg|
      invariant tokens[last + 1] == None <==> last + 1 == at + |seg|
      decreases at + |seg| - last
    {
      last := last + 1;
      VectorAt(tokens[..], at, seg, last + 1 - at);
    }
  }

  /** What verification says: the first command that is empty or unknown, if any. */
  function Offence(segs: seq<seq<string>>, known: set<string>): Option<Prepared> {
    if segs == [] then None
    else if segs[0] == [] then Some(EmptyCommand)
    else if !Runnable(segs[0], known) then Some(UnknownCommand(segs[0][0]))
    else Offence(segs[1..], known)
  }

  lemma {:induction false} NoOffence(segs: seq<seq<string>>, known: set<string>)
    ensures Offence(segs, known) == None <==> forall s :: s in segs ==> Runnable(s, known)
  {
    if segs != [] {
      NoOffence(segs[1..], known);
      assert segs == [segs[0]] + segs[1..] && segs[0] in segs;
    }
  }

  /** A command that can run starts with an assignment, the `=` not in front, or with a known name. */
  predicate Startable(seg: seq<string>, known: set<string>) {
    seg != [] &&
    ((exists i :: 0 < i < |seg[0]| && seg[0][i] == '=' && seg[0][0] != '=') || seg[0] in known)
  }

  /** The first command that cannot run is reported: as empty, or under its name. */
  lemma {:induction false} OffenceExactly(segs: seq<seq<string>>, known: set<string>, i: nat)
    requires i <= |segs| && forall k :: 0 <= k < i ==> Startable(segs[k], known)
    requires i < |segs| ==> !Startable(segs[i], known)
    ensures Offence(segs, known) ==
            if i == |segs| then None
            else if segs[i] == [] then Some(EmptyCommand) else Some(UnknownCommand(segs[i][0]))
  {
    if segs != [] {
      if segs[0] != [] { AssignmentShape(segs[0][0]); }
      if i > 0 {
        assert Startable(segs[0], known);
        OffenceExactly(segs[1..], known, i - 1);
      }
    }
  }

  /** What comes before the first segment does not matter to the end of the last. */
  lemma LastBehind(t0: string, segs: seq<seq<string>>, t: string)
    requires segs != []
    ensures var more := segs[|segs| - 1 := segs[|segs| - 1] + [t]];
      && ([[]] + segs)[|segs| := segs[|segs| - 1] + [t]] == [[]] + more
      && var head := [[t0] + segs[0]] + segs[1..];
         head[|head| - 1 := head[|head| - 1] + [t]] == [[t0] + more[0]] + more[1..]
  {
    if |segs| == 1 { assert [t0] + segs[0] + [t] == [t0] + (segs[0] + [t]); }
  }

  lemma {:induction false} SegmentsMore(ts: seq<string>, t: string)
    requires t != "|"
    ensures var segs := Segments(ts);
      Segments(ts + [t]) == segs[|segs| - 1 := segs[|segs| - 1] + [t]]
  {
    if ts == [] {
      assert ts + [t] == [t] && [t][1..] == [] && [t] + [] == [t];
      assert Segments([t]) == [[t]];
    } else {
      assert (ts + [t])[1..] == ts[1..] + [t];
      SegmentsMore(ts[1..], t);
      LastBehind(ts[0], Segments(ts[1..]), t);
    }
  }

  lemma {:induction false} SegmentsBar(ts: seq<string>)
    ensures Segments(ts + ["|"]) == Segments(ts) + [[]]
  {
    if ts == [] {
      assert ts + ["|"] == ["|"] && ["|"][1..] == [];
    } else {
      assert (ts + ["|"])[1..] == ts[1..] + ["|"];
      SegmentsBar(ts[1..]);
    }
  }

  /** A line runs in the background exactly if its last token is `&`; the commands are those of the line
      without it. */
  lemma BackgroundExactly(ts: seq<string>)
    requires ts != []
    ensures IsBackground(Segments(ts)) <==> ts[|ts| - 1] == "&"
    ensures Commands(Segments(ts)) == Segments(if ts[|ts| - 1] == "&" then ts[..|ts| - 1] else ts)
  {
    var body, t := ts[..|ts| - 1], ts[|ts| - 1];
    assert ts == body + [t];
    var segs := Segments(body);
    if t == "|" {
      SegmentsBar(body);
    } else {
      SegmentsMore(body, t);
      var last := segs[|segs| - 1];
      assert (last + [t])[..|last|] == last;
    }
  }

  method Verify(tokens: array<Token>, cmds: seq<nat>, known: set<string>, ghost segs: seq<seq<string>>)
    returns (bad: Option<Prepared>)
    requires |cmds| == |segs|
    requires forall k :: 0 <= k < |cmds| ==> Vector(tokens[..], cmds[k], segs[k])
    ensures bad == Offence(segs, known)
  {
    assert segs[0..] == segs;
    for i := 0 to |cmds|
      invariant Offence(segs[i..], known) == Offence(segs, known)
    {
      ghost var seg := segs[i];
      VectorAt(tokens[..], cmds[i], seg, 0);
      assert segs[i..][1..] == segs[i + 1..] && segs[i..][0] == seg;
      if tokens[cmds[i]] == None {
        return Some(EmptyCommand);
      }
      var name := tokens[cmds[i]].value;
      if !IsAssignment(name) && name !in known {
        return Some(UnknownCommand(name));
      }
    }
    bad := None;
  }

  lemma MarkTaken(a: seq<Token>, cmds: seq<nat>, segs: seq<seq<string>>, at: nat)
    requires segs != [] && |cmds| == |segs| && IsBackground(segs)
    requires forall k :: 0 <= k < |cmds| ==> Vector(a, cmds[k], segs[k])
    requires forall k :: 0 <= k < |cmds| - 1 ==> cmds[k] + |segs[k]| < cmds[|cmds| - 1]
    requires at == cmds[|cmds| - 1] + |segs[|segs| - 1]| - 1 < |a|
    ensures forall k :: 0 <= k < |segs| ==> Vector(a[at := None], cmds[k], Commands(segs)[k])
  {
    var last := segs[|segs| - 1];
    forall k | 0 <= k < |segs| ensures Vector(a[at := None], cmds[k], Commands(segs)[k]) {
      if k < |segs| - 1 {
        OthersUncut(a, cmds[k], segs[k], cmds[|cmds| - 1], last);
      } else {
        VectorCut(a, cmds[k], last);
      }
    }
  }

  /** Take a final `&` off the last command. */
  method TakeMark(tokens: array<Token>, cmds: seq<nat>, ghost segs: seq<seq<string>>)
    returns (background: bool)
    requires segs != [] && |cmds| == |segs| && segs[|segs| - 1] != []
    requires forall k :: 0 <= k < |cmds| ==> Vector(tokens[..], cmds[k], segs[k])
    requires forall k :: 0 <= k < |cmds| - 1 ==> cmds[k] + |segs[k]| < cmds[|cmds| - 1]
    modifies tokens
    ensures background == IsBackground(segs)
    ensures forall k :: 0 <= k < |segs| ==> Vector(tokens[..], cmds[k], Commands(segs)[k])
  {
    var from := cmds[|cmds| - 1];
    ghost var last := segs[|segs| - 1];
    var at := LastIndex(tokens, from, last);
    VectorAt(tokens[..], from, last, |last| - 1);
    background := tokens[at].value == "&";
    if background {
      MarkTaken(tokens[..], cmds, segs, at);
      Clear(tokens, at);
    }
  }

  lemma {:induction false} PipesIn(ts: seq<string>)
    ensures Pipes(ts) == 0 <==> "|" !in ts
  {
    if ts != [] {
      PipesIn(ts[1..]);
      assert ts == [ts[0]] + ts[1..];
    }
  }

  method CountCommands(tokens: array<Token>, ghost ts: seq<string>) returns (n: nat)
    requires Vector(tokens[..], 0, ts)
    ensures n == Pipes(ts) + 1
  {
    n := 1;
    var i := 0;
    assert ts[0..] == ts;
    var tok := TokenAt(tokens, 0, ts, 0);
    while tok.Some?
      invariant 0 <= i <= |ts| && tok == if i < |ts| then Some(ts[i]) else None
      invariant n + Pipes(ts[i..]) == Pipes(ts) + 1
      decreases |ts| - i
    {
      assert ts[i..][1..] == ts[i + 1..];
      if tok.value == "|" {
        n := n + 1;
      }
      i := i + 1;
      tok := TokenAt(tokens, 0, ts, i);
    }
  }

  /** What the first half of `handle_pipeline` makes of a line: a single command only loses its mark;
      with a `|` in it, the line is split and its commands are verified before the mark is taken. */
  method Prepare(tokens: array<Token>, ghost ts: seq<string>, known: set<string>) returns (r: Prepared)
    requires Vector(tokens[..], 0, ts) && ts != []
    modifies tokens
    ensures "|" !in ts ==>
      r == Single(IsBackground([ts])) && Vector(tokens[..], 0, Commands([ts])[0])
    ensures "|" in ts ==>
      var segs := Segments(ts);
      match Offence(segs, known)
      case Some(bad) => r == bad
      case None =>
        && r.Ready? && r.background == IsBackground(segs) && |r.cmds| == |segs|
        && forall k :: 0 <= k < |segs| ==> Vector(tokens[..], r.cmds[k], Commands(segs)[k])
  {
    PipesIn(ts);
    var count := CountCommands(tokens, ts);
    var background;
    if count == 1 {
      background := TakeMark(tokens, [0], [ts]);
      return Single(background);
    }
    ghost var segs := Segments(ts);
    var cmds := SplitInPlace(tokens, ts);
    var bad := Verify(tokens, cmds, known, segs);
    if bad.Some? {
      return bad.value;
    }
    NoOffence(segs, known);
    assert segs[|segs| - 1] in segs;
    background := TakeMark(tokens, cmds, segs);
    r := Ready(cmds, background);
  }

  // ----- The text of a background pipeline -----

  function WithToken(text: string, tok: string): string {
    if text == "" then tok else text + " " + tok
  }

  function WithTokens(text: string, seg: seq<string>): string
    decreases |seg|
  {
    if seg == [] then text else WithTokens(WithToken(text, seg[0]), seg[1..])
  }

  function WithCommand(text: string, seg: seq<string>, last: bool): string {
    if last then WithTokens(text, seg) else WithTokens(text, seg) + " |"
  }

  /** What the two nested loops build. */
  function TextOf(text: string, segs: seq<seq<string>>): string
    decreases |segs|
  {
    if segs == [] then text else TextOf(WithCommand(text, segs[0], |segs| == 1), segs[1..])
  }

  lemma {:induction false} WithTokensGrows(text: string, seg: seq<string>)
    requires text != "" || (seg != [] && seg[0] != "")
    ensures WithTokens(text, seg) != ""
    decreases |seg|
  {
    if seg != [] { WithTokensGrows(WithToken(text, seg[0]), seg[1..]); }
  }

  lemma {:induction false} WithTokensAppend(text: string, a: seq<string>, b: seq<string>)
    ensures WithTokens(text, a + b) == WithTokens(WithTokens(text, a), b)
    decreases |a|
  {
    if a == [] {
      assert a + b == b;
    } else {
      assert (a + b)[1..] == a[1..] + b;
      WithTokensAppend(WithToken(text, a[0]), a[1..], b);
    }
  }

  lemma JoinBehind(text: string, ts: seq<string>)
    requires |ts| > 1
    ensures text + " " + ts[0] + " " + Join(ts[1..]) == text + " " + Join(ts)
  {
    assert text + " " + ts[0] + " " + Join(ts[1..]) == text + " " + (ts[0] + " " + Join(ts[1..]));
  }

  lemma {:induction false} WithTokensJoin(text: string, ts: seq<string>)
    requires forall t :: t in ts ==> t != ""
    ensures WithTokens(text, ts) ==
            if ts == [] then text else if text == "" then Join(ts) else text + " " + Join(ts)
    decreases |ts|
  {
    if ts != [] {
      assert ts[0] in ts && forall t :: t in ts[1..] ==> t in ts;
      WithTokensJoin(WithToken(text, ts[0]), ts[1..]);
      if |ts| > 1 { JoinBehind(text, ts); }
    }
  }

  lemma {:induction false} TextJoins(text: string, segs: seq<seq<string>>)
    requires segs != [] && forall i :: 0 <= i < |segs| - 1 ==> segs[i] != []
    requires forall i, t :: 0 <= i < |segs| && t in segs[i] ==> t != ""
    ensures TextOf(text, segs) == WithTokens(text, Interleave(segs))
    decreases |segs|
  {
    if |segs| > 1 {
      var with := WithTokens(text, segs[0]);
      assert segs[0][0] in segs[0];
      WithTokensGrows(text, segs[0]);
      assert WithTokens(with, ["|"]) == with + " " + "|" by { assert ["|"][1..] == []; }
      assert with + " " + "|" == with + " |";
      WithTokensAppend(text, segs[0], ["|"]);
      WithTokensAppend(text, segs[0] + ["|"], Interleave(segs[1..]));
      assert segs[0] + ["|"] + Interleave(segs[1..]) == Interleave(segs);
      forall i, t | 0 <= i < |segs[1..]| && t in segs[1..][i] ensures t != "" {
        assert t in segs[i + 1];
      }
      TextJoins(with + " |", segs[1..]);
    }
  }

  lemma {:induction false} InterleaveCut(segs: seq<seq<string>>)
    requires segs != [] && IsBackground(segs)
    ensures Interleave(Commands(segs)) + ["&"] == Interleave(segs)
    decreases |segs|
  {
    if |segs| > 1 {
      InterleaveCut(segs[1..]);
      assert Commands(segs)[1..] == Commands(segs[1..]);
      assert Interleave(Commands(segs)) + ["&"]
          == segs[0] + ["|"] + (Interleave(Commands(segs[1..])) + ["&"]);
    } else {
      assert segs[0] == segs[0][..|segs[0]| - 1] + ["&"];
    }
  }

  lemma {:induction false} WithTokensLonger(text: string, seg: seq<string>)
    ensures |text| <= |WithTokens(text, seg)|
    decreases |seg|
  {
    if seg != [] { WithTokensLonger(WithToken(text, seg[0]), seg[1..]); }
  }

  lemma {:induction false} TextOfLonger(text: string, segs: seq<seq<string>>)
    ensures |text| <= |TextOf(text, segs)|
    decreases |segs|
  {
    if segs != [] {
      WithTokensLonger(text, segs[0]);
      TextOfLonger(WithCommand(text, segs[0], |segs| == 1), segs[1..]);
    }
  }

  /** One turn of the inner loop; `ok` says whether `strcat` stays inside the buffer. */
  method AddToken(buf: array<char>, len: nat, tok: string, ghost text: string) returns (ok: bool, more: nat)
    requires Written(buf, text) && len == |text|
    modifies buf
    ensures ok <==> |WithToken(text, tok)| < buf.Length
    ensures ok ==> more == |WithToken(text, tok)| && Written(buf, WithToken(text, tok))
  {
    ok, more := true, len;
    ghost var now := text;
    if len > 0 {
      ok := Append(buf, len, " ", text);
      if !ok {
        return;
      }
      more, now := len + 1, text + " ";
    } else {
      assert text + tok == tok;
    }
    ok := Append(buf, more, tok, now);
    more := more + |tok|;
  }

  method AddTokens(tokens: array<Token>, at: nat, ghost seg: seq<string>,
                   buf: array<char>, len: nat, ghost text: string)
    returns (ok: bool, more: nat)
    requires Vector(tokens[..], at, seg) && Written(buf, text) && len == |text|
    modifies buf
    ensures ok <==> |WithTokens(text, seg)| < buf.Length
    ensures ok ==> more == |WithTokens(text, seg)| && Written(buf, WithTokens(text, seg))
  {
    ok, more := true, len;
    ghost var now := text;
    var j := 0;
    assert seg[0..] == seg;
    var tok := TokenAt(tokens, at, seg, 0);
    while tok.Some?
      invariant 0 <= j <= |seg| && tok == if j < |seg| then Some(seg[j]) else None
      invariant ok && more == |now| && Written(buf, now)
      invariant WithTokens(now, seg[j..]) == WithTokens(text, seg)
      decreases |seg| - j
    {
      assert seg[j..][1..] == seg[j + 1..];
      WithTokensLonger(WithToken(now, seg[j]), seg[j + 1..]);
      ok, more := AddToken(buf, more, tok.value, now);
      if !ok {
        return;
      }
      now := WithToken(now, seg[j]);
      j := j + 1;
      tok := TokenAt(tokens, at, seg, j);
    }
  }

  /** One turn of the outer loop: a command, and a `|` unless it is the last. */
  method AddCommand(tokens: array<Token>, at: nat, ghost seg: seq<string>, last: bool,
                    buf: array<char>, len: nat, ghost text: string)
    returns (ok: bool, more: nat)
    requires Vector(tokens[..], at, seg) && Written(buf, text) && len == |text|
    modifies buf
    ensures ok <==> |WithCommand(text, seg, last)| < buf.Length
    ensures ok ==> more == |WithCommand(text, seg, last)| && Written(buf, WithCommand(text, seg, last))
  {
    ok, more := AddTokens(tokens, at, seg, buf, len, text);
    if ok && !last {
      ok := Append(buf, more, " |", WithTokens(text, seg));
      more := more + 2;
    }
  }

  /** The loops that write the text. `strcat` does not stop at the end of the buffer: there is no text
      exactly if it does not fit. */
  method BackgroundText(tokens: array<Token>, cmds: seq<nat>, ghost segs: seq<seq<string>>)
    returns (text: Option<string>)
    requires segs != [] && |cmds| == |segs|
    requires forall k :: 0 <= k < |segs| ==> Vector(tokens[..], cmds[k], segs[k])
    ensures var all := TextOf("", segs) + " &";
      text == if |all| < MAX_STR_LEN then Some(all) else None
  {
    var buf := new char[MAX_STR_LEN];
    buf[0] := NUL;
    var ok, len := true, 0;
    ghost var now := "";
    assert segs[0..] == segs;
    for i := 0 to |cmds|
      invariant ok && len == |now| && Written(buf, now) && TextOf(now, segs[i..]) == TextOf("", segs)
    {
      ghost var seg, rest := segs[i], segs[i + 1..];
      assert segs[i..][1..] == rest && segs[i..][0] == seg;
      TextOfLonger(WithCommand(now, seg, i == |cmds| - 1), rest);
      ok, len := AddCommand(tokens, cmds[i], seg, i == |cmds| - 1, buf, len, now);
      if !ok {
        return None;
      }
      now := WithCommand(now, seg, i == |cmds| - 1);
    }
    ok := Append(buf, len, " &", now);
    text := if ok then Some(buf[..len + 2]) else None;
  }

  lemma AmpersandLast(body: seq<string>)
    requires body != [] && forall t :: t in body ==> t != ""
    ensures WithTokens("", body) + " &" == Join(body + ["&"])
  {
    WithTokensJoin("", body);
    WithTokensJoin("", body + ["&"]);
    WithTokensAppend("", body, ["&"]);
    assert body[0] in body;
    WithTokensGrows("", body);
    assert WithTokens(Join(body), ["&"]) == Join(body) + " " + "&" by { assert ["&"][1..] == []; }
    assert Join(body) + " " + "&" == Join(body) + " &";
  }

  lemma TextIsJoined(segs: seq<seq<string>>)
    requires |segs| > 1 && IsBackground(segs) && forall s :: s in segs ==> s != []
    requires forall t :: t in Interleave(segs) ==> t != ""
    ensures TextOf("", Commands(segs)) + " &" == Join(Interleave(segs))
  {
    var cmds := Commands(segs);
    InterleaveCut(segs);
    var body := Interleave(cmds);
    forall i | 0 <= i < |cmds| - 1 ensures cmds[i] != [] { assert segs[i] in segs; }
    assert forall t :: t in body ==> t in body + ["&"];
    forall i, t | 0 <= i < |cmds| && t in cmds[i] ensures t != "" {
      InInterleave(cmds, i, t);
    }
    TextJoins("", cmds);
    AmpersandLast(body);
  }

  lemma {:induction false} NonEmptyAppend(a: seq<string>, b: seq<string>)
    ensures NonEmpty(a + b) == NonEmpty(a) + NonEmpty(b)
  {
    if a == [] {
      assert a + b == b;
    } else {
      assert (a + b)[1..] == a[1..] + b;
      NonEmptyAppend(a[1..], b);
    }
  }

  /** `text` lays out the tokens of `raw` that are not empty, on one line. */
  predicate Holds(text: string, raw: seq<string>) {
    Lays(text, NonEmpty(raw)) && '\n' !in text
  }

  lemma HoldsMore(text: string, raw: seq<string>, tok: string)
    requires Holds(text, raw) && DelimFree(tok)
    ensures Holds(text + " " + tok, raw + [tok])
  {
    LaysMore(text, NonEmpty(raw), ' ', tok);
    assert text + " " + tok == text + ([' '] + tok);
    NonEmptyAppend(raw, [tok]);
    assert NonEmpty([tok]) == if tok == "" then [] else [tok] by { assert [tok][1..] == []; }
  }

  lemma HoldsFirst(raw: seq<string>, tok: string)
    requires Holds("", raw) && DelimFree(tok)
    ensures Holds(tok, raw + [tok])
  {
    HoldsMore("", raw, tok);
    assert ("" + " " + tok)[1..] == tok;
  }

  lemma WithTokenHolds(text: string, raw: seq<string>, tok: string)
    requires Holds(text, raw) && DelimFree(tok)
    ensures Holds(WithToken(text, tok), raw + [tok])
  {
    if text == "" { HoldsFirst(raw, tok); } else { HoldsMore(text, raw, tok); }
  }

  lemma FirstMoves(raw: seq<string>, seg: seq<string>)
    requires seg != []
    ensures (raw + [seg[0]]) + seg[1..] == raw + seg
    ensures forall t :: t in seg[1..] ==> t in seg
  {
  }

  lemma {:induction false} WithTokensHolds(text: string, raw: seq<string>, seg: seq<string>)
    requires Holds(text, raw) && forall t :: t in seg ==> DelimFree(t)
    ensures Holds(WithTokens(text, seg), raw + seg)
    decreases |seg|
  {
    if seg == [] {
      assert raw + seg == raw;
    } else {
      WithTokenHolds(text, raw, seg[0]);
      FirstMoves(raw, seg);
      WithTokensHolds(WithToken(text, seg[0]), raw + [seg[0]], seg[1..]);
    }
  }

  lemma CommandHolds(text: string, raw: seq<string>, seg: seq<string>)
    requires Holds(text, raw) && forall t :: t in seg ==> DelimFree(t)
    ensures Holds(WithCommand(text, seg, false), raw + (seg + ["|"]))
  {
    WithTokensHolds(text, raw, seg);
    HoldsMore(WithTokens(text, seg), raw + seg, "|");
    assert WithTokens(text, seg) + " " + "|" == WithCommand(text, seg, false);
    assert raw + seg + ["|"] == raw + (seg + ["|"]);
  }

  predicate AllDelimFree(segs: seq<seq<string>>) {
    forall i, t :: 0 <= i < |segs| && t in segs[i] ==> DelimFree(t)
  }

  lemma InterleaveRest(raw: seq<string>, segs: seq<seq<string>>)
    requires |segs| > 1 && AllDelimFree(segs)
    ensures raw + (segs[0] + ["|"]) + Interleave(segs[1..]) == raw + Interleave(segs)
    ensures AllDelimFree(segs[1..]) && forall t :: t in segs[0] ==> DelimFree(t)
  {
    forall i, t | 0 <= i < |segs[1..]| && t in segs[1..][i] ensures DelimFree(t) {
      assert t in segs[i + 1];
    }
    assert raw + (segs[0] + ["|"]) + Interleave(segs[1..])
        == raw + (segs[0] + ["|"] + Interleave(segs[1..]));
  }

  /** The text lays out the tokens of all commands, empty ones apart, with the `|`s. */
  lemma {:induction false} TextHolds(text: string, raw: seq<string>, segs: seq<seq<string>>)
    requires segs != [] && Holds(text, raw) && AllDelimFree(segs)
    ensures Holds(TextOf(text, segs), raw + Interleave(segs))
    decreases |segs|
  {
    if |segs| > 1 {
      InterleaveRest(raw, segs);
      CommandHolds(text, raw, segs[0]);
      TextHolds(WithCommand(text, segs[0], false), raw + (segs[0] + ["|"]), segs[1..]);
    } else {
      WithTokensHolds(text, raw, segs[0]);
    }
  }

  lemma CommandsDelimFree(segs: seq<seq<string>>)
    requires segs != [] && IsBackground(segs)
    requires forall t :: t in Interleave(segs) ==> DelimFree(t)
    ensures AllDelimFree(Commands(segs))
  {
    var cmds := Commands(segs);
    InterleaveCut(segs);
    forall i, t | 0 <= i < |cmds| && t in cmds[i] ensures DelimFree(t) {
      InInterleave(cmds, i, t);
      assert t in Interleave(cmds) + ["&"];
    }
  }

  lemma MarkedTextHolds(segs: seq<seq<string>>)
    requires segs != [] && IsBackground(segs)
    requires forall t :: t in Interleave(segs) ==> DelimFree(t)
    ensures Holds(TextOf("", Commands(segs)) + " &", Interleave(segs))
  {
    var cmds := Commands(segs);
    InterleaveCut(segs);
    CommandsDelimFree(segs);
    TextHolds("", [], cmds);
    assert [] + Interleave(cmds) == Interleave(cmds);
    HoldsMore(TextOf("", cmds), Interleave(cmds), "&");
    assert TextOf("", cmds) + " " + "&" == TextOf("", cmds) + " &";
  }

  lemma {:induction false} NonEmptyKeeps(ts: seq<string>, t: string)
    ensures t in NonEmpty(ts) <==> t in ts && t != ""
  {
    if ts != [] {
      NonEmptyKeeps(ts[1..], t);
      assert ts == [ts[0]] + ts[1..];
    }
  }

  /** What is recorded for a background pipeline, read as a line, gives its non-empty tokens back
      exactly if the `&`s in them stand alone or the text is taken for an echo command. */
  lemma BackgroundTextRereads(ts: seq<string>)
    requires forall t :: t in ts ==> t == "" || Plain(t)
    requires IsBackground(Segments(ts))
    ensures var text := TextOf("", Commands(Segments(ts))) + " &";
      TokensOf(text) == NonEmpty(ts) <==> EchoFlag(text) || forall t :: t in ts ==> t == "" || Clean(t)
  {
    var segs := Segments(ts);
    SegmentsInterleave(ts);
    MarkedTextHolds(segs);
    InterleaveCut(segs);
    var body := Interleave(Commands(segs));
    NonEmptyAppend(body, ["&"]);
    assert NonEmpty(ts) == NonEmpty(body) + ["&"];
    forall t ensures t in NonEmpty(ts) <==> t in ts && t != "" {
      NonEmptyKeeps(ts, t);
    }
    LaysRereadExactly(TextOf("", Commands(segs)) + " &", NonEmpty(ts));
  }

  lemma {:induction false} InInterleave(segs: seq<seq<string>>, i: nat, t: string)
    requires segs != [] && i < |segs| && t in segs[i]
    ensures t in Interleave(segs)
    decreases |segs|
  {
    if i > 0 { InInterleave(segs[1..], i - 1, t); }
  }
}
