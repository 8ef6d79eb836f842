/** mysh.c: what one line does to the shell, the assignments among its tokens, and the environments of
    pipeline children. */
module Shell {
  import opened CStrings
  import opened Tokenizer
  import opened LineBuffer
  import opened Options
  import opened LinkedLists
  import opened Variables
  import opened TokenArrays
  import opened Expansion

  // ----- Specification -----

  /** Position of the first `=`, or |s|. */
  function EqualsAt(s: string): (i: nat)
    ensures i <= |s| && '=' !in s[..i] && (i < |s| ==> s[i] == '=')
  {
    if s == "" || s[0] == '=' then 0
    else
      var i := EqualsAt(s[1..]);
      assert s[..i + 1] == [s[0]] + s[1..][..i];
      i + 1
  }

  function KeyOf(s: string): string {
    s[..EqualsAt(s)]
  }

  lemma EqualsFound(s: string)
    ensures EqualsAt(s) < |s| <==> '=' in s
  {
    if EqualsAt(s) == |s| { assert s[..EqualsAt(s)] == s; }
  }

  function ValueIn(s: string): string
    requires '=' in s
  {
    EqualsFound(s);
    s[EqualsAt(s) + 1..]
  }

  predicate Assignable(s: string) {
    '=' in s && BlankFree(KeyOf(s))
  }

  /** `KEY=value`: the value is expanded, the key is not; a key with a blank is refused. */
  function AssignEnv(env: Env, s: string): Env {
    if Assignable(s) then env[KeyOf(s) := ExpandBounded(env, ValueIn(s))] else env
  }

  /** `expand_variables_in_tokens`: a leading assignment is left for later. */
  function ExpandedToken(env: Env, ts: seq<string>, i: nat): string
    requires i < |ts|
  {
    if i == 0 && IsAssignment(ts[0]) then ts[0] else ExpandBounded(env, ts[i])
  }

  function ExpandedTokens(env: Env, ts: seq<string>): seq<string> {
    seq(|ts|, i requires 0 <= i < |ts| => ExpandedToken(env, ts, i))
  }

  /** Where `main` sends a line. */
  datatype Dispatch =
    | Nothing
    | Quit
    | Pipeline(tokens: seq<string>)
    | Assignment(token: string)
    | Command(tokens: seq<string>)

  function DispatchOf(env: Env, line: string): Dispatch {
    var ts := TokensOf(line);
    if ts == [] then Nothing
    else if ts[0] == "exit" then Quit
    else
      var ex := ExpandedTokens(env, ts);
      if "|" in ts then Pipeline(ex)
      else if IsAssignment(ex[0]) then Assignment(ex[0])
      else Command(ex)
  }

  function LineEnv(env: Env, line: string): Env {
    match DispatchOf(env, line)
    case Assignment(t) => AssignEnv(env, t)
    case _ => env
  }

  /** The environment after a whole session. */
  function SessionEnv(env: Env, lines: seq<string>): Env
    decreases |lines|
  {
    if lines == [] || DispatchOf(env, lines[0]).Quit? then env
    else SessionEnv(LineEnv(env, lines[0]), lines[1..])
  }

  // ----- Values stay harmless -----

  /** No delimiter, no operator. */
  predicate Safe(s: string) {
    forall c :: c in s ==> !Delim(c) && c != '|' && c != '&'
  }

  ghost predicate SafeEnv(env: Env) {
    forall k :: k in env ==> Safe(env[k])
  }

  /** `allowed` characters are all that expansion can put into a text made of them. */
  lemma {:induction false} ExpandWithin(env: Env, s: string, extra: set<char>)
    requires SafeEnv(env)
    requires forall c :: c in s ==> c in extra || Safe([c])
    ensures forall c :: c in Expand(env, s) ==> c in extra || Safe([c])
    decreases |s|
  {
    if s != "" {
      assert s[0] in s;
      var t := s[1..];
      var n := if s[0] == '$' then NameLen(t, MAX_STR_LEN - 1) else 0;
      ExpandWithin(env, t[n..], extra);
      assert t[0..] == t;
      if s[0] == '$' {
        forall c | c in Reference(env, t, n) ensures c in extra || Safe([c]) {
          if n == 0 { assert c == s[0]; } else { assert Safe(ValueOf(env, t[..n])); }
        }
      }
    }
  }

  lemma {:induction false} PipeIsLexed(echo: bool, cur: string, s: string)
    requires '|' in s
    ensures "|" in Lex(echo, cur, s)
    decreases |s|
  {
    if s[0] == '|' {
      assert [s[0]] == "|";
    } else if Special(echo, s) || Delim(s[0]) {
      PipeIsLexed(echo, [], s[1..]);
    } else {
      PipeIsLexed(echo, cur + [s[0]], s[1..]);
    }
  }

  /** A line read with the echo flag on is an echo command or a pipeline. */
  lemma EchoFlagMeans(line: string)
    requires EchoFlag(line)
    ensures "|" in TokensOf(line) || (TokensOf(line) != [] && TokensOf(line)[0] == "echo")
  {
    TokensAreLexed(line);
    var i := Find(line, "echo ", 0);
    if i == 0 {
      assert line[0..] == line == "echo" + line[4..];
      assert line[4..][0] == ' ' by { assert line[..5] == "echo "; }
      assert [] + "echo" == "echo";
      LexConsumes(true, [], "echo", line[4..]);
    } else {
      PipeIsLexed(true, [], line);
    }
  }

  /** An assignment the parent carries out holds no operator. */
  lemma AssignmentIsSafe(env: Env, line: string)
    requires SafeEnv(env) && DispatchOf(env, line).Assignment?
    ensures Safe(DispatchOf(env, line).token)
  {
    var ts := TokensOf(line);
    TokensAreLexed(line);
    LexPlain(EchoFlag(line), [], line);
    assert ts[0] in ts;
    if EchoFlag(line) { EchoFlagMeans(line); }
    assert Clean(ts[0]) && ts[0] != "|";
    var t := DispatchOf(env, line).token;
    if ts[0] != "&" {
      assert Safe(ts[0]);
      ExpandWithin(env, ts[0], {});
    }
    forall c | c in t ensures Safe([c]) {
      if t != ts[0] { assert c in Expand(env, ts[0]); }
    }
    assert forall c :: c in t ==> c in [c];
  }

  lemma AssignKeepsSafe(env: Env, t: string)
    requires SafeEnv(env) && Safe(t) && '=' in t
    ensures SafeEnv(AssignEnv(env, t))
  {
    var v := ValueIn(t);
    forall c | c in v ensures Safe([c]) {
      assert t == t[..EqualsAt(t) + 1] + v;
      assert c in t;
    }
    ExpandWithin(env, v, {});
    BoundedRefines(env, v);
    forall c | c in ExpandBounded(env, v) ensures Safe([c]) {
      assert c in Expand(env, v);
    }
    assert forall c :: c in ExpandBounded(env, v) ==> c in [c];
  }

  /** Over every session, no variable of the shell ever holds a delimiter or an operator. */
  lemma {:induction false} SessionIsSafe(env: Env, lines: seq<string>)
    requires SafeEnv(env)
    ensures SafeEnv(SessionEnv(env, lines))
    decreases |lines|
  {
    if lines != [] && !DispatchOf(env, lines[0]).Quit? {
      var d := DispatchOf(env, lines[0]);
      if d.Assignment? {
        AssignmentIsSafe(env, lines[0]);
        AssignKeepsSafe(env, d.token);
      }
      SessionIsSafe(LineEnv(env, lines[0]), lines[1..]);
    }
  }

  /** So expansion never makes or removes a pipe, and never splits a token. With the echo flag off it
      never makes or removes a background mark either. */
  lemma ExpansionKeepsStructure(lines: seq<string>, line: string, i: nat)
    requires i < |TokensOf(line)|
    ensures var ts := TokensOf(line); var env := SessionEnv(map[], lines);
      var t := ExpandedTokens(env, ts)[i];
      && (t == "|" <==> ts[i] == "|") && ('|' in t ==> t == "|")
      && DelimFree(t)
      && (!EchoFlag(line) ==> (t == "&" <==> ts[i] == "&") && ('&' in t ==> t == "&"))
  {
    var env := SessionEnv(map[], lines);
    SessionIsSafe(map[], lines);
    var ts := TokensOf(line);
    TokensAreLexed(line);
    LexPlain(EchoFlag(line), [], line);
    assert ts[i] in ts;
    var extra := if EchoFlag(line) then {'&'} else {};
    var t := ExpandedToken(env, ts, i);
    if ts[i] == "|" || ts[i] == "&" {
      assert '$' !in ts[i] && t == ts[i];
    } else {
      forall c | c in ts[i] ensures c in extra || Safe([c]) {
        assert c in ts[i];
      }
      ExpandWithin(env, ts[i], extra);
      BoundedRefines(env, ts[i]);
      forall c | c in t ensures c in extra || Safe([c]) {
        assert c in ts[i] || c in Expand(env, ts[i]);
      }
      assert forall c :: c in t ==> c in [c];
    }
  }

  // ----- The imperative code -----

  /** `handle_variable_assignment`. */
  method HandleAssignment(store: VariableStore, str: string) returns (ok: bool)
    requires store.Valid()
    modifies store, store.repr
    ensures store.Valid() && fresh(store.repr - old(store.repr))
    ensures store.Env() == AssignEnv(old(store.Env()), str)
    ensures ok <==> Assignable(str)
  {
    EqualsFound(str);
    var equals := EqualsAt(str);
    if equals == |str| {
      return false;
    }
    var value := ExpandVariables(store, str[equals + 1..]);
    ok := store.SetVariable(str[..equals], value);
  }

  /** `expand_variables_in_tokens`, on the NULL-terminated array. */
  method ExpandInPlace(store: VariableStore, tokens: array<Token>, ghost ts: seq<string>)
    requires store.Valid() && Vector(tokens[..], 0, ts)
    modifies tokens
    ensures Vector(tokens[..], 0, ExpandedTokens(store.Env(), ts))
  {
    var i := 0;
    while tokens[i] != None
      invariant 0 <= i <= |ts| < tokens.Length && tokens[|ts|] == None
      invariant forall k :: 0 <= k < i ==> tokens[k] == Some(ExpandedToken(store.Env(), ts, k))
      invariant forall k :: i <= k < |ts| ==> tokens[k] == Some(ts[k])
      decreases |ts| - i
    {
      if !(i == 0 && IsAssignment(tokens[0].value)) {
        var expanded := ExpandVariables(store, tokens[i].value);
        tokens[i] := Some(expanded);
      }
      i := i + 1;
    }
  }

  /** The token pointers of `tokenize_input`, seen as strings. */
  method FillTokens(buf: array<char>, starts: seq<nat>, tokens: array<Token>, ghost ts: seq<string>)
    requires |starts| == |ts| < tokens.Length
    requires forall k :: 0 <= k < |starts| ==> Stored(buf[..], starts[k], ts[k])
    modifies tokens
    ensures Vector(tokens[..], 0, ts)
  {
    for i := 0 to |starts|
      invariant forall k :: 0 <= k < i ==> tokens[k] == Some(ts[k])
    {
      PointsTo(buf[..], starts[i], ts[i]);
      tokens[i] := Some(CString(buf[starts[i]..]));
    }
    tokens[|starts|] := None;
  }

  method ReadTokens(tokens: array<Token>, ghost ts: seq<string>) returns (r: seq<string>)
    requires Vector(tokens[..], 0, ts)
    ensures r == ts
  {
    r := [];
    var i := 0;
    while tokens[i] != None
      invariant 0 <= i <= |ts| < tokens.Length && r == ts[..i]
      invariant tokens[|ts|] == None && forall k :: 0 <= k < |ts| ==> tokens[k] == Some(ts[k])
      decreases |ts| - i
    {
      r := r + [tokens[i].value];
      i := i + 1;
    }
  }

  method ContainsPipe(tokens: array<Token>, count: nat, ghost ts: seq<string>) returns (hasPipe: bool)
    requires Vector(tokens[..], 0, ts) && count == |ts|
    ensures hasPipe <==> "|" in ts
  {
    hasPipe := false;
    for i := 0 to count
      invariant hasPipe <==> "|" in ts[..i]
    {
      assert tokens[..][0 + i] == Some(ts[i]);
      hasPipe := hasPipe || tokens[i].value == "|";
    }
    assert ts[..count] == ts;
  }

  /** Expansion and dispatch of the tokens of a line; assignments are carried out here. */
  method DispatchTokens(store: VariableStore, tokens: array<Token>, count: nat, ghost line: string)
    returns (d: Dispatch)
    requires store.Valid() && Vector(tokens[..], 0, TokensOf(line)) && count == |TokensOf(line)|
    modifies store, store.repr, tokens
    ensures store.Valid()
    ensures d == DispatchOf(old(store.Env()), line)
    ensures store.Env() == LineEnv(old(store.Env()), line)
  {
    ghost var ts, env := TokensOf(line), store.Env();
    if count == 0 {
      return Nothing;
    }
    assert tokens[..][0 + 0] == Some(ts[0]);
    if tokens[0].value == "exit" {
      return Quit;
    }
    var hasPipe := ContainsPipe(tokens, count, ts);
    ExpandInPlace(store, tokens, ts);
    var expanded := ReadTokens(tokens, ExpandedTokens(env, ts));
    if hasPipe {
      d := Pipeline(expanded);
    } else if IsAssignment(expanded[0]) {
      var ok := HandleAssignment(store, expanded[0]);
      d := Assignment(expanded[0]);
    } else {
      d := Command(expanded);
    }
  }

  /** One turn of the loop of `main`, from the filled line buffer to the place the line is handled.
      Nothing comes of a line exactly if it or its tokens would be written behind their arrays. */
  method ProcessLine(store: VariableStore, buf: array<char>, tokens: array<Token>)
    returns (d: Option<Dispatch>)
    requires store.Valid() && NUL in buf[..]
    modifies store, store.repr, buf, tokens
    ensures store.Valid()
    ensures var line := old(CString(buf[..])); var env := old(store.Env());
      if |Spaced(EchoFlag(line), false, line)| < buf.Length && |TokensOf(line)| < tokens.Length
      then d == Some(DispatchOf(env, line)) && store.Env() == LineEnv(env, line)
      else d == None && store.Env() == env
  {
    ghost var line := CString(buf[..]);
    var starts := TokenizeInput(buf);
    if starts == None || |starts.value| >= tokens.Length {
      return None;
    }
    FillTokens(buf, starts.value, tokens, TokensOf(line));
    var handled := DispatchTokens(store, tokens, |starts.value|, line);
    d := Some(handled);
  }

  // ----- Pipeline children -----

  function AssignAll(env: Env, cmd: seq<string>): Env
    decreases |cmd|
  {
    if cmd == [] then env
    else AssignAll(if IsAssignment(cmd[0]) then AssignEnv(env, cmd[0]) else env, cmd[1..])
  }

  /** A child applies the assignments among its tokens, unless the shell has no variables at all: an
      empty list and a failed copy look the same, and then it skips them. */
  function ChildEnv(env: Env, cmd: seq<string>): Env {
    if env == map[] then env else AssignAll(env, cmd)
  }

  lemma EmptyEnv(bs: seq<Binding>)
    ensures EnvOf(bs) == map[] <==> bs == []
  {
    if bs != [] { EnvKeys(bs, bs[0].key); }
  }

  method AssignInChild(child: VariableStore, cmd: seq<string>)
    requires child.Valid()
    modifies child, child.repr
    ensures child.Valid() && fresh(child.repr - old(child.repr))
    ensures child.Env() == AssignAll(old(child.Env()), cmd)
  {
    for j := 0 to |cmd|
      invariant child.Valid() && fresh(child.repr - old(child.repr))
      invariant AssignAll(child.Env(), cmd[j..]) == AssignAll(old(child.Env()), cmd)
    {
      assert cmd[j..][1..] == cmd[j + 1..];
      if IsAssignment(cmd[j]) {
        var ok := HandleAssignment(child, cmd[j]);
      }
    }
  }

  lemma CopyEnv(bs: seq<Binding>)
    requires UniqueKeys(bs)
    ensures UniqueKeys(Reversed(bs)) && EnvOf(Reversed(bs)) == EnvOf(bs)
    ensures EnvOf(bs) == map[] <==> Reversed(bs) == []
  {
    ReversedEnv(bs);
    EmptyEnv(bs);
  }

  /** `duplicate_variables` and `set_variable_list` together: a store of its own with the same values. */
  method CopyStore(parent: VariableStore) returns (child: VariableStore)
    requires parent.Valid()
    ensures fresh(child) && fresh(child.repr) && child.Valid()
    ensures child.Env() == parent.Env()
    ensures child.head == null <==> parent.Env() == map[]
  {
    ghost var bs := parent.bindings;
    CopyEnv(bs);
    ghost var cells;
    var copy;
    copy, cells := parent.Duplicate();
    child := new VariableStore();
    child.Replace(copy, cells, Reversed(bs));
  }

  /** What child `cmd` does with the variables between `fork` and redirection. */
  method ChildStore(parent: VariableStore, cmd: seq<string>) returns (child: VariableStore)
    requires parent.Valid()
    ensures fresh(child) && fresh(child.repr) && child.Valid()
    ensures child.Env() == ChildEnv(parent.Env(), cmd)
  {
    child := CopyStore(parent);
    if child.head != null {
      AssignInChild(child, cmd);
    }
  }

  /** Each child's store is in order and holds what its command makes of the shell's variables. */
  ghost predicate Served(kids: seq<VariableStore>, cmds: seq<seq<string>>, env: Env)
    reads kids, set i, c | 0 <= i < |kids| && c in kids[i].repr :: c
  {
    |kids| == |cmds| && forall i :: 0 <= i < |kids| ==> kids[i].Valid() && kids[i].Env() == ChildEnv(env, cmds[i])
  }

  /** No two stores share a cell. */
  ghost predicate Apart(kids: seq<VariableStore>)
    reads kids
  {
    forall i, j :: 0 <= i < j < |kids| ==> kids[i].repr !! kids[j].repr
  }

  lemma ApartMore(kid: VariableStore, rest: seq<VariableStore>, used: set<Cell<Binding>>)
    requires Apart(rest) && (forall i :: 0 <= i < |rest| ==> rest[i].repr <= used) && kid.repr !! used
    ensures Apart([kid] + rest)
  {
    var kids := [kid] + rest;
    forall i, j | 0 <= i < j < |kids| ensures kids[i].repr !! kids[j].repr {
      if i > 0 { assert kids[i] == rest[i - 1]; }
      assert kids[j] == rest[j - 1];
    }
  }

  lemma ServedMore(kid: VariableStore, rest: seq<VariableStore>, cmds: seq<seq<string>>, env: Env)
    requires cmds != [] && Served(rest, cmds[1..], env)
    requires kid.Valid() && kid.Env() == ChildEnv(env, cmds[0])
    ensures Served([kid] + rest, cmds, env)
  {
    var kids := [kid] + rest;
    forall i | 0 <= i < |kids| ensures kids[i].Valid() && kids[i].Env() == ChildEnv(env, cmds[i]) {
      if i > 0 { assert kids[i] == rest[i - 1] && cmds[i] == cmds[1..][i - 1]; }
    }
  }

  /** All children of a pipeline: nothing one of them assigns reaches the shell or another child. `used`
      are all the cells they have. */
  method ChildStores(parent: VariableStore, cmds: seq<seq<string>>)
    returns (kids: seq<VariableStore>, ghost used: set<Cell<Binding>>)
    requires parent.Valid()
    ensures Served(kids, cmds, parent.Env()) && Apart(kids)
    ensures fresh(used) && forall i :: 0 <= i < |kids| ==> fresh(kids[i]) && kids[i].repr <= used
    decreases |cmds|
  {
    kids, used := [], {};
    if cmds != [] {
      kids, used := ChildStores(parent, cmds[1..]);
      var kid := ChildStore(parent, cmds[0]);
      assert kid.repr !! used;
      ApartMore(kid, kids, used);
      ServedMore(kid, kids, cmds, parent.Env());
      kids, used := [kid] + kids, used + kid.repr;
    }
  }
}
