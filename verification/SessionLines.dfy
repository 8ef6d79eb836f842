/** What whole lines do to the shell: assignments, commands, pipelines, the rest. */
module SessionLines {
  import opened CStrings
  import opened Tokenizer
  import opened Variables
  import opened TokenArrays
  import opened Expansion
  import opened Shell

  /** Characters a token can hold besides operators. */
  predicate Bare(s: string) {
    forall c :: c in s ==> c != ' ' && c != '\t' && c != '\n' && c != '|' && c != '&'
  }

  lemma BareIsClean(s: string)
    requires Bare(s) && s != ""
    ensures Clean(s) && ' ' !in s
  {
  }

  /** A line of one token. */
  lemma OneToken(t: string)
    requires Bare(t) && t != ""
    ensures TokensOf(t + "\n") == [t]
  {
    BareIsClean(t);
    NoSpaceNoFlag(t + "\n");
    assert [t][1..] == [] && Join([t]) == t;
    JoinLays([t]);
    LaysLine(t, [t]);
    TokensAreLexed(t + "\n");
    LexLays(false, t + "\n", [t]);
  }

  lemma {:induction false} FirstEquals(key: string, rest: string)
    requires '=' !in key && rest != "" && rest[0] == '='
    ensures EqualsAt(key + rest) == |key|
  {
    if key == "" {
      assert key + rest == rest;
    } else {
      assert (key + rest)[1..] == key[1..] + rest && key[0] in key;
      FirstEquals(key[1..], rest);
    }
  }

  lemma EqualsAfterKey(key: string, value: string)
    requires '=' !in key
    ensures KeyOf(key + "=" + value) == key && '=' in key + "=" + value && ValueIn(key + "=" + value) == value
  {
    var t := key + "=" + value;
    assert t == key + ("=" + value) && t[|key|] == '=';
    FirstEquals(key, "=" + value);
  }

  /** The line `key=value` is an assignment: it sets the key, as it stands, to the value, expanded. */
  lemma AssignmentLine(env: Env, key: string, value: string)
    requires key != "" && Bare(key) && '=' !in key && Bare(value)
    ensures var t := key + "=" + value;
      DispatchOf(env, t + "\n") == Assignment(t) && LineEnv(env, t + "\n") == env[key := ExpandBounded(env, value)]
  {
    var t := key + "=" + value;
    assert t[|key|] == '=' && t[0] == key[0] && key[0] in key;
    OneToken(t);
    AssignmentShape(t);
    EqualsAfterKey(key, value);
    assert '=' in t && '=' !in "exit" && '=' !in "|";
    assert ExpandedTokens(env, [t])[0] == t;
  }

  /** With a value that holds no reference it is that value... */
  lemma PlainAssignment(env: Env, key: string, value: string)
    requires key != "" && Bare(key) && '=' !in key && Bare(value) && '$' !in value
    ensures LineEnv(env, key + "=" + value + "\n") == env[key := value]
  {
    AssignmentLine(env, key, value);
    ExpandBoundedPlain(env, value);
  }

  /** ...with a reference it is the value of that variable, of which 128 characters are kept. */
  lemma ReferenceAssignment(env: Env, key: string, name: string)
    requires key != "" && Bare(key) && '=' !in key && Bare(name) && '$' !in name && 0 < |name| <= 127
    ensures LineEnv(env, key + "=" + ("$" + name) + "\n") ==
            env[key := if name !in env then "" else if |env[name]| <= 128 then env[name] else env[name][..128]]
  {
    AssignmentLine(env, key, "$" + name);
    ExpandBoundedNamed(env, name);
  }

  /** A line whose first token has no `=`, or begins with one, assigns nothing. */
  lemma NoAssignment(env: Env, line: string)
    requires var ts := TokensOf(line);
      ts == [] || ('$' !in ts[0] && ('=' !in ts[0] || ts[0][0] == '='))
    ensures LineEnv(env, line) == env
  {
    var ts := TokensOf(line);
    if ts != [] {
      AssignmentShape(ts[0]);
      ExpandBoundedPlain(env, ts[0]);
    }
  }

  // ----- Dispatch -----

  /** Blanks and newlines alone make no token. */
  lemma {:induction false} BlanksMakeNothing(line: string)
    requires forall c :: c in line ==> c == ' ' || c == '\t' || c == '\n'
    ensures Lex(EchoFlag(line), [], line) == [] && TokensOf(line) == []
  {
    LexBlanks(EchoFlag(line), line);
    TokensAreLexed(line);
  }

  lemma {:induction false} LexBlanks(echo: bool, line: string)
    requires forall c :: c in line ==> c == ' ' || c == '\t' || c == '\n'
    ensures Lex(echo, [], line) == []
    decreases |line|
  {
    if line != "" {
      assert line[0] in line && forall c :: c in line[1..] ==> c in line;
      LexBlanks(echo, line[1..]);
    }
  }

  lemma EmptyLine(env: Env, line: string)
    requires TokensOf(line) == []
    ensures DispatchOf(env, line) == Nothing && LineEnv(env, line) == env
  {
  }

  /** A line that starts with `exit` ends the session. */
  lemma ExitLine(env: Env, line: string, more: seq<string>)
    requires TokensOf(line) != [] && TokensOf(line)[0] == "exit"
    ensures DispatchOf(env, line) == Quit && SessionEnv(env, [line] + more) == env
  {
    assert ([line] + more)[0] == line;
  }

  /** Any other line without a bar whose first token is no assignment, expanded or not, is a command of
      the expanded tokens... */
  lemma CommandLine(env: Env, line: string)
    requires var ts := TokensOf(line);
      && ts != [] && ts[0] != "exit" && "|" !in ts
      && '$' !in ts[0] && ('=' !in ts[0] || ts[0][0] == '=')
    ensures var ts, d := TokensOf(line), DispatchOf(env, line);
      && d.Command? && |d.tokens| == |ts|
      && forall i :: 0 <= i < |ts| ==> d.tokens[i] == ExpandBounded(env, ts[i])
  {
    var ts := TokensOf(line);
    AssignmentShape(ts[0]);
    ExpandBoundedPlain(env, ts[0]);
  }

  /** ...and with a bar it is a pipeline of them; only an assignment at its head is left to the child. */
  lemma PipelineLine(env: Env, line: string)
    requires "|" in TokensOf(line) && TokensOf(line)[0] != "exit"
    ensures var ts, d := TokensOf(line), DispatchOf(env, line);
      && d.Pipeline? && |d.tokens| == |ts|
      && (forall i :: 0 < i < |ts| ==> d.tokens[i] == ExpandBounded(env, ts[i]))
      && d.tokens[0] == if exists i :: 0 < i < |ts[0]| && ts[0][i] == '=' && ts[0][0] != '='
                        then ts[0] else ExpandBounded(env, ts[0])
  {
    AssignmentShape(TokensOf(line)[0]);
  }

  // ----- A session -----

  /** Lines that do not end the session are carried out one after the other. */
  lemma {:induction false} SessionGoesOn(env: Env, a: seq<string>, b: seq<string>)
    requires forall line :: line in a ==> TokensOf(line) == [] || TokensOf(line)[0] != "exit"
    ensures SessionEnv(env, a + b) == SessionEnv(SessionEnv(env, a), b)
    decreases |a|
  {
    if a == [] {
      assert a + b == b;
    } else {
      assert (a + b)[1..] == a[1..] + b && a[0] in a && forall line :: line in a[1..] ==> line in a;
      SessionGoesOn(LineEnv(env, a[0]), a[1..], b);
    }
  }

  /** After `key=value` the line `echo $key` is `echo` with that value. */
  lemma AssignedThenEchoed(env: Env, key: string, value: string)
    requires 0 < |key| <= 127 && Bare(key) && '=' !in key && '$' !in key
    requires Bare(value) && '$' !in value && |value| <= 128
    ensures var later := SessionEnv(env, [key + "=" + value + "\n"]);
      DispatchOf(later, Join(["echo", "$" + key]) + "\n") == Command(["echo", value])
  {
    var line, later := key + "=" + value + "\n", env[key := value];
    AssignmentLine(env, key, value);
    PlainAssignment(env, key, value);
    assert [line][1..] == [] && SessionEnv(env, [line]) == later;
    EchoesReference(later, key);
  }

  lemma EchoesReference(env: Env, key: string)
    requires 0 < |key| <= 127 && Bare(key) && '=' !in key && '$' !in key
    requires key in env && |env[key]| <= 128
    ensures DispatchOf(env, Join(["echo", "$" + key]) + "\n") == Command(["echo", env[key]])
  {
    var word, line := "$" + key, Join(["echo", "$" + key]) + "\n";
    assert Plain(word) by {
      assert '|' !in word && DelimFree(word);
    }
    EchoLineRoundTrip([word]);
    assert ["echo"] + [word] == ["echo", word] && word != "|";
    CommandLine(env, line);
    ExpandBoundedPlain(env, "echo");
    ExpandBoundedNamed(env, key);
    var d := DispatchOf(env, line);
    assert d.tokens == ["echo", env[key]];
  }

  // ----- Pipeline children -----

  /** A child without variables to inherit assigns nothing; otherwise every `key=value` among its tokens
      counts, and no other token. */
  lemma ChildWithNone(cmd: seq<string>)
    ensures ChildEnv(map[], cmd) == map[]
  {
  }

  lemma {:induction false} AssignAllMore(env: Env, cmd: seq<string>, t: string)
    ensures AssignAll(env, cmd + [t]) ==
            if IsAssignment(t) then AssignEnv(AssignAll(env, cmd), t) else AssignAll(env, cmd)
    decreases |cmd|
  {
    if cmd == [] {
      assert cmd + [t] == [t] && [t][1..] == [];
    } else {
      assert (cmd + [t])[1..] == cmd[1..] + [t];
      AssignAllMore(if IsAssignment(cmd[0]) then AssignEnv(env, cmd[0]) else env, cmd[1..], t);
    }
  }

  lemma ChildAssigns(env: Env, cmd: seq<string>, key: string, value: string)
    requires env != map[] && key != "" && Bare(key) && '=' !in key && '$' !in value
    ensures ChildEnv(env, cmd + [key + "=" + value]) == ChildEnv(env, cmd)[key := value]
  {
    var t := key + "=" + value;
    assert t[|key|] == '=' && t[0] == key[0] && key[0] in key;
    AssignmentShape(t);
    EqualsAfterKey(key, value);
    AssignAllMore(env, cmd, t);
    ExpandBoundedPlain(AssignAll(env, cmd), value);
  }

  lemma ChildIgnores(env: Env, cmd: seq<string>, t: string)
    requires t == "" || '=' !in t || t[0] == '='
    ensures ChildEnv(env, cmd + [t]) == ChildEnv(env, cmd)
  {
    AssignmentShape(t);
    AssignAllMore(env, cmd, t);
  }
}
