/** When expansion leaves a lone `&` behind. It is then taken for a background mark, although the line
    had none; only tokens of echo lines can hold an `&` next to a reference. */
module BackgroundMarks {
  import opened CStrings
  import opened Tokenizer
  import opened Variables
  import opened TokenArrays
  import opened Expansion
  import opened Shell

  /** Nothing but references to names whose value is empty. */
  predicate Vanishes(env: Env, s: string)
    decreases |s|
  {
    s == "" || (Vanishing(env, s) && Vanishes(env, AfterReference(s)))
  }

  /** `s` starts with a reference to a name whose value is empty. */
  predicate Vanishing(env: Env, s: string)
    requires s != ""
  {
    s[0] == '$' &&
    var n := NameLen(s[1..], MAX_STR_LEN - 1); n > 0 && ValueOf(env, s[1..][..n]) == ""
  }

  function AfterReference(s: string): (r: string)
    requires s != ""
    ensures |r| < |s|
  {
    s[1..][NameLen(s[1..], MAX_STR_LEN - 1)..]
  }

  /** An `&` among references to names whose values are empty. */
  predicate MarkIn(env: Env, s: string)
    decreases |s|
  {
    s != "" &&
    if s[0] == '$' then Vanishing(env, s) && MarkIn(env, AfterReference(s))
    else s[0] == '&' && Vanishes(env, s[1..])
  }

  /** An `&` among references: all it takes where nothing is defined. */
  predicate MarkShaped(s: string) {
    MarkIn(map[], s)
  }

  lemma {:induction false} VanishesExactly(env: Env, s: string)
    ensures Expand(env, s) == "" <==> Vanishes(env, s)
    decreases |s|
  {
    if s != "" && s[0] == '$' { VanishesExactly(env, AfterReference(s)); }
  }

  lemma {:induction false} MarkExactly(env: Env, s: string)
    requires SafeEnv(env)
    ensures Expand(env, s) == "&" <==> MarkIn(env, s)
    decreases |s|
  {
    if s != "" {
      if s[0] == '$' {
        MarkExactly(env, AfterReference(s));
        var n := NameLen(s[1..], MAX_STR_LEN - 1);
        var r, x := Reference(env, s[1..], n), Expand(env, AfterReference(s));
        if r != "" {
          assert r[0] in r && (r + x)[0] == r[0];
          assert n > 0 ==> Safe(ValueOf(env, s[1..][..n]));
        } else {
          assert r + x == x;
        }
      } else {
        VanishesExactly(env, s[1..]);
        var x := Expand(env, s[1..]);
        assert ([s[0]] + x)[0] == s[0] && |[s[0]] + x| == 1 + |x|;
        assert s[0] == '&' && x == "" ==> [s[0]] + x == "&";
      }
    }
  }

  /** Exactly which tokens expand to a lone `&`, where no value holds an operator. */
  lemma BoundedMarkExactly(env: Env, t: string)
    requires SafeEnv(env)
    ensures ExpandBounded(env, t) == "&" <==> MarkIn(env, t)
  {
    MarkExactly(env, t);
    BoundedRefines(env, t);
  }

  lemma {:induction false} VanishesUndefined(env: Env, s: string)
    requires Vanishes(env, s)
    ensures Vanishes(map[], s)
    decreases |s|
  {
    if s != "" { VanishesUndefined(env, AfterReference(s)); }
  }

  lemma {:induction false} MarkShapedEverywhere(env: Env, s: string)
    requires MarkIn(env, s)
    ensures MarkShaped(s)
    decreases |s|
  {
    if s[0] == '$' { MarkShapedEverywhere(env, AfterReference(s)); } else { VanishesUndefined(env, s[1..]); }
  }

  /** Exactly which tokens can never gain or lose a mark, whatever harmless values the variables have. */
  lemma MarkGainedExactly(t: string)
    ensures (forall env :: SafeEnv(env) ==> (ExpandBounded(env, t) == "&" <==> t == "&"))
            <==> (t == "&" || !MarkShaped(t))
  {
    if t == "&" || !MarkShaped(t) {
      forall env | SafeEnv(env) ensures ExpandBounded(env, t) == "&" <==> t == "&" {
        BoundedMarkExactly(env, t);
        if MarkIn(env, t) { MarkShapedEverywhere(env, t); }
      }
    } else {
      assert SafeEnv(map[]);
      BoundedMarkExactly(map[], t);
    }
  }

  predicate LeftForLater(ts: seq<string>, i: nat)
    requires i < |ts|
  {
    i == 0 && IsAssignment(ts[0])
  }

  /** At any point of any session: exactly which tokens of a line are a lone `&` after expansion. */
  lemma SessionMarkExactly(lines: seq<string>, line: string, i: nat)
    requires i < |TokensOf(line)|
    ensures var ts, env := TokensOf(line), SessionEnv(map[], lines);
      ExpandedTokens(env, ts)[i] == "&" <==> !LeftForLater(ts, i) && MarkIn(env, ts[i])
  {
    SessionIsSafe(map[], lines);
    BoundedMarkExactly(SessionEnv(map[], lines), TokensOf(line)[i]);
  }

  /** And exactly for which tokens of a line expansion keeps the background marks over every session. */
  lemma MarksKeptExactly(line: string, i: nat)
    requires i < |TokensOf(line)|
    ensures var ts := TokensOf(line);
      (forall lines :: ExpandedTokens(SessionEnv(map[], lines), ts)[i] == "&" <==> ts[i] == "&")
      <==> (ts[i] == "&" || LeftForLater(ts, i) || !MarkShaped(ts[i]))
  {
    var ts := TokensOf(line);
    if ts[i] == "&" || LeftForLater(ts, i) || !MarkShaped(ts[i]) {
      forall lines ensures ExpandedTokens(SessionEnv(map[], lines), ts)[i] == "&" <==> ts[i] == "&" {
        SessionMarkExactly(lines, line, i);
        if MarkIn(SessionEnv(map[], lines), ts[i]) { MarkShapedEverywhere(SessionEnv(map[], lines), ts[i]); }
      }
    } else {
      SessionMarkExactly([], line, i);
      assert SessionEnv(map[], []) == map[];
    }
  }

  /** Every token that can gain a mark does so in some line: `echo` with the token behind it. */
  lemma MarkCanBeGained(t: string)
    requires Plain(t) && MarkShaped(t)
    ensures var ts := TokensOf(Join(["echo", t]) + "\n");
      ts == ["echo", t] && ExpandedTokens(map[], ts)[1] == "&"
  {
    EchoLineRoundTrip([t]);
    assert ["echo"] + [t] == ["echo", t];
    BoundedMarkExactly(map[], t);
  }
}
