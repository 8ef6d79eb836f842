/** `cmd_send` of network.c: the message is put together from the tokens of the line and expanded once
    more. */
module ChatClient {
  import opened CStrings
  import opened Variables
  import opened Options
  import opened Expansion

  /** A token in double quotes loses them. */
  function Unquoted(t: string): string {
    if |t| >= 2 && t[0] == '"' && t[|t| - 1] == '"' then t[1..|t| - 1] else t
  }

  /** Quotes at both ends come off, and only those. */
  lemma UnquotedExactly(t: string)
    ensures Unquoted("\"" + t + "\"") == t
    ensures |t| < 2 || t[0] != '"' || t[|t| - 1] != '"' ==> Unquoted(t) == t
  {
  }

  function Unquotes(ts: seq<string>): seq<string> {
    seq(|ts|, i requires 0 <= i < |ts| => Unquoted(ts[i]))
  }

  function MessageText(ts: seq<string>): string {
    Join(Unquotes(ts))
  }

  /** The message of one token more. */
  lemma MessageMore(ts: seq<string>, t: string)
    ensures MessageText(ts + [t]) == if ts == [] then Unquoted(t) else MessageText(ts) + " " + Unquoted(t)
  {
    var us := Unquotes(ts + [t]);
    assert us == Unquotes(ts) + [Unquoted(t)];
    if ts != [] {
      TextGrows(us, |ts|);
      assert us[..|ts|] == Unquotes(ts) && us[..|ts| + 1] == us;
    }
  }

  function ExpandedEach(env: Env, raw: seq<string>): seq<string> {
    seq(|raw|, i requires 0 <= i < |raw| => ExpandBounded(env, raw[i]))
  }

  lemma {:induction false} LoneJoin(ts: seq<string>)
    requires forall t :: t in ts ==> AllLone(t)
    ensures AllLone(Join(ts))
  {
    if |ts| > 1 {
      assert ts[0] in ts && forall t :: t in ts[1..] ==> t in ts;
      LoneJoin(ts[1..]);
      JoinFirst(ts);
      LoneAppend([' '], Join(ts[1..]));
      LoneAppend(ts[0], [' '] + Join(ts[1..]));
    }
  }

  lemma LoneAfterOnce(env: Env, t: string)
    requires DollarFree(env) && Stable(t)
    ensures AllLone(ExpandBounded(env, t)) && AllLone(Unquoted(ExpandBounded(env, t)))
  {
    ExpandLeavesLone(env, t);
    var once := ExpandBounded(env, t);
    assert AllLone(once);
    if Unquoted(once) != once {
      assert forall k :: 0 <= k < |Unquoted(once)| ==> Unquoted(once)[k] == once[k + 1];
    }
  }

  /** `main` expands every token and `cmd_send` expands port, host and the message it makes of the rest
      again: with `$`-free values and stable tokens the second pass leaves port and host alone and at
      most cuts the message. */
  lemma SendExpandsOnce(env: Env, raw: seq<string>)
    requires DollarFree(env) && forall t :: t in raw ==> Stable(t)
    ensures var ts := ExpandedEach(env, raw);
      && (forall i :: 0 <= i < |ts| ==> ExpandBounded(env, ts[i]) == ts[i])
      && forall k :: 0 <= k <= |ts| ==>
           var text := MessageText(ts[k..]);
           ExpandBounded(env, text) == if '$' in text then Cut(MAX_STR_LEN, text) else text
  {
    var ts := ExpandedEach(env, raw);
    forall i | 0 <= i < |ts|
      ensures ExpandBounded(env, ts[i]) == ts[i] && AllLone(Unquoted(ts[i]))
    {
      assert raw[i] in raw;
      DoubleBoundedExpansion(env, raw[i]);
      LoneAfterOnce(env, raw[i]);
    }
    forall k | 0 <= k <= |ts|
      ensures var text := MessageText(ts[k..]);
        ExpandBounded(env, text) == if '$' in text then Cut(MAX_STR_LEN, text) else text
    {
      LoneJoin(Unquotes(ts[k..]));
      LoneIsFixed(env, MessageText(ts[k..]));
    }
  }

  /** The message loop: a space before every token but the first, the token without its quotes. */
  method AppendToken(buf: array<char>, len: nat, first: bool, tok: string, ghost text: string)
    returns (ok: bool, more: nat)
    requires Written(buf, text) && len == |text|
    modifies buf
    ensures var longer := (if first then text else text + " ") + Unquoted(tok);
      && (ok <==> |longer| < buf.Length)
      && (ok ==> more == |longer| && Written(buf, longer))
  {
    ok, more := true, len;
    if !first {
      ok := Append(buf, len, " ", text);
      more := len + 1;
      if !ok {
        return;
      }
    }
    var piece := tok;
    if |tok| >= 2 && tok[0] == '"' && tok[|tok| - 1] == '"' {
      piece := tok[1..|tok| - 1];
    }
    ok := Append(buf, more, piece, if first then text else text + " ");
    more := more + |piece|;
  }

  /** What the loop builds of the tokens behind port and host, or nothing if `strcat` would leave the
      buffer, which it does exactly if the text is too long. */
  method AssembleMessage(tokens: seq<string>) returns (message: Option<string>)
    ensures message == if |MessageText(tokens)| < BUFFER_SIZE then Some(MessageText(tokens)) else None
  {
    ghost var ts := Unquotes(tokens);
    var buf := new char[BUFFER_SIZE];
    buf[0] := NUL;
    var len := 0;
    for i := 0 to |tokens|
      invariant Written(buf, Join(ts[..i])) && len == |Join(ts[..i])|
    {
      if i > 0 { TextGrows(ts, i); } else { assert ts[..1] == [ts[0]] && "" + ts[0] == ts[0]; }
      PrefixShorter(ts, i + 1);
      var ok;
      ok, len := AppendToken(buf, len, i == 0, tokens[i], Join(ts[..i]));
      if !ok {
        return None;
      }
    }
    assert ts[..|tokens|] == ts;
    message := Some(buf[..len]);
  }
}
