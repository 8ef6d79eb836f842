/** `expand_variables`: one pass over the text, names of at most 127 characters, a result of at most
    128; and what its callers rely on. */
module Expansion {
  import opened CStrings
  import opened Variables

  predicate NameStop(c: char) {
    c == ' ' || c == '\t' || c == '\n' || c == '$'
  }

  /** How much of `s` is a variable name, up to `cap` characters. */
  function NameLen(s: string, cap: nat): (n: nat)
    ensures n <= |s| && n <= cap
  {
    if s == "" || cap == 0 || NameStop(s[0]) then 0 else 1 + NameLen(s[1..], cap - 1)
  }

  function ValueOf(env: Env, name: string): string {
    if name in env then env[name] else ""
  }

  /** What the reference behind a `$`, with `n` name characters, turns into. */
  function Reference(env: Env, s: string, n: nat): string
    requires n <= |s|
  {
    if n == 0 then "$" else ValueOf(env, s[..n])
  }

  /** Unlimited single-pass expansion. */
  function Expand(env: Env, s: string): string
    decreases |s|
  {
    if s == "" then ""
    else if s[0] == '$' then
      var n := NameLen(s[1..], MAX_STR_LEN - 1);
      Reference(env, s[1..], n) + Expand(env, s[1..][n..])
    else [s[0]] + Expand(env, s[1..])
  }

  /** What the C function returns: text without `$` is copied whole, whatever its length. */
  function ExpandBounded(env: Env, s: string): string {
    if '$' in s then Cut(MAX_STR_LEN, Expand(env, s)) else s
  }

  lemma {:induction false} NoReferences(env: Env, s: string)
    requires '$' !in s
    ensures Expand(env, s) == s
    decreases |s|
  {
    if s != "" {
      assert s[0] in s;
      NoReferences(env, s[1..]);
    }
  }

  /** Text without `$` apart, the bounded form is a prefix of the unlimited one. */
  lemma BoundedRefines(env: Env, s: string)
    ensures ExpandBounded(env, s) <= Expand(env, s)
    ensures |Expand(env, s)| <= MAX_STR_LEN || '$' !in s ==> ExpandBounded(env, s) == Expand(env, s)
  {
    if '$' !in s { NoReferences(env, s); }
  }

  // ----- The loop -----

  lemma NameStep(str: string, i: nat, cap: nat)
    requires i < |str| && !NameStop(str[i]) && cap > 0
    ensures NameLen(str[i..], cap) == 1 + NameLen(str[i + 1..], cap - 1)
  {
    assert str[i..][1..] == str[i + 1..];
  }

  method ExtractName(str: string, from: nat) returns (name: string)
    requires from <= |str|
    ensures name == str[from..][..NameLen(str[from..], MAX_STR_LEN - 1)]
  {
    var varName := new char[MAX_STR_LEN];
    var i, len: nat := from, 0;
    ghost var n := NameLen(str[from..], MAX_STR_LEN - 1);
    while i < |str| && !NameStop(str[i]) && len < MAX_STR_LEN - 1
      invariant i == from + len <= |str| && len <= MAX_STR_LEN - 1
      invariant len + NameLen(str[i..], MAX_STR_LEN - 1 - len) == n
      invariant forall k :: 0 <= k < len ==> varName[k] == str[from..][k]
      decreases |str| - i
    {
      NameStep(str, i, MAX_STR_LEN - 1 - len);
      varName[len] := str[i];
      len, i := len + 1, i + 1;
    }
    varName[len] := NUL;
    name := varName[..len];
  }

  /** What one turn of the loop appends, before the cut: a character, a lone `$` or a value. */
  method NextPiece(store: VariableStore, str: string, i: nat) returns (piece: string, next: nat)
    requires store.Valid() && i < |str|
    ensures i < next <= |str|
    ensures Expand(store.Env(), str[i..]) == piece + Expand(store.Env(), str[next..])
  {
    assert str[i..][1..] == str[i + 1..];
    if str[i] == '$' {
      var name := ExtractName(str, i + 1);
      piece, next := "$", i + 1 + |name|;
      if name != "" {
        var value := store.GetVariable(name);
        piece := if value.Some? then value.value else "";
      }
      assert str[i + 1..][|name|..] == str[next..];
    } else {
      piece, next := [str[i]], i + 1;
    }
  }

  /** Append as much of a piece as there is room for. */
  method AppendCut(buf: array<char>, len: nat, piece: string, ghost done: string) returns (more: nat)
    requires Written(buf, done) && len == |done| <= MAX_STR_LEN && buf.Length == MAX_STR_LEN + 1
    modifies buf
    ensures Written(buf, Cut(MAX_STR_LEN, done + piece)) && more == |Cut(MAX_STR_LEN, done + piece)|
  {
    var room := if len + |piece| > MAX_STR_LEN then MAX_STR_LEN - len else |piece|;
    assert done + piece[..room] == Cut(MAX_STR_LEN, done + piece);
    var ok := Append(buf, len, piece[..room], done);
    more := len + room;
  }

  lemma CutTwice(done: string, piece: string, tail: string)
    ensures Cut(MAX_STR_LEN, Cut(MAX_STR_LEN, done + piece) + tail) == Cut(MAX_STR_LEN, done + (piece + tail))
    ensures |done + piece| >= MAX_STR_LEN ==>
              Cut(MAX_STR_LEN, done + piece) == Cut(MAX_STR_LEN, done + (piece + tail))
  {
    assert done + (piece + tail) == done + piece + tail;
  }

  /** `expand_variables` with its 129-character buffer: no write is out of range, and the result is
      the unlimited expansion cut at 128 characters. */
  method ExpandVariables(store: VariableStore, str: string) returns (result: string)
    requires store.Valid()
    ensures result == ExpandBounded(store.Env(), str)
  {
    if '$' !in str {
      return str;
    }
    ghost var env := store.Env();
    ghost var all := Cut(MAX_STR_LEN, Expand(env, str));
    var buf := new char[MAX_STR_LEN + 1];
    buf[0] := NUL;
    var i: nat, len: nat := 0, 0;
    ghost var done := "";
    assert str[0..] == str && "" + Expand(env, str) == Expand(env, str);
    while i < |str| && len < MAX_STR_LEN
      invariant i <= |str| && len == |done| <= MAX_STR_LEN && Written(buf, done)
      invariant store.Valid() && store.Env() == env
      invariant Cut(MAX_STR_LEN, done + Expand(env, str[i..])) == all
      decreases |str| - i
    {
      var piece, next := NextPiece(store, str, i);
      CutTwice(done, piece, Expand(env, str[next..]));
      len := AppendCut(buf, len, piece, done);
      i, done := next, Cut(MAX_STR_LEN, done + piece);
    }
    result := buf[..len];
    if len < MAX_STR_LEN { assert str[i..] == "" && done + "" == done; }
  }

  // ----- Splitting -----

  lemma {:induction false} NameLenAppend(a: string, b: string, cap: nat)
    requires b == "" || NameStop(b[0])
    ensures NameLen(a + b, cap) == NameLen(a, cap)
    decreases |a|
  {
    if a == "" {
      assert a + b == b;
    } else if cap > 0 {
      assert (a + b)[1..] == a[1..] + b;
      NameLenAppend(a[1..], b, cap - 1);
    }
  }

  lemma ExpandReference(env: Env, t: string, n: nat)
    requires n == NameLen(t, MAX_STR_LEN - 1)
    ensures Expand(env, "$" + t) == Reference(env, t, n) + Expand(env, t[n..])
  {
    assert ("$" + t)[1..] == t;
  }

  lemma ExpandCharacter(env: Env, c: char, t: string)
    requires c != '$'
    ensures Expand(env, [c] + t) == [c] + Expand(env, t)
  {
    assert ([c] + t)[1..] == t;
  }

  lemma Associate(x: string, y: string, z: string)
    ensures x + (y + z) == (x + y) + z
  {
  }

  lemma CutAppend(t: string, b: string, n: nat)
    requires n <= |t|
    ensures (t + b)[..n] == t[..n] && (t + b)[n..] == t[n..] + b
  {
  }

  /** Expansion is a homomorphism wherever the right part cannot extend a name. */
  lemma {:induction false} ExpandAppend(env: Env, a: string, b: string)
    requires b == "" || NameStop(b[0])
    ensures Expand(env, a + b) == Expand(env, a) + Expand(env, b)
    decreases |a|, 0
  {
    if a == "" {
      assert a + b == b;
    } else {
      var t := a[1..];
      assert a == [a[0]] + t;
      Associate([a[0]], t, b);
      if a[0] == '$' {
        AppendAtReference(env, t, b);
      } else {
        ExpandCharacter(env, a[0], t + b);
        ExpandCharacter(env, a[0], t);
        ExpandAppend(env, t, b);
        Associate([a[0]], Expand(env, t), Expand(env, b));
      }
    }
  }

  lemma {:induction false} AppendAtReference(env: Env, t: string, b: string)
    requires b == "" || NameStop(b[0])
    ensures Expand(env, "$" + (t + b)) == Expand(env, "$" + t) + Expand(env, b)
    decreases |t|, 1
  {
    var n := NameLen(t, MAX_STR_LEN - 1);
    NameLenAppend(t, b, MAX_STR_LEN - 1);
    ExpandReference(env, t + b, n);
    ExpandReference(env, t, n);
    CutAppend(t, b, n);
    ExpandAppend(env, t[n..], b);
    Associate(Reference(env, t, n), Expand(env, t[n..]), Expand(env, b));
  }

  // ----- What a reference turns into -----

  /** No character of `s` ends a variable name. */
  predicate Nameable(s: string) {
    forall c :: c in s ==> c != ' ' && c != '\t' && c != '\n' && c != '$'
  }

  /** Nothing follows, or something that ends a variable name. */
  predicate EndsName(rest: string) {
    rest == "" || rest[0] == ' ' || rest[0] == '\t' || rest[0] == '\n' || rest[0] == '$'
  }

  lemma {:induction false} NameLenExactly(name: string, rest: string, cap: nat)
    requires Nameable(name) && |name| <= cap && (EndsName(rest) || |name| == cap)
    ensures NameLen(name + rest, cap) == |name|
    decreases |name|
  {
    if name == "" {
      assert name + rest == rest;
    } else {
      assert (name + rest)[1..] == name[1..] + rest && name[0] in name;
      assert forall c :: c in name[1..] ==> c in name;
      NameLenExactly(name[1..], rest, cap - 1);
    }
  }

  /** A `$` and a name turn into the whole value, or into nothing if there is none; a name ends where no
      more of it can follow, or after 127 characters. */
  lemma ExpandNamed(env: Env, name: string, rest: string)
    requires Nameable(name) && 0 < |name| <= 127 && (EndsName(rest) || |name| == 127)
    ensures Expand(env, "$" + (name + rest)) == (if name in env then env[name] else "") + Expand(env, rest)
  {
    NameLenExactly(name, rest, 127);
    ExpandReference(env, name + rest, |name|);
    assert (name + rest)[..|name|] == name && (name + rest)[|name|..] == rest;
  }

  /** A `$` without a name stays. */
  lemma ExpandNameless(env: Env, rest: string)
    requires EndsName(rest)
    ensures Expand(env, "$" + rest) == "$" + Expand(env, rest)
  {
    ExpandReference(env, rest, 0);
    assert rest[0..] == rest;
  }

  /** Other characters stay, too. */
  lemma {:induction false} ExpandBefore(env: Env, a: string, b: string)
    requires '$' !in a
    ensures Expand(env, a + b) == a + Expand(env, b)
    decreases |a|
  {
    if a == "" {
      assert a + b == b && a + Expand(env, b) == Expand(env, b);
    } else {
      var t := a[1..];
      assert a == [a[0]] + t && a[0] in a;
      Associate([a[0]], t, b);
      ExpandCharacter(env, a[0], t + b);
      ExpandBefore(env, t, b);
      Associate([a[0]], t, Expand(env, b));
    }
  }

  /** What `expand_variables` returns for a single reference. */
  lemma ExpandBoundedNamed(env: Env, name: string)
    requires Nameable(name) && 0 < |name| <= 127
    ensures ExpandBounded(env, "$" + name) ==
            if name !in env then "" else if |env[name]| <= 128 then env[name] else env[name][..128]
  {
    ExpandNamed(env, name, "");
    assert name + "" == name && '$' in "$" + name;
    var v := if name in env then env[name] else "";
    assert v + Expand(env, "") == v;
  }

  /** And for text without any: the text, whatever its length. */
  lemma ExpandBoundedPlain(env: Env, s: string)
    requires '$' !in s
    ensures ExpandBounded(env, s) == s
  {
  }

  function ExpandAll(env: Env, ts: seq<string>): (r: seq<string>)
    ensures |r| == |ts|
  {
    if ts == [] then [] else [Expand(env, ts[0])] + ExpandAll(env, ts[1..])
  }

  /** Expanding token by token and expanding the joined line come to the same. */
  lemma {:induction false} ExpandJoin(env: Env, ts: seq<string>)
    ensures Expand(env, Join(ts)) == Join(ExpandAll(env, ts))
  {
    if |ts| > 1 {
      ExpandJoin(env, ts[1..]);
      JoinFirst(ts);
      JoinFirst(ExpandAll(env, ts));
      assert ExpandAll(env, ts)[1..] == ExpandAll(env, ts[1..]);
      ExpandAppend(env, ts[0], [' '] + Join(ts[1..]));
      ExpandCharacter(env, ' ', Join(ts[1..]));
    }
  }

  // ----- Expanding twice -----

  predicate DollarFree(env: Env) {
    forall k :: k in env ==> '$' !in env[k]
  }

  /** Every `$` stands alone: at the end, or before a character that cannot be in a name. */
  predicate AllLone(s: string) {
    forall i :: 0 <= i < |s| - 1 && s[i] == '$' ==> NameStop(s[i + 1])
  }

  /** No `$$` is followed by a name. */
  predicate Stable(s: string) {
    forall i :: 0 <= i < |s| - 2 && s[i] == '$' && s[i + 1] == '$' ==> NameStop(s[i + 2])
  }

  lemma {:induction false} LoneIsFixed(env: Env, s: string)
    requires AllLone(s)
    ensures Expand(env, s) == s
    decreases |s|
  {
    if s != "" {
      assert AllLone(s[1..]);
      LoneIsFixed(env, s[1..]);
      if s[0] == '$' { assert NameLen(s[1..], MAX_STR_LEN - 1) == 0 && s[1..][0..] == s[1..]; }
      assert s == [s[0]] + s[1..];
    }
  }

  lemma LoneAppend(a: string, b: string)
    requires AllLone(a) && AllLone(b)
    requires a != "" && a[|a| - 1] == '$' && b != "" ==> NameStop(b[0])
    ensures AllLone(a + b)
  {
  }

  /** After one expansion of stable text with `$`-free values, every `$` left stands alone. */
  lemma {:induction false} ExpandLeavesLone(env: Env, s: string)
    requires DollarFree(env) && Stable(s)
    ensures AllLone(Expand(env, s))
    ensures s != "" && NameStop(s[0]) && (s[0] == '$' && |s| > 1 ==> NameStop(s[1])) ==>
              Expand(env, s) != "" && Expand(env, s)[0] == s[0]
    decreases |s|
  {
    if s != "" {
      var t := s[1..];
      var n := if s[0] == '$' then NameLen(t, MAX_STR_LEN - 1) else 0;
      var x := if s[0] == '$' then Reference(env, t, n) else [s[0]];
      assert Stable(t[n..]) by { assert forall i :: 0 <= i < |t[n..]| ==> t[n..][i] == s[i + n + 1]; }
      ExpandLeavesLone(env, t[n..]);
      assert t[0..] == t;
      if s[0] == '$' && n == 0 && t != "" {
        assert NameStop(t[0]);
        assert t[0] == '$' && |t| > 1 ==> NameStop(t[1]) by { assert s[2..] == t[1..]; }
      }
      LoneAppend(x, Expand(env, t[n..]));
    }
  }

  lemma {:induction false} ExpandShrinks(env: Env, s: string)
    requires forall k :: k in env ==> |env[k]| <= 1
    ensures |Expand(env, s)| <= |s|
    ensures !AllLone(s) ==> |Expand(env, s)| < |s|
    decreases |s|
  {
    if s != "" {
      var t := s[1..];
      var n := if s[0] == '$' then NameLen(t, MAX_STR_LEN - 1) else 0;
      ExpandShrinks(env, t[n..]);
      assert t[0..] == t;
      if n == 0 && AllLone(t) { assert AllLone(s); }
    }
  }

  /** Exactly which texts may be expanded twice without limit: those in which no `$$` is followed by a
      name. */
  lemma DoubleExpansionExactly(s: string)
    ensures (forall env :: DollarFree(env) ==> Expand(env, Expand(env, s)) == Expand(env, s)) <==> Stable(s)
  {
    if Stable(s) {
      forall env | DollarFree(env) ensures Expand(env, Expand(env, s)) == Expand(env, s) {
        ExpandLeavesLone(env, s);
        LoneIsFixed(env, Expand(env, s));
      }
    } else {
      var env := UnstableWitness(s);
    }
  }

  lemma TwoAt(s: string, i: nat)
    requires i + 1 < |s| && s[i] == s[i + 1] == '$'
    ensures s == s[..i] + ("$" + ("$" + s[i + 2..]))
  {
  }

  lemma UnstableAt(s: string) returns (pre: string, t: string)
    requires !Stable(s)
    ensures s == pre + ("$" + ("$" + t)) && NameLen(t, MAX_STR_LEN - 1) > 0
  {
    var i :| 0 <= i < |s| - 2 && s[i] == '$' && s[i + 1] == '$' && !NameStop(s[i + 2]);
    pre, t := s[..i], s[i + 2..];
    TwoAt(s, i);
  }

  lemma UnstableWitness(s: string) returns (env: Env)
    requires !Stable(s)
    ensures DollarFree(env) && forall k :: k in env ==> |env[k]| <= 1
    ensures Expand(env, Expand(env, s)) != Expand(env, s)
  {
    var pre, t := UnstableAt(s);
    env := map[t[..NameLen(t, MAX_STR_LEN - 1)] := "x"];
    NewReference(env, pre, t);
    ExpandShrinks(env, Expand(env, s));
  }

  /** A value behind a lone `$` makes a reference that was not there. */
  lemma NewReference(env: Env, pre: string, t: string)
    requires var n := NameLen(t, MAX_STR_LEN - 1); n > 0 && t[..n] in env && env[t[..n]] == "x"
    ensures !AllLone(Expand(env, pre + ("$" + ("$" + t))))
  {
    var b := "$" + ("$" + t);
    assert b[0] == '$';
    ExpandAppend(env, pre, b);
    TwoDollars(env, t, NameLen(t, MAX_STR_LEN - 1));
    var x, y := Expand(env, pre), Expand(env, b);
    assert (x + y)[|x|] == y[0] == '$' && (x + y)[|x| + 1] == y[1] == 'x';
  }

  lemma TwoDollars(env: Env, t: string, n: nat)
    requires n == NameLen(t, MAX_STR_LEN - 1) && n > 0
    requires t[..n] in env && env[t[..n]] == "x"
    ensures "$x" <= Expand(env, "$" + ("$" + t))
  {
    var u := "$" + t;
    assert ("$" + u)[1..] == u && u[1..] == t && u[0..] == u;
    assert Expand(env, u) == "x" + Expand(env, t[n..]);
    assert NameLen(u, MAX_STR_LEN - 1) == 0;
    assert Expand(env, "$" + u) == "$" + Expand(env, u);
  }

  /** The bounded expansion too, cut and all. */
  lemma DoubleBoundedExpansion(env: Env, s: string)
    requires DollarFree(env) && Stable(s)
    ensures ExpandBounded(env, ExpandBounded(env, s)) == ExpandBounded(env, s)
  {
    if '$' in s {
      ExpandLeavesLone(env, s);
      var once := ExpandBounded(env, s);
      assert AllLone(once);
      LoneIsFixed(env, once);
    }
  }
}
