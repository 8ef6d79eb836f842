/** Exactly when expanding a text twice comes to expanding it once, for what `expand_variables` returns:
    text cut at 128 characters, or the text itself if it has no `$`. */
module DoubleExpansion {
  import opened CStrings
  import opened Variables
  import opened Expansion

  /** One variable is set, to a single letter; with no name, none is. */
  function OneSet(k: string): Env {
    map[k := "x"]
  }

  /** At most `k` has to have a value for what follows: it has one in `env`, or there is no name. */
  predicate Suffices(env: Env, k: string) {
    k == "" || ValueOf(env, k) != ""
  }

  /** A `$` at `q` with what could be a name behind it. */
  predicate LooseAt(e: string, q: nat) {
    q + 1 < |e| && e[q] == '$' && !NameStop(e[q + 1])
  }

  lemma LooseMeans(e: string)
    ensures AllLone(e) <==> forall q :: 0 <= q < |e| ==> !LooseAt(e, q)
  {
    if forall q :: 0 <= q < |e| ==> !LooseAt(e, q) {
      forall i | 0 <= i < |e| - 1 && e[i] == '$' ensures NameStop(e[i + 1]) {
        assert !LooseAt(e, i);
      }
    }
  }

  /** The first turn of the expansion of `s`, and what is left of the text. */
  function Step(s: string): nat
    requires s != ""
    ensures Step(s) < |s|
  {
    if s[0] == '$' then NameLen(s[1..], MAX_STR_LEN - 1) else 0
  }

  function Head(env: Env, s: string): string
    requires s != ""
  {
    if s[0] == '$' then Reference(env, s[1..], Step(s)) else [s[0]]
  }

  lemma ExpandStep(env: Env, s: string)
    requires s != ""
    ensures Expand(env, s) == Head(env, s) + Expand(env, s[1..][Step(s)..])
  {
    assert s[1..][0..] == s[1..];
  }

  /** Setting nothing but `k`, to one letter, makes no first piece longer. */
  lemma HeadShorter(env: Env, s: string, k: string)
    requires s != "" && Suffices(env, k)
    ensures |Head(OneSet(k), s)| <= |Head(env, s)|
  {
  }

  /** What expansion begins with, if it could be part of a name, needs one variable at most. */
  lemma {:induction false} FirstLetter(env: Env, t: string) returns (k: string)
    requires Expand(env, t) != "" && !NameStop(Expand(env, t)[0])
    ensures Suffices(env, k)
    ensures Expand(OneSet(k), t) != "" && !NameStop(Expand(OneSet(k), t)[0])
    decreases |t|
  {
    ExpandStep(env, t);
    if t[0] != '$' {
      k := "";
    } else if Head(env, t) != "" {
      k := t[1..][..Step(t)];
    } else {
      k := FirstLetter(env, t[1..][Step(t)..]);
    }
    ExpandStep(OneSet(k), t);
  }

  lemma LooseShift(x: string, y: string, q: nat)
    ensures LooseAt(x + y, |x| + q) <==> LooseAt(y, q)
  {
    if q + 1 < |y| { assert (x + y)[|x| + q] == y[q] && (x + y)[|x| + q + 1] == y[q + 1]; }
  }

  /** A `$` that does not stand alone in an expansion needs one variable at most, and is not further
      behind with the others unset. */
  lemma {:induction false} OneSuffices(env: Env, s: string, q: nat) returns (k: string, p: nat)
    requires DollarFree(env) && LooseAt(Expand(env, s), q)
    ensures Suffices(env, k) && p <= q && LooseAt(Expand(OneSet(k), s), p)
    decreases |s|
  {
    var x, rest := Head(env, s), s[1..][Step(s)..];
    ExpandStep(env, s);
    if q >= |x| {
      LooseShift(x, Expand(env, rest), q - |x|);
      k, p := OneSuffices(env, rest, q - |x|);
      HeadShorter(env, s, k);
      ExpandStep(OneSet(k), s);
      LooseShift(Head(OneSet(k), s), Expand(OneSet(k), rest), p);
      p := |Head(OneSet(k), s)| + p;
    } else {
      assert x == "$" && Step(s) == 0 by { assert x[q] == '$' && x[q] in x; }
      k := FirstLetter(env, rest);
      p := 0;
      ExpandStep(OneSet(k), s);
    }
  }

  /** A second expansion changes nothing, whatever the variables hold, as long as that is no `$`. */
  ghost predicate Idempotent(s: string) {
    forall env :: DollarFree(env) ==> ExpandBounded(env, ExpandBounded(env, s)) == ExpandBounded(env, s)
  }

  lemma LoneStays(env: Env, s: string)
    requires AllLone(ExpandBounded(env, s))
    ensures ExpandBounded(env, ExpandBounded(env, s)) == ExpandBounded(env, s)
  {
    var once := ExpandBounded(env, s);
    LoneIsFixed(env, once);
    if '$' !in s { assert once == s; }
  }

  lemma LooseChanges(env: Env, s: string)
    requires (forall k :: k in env ==> |env[k]| <= 1) && '$' in s && !AllLone(ExpandBounded(env, s))
    ensures ExpandBounded(env, ExpandBounded(env, s)) != ExpandBounded(env, s)
  {
    var once := ExpandBounded(env, s);
    assert '$' in once;
    ExpandShrinks(env, once);
  }

  /** In the expansion of a text with one letter for one variable, as cut, every `$` stands alone. */
  predicate LoneWith(k: string, s: string) {
    AllLone(Cut(MAX_STR_LEN, Expand(OneSet(k), s)))
  }

  lemma OtherwiseLoose(env: Env, s: string)
    requires DollarFree(env) && '$' in s && !AllLone(ExpandBounded(env, s))
    ensures exists k :: !LoneWith(k, s)
  {
    var once, e := ExpandBounded(env, s), Expand(env, s);
    LooseMeans(once);
    var q :| 0 <= q < |once| && LooseAt(once, q);
    assert LooseAt(e, q);
    var k, p := OneSuffices(env, s, q);
    var e' := Expand(OneSet(k), s);
    assert LooseAt(Cut(MAX_STR_LEN, e'), p);
    LooseMeans(Cut(MAX_STR_LEN, e'));
    assert !LoneWith(k, s);
  }

  /** Exactly when the second expansion of a text of any length is harmless: it is enough to try one
      variable at a time, with one letter, and to look at one expansion. */
  lemma DoubleBoundedExactly(s: string)
    ensures Idempotent(s) <==> '$' !in s || forall k :: LoneWith(k, s)
  {
    if '$' in s && !(forall k :: LoneWith(k, s)) {
      var k :| !LoneWith(k, s);
      assert DollarFree(OneSet(k));
      LooseChanges(OneSet(k), s);
    } else {
      forall env | DollarFree(env)
        ensures ExpandBounded(env, ExpandBounded(env, s)) == ExpandBounded(env, s)
      {
        if '$' in s && !AllLone(ExpandBounded(env, s)) {
          OtherwiseLoose(env, s);
        } else if '$' in s {
          LoneStays(env, s);
        }
      }
    }
  }

  /** For text that fits the result of one expansion, such as every token of a line: exactly when no `$$`
      is followed by a name. */
  lemma DoubleTokenExactly(s: string)
    requires |s| <= MAX_STR_LEN
    ensures Idempotent(s) <==> Stable(s)
  {
    if Stable(s) {
      forall env | DollarFree(env)
        ensures ExpandBounded(env, ExpandBounded(env, s)) == ExpandBounded(env, s)
      {
        DoubleBoundedExpansion(env, s);
      }
    } else {
      var env := TokenWitness(s);
    }
  }

  /** Values that give every other such text away. */
  lemma TokenWitness(s: string) returns (env: Env)
    requires |s| <= MAX_STR_LEN && !Stable(s)
    ensures DollarFree(env) && ExpandBounded(env, ExpandBounded(env, s)) != ExpandBounded(env, s)
  {
    env := UnstableWitness(s);
    ExpandShrinks(env, s);
    ExpandShrinks(env, Expand(env, s));
    BoundedRefines(env, s);
    BoundedRefines(env, Expand(env, s));
  }

  /** In longer text the cut can hide a `$$` with a name behind it. */
  lemma CutHides(pre: string, t: string)
    requires |pre| >= MAX_STR_LEN && '$' !in pre
    ensures Idempotent(pre + ("$" + ("$" + t)))
  {
    var s := pre + ("$" + ("$" + t));
    forall k ensures LoneWith(k, s) {
      ExpandAppend(OneSet(k), pre, "$" + ("$" + t));
      NoReferences(OneSet(k), pre);
      var e := Expand(OneSet(k), "$" + ("$" + t));
      assert Cut(MAX_STR_LEN, pre + e) == pre[..MAX_STR_LEN];
      assert forall i :: 0 <= i < MAX_STR_LEN ==> pre[i] in pre;
    }
    DoubleBoundedExactly(s);
  }
}
