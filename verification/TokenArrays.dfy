/** NULL-terminated token vectors, such as `token_arr` and the `cmds[i]` that point into it. */
module TokenArrays {
  import opened Options

  type Token = Option<string>

  /** From index `at` on, `a` holds the tokens `ts` and then NULL. */
  predicate Vector(a: seq<Token>, at: nat, ts: seq<string>) {
    && at + |ts| < |a|
    && (forall k :: 0 <= k < |ts| ==> a[at + k] == Some(ts[k]))
    && a[at + |ts|] == None
  }

  /** Reading a vector: NULL exactly at its end. */
  lemma VectorAt(a: seq<Token>, at: nat, ts: seq<string>, k: nat)
    requires Vector(a, at, ts) && k <= |ts|
    ensures a[at + k] == None <==> k == |ts|
    ensures k < |ts| ==> a[at + k] == Some(ts[k])
  {
  }

  /** `v[j]` for a vector that starts at `at`. */
  method TokenAt(tokens: array<Token>, at: nat, ghost ts: seq<string>, j: nat) returns (tok: Token)
    requires Vector(tokens[..], at, ts) && j <= |ts|
    ensures tok == if j < |ts| then Some(ts[j]) else None
  {
    VectorAt(tokens[..], at, ts, j);
    tok := tokens[at + j];
  }

  /** `is_variable_assignment`: there is an `=`, and not in front. */
  predicate IsAssignment(s: string) {
    s != "" && s[0] != '=' && '=' in s
  }

  /** Exactly when a token is taken for an assignment: it has a `=`, but not in front. */
  lemma AssignmentShape(t: string)
    ensures IsAssignment(t) <==> exists i :: 0 < i < |t| && t[i] == '=' && t[0] != '='
  {
    if '=' in t {
      var i :| 0 <= i < |t| && t[i] == '=';
      assert i > 0 || t[0] == '=';
    }
  }
}
