/** `bn_wc` and `bn_echo` of builtins.c: the in-word automaton, and how it sees echoed arguments. */
module WordCount {
  import opened CStrings

  /** What separates words for `wc`; unlike the shell's delimiters it includes carriage return. */
  predicate Gap(c: char) {
    c == ' ' || c == '\t' || c == '\n' || c == '\r'
  }

  /** Words that begin in `s`, when the automaton enters it in state `inWord`. */
  function Started(inWord: bool, s: string): nat
    decreases |s|
  {
    if s == [] then 0
    else (if !inWord && !Gap(s[0]) then 1 else 0) + Started(!Gap(s[0]), s[1..])
  }

  function EndsInWord(inWord: bool, s: string): bool {
    if s == [] then inWord else !Gap(s[|s| - 1])
  }

  function Newlines(s: string): nat {
    if s == [] then 0 else (if s[0] == '\n' then 1 else 0) + Newlines(s[1..])
  }

  function WordsIn(s: string): nat {
    Started(false, s)
  }

  lemma {:induction false} StartedAppend(inWord: bool, a: string, b: string)
    ensures Started(inWord, a + b) == Started(inWord, a) + Started(EndsInWord(inWord, a), b)
    ensures Newlines(a + b) == Newlines(a) + Newlines(b)
    decreases |a|
  {
    if a == [] {
      assert a + b == b;
    } else {
      assert (a + b)[1..] == a[1..] + b;
      StartedAppend(!Gap(a[0]), a[1..], b);
    }
  }

  /** Counting two pieces apart counts one word twice exactly when the cut falls inside it. */
  lemma WordsAcrossCut(a: string, b: string)
    ensures var split := a != [] && b != [] && !Gap(a[|a| - 1]) && !Gap(b[0]);
      WordsIn(a + b) == WordsIn(a) + WordsIn(b) - (if split then 1 else 0)
  {
    StartedAppend(false, a, b);
  }

  /** The positions at which a maximal run of non-blank characters begins. */
  predicate BeginsRun(s: string, i: nat)
    requires i < |s|
  {
    !Gap(s[i]) && (i == 0 || Gap(s[i - 1]))
  }

  function RunStarts(s: string): set<nat> {
    set i: nat | i < |s| && BeginsRun(s, i)
  }

  /** The automaton counts maximal runs. */
  lemma {:induction false} WordsAreRuns(s: string)
    ensures WordsIn(s) == |RunStarts(s)|
  {
    if s == [] {
      assert RunStarts(s) == {};
    } else {
      var last := |s| - 1;
      var a := s[..last];
      assert s == a + [s[last]];
      WordsAreRuns(a);
      StartedAppend(false, a, [s[last]]);
      assert forall i: nat :: i < last ==> BeginsRun(s, i) == BeginsRun(a, i);
      if !Gap(s[last]) && (last == 0 || Gap(s[last - 1])) {
        assert RunStarts(s) == RunStarts(a) + {last};
      } else {
        assert RunStarts(s) == RunStarts(a);
      }
    }
  }

  /** A character at `i` that is no blank, with nothing or a blank before it. */
  predicate WordStartsAt(s: string, i: nat)
    requires i < |s|
  {
    && s[i] != ' ' && s[i] != '\t' && s[i] != '\n' && s[i] != '\r'
    && (i == 0 || s[i - 1] == ' ' || s[i - 1] == '\t' || s[i - 1] == '\n' || s[i - 1] == '\r')
  }

  /** Words by their characters. */
  lemma WordsExactly(s: string)
    ensures WordsIn(s) == |set i: nat | i < |s| && WordStartsAt(s, i)|
  {
    WordsAreRuns(s);
    assert (set i: nat | i < |s| && WordStartsAt(s, i)) == RunStarts(s);
  }

  /** Lines by their newlines. */
  lemma {:induction false} NewlinesExactly(s: string)
    ensures Newlines(s) == |set i: nat | i < |s| && s[i] == '\n'|
  {
    var at := set i: nat | i < |s| && s[i] == '\n';
    if s == "" {
      assert at == {};
    } else {
      var last := |s| - 1;
      var a := s[..last];
      NewlinesExactly(a);
      assert s == a + [s[last]];
      StartedAppend(false, a, [s[last]]);
      var before := set i: nat | i < |a| && a[i] == '\n';
      assert at == if s[last] == '\n' then before + {last} else before;
    }
  }

  /** On text without carriage returns the words are the shell's tokens. */
  lemma {:induction false} WordsAreTokens(cur: string, s: string)
    requires '\r' !in s
    ensures |Words(cur, s)| == (if cur == [] then 0 else 1) + Started(cur != [], s)
    decreases |s|
  {
    if s == [] {
    } else if Delim(s[0]) {
      WordsAreTokens([], s[1..]);
    } else {
      assert s[0] in s;
      WordsAreTokens(cur + [s[0]], s[1..]);
    }
  }

  /** The counting loop of `bn_wc`. */
  method Wc(input: string) returns (words: nat, chars: nat, newlines: nat)
    ensures words == |RunStarts(input)| && chars == |input| && newlines == Newlines(input)
  {
    words, chars, newlines := 0, 0, 0;
    var inWord := false;
    for i := 0 to |input|
      invariant words + Started(inWord, input[i..]) == WordsIn(input)
      invariant chars == i
      invariant newlines + Newlines(input[i..]) == Newlines(input)
    {
      var c := input[i];
      assert input[i..][1..] == input[i + 1..];
      chars := chars + 1;
      if c == '\n' { newlines := newlines + 1; }
      if c == ' ' || c == '\t' || c == '\n' || c == '\r' {
        inWord := false;
      } else if !inWord {
        inWord := true;
        words := words + 1;
      }
    }
    WordsAreRuns(input);
  }

  // ----- Echo -----

  function EchoText(args: seq<string>): string {
    Join(args) + "\n"
  }

  /** What is still to be written from argument `i` on, with the space that comes first. */
  function Rest(tokens: seq<string>, i: nat): string
    requires 1 <= i <= |tokens|
  {
    (if i == 1 || i == |tokens| then "" else " ") + Join(tokens[i..])
  }

  lemma RestStep(tokens: seq<string>, i: nat, out: string, all: string)
    requires 1 <= i < |tokens| && out + Rest(tokens, i) == all
    ensures ((if i == 1 then out else out + " ") + tokens[i]) + Rest(tokens, i + 1) == all
  {
    assert tokens[i..][1..] == tokens[i + 1..];
    assert Join(tokens[i..]) == tokens[i] + Rest(tokens, i + 1);
  }

  /** `bn_echo` on its NULL-terminated tokens, the first of which is its own name. */
  method Echo(tokens: seq<string>) returns (out: string)
    requires tokens != []
    ensures out == EchoText(tokens[1..])
  {
    out := "";
    if |tokens| == 1 {
      out := out + "\n";
      return;
    }
    var index, first := 1, true;
    ghost var all := Join(tokens[1..]);
    assert out + Rest(tokens, 1) == all;
    while index < |tokens|
      invariant 1 <= index <= |tokens| && (first <==> index == 1)
      invariant out + Rest(tokens, index) == all
    {
      RestStep(tokens, index, out, all);
      if !first {
        out := out + " ";
      }
      out := out + tokens[index];
      first := false;
      index := index + 1;
    }
    assert out + Rest(tokens, index) == out;
    out := out + "\n";
  }

  predicate GapFree(t: string) {
    t != [] && forall c :: c in t ==> !Gap(c)
  }

  lemma {:induction false} GapFreeCounts(inWord: bool, t: string)
    requires GapFree(t)
    ensures Started(inWord, t) == (if inWord then 0 else 1) && Newlines(t) == 0
    decreases |t|
  {
    assert t[0] in t;
    if |t| > 1 { GapFreeCounts(true, t[1..]); }
  }

  /** A word in front of a text, with a space between, is one word more. */
  lemma CountsBehind(t: string, text: string)
    requires GapFree(t)
    ensures Started(false, t + ([' '] + text)) == 1 + Started(false, text)
    ensures Newlines(t + ([' '] + text)) == Newlines(text)
  {
    GapFreeCounts(false, t);
    assert t[|t| - 1] in t;
    StartedAppend(false, t, [' '] + text);
    assert ([' '] + text)[1..] == text;
  }

  lemma {:induction false} JoinedCounts(args: seq<string>)
    requires forall t :: t in args ==> GapFree(t)
    ensures Started(false, Join(args)) == |args| && Newlines(Join(args)) == 0
  {
    if args != [] {
      var t, more := args[0], args[1..];
      assert t in args && forall u :: u in more ==> u in args;
      GapFreeCounts(false, t);
      JoinedCounts(more);
      if more != [] {
        JoinFirst(args);
        CountsBehind(t, Join(more));
      }
    }
  }

  /** `echo` followed by `wc`: n arguments without blanks are n words on one line. */
  lemma EchoCounts(args: seq<string>)
    requires forall t :: t in args ==> GapFree(t)
    ensures WordsIn(EchoText(args)) == |args|
    ensures |EchoText(args)| == |Join(args)| + 1
    ensures Newlines(EchoText(args)) == 1
  {
    JoinedCounts(args);
    StartedAppend(false, Join(args), "\n");
    assert Started(true, "\n") == 0 && Started(false, "\n") == 0 && Newlines("\n") == 1;
  }
}
