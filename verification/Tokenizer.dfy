/** `tokenize_input` and `combine_tokens`: operators are spaced out in place, the buffer is cut into
    tokens, and tokens are joined again. */
module Tokenizer {
  import opened CStrings

  // ----- What a line means -----

  predicate AllBlank(s: string) {
    forall c :: c in s ==> Blank(c)
  }

  /** Whether the character at the head of `s` is an operator: `|` always, `&` unless the line is an
      echo command, in which case only when nothing but spaces and tabs follows. */
  predicate Special(echo: bool, s: string)
    requires s != []
  {
    s[0] == '|' || (s[0] == '&' && (!echo || AllBlank(s[1..])))
  }

  function GapBefore(tight: bool): string {
    if tight then " " else ""
  }

  /** Taking a character, or a space that was put before it, off the front. */
  lemma Front(tight: bool, c: char, x: string)
    ensures ([c] + x)[1..] == x
    ensures tight ==> (GapBefore(tight) + ([c] + x))[0] == ' ' && (GapBefore(tight) + ([c] + x))[1..] == [c] + x
    ensures !tight ==> GapBefore(tight) + ([c] + x) == [c] + x
  {
  }

  function GapAfter(rest: string): string {
    if rest != [] && rest[0] != ' ' then " " else ""
  }

  function Trail(gap: string, rest: string): (r: string)
    ensures gap == "" ==> r == rest
    ensures gap != "" ==> r != [] && r[0] == gap[0]
    ensures |gap| == 1 ==> r[1..] == rest
  {
    gap + rest
  }

  /** The spacing pass on what is left of a line; `tight` says that a character other than a space
      comes just before. */
  function Spaced(echo: bool, tight: bool, s: string): string
    decreases |s|
  {
    if s == [] then ""
    else if Special(echo, s) then
      GapBefore(tight) + ([s[0]] + Trail(GapAfter(s[1..]), Spaced(echo, GapAfter(s[1..]) == "", s[1..])))
    else [s[0]] + Spaced(echo, s[0] != ' ', s[1..])
  }

  /** The reference: a one-pass lexer in which every operator is a token of its own. */
  function Lex(echo: bool, cur: string, s: string): seq<string>
    decreases |s|
  {
    if s == [] then Flush(cur)
    else if Special(echo, s) then Flush(cur) + [[s[0]]] + Lex(echo, [], s[1..])
    else if Delim(s[0]) then Flush(cur) + Lex(echo, [], s[1..])
    else Lex(echo, cur + [s[0]], s[1..])
  }

  /** Index of the first occurrence of `pat` at or after `from`, or |s| + 1 (`strstr`). */
  function Find(s: string, pat: string, from: nat): (i: nat)
    requires from <= |s| + 1
    ensures from <= i <= |s| + 1
    ensures i <= |s| ==> pat <= s[i..]
    ensures forall j :: from <= j < i && j <= |s| ==> !(pat <= s[j..])
    decreases |s| + 1 - from
  {
    if from > |s| || pat <= s[from..] then from else Find(s, pat, from + 1)
  }

  /** The echo flag looks at the first "echo " only: at the start of the line or right after "| ". */
  predicate EchoFlag(s: string) {
    var i := Find(s, "echo ", 0);
    i == 0 || (2 <= i <= |s| && s[i - 1] == ' ' && s[i - 2] == '|')
  }

  function TokensOf(line: string): seq<string> {
    Words([], Spaced(EchoFlag(line), false, line))
  }

  lemma WordsAtOperator(tight: bool, cur: string, c: char, more: string, behind: seq<string>)
    requires (cur != [] ==> tight) && !Delim(c)
    requires Words([c], more) == [[c]] + behind
    ensures Words(cur, GapBefore(tight) + ([c] + more)) == Flush(cur) + [[c]] + behind
  {
    Front(tight, c, more);
    assert [] + [c] == [c];
    assert Words([], [c] + more) == Words([c], more);
    assert Flush(cur) + Words([], [c] + more) == Flush(cur) + [[c]] + behind;
  }

  /** `x`, and a space behind it if the text goes on without one, is a token of its own. */
  lemma WordsBehindOperator(echo: bool, op: string, s: string, rest: string)
    requires op != []
    requires var cur := if GapAfter(s) == "" then op else []; Words(cur, rest) == Lex(echo, cur, s)
    ensures Words(op, Trail(GapAfter(s), rest)) == [op] + Lex(echo, [], s)
  {
    if GapAfter(s) == "" { OperatorThenBlank(echo, op, s); }
  }

  lemma TokensAtOperator(echo: bool, tight: bool, cur: string, s: string)
    requires s != [] && Special(echo, s) && (cur != [] ==> tight)
    requires var open := if GapAfter(s[1..]) == "" then [s[0]] else [];
      Words(open, Spaced(echo, GapAfter(s[1..]) == "", s[1..])) == Lex(echo, open, s[1..])
    ensures Words(cur, Spaced(echo, tight, s)) == Lex(echo, cur, s)
  {
    var rest := Spaced(echo, GapAfter(s[1..]) == "", s[1..]);
    WordsBehindOperator(echo, [s[0]], s[1..], rest);
    WordsAtOperator(tight, cur, s[0], Trail(GapAfter(s[1..]), rest), Lex(echo, [], s[1..]));
  }

  lemma TokensAtBlank(echo: bool, tight: bool, cur: string, s: string)
    requires s != [] && Delim(s[0])
    requires Words([], Spaced(echo, s[0] != ' ', s[1..])) == Lex(echo, [], s[1..])
    ensures Words(cur, Spaced(echo, tight, s)) == Lex(echo, cur, s)
  {
    assert Spaced(echo, tight, s)[1..] == Spaced(echo, s[0] != ' ', s[1..]);
  }

  lemma TokensInWord(echo: bool, tight: bool, cur: string, s: string)
    requires s != [] && !Special(echo, s) && !Delim(s[0])
    requires Words(cur + [s[0]], Spaced(echo, true, s[1..])) == Lex(echo, cur + [s[0]], s[1..])
    ensures Words(cur, Spaced(echo, tight, s)) == Lex(echo, cur, s)
  {
    assert Spaced(echo, tight, s)[1..] == Spaced(echo, true, s[1..]);
  }

  /** Spacing out and splitting at blanks gives the reference lexer's tokens. */
  lemma {:induction false} SpacedTokens(echo: bool, tight: bool, cur: string, s: string)
    requires cur != [] ==> tight
    ensures Words(cur, Spaced(echo, tight, s)) == Lex(echo, cur, s)
    decreases |s|
  {
    if s == [] {
    } else if Special(echo, s) {
      SpacedTokens(echo, GapAfter(s[1..]) == "", if GapAfter(s[1..]) == "" then [s[0]] else [], s[1..]);
      TokensAtOperator(echo, tight, cur, s);
    } else if Delim(s[0]) {
      SpacedTokens(echo, s[0] != ' ', [], s[1..]);
      TokensAtBlank(echo, tight, cur, s);
    } else {
      SpacedTokens(echo, true, cur + [s[0]], s[1..]);
      TokensInWord(echo, tight, cur, s);
    }
  }

  lemma OperatorThenBlank(echo: bool, op: string, s: string)
    requires op != [] && GapAfter(s) == ""
    ensures Lex(echo, op, s) == [op] + Lex(echo, [], s)
  {
    if s != [] { assert s[0] == ' '; }
  }

  lemma TokensAreLexed(line: string)
    ensures TokensOf(line) == Lex(EchoFlag(line), [], line)
  {
    SpacedTokens(EchoFlag(line), false, [], line);
  }

  // ----- What the pass does to the text -----

  function Operators(s: string): nat {
    if s == [] then 0 else (if s[0] == '|' || s[0] == '&' then 1 else 0) + Operators(s[1..])
  }

  /** The pass needs room for at most two spaces an operator. */
  lemma {:induction false} SpacedLength(echo: bool, tight: bool, s: string)
    ensures |s| <= |Spaced(echo, tight, s)| <= |s| + 2 * Operators(s)
    decreases |s|
  {
    if s == [] {
    } else if Special(echo, s) {
      SpacedLength(echo, GapAfter(s[1..]) == "", s[1..]);
    } else {
      SpacedLength(echo, s[0] != ' ', s[1..]);
    }
  }

  /** `t` is `s` with spaces inserted. */
  predicate WithSpaces(s: string, t: string)
    decreases |t|
  {
    if t == [] then s == []
    else (s != [] && s[0] == t[0] && WithSpaces(s[1..], t[1..])) || (t[0] == ' ' && WithSpaces(s, t[1..]))
  }

  lemma WithOneMore(s: string, t: string)
    requires WithSpaces(s, t)
    ensures WithSpaces(s, " " + t)
    ensures forall c: char :: WithSpaces([c] + s, [c] + t)
  {
    assert (" " + t)[1..] == t;
    forall c: char ensures WithSpaces([c] + s, [c] + t) {
      assert ([c] + t)[1..] == t && ([c] + s)[1..] == s;
    }
  }

  lemma {:induction false} SpacedInsertsSpaces(echo: bool, tight: bool, s: string)
    ensures WithSpaces(s, Spaced(echo, tight, s))
    decreases |s|
  {
    if s == [] {
    } else if Special(echo, s) {
      var aft := GapAfter(s[1..]);
      var rest := Spaced(echo, aft == "", s[1..]);
      SpacedInsertsSpaces(echo, aft == "", s[1..]);
      WithOneMore(s[1..], rest);
      WithOneMore(s[1..], Trail(aft, rest));
      assert [s[0]] + s[1..] == s;
      WithOneMore(s, [s[0]] + Trail(aft, rest));
      Front(tight, s[0], Trail(aft, rest));
    } else {
      SpacedInsertsSpaces(echo, s[0] != ' ', s[1..]);
      WithOneMore(s[1..], Spaced(echo, s[0] != ' ', s[1..]));
      assert [s[0]] + s[1..] == s;
    }
  }

  /** Every `op` in `s` has a space or an end of the string on either side; `tight` as above. */
  predicate Bounded(op: char, tight: bool, s: string)
    decreases |s|
  {
    s == [] ||
    ((s[0] == op ==> !tight && GapAfter(s[1..]) == "") && Bounded(op, s[0] != ' ', s[1..]))
  }

  lemma {:induction false} BoundedAt(op: char, tight: bool, s: string, i: nat)
    requires Bounded(op, tight, s) && i < |s| && s[i] == op
    ensures if i == 0 then !tight else s[i - 1] == ' '
    ensures i + 1 == |s| || s[i + 1] == ' '
    decreases |s|
  {
    if i > 0 {
      BoundedAt(op, s[0] != ' ', s[1..], i - 1);
      if i == 1 { assert s[1..][0] == op; }
    }
  }

  lemma BoundedOperator(op: char, tight: bool, c: char, gap: string, rest: string)
    requires op != ' ' && c != ' ' && Bounded(op, gap == "", rest)
    requires if rest == [] || rest[0] == ' ' then gap == "" else gap == " "
    ensures Bounded(op, tight, GapBefore(tight) + ([c] + Trail(gap, rest)))
  {
    var more := Trail(gap, rest);
    assert Bounded(op, true, more) && GapAfter(more) == "";
    Front(tight, c, more);
    assert Bounded(op, false, [c] + more);
  }

  /** No gap is put in front of the end or of a space, and the pass leaves those where they are. */
  lemma SpacedHead(echo: bool, tight: bool, s: string)
    ensures Spaced(echo, tight, s) == [] <==> s == []
    ensures s != [] && s[0] == ' ' ==> Spaced(echo, tight, s)[0] == ' '
  {
  }

  lemma {:induction false} SpacedBounds(echo: bool, tight: bool, s: string, op: char)
    requires op == '|' || (op == '&' && !echo)
    ensures Bounded(op, tight, Spaced(echo, tight, s))
    decreases |s|
  {
    if s == [] {
    } else if Special(echo, s) {
      var aft := GapAfter(s[1..]);
      SpacedBounds(echo, aft == "", s[1..], op);
      SpacedHead(echo, aft == "", s[1..]);
      BoundedOperator(op, tight, s[0], aft, Spaced(echo, aft == "", s[1..]));
    } else {
      SpacedBounds(echo, s[0] != ' ', s[1..], op);
      assert Spaced(echo, tight, s)[1..] == Spaced(echo, s[0] != ' ', s[1..]);
    }
  }

  lemma {:induction false} SpacedBlank(echo: bool, tight: bool, s: string)
    ensures AllBlank(Spaced(echo, tight, s)) <==> AllBlank(s)
    decreases |s|
  {
    if s == [] {
    } else if Special(echo, s) {
      Front(tight, s[0], Trail(GapAfter(s[1..]), Spaced(echo, GapAfter(s[1..]) == "", s[1..])));
      assert s[0] in Spaced(echo, tight, s) && s[0] in s && !Blank(s[0]);
    } else {
      SpacedBlank(echo, s[0] != ' ', s[1..]);
      BlankHead(s);
      BlankHead(Spaced(echo, tight, s));
      assert Spaced(echo, tight, s)[1..] == Spaced(echo, s[0] != ' ', s[1..]);
    }
  }

  lemma BlankTrail(gap: string, rest: string)
    requires AllBlank(rest) && (gap == "" || gap == " ")
    ensures AllBlank(Trail(gap, rest))
  {
  }

  lemma BlankHead(s: string)
    requires s != []
    ensures AllBlank(s) <==> Blank(s[0]) && AllBlank(s[1..])
  {
    assert s == [s[0]] + s[1..];
  }

  lemma SpacedFixed(echo: bool, tight: bool, c: char, more: string)
    requires Special(echo, [c] + more) && GapAfter(more) == "" && Spaced(echo, true, more) == more
    ensures Spaced(echo, tight, GapBefore(tight) + ([c] + more)) == GapBefore(tight) + ([c] + more)
  {
    Front(tight, c, more);
    Front(false, c, more);
    assert Spaced(echo, false, [c] + more) == [c] + more by {
      assert Trail("", more) == more;
    }
  }

  lemma FixedAtOperator(echo: bool, tight: bool, c: char, gap: string, rest: string)
    requires c == '|' || (c == '&' && (!echo || AllBlank(rest)))
    requires if rest == [] || rest[0] == ' ' then gap == "" else gap == " "
    requires Spaced(echo, gap == "", rest) == rest
    ensures var t := GapBefore(tight) + ([c] + Trail(gap, rest)); Spaced(echo, tight, t) == t
  {
    var more := Trail(gap, rest);
    assert Spaced(echo, true, more) == more && GapAfter(more) == "";
    Front(false, c, more);
    if AllBlank(rest) { BlankTrail(gap, rest); }
    SpacedFixed(echo, tight, c, more);
  }

  /** A second pass with the same flag changes nothing. */
  lemma {:induction false} SpacedIdempotent(echo: bool, tight: bool, s: string)
    ensures Spaced(echo, tight, Spaced(echo, tight, s)) == Spaced(echo, tight, s)
    decreases |s|
  {
    if s == [] {
    } else if Special(echo, s) {
      var aft := GapAfter(s[1..]);
      SpacedIdempotent(echo, aft == "", s[1..]);
      SpacedBlank(echo, aft == "", s[1..]);
      SpacedHead(echo, aft == "", s[1..]);
      FixedAtOperator(echo, tight, s[0], aft, Spaced(echo, aft == "", s[1..]));
    } else {
      var rest := Spaced(echo, s[0] != ' ', s[1..]);
      SpacedIdempotent(echo, s[0] != ' ', s[1..]);
      SpacedBlank(echo, s[0] != ' ', s[1..]);
      assert Spaced(echo, tight, s)[1..] == rest;
    }
  }

  // ----- Printing and reading again -----

  /** What the lexer's tokens look like: no delimiter, and a `|` only on its own. */
  predicate Plain(t: string) {
    t != [] && DelimFree(t) && ('|' in t ==> t == "|")
  }

  /** An `&` only on its own, too. */
  predicate Clean(t: string) {
    Plain(t) && ('&' in t ==> t == "&")
  }

  lemma {:induction false} LexPlain(echo: bool, cur: string, s: string)
    requires DelimFree(cur) && '|' !in cur && (!echo ==> '&' !in cur)
    ensures forall t :: t in Lex(echo, cur, s) ==> Plain(t) && (!echo ==> Clean(t))
    decreases |s|
  {
    if s == [] {
    } else if Special(echo, s) || Delim(s[0]) {
      LexPlain(echo, [], s[1..]);
    } else {
      LexPlain(echo, cur + [s[0]], s[1..]);
    }
  }

  predicate EndsInAmp(t: string) {
    t != [] && t[|t| - 1] == '&'
  }

  /** When a joined list of plain tokens reads back as itself: with the flag off if every `&` stands
      alone, with the flag on if the last token does not end in an attached `&`. */
  predicate Rereads(echo: bool, ts: seq<string>) {
    if echo then ts != [] && EndsInAmp(ts[|ts| - 1]) ==> ts[|ts| - 1] == "&"
    else forall t :: t in ts ==> Clean(t)
  }

  /** The lexer walks through a token that holds no operator. */
  lemma {:induction false} LexConsumes(echo: bool, cur: string, w: string, rest: string)
    requires DelimFree(w) && '|' !in w
    requires if echo then EndsInAmp(w) ==> !AllBlank(rest) else '&' !in w
    ensures Lex(echo, cur, w + rest) == Lex(echo, cur + w, rest)
    decreases |w|
  {
    if w == [] {
      assert w + rest == rest && cur + w == cur;
    } else {
      assert (w + rest)[1..] == w[1..] + rest;
      assert cur + [w[0]] + w[1..] == cur + w;
      if echo && w[0] == '&' {
        assert !AllBlank(w[1..] + rest) by {
          if |w| > 1 { assert w[1] in w && w[1] in w[1..] + rest; } else { assert w[1..] + rest == rest; }
        }
      }
      LexConsumes(echo, cur + [w[0]], w[1..], rest);
    }
  }

  /** A plain token at the front, followed by a delimiter or the end, is read as it stands. */
  lemma LexFirst(echo: bool, w: string, rest: string)
    requires Plain(w) && (rest == [] || Delim(rest[0]))
    requires if echo then EndsInAmp(w) ==> w == "&" || !AllBlank(rest) else Clean(w)
    ensures Lex(echo, [], w + rest) == [w] + Lex(echo, [], rest)
  {
    if w == "|" || (w == "&" && (!echo || AllBlank(rest))) {
      assert (w + rest)[1..] == rest;
      assert Lex(echo, [], w + rest) == [w] + Lex(echo, [], rest);
    } else {
      LexConsumes(echo, [], w, rest);
      assert [] + w == w;
    }
  }

  // ----- Text with gaps -----

  /** `s` is the tokens `ts` in order, with delimiters between them and perhaps around them. */
  predicate Lays(s: string, ts: seq<string>)
    decreases |s|
  {
    if s != [] && Delim(s[0]) then Lays(s[1..], ts)
    else if ts == [] then s == []
    else
      && ts[0] != [] && ts[0] <= s
      && (|s| == |ts[0]| || Delim(s[|ts[0]|]))
      && Lays(s[|ts[0]|..], ts[1..])
  }

  predicate EndsLine(s: string) {
    s != [] && s[|s| - 1] == '\n'
  }

  lemma {:induction false} LaysNotBlank(s: string, ts: seq<string>)
    requires Lays(s, ts) && ts != [] && Plain(ts[0])
    ensures !AllBlank(s)
    decreases |s|
  {
    if Delim(s[0]) {
      LaysNotBlank(s[1..], ts);
      assert forall c :: c in s[1..] ==> c in s;
    } else {
      assert s[0] == ts[0][0] && s[0] in ts[0] && s[0] in s;
    }
  }

  /** The lexer finds the tokens of a text, unless an attached final `&` has only blanks behind it. */
  lemma {:induction false} LexLays(echo: bool, s: string, ts: seq<string>)
    requires Lays(s, ts) && forall t :: t in ts ==> Plain(t)
    requires Rereads(echo, ts) || (echo && EndsLine(s))
    ensures Lex(echo, [], s) == ts
    decreases |s|
  {
    if s != [] && Delim(s[0]) {
      LexLays(echo, s[1..], ts);
    } else if ts != [] {
      var w, more, rest := ts[0], ts[1..], s[|ts[0]|..];
      assert s == w + rest && ts == [w] + more;
      assert more != [] ==> ts[|ts| - 1] == more[|more| - 1] && rest != [];
      LexLays(echo, rest, more);
      if more != [] {
        LaysNotBlank(rest, more);
      } else if EndsLine(s) && EndsInAmp(w) {
        assert rest != [] && rest[|rest| - 1] == '\n' && '\n' in rest;
      }
      LexFirst(echo, w, rest);
    }
  }

  lemma {:induction false} JoinLays(ts: seq<string>)
    requires forall t :: t in ts ==> Plain(t)
    ensures Lays(Join(ts), ts)
  {
    if ts != [] {
      var w, more := ts[0], ts[1..];
      assert w in ts && w[0] in w && forall t :: t in more ==> t in ts;
      JoinLays(more);
      var rest := if more == [] then "" else " " + Join(more);
      assert Join(ts) == w + rest && (w + rest)[|w|..] == rest;
      if more != [] { assert rest[1..] == Join(more); }
    }
  }

  function NonEmpty(ts: seq<string>): seq<string> {
    if ts == [] then [] else (if ts[0] == "" then [] else [ts[0]]) + NonEmpty(ts[1..])
  }

  lemma LaysOne(d: char, tok: string)
    requires Delim(d) && DelimFree(tok)
    ensures Lays([d] + tok, if tok == "" then [] else [tok])
  {
    assert ([d] + tok)[1..] == tok;
    assert tok != "" ==> tok[0] in tok && tok[|tok|..] == [];
  }

  /** One more token, or none, behind one more delimiter. */
  lemma {:induction false} LaysMore(s: string, ts: seq<string>, d: char, tok: string)
    requires Lays(s, ts) && Delim(d) && DelimFree(tok)
    ensures Lays(s + ([d] + tok), ts + (if tok == "" then [] else [tok]))
    decreases |s|
  {
    var last, x := if tok == "" then [] else [tok], [d] + tok;
    if s == [] {
      LaysOne(d, tok);
      assert s + x == x && ts + last == last;
    } else if Delim(s[0]) {
      assert (s + x)[1..] == s[1..] + x;
      LaysMore(s[1..], ts, d, tok);
    } else {
      var n := |ts[0]|;
      assert (s + x)[n..] == s[n..] + x && (s + x)[..n] == s[..n] == ts[0];
      assert (ts + last)[1..] == ts[1..] + last;
      LaysMore(s[n..], ts[1..], d, tok);
    }
  }

  /** A newline at the end makes no difference to what is laid out. */
  lemma LaysLine(s: string, ts: seq<string>)
    requires Lays(s, ts)
    ensures Lays(s + "\n", ts) && EndsLine(s + "\n")
  {
    LaysMore(s, ts, '\n', "");
    assert ['\n'] + "" == "\n" && ts + [] == ts;
  }

  /** On text without a newline, the last token the echo lexer returns has no attached final `&`. */
  lemma {:induction false} LexDetachesLastAmp(cur: string, s: string)
    requires '\n' !in s && (EndsInAmp(cur) ==> !AllBlank(s))
    ensures Rereads(true, Lex(true, cur, s))
    ensures !AllBlank(s) ==> Lex(true, [], s) != []
    decreases |s|
  {
    if s != [] {
      BlankHead(s);
      if Special(true, s) || Delim(s[0]) {
        LexDetachesLastAmp([], s[1..]);
      } else {
        LexDetachesLastAmp(cur + [s[0]], s[1..]);
        LexKeeps(true, [s[0]], s[1..]);
        assert [] + [s[0]] == [s[0]];
      }
    }
  }

  lemma {:induction false} LexKeeps(echo: bool, cur: string, s: string)
    requires cur != []
    ensures Lex(echo, cur, s) != []
    decreases |s|
  {
    if s != [] && !Special(echo, s) && !Delim(s[0]) { LexKeeps(echo, cur + [s[0]], s[1..]); }
  }

  /** Exactly when text without a newline is tokenised into the plain tokens it lays out. */
  lemma LaysRereadExactly(s: string, ts: seq<string>)
    requires Lays(s, ts) && '\n' !in s && forall t :: t in ts ==> Plain(t)
    ensures TokensOf(s) == ts <==> Rereads(EchoFlag(s), ts)
  {
    var again := EchoFlag(s);
    TokensAreLexed(s);
    if Rereads(again, ts) {
      LexLays(again, s, ts);
    } else if again {
      LexDetachesLastAmp([], s);
    } else {
      LexPlain(false, [], s);
    }
  }

  lemma {:induction false} JoinHasNoNewline(ts: seq<string>)
    requires forall t :: t in ts ==> DelimFree(t)
    ensures '\n' !in Join(ts)
  {
    if ts != [] {
      assert ts[0] in ts;
      assert forall t :: t in ts[1..] ==> t in ts;
      JoinHasNoNewline(ts[1..]);
    }
  }

  /** Exactly when a joined list of plain tokens is tokenised back into that list. */
  lemma RereadExactly(ts: seq<string>)
    requires forall t :: t in ts ==> Plain(t)
    ensures TokensOf(Join(ts)) == ts <==> Rereads(EchoFlag(Join(ts)), ts)
  {
    JoinLays(ts);
    JoinHasNoNewline(ts);
    LaysRereadExactly(Join(ts), ts);
  }

  /** So: exactly when joining the tokens of a line and tokenising again, with the flag detected
      afresh, returns the same tokens. */
  lemma RoundTripExactly(line: string)
    ensures var ts := TokensOf(line);
      TokensOf(Join(ts)) == ts <==> Rereads(EchoFlag(Join(ts)), ts)
  {
    TokensAreLexed(line);
    LexPlain(EchoFlag(line), [], line);
    RereadExactly(TokensOf(line));
  }

  /** A line read with the flag off always survives, whatever flag its joined form gets. */
  lemma RoundTripFlagOff(line: string)
    requires !EchoFlag(line)
    ensures TokensOf(Join(TokensOf(line))) == TokensOf(line)
  {
    var ts := TokensOf(line);
    TokensAreLexed(line);
    LexPlain(false, [], line);
    RoundTripExactly(line);
    if ts != [] { assert ts[|ts| - 1] in ts; }
  }

  lemma StartsWithEcho(s: string)
    requires "echo " <= s
    ensures EchoFlag(s)
  {
    assert s[0..] == s;
  }

  /** An echo line, with its newline, is read as it was written: the newline hides the background mark
      from the lookahead. Its joined form has no newline, and so keeps its tokens exactly if the last
      one has no attached final `&`. */
  lemma EchoLineRoundTrip(words: seq<string>)
    requires words != [] && forall t :: t in words ==> Plain(t)
    ensures var ts := ["echo"] + words;
      var last := ts[|ts| - 1];
      && TokensOf(Join(ts) + "\n") == ts
      && (TokensOf(Join(ts)) == ts <==> (EndsInAmp(last) ==> last == "&"))
  {
    var ts := ["echo"] + words;
    assert ts[1..] == words && Join(ts) == "echo" + " " + Join(words);
    StartsWithEcho(Join(ts));
    StartsWithEcho(Join(ts) + "\n");
    RereadExactly(ts);
    JoinLays(ts);
    LaysLine(Join(ts), ts);
    TokensAreLexed(Join(ts) + "\n");
    LexLays(true, Join(ts) + "\n", ts);
  }

  // ----- The echo flag -----

  /** The first `echo ` of a text. */
  predicate FirstEcho(s: string, i: nat) {
    i <= |s| && "echo " <= s[i..] && forall j :: 0 <= j < i ==> !("echo " <= s[j..])
  }

  /** Exactly when the flag is set: the first `echo ` is at the start of the text or right behind a bar
      and a space. */
  lemma EchoFlagExactly(s: string, i: nat)
    requires FirstEcho(s, i)
    ensures EchoFlag(s) <==> i == 0 || (i >= 2 && s[i - 2..i] == "| ")
  {
    var k := Find(s, "echo ", 0);
    assert k == i;
  }

  /** Without one it is not. */
  lemma NoEchoNoFlag(s: string)
    requires forall j :: 0 <= j <= |s| ==> !("echo " <= s[j..])
    ensures !EchoFlag(s)
  {
    assert |s| + 1 == Find(s, "echo ", 0);
  }

  lemma EchoHasSpace(s: string, j: nat)
    requires j <= |s| && "echo " <= s[j..]
    ensures ' ' in s
  {
    assert s[j..][4] == ' ' && s[j + 4] in s;
  }

  lemma NoSpaceNoFlag(s: string)
    requires ' ' !in s
    ensures !EchoFlag(s)
  {
    forall j | 0 <= j <= |s| ensures !("echo " <= s[j..]) {
      if "echo " <= s[j..] { EchoHasSpace(s, j); }
    }
    NoEchoNoFlag(s);
  }

  lemma EchoBehindBar(a: string, b: string)
    requires FirstEcho(a + ("| echo " + b), |a| + 2)
    ensures EchoFlag(a + ("| echo " + b))
  {
    var s := a + ("| echo " + b);
    assert s[|a|..|a| + 2] == "| ";
    EchoFlagExactly(s, |a| + 2);
  }

  predicate EndsInEcho(t: string) {
    |t| >= 4 && t[|t| - 4..] == "echo"
  }

  /** An `echo ` starts in a token, or in the space behind it, only if the token ends in `echo`. */
  lemma EchoInToken(w: string, rest: string, j: nat)
    requires ' ' !in w && j <= |w| && "echo " <= (w + (" " + rest))[j..]
    ensures EndsInEcho(w)
  {
    var s := w + (" " + rest);
    forall k | 0 <= k < |w| ensures s[k] == w[k] != ' ' {
      assert w[k] in w;
    }
    assert forall k :: 0 <= k < 5 ==> s[j + k] == s[j..][k] == "echo "[k];
    assert s[|w|] == ' ' && s[j + 4] == ' ' && j + 4 == |w|;
    FourLetters(w, j);
  }

  lemma FourLetters(w: string, j: nat)
    requires j + 4 == |w| && w[j] == 'e' && w[j + 1] == 'c' && w[j + 2] == 'h' && w[j + 3] == 'o'
    ensures EndsInEcho(w)
  {
    assert w[|w| - 4..] == "echo";
  }

  /** The first `echo ` behind a token that does not end in it. */
  lemma FirstEchoMore(w: string, rest: string, k: nat)
    requires ' ' !in w && !EndsInEcho(w) && FirstEcho(rest, k)
    ensures FirstEcho(w + (" " + rest), |w| + 1 + k)
  {
    var s := w + (" " + rest);
    forall j | 0 <= j < |w| + 1 + k ensures !("echo " <= s[j..]) {
      if j <= |w| {
        if "echo " <= s[j..] { EchoInToken(w, rest, j); }
      } else {
        assert s[j..] == rest[j - |w| - 1..];
      }
    }
    assert s[|w| + 1 + k..] == rest[k..];
  }

  /** And behind any number of them. */
  lemma {:induction false} FirstEchoBehind(pre: seq<string>, more: seq<string>, k: nat)
    requires more != [] && (forall t :: t in pre ==> ' ' !in t && !EndsInEcho(t))
    requires FirstEcho(Join(more), k)
    ensures |Join(pre + more)| >= |Join(more)|
    ensures FirstEcho(Join(pre + more), |Join(pre + more)| - |Join(more)| + k)
  {
    if pre == [] {
      assert pre + more == more;
    } else {
      var all := pre + more;
      assert all[1..] == pre[1..] + more && pre[0] in pre && forall t :: t in pre[1..] ==> t in pre;
      FirstEchoBehind(pre[1..], more, k);
      JoinFirst(all);
      FirstEchoMore(pre[0], Join(all[1..]), |Join(all[1..])| - |Join(more)| + k);
    }
  }

  lemma BarEcho(words: seq<string>)
    requires words != []
    ensures Join(["|", "echo"] + words) == "| echo " + Join(words)
    ensures FirstEcho(Join(["|", "echo"] + words), 2)
  {
    var more := ["|", "echo"] + words;
    assert more[1..] == ["echo"] + words && more[1..][1..] == words;
    JoinFirst(more);
    JoinFirst(more[1..]);
    var s := "| echo " + Join(words);
    assert Join(more) == s;
    assert s[2..] == "echo " + Join(words);
    assert s[0..][0] == '|' && s[1..][0] == ' ';
  }

  lemma BarEchoBehind(pre: seq<string>, words: seq<string>)
    requires words != [] && (forall t :: t in pre ==> ' ' !in t && !EndsInEcho(t))
    ensures EchoFlag(Join(pre + (["|", "echo"] + words)) + "\n")
  {
    var more := ["|", "echo"] + words;
    var s := Join(pre + more);
    BarEcho(words);
    FirstEchoBehind(pre, more, 2);
    JoinEndsIn(pre, more);
    var i := |s| - |Join(more)| + 2;
    EchoOnLine(s, i);
    assert (s + "\n")[i - 2..i] == s[i - 2..][..2] == "| ";
    EchoFlagExactly(s + "\n", i);
  }

  /** The pipeline form of an echo line: behind commands whose tokens do not end in `echo`, the words of
      an `echo` are read as they were written, whatever `&`s are attached to them. */
  lemma EchoPipelineRoundTrip(pre: seq<string>, words: seq<string>)
    requires words != [] && (forall t :: t in pre ==> Plain(t) && !EndsInEcho(t))
    requires forall t :: t in words ==> Plain(t)
    ensures var ts := pre + (["|", "echo"] + words);
      EchoFlag(Join(ts) + "\n") && TokensOf(Join(ts) + "\n") == ts
  {
    var ts := pre + (["|", "echo"] + words);
    forall t | t in pre ensures ' ' !in t && !EndsInEcho(t) {
      assert Plain(t);
    }
    BarEchoBehind(pre, words);
    JoinLays(ts);
    LaysLine(Join(ts), ts);
    TokensAreLexed(Join(ts) + "\n");
    LexLays(true, Join(ts) + "\n", ts);
  }

  lemma {:induction false} JoinEndsIn(pre: seq<string>, more: seq<string>)
    requires more != []
    ensures |Join(pre + more)| >= |Join(more)|
    ensures Join(pre + more)[|Join(pre + more)| - |Join(more)|..] == Join(more)
  {
    if pre == [] {
      assert pre + more == more;
    } else {
      var all := pre + more;
      assert all[1..] == pre[1..] + more;
      JoinEndsIn(pre[1..], more);
      JoinFirst(all);
    }
  }

  lemma EchoOnLine(s: string, i: nat)
    requires FirstEcho(s, i)
    ensures FirstEcho(s + "\n", i)
  {
    var line := s + "\n";
    assert line[i..] == s[i..] + "\n" && i + 5 <= |s|;
    forall j | 0 <= j < i ensures !("echo " <= line[j..]) {
      assert !("echo " <= s[j..]) && line[j..][..5] == s[j..][..5];
    }
  }

  // ----- How much room the pass can need -----

  function Bars(n: nat): string {
    if n == 0 then "" else "|" + Bars(n - 1)
  }

  /** A line of bars nearly doubles. */
  lemma {:induction false} SpacedBars(echo: bool, n: nat)
    requires n >= 1
    ensures |Bars(n)| == n && |Spaced(echo, false, Bars(n))| == 2 * n - 1
  {
    var rest := Bars(n - 1);
    assert Bars(n)[1..] == rest;
    if n > 1 {
      SpacedBars(echo, n - 1);
      assert rest[0] == '|';
    }
  }
}
