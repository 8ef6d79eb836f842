/** The imperative half of the tokeniser: the line is rewritten in its own buffer, with everything
    behind the cursor shifted for each space put in, and then cut into tokens by overwriting
    delimiters with NUL. */
module LineBuffer {
  import opened CStrings
  import opened Options
  import opened Tokenizer

  /** `strlen(buf + at)`. */
  method StrLen(buf: array<char>, at: nat, ghost s: string) returns (n: nat)
    requires Stored(buf[..], at, s)
    ensures n == |s|
  {
    n := 0;
    StoredAt(buf[..], at, s, 0);
    while buf[at + n] != NUL
      invariant n <= |s| && at + n < buf.Length
      invariant buf[at + n] == NUL <==> n == |s|
      decreases |s| - n
    {
      n := n + 1;
      StoredAt(buf[..], at, s, n);
    }
  }

  /** Shift the rest of the string, terminator included, one place right and put a space at `p`; `ok`
      says whether that stays inside the buffer. */
  method InsertSpace(buf: array<char>, p: nat, ghost s: string) returns (ok: bool)
    requires Stored(buf[..], 0, s) && p <= |s|
    modifies buf
    ensures ok <==> |s| + 1 < buf.Length
    ensures ok ==> Stored(buf[..], 0, s[..p] + " " + s[p..])
  {
    assert Stored(buf[..], p, s[p..]) by { assert buf[..][p..p + |s[p..]|] == s[p..]; }
    var restLen := StrLen(buf, p, s[p..]);
    ok := p + restLen + 1 < buf.Length;
    if !ok {
      return;
    }
    ghost var was := buf[..];
    forall k | p <= k <= p + restLen {
      buf[k + 1] := buf[k];
    }
    buf[p] := ' ';
    ghost var t := s[..p] + " " + s[p..];
    assert forall k :: 0 <= k < |s| ==> was[k] == s[k] by { assert was[0..|s|] == s; }
    assert forall k :: 0 <= k < |t| ==> buf[k] == t[k];
    assert buf[..][0..|t|] == t;
  }

  /** The `&` lookahead: is there anything but spaces and tabs from `p` on? */
  method OnlyBlanks(buf: array<char>, p: nat, ghost s: string) returns (blank: bool)
    requires Stored(buf[..], p, s)
    ensures blank <==> AllBlank(s)
  {
    var q := p;
    assert forall k :: 0 <= k < |s| ==> buf[p + k] == s[k] by { assert buf[..][p..p + |s|] == s; }
    while buf[q] == ' ' || buf[q] == '\t'
      invariant p <= q <= p + |s|
      invariant AllBlank(s[..q - p])
      decreases p + |s| - q
    {
      assert s[..q + 1 - p] == s[..q - p] + [buf[q]];
      q := q + 1;
    }
    blank := buf[q] == NUL;
    if q < p + |s| {
      assert s[q - p] in s;
    } else {
      assert s[..q - p] == s;
    }
  }

  /** The text once the operator at `p` has its spaces, up to where the cursor goes next. */
  ghost function Isolated(s: string, p: nat): string
    requires p < |s|
  {
    s[..p] + GapBefore(p > 0 && s[p - 1] != ' ') + [s[p]] + GapAfter(s[p + 1..])
  }

  /** Put a space before the operator at `p`, if one is missing; `next` is the place behind it. */
  method SpaceBefore(buf: array<char>, p: nat, ghost s: string) returns (ok: bool, next: nat)
    requires Stored(buf[..], 0, s) && p < |s|
    modifies buf
    ensures var t := s[..p] + GapBefore(p > 0 && s[p - 1] != ' ') + [s[p]] + s[p + 1..];
      && (ok <==> |t| < buf.Length)
      && (ok ==> next == |t| - |s[p + 1..]| && Stored(buf[..], 0, t))
  {
    next, ok := p + 1, true;
    if p > 0 {
      StoredAt(buf[..], 0, s, p - 1);
    }
    if p > 0 && buf[p - 1] != ' ' {
      ok := InsertSpace(buf, p, s);
      next := p + 2;
      assert s[..p] + " " + s[p..] == s[..p] + GapBefore(true) + [s[p]] + s[p + 1..];
    } else {
      assert s == s[..p] + GapBefore(false) + [s[p]] + s[p + 1..];
    }
  }

  /** Space out the operator under the cursor. */
  method Isolate(buf: array<char>, p: nat, ghost s: string) returns (ok: bool, next: nat)
    requires Stored(buf[..], 0, s) && p < |s|
    modifies buf
    ensures ok <==> |Isolated(s, p)| + |s[p + 1..]| < buf.Length
    ensures ok ==> next == |Isolated(s, p)| && Stored(buf[..], 0, Isolated(s, p) + s[p + 1..])
  {
    ghost var done, rest := s[..p] + GapBefore(p > 0 && s[p - 1] != ' ') + [s[p]], s[p + 1..];
    ok, next := SpaceBefore(buf, p, s);
    if !ok {
      return;
    }
    StoredAt(buf[..], 0, done + rest, next);
    if buf[next] != ' ' && buf[next] != NUL {
      ok := InsertSpace(buf, next, done + rest);
      assert (done + rest)[..next] == done && (done + rest)[next..] == rest;
      assert Isolated(s, p) == done + " ";
      next := next + 1;
    } else {
      assert Isolated(s, p) == done + "" == done;
    }
  }

  /** The finished text if the pass goes on from cursor `p`. */
  ghost function Finished(echo: bool, s: string, p: nat): string
    requires p <= |s|
  {
    s[..p] + Spaced(echo, p > 0 && s[p - 1] != ' ', s[p..])
  }

  lemma FinishedAtOperator(echo: bool, s: string, p: nat)
    requires p < |s| && Special(echo, s[p..])
    ensures var t := Isolated(s, p) + s[p + 1..];
      Finished(echo, t, |Isolated(s, p)|) == Finished(echo, s, p) && |t| <= |Finished(echo, s, p)|
  {
    assert s[p..][1..] == s[p + 1..];
    var before, aft := GapBefore(p > 0 && s[p - 1] != ' '), GapAfter(s[p + 1..]);
    var rest := Spaced(echo, aft == "", s[p + 1..]);
    assert s[..p] + (before + ([s[p]] + (aft + rest))) == s[..p] + before + [s[p]] + aft + rest;
    var t, next := Isolated(s, p) + s[p + 1..], |Isolated(s, p)|;
    assert t[..next] == Isolated(s, p) && t[next..] == s[p + 1..];
    assert t[next - 1] == ' ' <==> aft != "";
    SpacedLength(echo, aft == "", s[p + 1..]);
  }

  lemma FinishedElsewhere(echo: bool, s: string, p: nat)
    requires p < |s| && !Special(echo, s[p..])
    ensures Finished(echo, s, p + 1) == Finished(echo, s, p)
  {
    assert s[p..][1..] == s[p + 1..];
    assert s[..p + 1] == s[..p] + [s[p]];
  }

  /** Is the character under the cursor an operator? */
  method IsSpecial(buf: array<char>, echo: bool, p: nat, ghost s: string) returns (special: bool)
    requires Stored(buf[..], 0, s) && p < |s|
    ensures special <==> Special(echo, s[p..])
  {
    StoredAt(buf[..], 0, s, p);
    assert s[p..][1..] == s[p + 1..];
    special := buf[p] == '|' || (buf[p] == '&' && !echo);
    if echo && buf[p] == '&' {
      StoredAt(buf[..], 0, s, p + 1);
      special := OnlyBlanks(buf, p + 1, s[p + 1..]);
    }
  }

  /** One turn of the loop. The unread rest gets one character shorter, though the string may grow; it
      does not outgrow the finished text. */
  method SpaceStep(buf: array<char>, echo: bool, p: nat, ghost s: string)
    returns (ok: bool, next: nat, ghost t: string)
    requires Stored(buf[..], 0, s) && p < |s|
    modifies buf
    ensures !ok ==> |Finished(echo, s, p)| >= buf.Length
    ensures ok ==> Stored(buf[..], 0, t) && next <= |t|
    ensures ok ==> Finished(echo, t, next) == Finished(echo, s, p) && |t| - next == |s| - p - 1
  {
    ok := true;
    var special := IsSpecial(buf, echo, p, s);
    if special {
      FinishedAtOperator(echo, s, p);
      ok, next := Isolate(buf, p, s);
      t := Isolated(s, p) + s[p + 1..];
    } else {
      FinishedElsewhere(echo, s, p);
      next, t := p + 1, s;
    }
  }

  /** The spacing pass, in place, is the recursive function. `ok` is false if it gets to the point
      where the next shift would write behind the buffer: exactly if the result does not fit. */
  method SpaceOperators(buf: array<char>, echo: bool, ghost line: string) returns (ok: bool)
    requires Stored(buf[..], 0, line)
    modifies buf
    ensures ok <==> |Spaced(echo, false, line)| < buf.Length
    ensures ok ==> Stored(buf[..], 0, Spaced(echo, false, line))
  {
    ok := true;
    var p: nat := 0;
    ghost var s := line;
    assert Finished(echo, line, 0) == Spaced(echo, false, line) by { assert line[0..] == line; }
    StoredAt(buf[..], 0, s, 0);
    while buf[p] != NUL
      invariant Stored(buf[..], 0, s) && p <= |s| && (buf[p] == NUL <==> p == |s|)
      invariant ok && Finished(echo, s, p) == Spaced(echo, false, line)
      decreases |s| - p
    {
      ok, p, s := SpaceStep(buf, echo, p, s);
      if !ok {
        return;
      }
      StoredAt(buf[..], 0, s, p);
    }
    assert s[..p] == s && s[p..] == "" && s + "" == s;
  }

  // ----- Cutting -----

  /** What the character at `p` tells about the rest of a line stored where it stands. */
  lemma RestAt(b: seq<char>, line: string, p: nat)
    requires p <= |line| && Stored(b, p, line[p..])
    ensures p < |b| && (b[p] == NUL <==> p == |line|)
    ensures p < |line| ==> b[p] == line[p] && Stored(b, p + 1, line[p + 1..])
  {
    StoredAt(b, p, line[p..], 0);
    if p < |line| {
      StoredAt(b, p, line[p..], 1);
      assert line[p..][1..] == line[p + 1..];
    }
  }

  lemma WordsSkip(line: string, p: nat)
    requires p < |line| && Delim(line[p])
    ensures Words([], line[p..]) == Words([], line[p + 1..])
  {
    assert line[p..][1..] == line[p + 1..];
  }

  lemma WordsAtToken(line: string, p: nat, end: nat, next: nat)
    requires p < end <= next <= |line| && DelimFree(line[p..end])
    requires if end == |line| then next == end else Delim(line[end]) && next == end + 1
    ensures Words([], line[p..]) == [line[p..end]] + Words([], line[next..])
  {
    var w, rest := line[p..end], line[end..];
    assert line[p..] == w + rest && [] + w == w;
    if rest != [] { assert rest[1..] == line[next..]; } else { assert line[next..] == []; }
    WordsToken([], w, rest);
  }

  lemma {:induction false} WordsToken(cur: string, w: string, rest: string)
    requires DelimFree(w) && cur + w != [] && (rest == [] || Delim(rest[0]))
    ensures Words(cur, w + rest) == [cur + w] + Words([], if rest == [] then [] else rest[1..])
    decreases |w|
  {
    if w == [] {
      assert w + rest == rest && cur + w == cur;
    } else {
      assert (w + rest)[1..] == w[1..] + rest && cur + [w[0]] + w[1..] == cur + w;
      assert w[0] in w;
      WordsToken(cur + [w[0]], w[1..], rest);
    }
  }

  /** Terminating a token: it stands on its own, and so does what follows it. */
  lemma Terminate(b: seq<char>, p: nat, end: nat, s: string)
    requires Stored(b, p, s) && p <= end < p + |s|
    ensures Stored(b[end := NUL], p, s[..end - p])
    ensures Stored(b[end := NUL], end + 1, s[end + 1 - p..])
  {
    var b' := b[end := NUL];
    assert b'[p..end] == b[p..p + |s|][..end - p];
    assert b'[end + 1..p + |s|] == b[p..p + |s|][end + 1 - p..];
  }

  lemma StoredPrefix(b: seq<char>, b': seq<char>, at: nat, w: string, p: nat)
    requires Stored(b, at, w) && at + |w| < p <= |b| && p <= |b'| && b[..p] == b'[..p]
    ensures Stored(b', at, w)
  {
    assert b[at..at + |w|] == b[..p][at..at + |w|];
    assert b'[at..at + |w|] == b'[..p][at..at + |w|];
    assert b[..p][at + |w|] == b'[..p][at + |w|];
  }

  lemma TerminateToken(b: seq<char>, line: string, p: nat, end: nat)
    requires p <= end < |line| && Stored(b, p, line[p..])
    ensures end < |b|
    ensures Stored(b[end := NUL], p, line[p..end])
    ensures Stored(b[end := NUL], end + 1, line[end + 1..])
  {
    Terminate(b, p, end, line[p..]);
    assert line[p..][..end - p] == line[p..end];
    assert line[p..][end + 1 - p..] == line[end + 1..];
  }

  /** Find the end of the token at `p` and terminate it, if a delimiter rather than the end follows. */
  method CutToken(buf: array<char>, p: nat, ghost line: string) returns (next: nat, ghost w: string)
    requires p < |line| && Stored(buf[..], p, line[p..]) && !Delim(line[p])
    modifies buf
    ensures p < next <= |line| && p + |w| <= next
    ensures Stored(buf[..], p, w) && Stored(buf[..], next, line[next..])
    ensures Words([], line[p..]) == [w] + Words([], line[next..])
    ensures buf[..p] == old(buf[..p])
  {
    var end := TokenEnd(buf, p, line);
    w := line[p..end];
    RestAt(buf[..], line, end);
    if buf[end] != NUL {
      TerminateToken(buf[..], line, p, end);
      buf[end] := NUL;
      next := end + 1;
    } else {
      next := end;
    }
    WordsAtToken(line, p, end, next);
  }

  /** The words already cut, all of them before `p`. */
  ghost predicate CutSoFar(b: seq<char>, starts: seq<nat>, words: seq<string>, p: nat) {
    && |starts| == |words| && p <= |b|
    && forall k :: 0 <= k < |starts| ==> Stored(b, starts[k], words[k]) && starts[k] + |words[k]| <= p
  }

  lemma OneMoreCut(b: seq<char>, b': seq<char>, starts: seq<nat>, words: seq<string>, p: nat, w: string, next: nat)
    requires CutSoFar(b, starts, words, p) && |b'| == |b| && b'[..p] == b[..p]
    requires p < |b| && b[p] != NUL
    requires Stored(b', p, w) && p + |w| <= next <= |b|
    ensures CutSoFar(b', starts + [p], words + [w], next)
  {
    forall k | 0 <= k < |starts| ensures Stored(b', starts[k], words[k]) {
      StoredPrefix(b, b', starts[k], words[k], p);
    }
  }

  /** Cut out the token at `p` and go to where the next one starts. */
  method NextToken(buf: array<char>, p: nat, ghost line: string) returns (next: nat, ghost w: string)
    requires p < |line| && Stored(buf[..], p, line[p..]) && !Delim(line[p])
    modifies buf
    ensures p < next <= |line| && p + |w| <= next && next < buf.Length
    ensures Stored(buf[..], p, w) && Stored(buf[..], next, line[next..])
    ensures (buf[next] == NUL <==> next == |line|) && (next < |line| ==> !Delim(line[next]))
    ensures [w] + Words([], line[next..]) == Words([], line[p..])
    ensures buf[..p] == old(buf[..p])
  {
    next, w := CutToken(buf, p, line);
    next := SkipDelimiters(buf, next, line);
    RestAt(buf[..], line, next);
  }

  /** The `strtok` loop: each returned index is the start of a token, terminated in the buffer. */
  method CutTokens(buf: array<char>, ghost line: string) returns (starts: seq<nat>)
    requires Stored(buf[..], 0, line)
    modifies buf
    ensures |starts| == |Words([], line)|
    ensures forall k :: 0 <= k < |starts| ==> Stored(buf[..], starts[k], Words([], line)[k])
  {
    starts := [];
    ghost var words := [];
    assert line[0..] == line;
    var p := SkipDelimiters(buf, 0, line);
    RestAt(buf[..], line, p);
    while buf[p] != NUL
      invariant 0 <= p <= |line| && p < buf.Length && Stored(buf[..], p, line[p..])
      invariant (buf[p] == NUL <==> p == |line|) && (p < |line| ==> !Delim(line[p]))
      invariant words + Words([], line[p..]) == Words([], line)
      invariant CutSoFar(buf[..], starts, words, p)
      decreases |line| - p
    {
      ghost var was := buf[..];
      ghost var w;
      var next;
      next, w := NextToken(buf, p, line);
      OneMoreCut(was, buf[..], starts, words, p, w, next);
      assert words + ([w] + Words([], line[next..])) == words + [w] + Words([], line[next..]);
      starts, words, p := starts + [p], words + [w], next;
    }
    assert line[p..] == "" && words == Words([], line);
  }

  method SkipDelimiters(buf: array<char>, from: nat, ghost line: string) returns (p: nat)
    requires from <= |line| && Stored(buf[..], from, line[from..])
    ensures from <= p <= |line| && Stored(buf[..], p, line[p..])
    ensures Words([], line[p..]) == Words([], line[from..])
    ensures p < |line| ==> !Delim(line[p])
  {
    p := from;
    RestAt(buf[..], line, p);
    while Delim(buf[p])
      invariant from <= p <= |line| && p < buf.Length && Stored(buf[..], p, line[p..])
      invariant if p == |line| then buf[p] == NUL else buf[p] == line[p]
      invariant Words([], line[p..]) == Words([], line[from..])
      decreases |line| - p
    {
      WordsSkip(line, p);
      RestAt(buf[..], line, p);
      p := p + 1;
      RestAt(buf[..], line, p);
    }
  }

  method TokenEnd(buf: array<char>, from: nat, ghost line: string) returns (p: nat)
    requires from < |line| && Stored(buf[..], from, line[from..]) && !Delim(line[from])
    ensures from < p <= |line| && Stored(buf[..], p, line[p..])
    ensures DelimFree(line[from..p])
    ensures p < |line| ==> Delim(line[p])
  {
    p := from;
    RestAt(buf[..], line, p);
    while buf[p] != NUL && !Delim(buf[p])
      invariant from <= p <= |line| && p < buf.Length && Stored(buf[..], p, line[p..])
      invariant buf[p] == NUL <==> p == |line|
      invariant p < |line| ==> buf[p] == line[p]
      invariant DelimFree(line[from..p])
      decreases |line| - p
    {
      assert line[from..p + 1] == line[from..p] + [line[p]];
      RestAt(buf[..], line, p);
      p := p + 1;
      RestAt(buf[..], line, p);
    }
  }

  /** `tokenize_input`: the starts of the tokens of the line, each terminated in the buffer; or nothing,
      exactly if the line, spaced out, does not fit the buffer and the pass leaves it. */
  method TokenizeInput(buf: array<char>) returns (starts: Option<seq<nat>>)
    requires NUL in buf[..]
    modifies buf
    ensures var line := old(CString(buf[..]));
      starts.Some? <==> |Spaced(EchoFlag(line), false, line)| < buf.Length
    ensures starts.Some? ==>
      var ts := TokensOf(old(CString(buf[..])));
      && |starts.value| == |ts|
      && forall k :: 0 <= k < |starts.value| ==> Stored(buf[..], starts.value[k], ts[k])
  {
    var line := CString(buf[..]);
    CStringStored(buf[..]);
    var echo := EchoFlag(line);
    var ok := SpaceOperators(buf, echo, line);
    if !ok {
      return None;
    }
    var at := CutTokens(buf, Spaced(echo, false, line));
    starts := Some(at);
  }

  /** Two free cells for every operator are always enough room. */
  lemma RoomForOperators(line: string, capacity: nat)
    requires |line| + 2 * Operators(line) < capacity
    ensures |Spaced(EchoFlag(line), false, line)| < capacity
  {
    SpacedLength(EchoFlag(line), false, line);
  }

  /** The buffer of the main loop is not enough for every line it can hold: 65 bars overrun it. */
  lemma BarsOverrun(n: nat)
    ensures |Bars(n)| == n
    ensures 65 <= n ==> |Spaced(EchoFlag(Bars(n)), false, Bars(n))| >= MAX_STR_LEN + 1
  {
    if n >= 1 { SpacedBars(EchoFlag(Bars(n)), n); }
  }

  // ----- Joining -----

  method JoinedLength(tokens: seq<string>) returns (total: nat)
    ensures total == |Join(tokens)|
  {
    total := 0;
    for i := 0 to |tokens|
      invariant total + |Join(tokens[i..])| == |Join(tokens)|
    {
      total := total + |tokens[i]|;
      if i + 1 < |tokens| { total := total + 1; }
      assert tokens[i..][1..] == tokens[i + 1..];
    }
  }

  function Piece(tokens: seq<string>, i: nat): string
    requires i < |tokens|
  {
    if i + 1 < |tokens| then tokens[i] + " " else tokens[i]
  }

  /** The text after one more turn of the joining loop. */
  lemma JoinStep(tokens: seq<string>, i: nat, done: string, joined: string)
    requires i < |tokens| && done + Join(tokens[i..]) == joined
    ensures (done + Piece(tokens, i)) + Join(tokens[i + 1..]) == joined
    ensures |done + Piece(tokens, i)| <= |joined|
  {
    assert tokens[i..][1..] == tokens[i + 1..];
    assert done + (tokens[i] + " " + Join(tokens[i + 1..])) == done + (tokens[i] + " ") + Join(tokens[i + 1..]);
  }

  /** The copying loop of `combine_tokens`, into a buffer that is large enough. */
  method CopyTokens(buf: array<char>, tokens: seq<string>, start: nat)
    requires start <= |tokens| && Written(buf, "") && |Join(tokens[start..])| < buf.Length
    modifies buf
    ensures Written(buf, Join(tokens[start..]))
  {
    ghost var joined, done := Join(tokens[start..]), "";
    var len := 0;
    for i := start to |tokens|
      invariant len == |done| && Written(buf, done) && done + Join(tokens[i..]) == joined
    {
      JoinStep(tokens, i, done, joined);
      var piece := if i + 1 < |tokens| then tokens[i] + " " else tokens[i];
      var ok := Append(buf, len, piece, done);
      len, done := len + |piece|, done + piece;
    }
    assert done + "" == done;
  }

  /** `combine_tokens`: the length is added up first, then the pieces are copied behind each other;
      the buffer obtained is exactly large enough. */
  method CombineTokens(tokens: seq<string>, start: nat) returns (result: array<char>)
    requires start <= |tokens| && forall t :: t in tokens ==> NUL !in t
    ensures fresh(result) && result.Length == |Join(tokens[start..])| + 1
    ensures Stored(result[..], 0, Join(tokens[start..]))
  {
    var total := JoinedLength(tokens[start..]);
    result := new char[total + 1];
    result[0] := NUL;
    CopyTokens(result, tokens, start);
    JoinNulFree(tokens[start..]);
    assert result[..][0..total] == result[..total];
  }

  lemma {:induction false} JoinNulFree(ts: seq<string>)
    requires forall t :: t in ts ==> NUL !in t
    ensures NUL !in Join(ts)
  {
    if ts != [] {
      assert ts[0] in ts && forall t :: t in ts[1..] ==> t in ts;
      JoinNulFree(ts[1..]);
    }
  }
}
