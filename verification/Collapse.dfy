/** Whitespace collapsing: the loops of `send_message` and `cmd_start_client` in network.c. */
module Collapse {
  import opened CStrings
  import opened Options

  /** Runs of spaces and tabs become one space; `inSpace` says that one was just written. */
  function Collapsed(inSpace: bool, s: string): string
    decreases |s|
  {
    if s == [] then ""
    else if Blank(s[0]) then (if inSpace then "" else " ") + Collapsed(true, s[1..])
    else [s[0]] + Collapsed(false, s[1..])
  }

  function NonBlank(s: string): string {
    if s == [] then "" else (if Blank(s[0]) then "" else [s[0]]) + NonBlank(s[1..])
  }

  /** No tab, no two adjacent spaces, and no leading space if `inSpace`. */
  predicate Neat(inSpace: bool, s: string)
    decreases |s|
  {
    s == [] || (s[0] != '\t' && !(inSpace && s[0] == ' ') && Neat(s[0] == ' ', s[1..]))
  }

  lemma {:induction false} NeatMeans(inSpace: bool, s: string, i: nat)
    requires Neat(inSpace, s) && i < |s|
    ensures s[i] != '\t' && (i + 1 < |s| ==> !(s[i] == ' ' && s[i + 1] == ' '))
    decreases |s|
  {
    if i > 0 { NeatMeans(s[0] == ' ', s[1..], i - 1); }
  }

  /** Collapsing keeps the other characters in order and leaves the text neat. */
  lemma {:induction false} CollapseKeeps(inSpace: bool, s: string)
    ensures NonBlank(Collapsed(inSpace, s)) == NonBlank(s)
    ensures Neat(inSpace, Collapsed(inSpace, s))
    ensures |Collapsed(inSpace, s)| <= |s|
    decreases |s|
  {
    if s == [] {
    } else if Blank(s[0]) {
      CollapseKeeps(true, s[1..]);
      if inSpace {
        assert "" + Collapsed(true, s[1..]) == Collapsed(true, s[1..]);
      } else {
        assert (" " + Collapsed(true, s[1..]))[1..] == Collapsed(true, s[1..]);
      }
    } else {
      CollapseKeeps(false, s[1..]);
      assert ([s[0]] + Collapsed(false, s[1..]))[1..] == Collapsed(false, s[1..]);
    }
  }

  /** Neat text is exactly what collapsing leaves alone. */
  lemma {:induction false} NeatIsFixed(inSpace: bool, s: string)
    ensures Neat(inSpace, s) <==> Collapsed(inSpace, s) == s
    decreases |s|
  {
    CollapseKeeps(inSpace, s);
    if s != [] && Neat(inSpace, s) {
      NeatIsFixed(s[0] == ' ', s[1..]);
      assert s == [s[0]] + s[1..];
    }
  }

  lemma CollapseIdempotent(inSpace: bool, s: string)
    ensures Collapsed(inSpace, Collapsed(inSpace, s)) == Collapsed(inSpace, s)
  {
    CollapseKeeps(inSpace, s);
    NeatIsFixed(inSpace, Collapsed(inSpace, s));
  }

  predicate SpacesAndTabs(s: string) {
    forall c :: c in s ==> c == ' ' || c == '\t'
  }

  predicate NoSpacesOrTabs(s: string) {
    forall c :: c in s ==> c != ' ' && c != '\t'
  }

  lemma {:induction false} CollapseGap(gap: string, rest: string)
    requires SpacesAndTabs(gap)
    ensures Collapsed(true, gap + rest) == Collapsed(true, rest)
    ensures gap != "" ==> Collapsed(false, gap + rest) == " " + Collapsed(true, rest)
  {
    if gap == "" {
      assert gap + rest == rest;
    } else {
      assert (gap + rest)[1..] == gap[1..] + rest && gap[0] in gap;
      assert forall c :: c in gap[1..] ==> c in gap;
      CollapseGap(gap[1..], rest);
      assert "" + Collapsed(true, gap[1..] + rest) == Collapsed(true, gap[1..] + rest);
    }
  }

  lemma {:induction false} CollapseWord(inSpace: bool, w: string, rest: string)
    requires NoSpacesOrTabs(w) && w != ""
    ensures Collapsed(inSpace, w + rest) == w + Collapsed(false, rest)
    decreases |w|
  {
    assert (w + rest)[1..] == w[1..] + rest && w[0] in w;
    assert w == [w[0]] + w[1..] && forall c :: c in w[1..] ==> c in w;
    if |w| > 1 {
      CollapseWord(false, w[1..], rest);
    } else {
      assert w[1..] + rest == rest;
    }
  }

  /** Exactly what collapsing does: each run of spaces and tabs, of whatever length, is one space. */
  lemma CollapseExactly(w: string, gap: string, rest: string)
    requires NoSpacesOrTabs(w) && w != "" && SpacesAndTabs(gap) && gap != ""
    requires rest == "" || (rest[0] != ' ' && rest[0] != '\t')
    ensures Collapsed(false, w) == w
    ensures Collapsed(false, w + (gap + rest)) == w + (" " + Collapsed(false, rest))
  {
    CollapseWord(false, w, "");
    assert w + "" == w;
    CollapseWord(false, w, gap + rest);
    CollapseGap(gap, rest);
  }

  /** The body both loops share: write `c`, or one space for a run of blanks, at index `j`. */
  method Put(buf: array<char>, j: nat, inSpace: bool, c: char, ghost rest: string)
    returns (next: nat, inSpace': bool)
    requires j < buf.Length
    modifies buf
    ensures j <= next <= j + 1
    ensures buf[..next] + Collapsed(inSpace', rest) == old(buf[..j]) + Collapsed(inSpace, [c] + rest)
  {
    ghost var was := buf[..j];
    assert ([c] + rest)[1..] == rest;
    next, inSpace' := j, inSpace;
    if c == ' ' || c == '\t' {
      if !inSpace {
        buf[j] := ' ';
        next := j + 1;
        inSpace' := true;
        assert buf[..next] == was + " ";
      }
    } else {
      buf[j] := c;
      next := j + 1;
      inSpace' := false;
      assert buf[..next] == was + [c];
    }
  }

  /** The loop of `send_message`: it stops when two cells are left. */
  method NormalizeMessage(message: string) returns (normalized: string)
    ensures normalized == Cut(4094, Collapsed(false, message))
  {
    var buf := new char[BUFFER_SIZE];
    var i, j, inSpace := 0, 0, false;
    ghost var all := Collapsed(false, message);
    assert message[0..] == message && buf[..0] + all == all;
    while i < |message| && j < BUFFER_SIZE - 2
      invariant 0 <= i <= |message| && 0 <= j <= BUFFER_SIZE - 2
      invariant buf[..j] + Collapsed(inSpace, message[i..]) == all
    {
      assert message[i..] == [message[i]] + message[i + 1..];
      j, inSpace := Put(buf, j, inSpace, message[i], message[i + 1..]);
      i := i + 1;
    }
    buf[j] := NUL;
    normalized := buf[..j];
    if i == |message| { assert normalized + "" == normalized; }
  }

  /** The loop of `cmd_start_client` has no such stop. */
  method NormalizeLoop(input: string, buf: array<char>) returns (j: nat)
    requires |input| < buf.Length
    modifies buf
    ensures j < buf.Length && buf[..j] == Collapsed(false, input)
  {
    j := 0;
    var inSpace := false;
    ghost var all := Collapsed(false, input);
    assert input[0..] == input && buf[..0] + all == all;
    for i := 0 to |input|
      invariant j <= i
      invariant buf[..j] + Collapsed(inSpace, input[i..]) == all
    {
      assert input[i..] == [input[i]] + input[i + 1..];
      j, inSpace := Put(buf, j, inSpace, input[i], input[i + 1..]);
    }
    assert buf[..j] + "" == buf[..j];
  }

  /** A newline appended to the collapsed text needs a cell for itself and one for the terminator:
      nothing is returned exactly if that goes beyond the buffer. */
  method NormalizeLine(input: string) returns (line: Option<string>)
    requires |input| < BUFFER_SIZE
    ensures var c := Collapsed(false, input);
      var text := if c == "" || c[|c| - 1] == '\n' then c else c + "\n";
      line == if |text| < 4096 then Some(text) else None
  {
    var buf := new char[BUFFER_SIZE];
    var j := NormalizeLoop(input, buf);
    buf[j] := NUL;
    var text := buf[..j];
    if j > 0 && buf[j - 1] != '\n' {
      if j + 1 >= BUFFER_SIZE {
        return None;
      }
      buf[j] := '\n';
      buf[j + 1] := NUL;
      text := buf[..j + 1];
      assert text == buf[..j] + "\n";
    }
    line := Some(text);
  }
}
