/** Strings as the shell keeps them: NUL-terminated in character buffers, and split into words. */
module CStrings {

  const NUL: char := '\0'

  /** Longest token, variable name or value, and size of most buffers. */
  const MAX_STR_LEN: nat := 128

  /** Size of the network buffers. */
  const BUFFER_SIZE: nat := 4096

  /** `DELIMITERS` of io_helpers.h. */
  predicate Delim(c: char) {
    c == ' ' || c == '\t' || c == '\n'
  }

  predicate Blank(c: char) {
    c == ' ' || c == '\t'
  }

  function Min(a: nat, b: nat): nat {
    if a < b then a else b
  }

  /** The first `n` characters, or all of them. */
  function Cut(n: nat, s: string): (r: string)
    ensures |r| <= n && r <= s
  {
    s[..Min(n, |s|)]
  }

  function Digit(n: nat): char
    requires n < 10
  {
    ['0', '1', '2', '3', '4', '5', '6', '7', '8', '9'][n]
  }

  /** `%d` of a natural number. */
  function Dec(n: nat): string {
    if n < 10 then [Digit(n)] else Dec(n / 10) + [Digit(n % 10)]
  }

  /** What a string of digits says, by the codes of its characters. */
  function Value(s: string): int {
    if s == "" then 0 else 10 * Value(s[..|s| - 1]) + (s[|s| - 1] as int - '0' as int)
  }

  predicate IsDigit(c: char) {
    '0' <= c <= '9'
  }

  lemma DigitCode(n: nat)
    requires n < 10
    ensures Digit(n) as int == '0' as int + n && IsDigit(Digit(n))
  {
  }

  /** The digits printed are those of the number, without leading zeros. */
  lemma {:induction false} DecValue(n: nat)
    ensures Value(Dec(n)) == n
    ensures Dec(n) != "" && forall c :: c in Dec(n) ==> IsDigit(c)
    ensures n > 0 ==> Dec(n)[0] != '0'
  {
    DigitCode(n % 10);
    if n < 10 {
      assert [Digit(n)][..0] == "";
    } else {
      DecValue(n / 10);
      assert Dec(n)[..|Dec(n)| - 1] == Dec(n / 10);
    }
  }

  /** The string that starts at the beginning of a buffer. */
  function CString(b: seq<char>): string {
    if b == [] || b[0] == NUL then [] else [b[0]] + CString(b[1..])
  }

  /** Buffer `b` holds the terminated string `s` from index `at` on. */
  predicate Stored(b: seq<char>, at: nat, s: string) {
    && at + |s| < |b|
    && b[at..at + |s|] == s
    && b[at + |s|] == NUL
    && NUL !in s
  }

  /** Reading a stored string character by character: NUL exactly at its end. */
  lemma StoredAt(b: seq<char>, at: nat, s: string, n: nat)
    requires Stored(b, at, s) && n <= |s|
    ensures at + n < |b| && (b[at + n] == NUL <==> n == |s|)
    ensures n < |s| ==> b[at + n] == s[n]
    ensures Stored(b, at + n, s[n..])
  {
    if n < |s| {
      assert b[at..at + |s|][n] == s[n] && s[n] in s;
    }
    assert b[at + n..at + n + |s[n..]|] == b[at..at + |s|][n..];
  }

  /** A string ends at its first NUL, and only there. */
  lemma {:induction false} CStringEnds(s: string, rest: string)
    requires NUL !in s && (rest == "" || rest[0] == '\0')
    ensures CString(s + rest) == s
  {
    if s == "" {
      assert s + rest == rest;
    } else {
      assert (s + rest)[1..] == s[1..] + rest && s[0] in s;
      CStringEnds(s[1..], rest);
    }
  }

  lemma {:induction false} CStringPrefix(s: string)
    ensures var c := CString(s);
      c <= s && NUL !in c && (|c| < |s| ==> s[|c|] == NUL)
  {
    if s != "" && s[0] != NUL { CStringPrefix(s[1..]); }
  }

  lemma {:induction false} CStringStored(b: seq<char>)
    requires NUL in b
    ensures Stored(b, 0, CString(b))
  {
    if b[0] != NUL {
      CStringStored(b[1..]);
      var s := CString(b[1..]);
      assert b[1..1 + |s|] == b[1..][..|s|];
      assert b[0..1 + |s|] == [b[0]] + b[1..1 + |s|];
    }
  }

  lemma {:induction false} StoredCString(b: seq<char>, s: string)
    requires Stored(b, 0, s)
    ensures CString(b) == s
  {
    if s == [] {
    } else {
      assert b[0] == s[0] by { assert b[0..|s|][0] == s[0]; }
      assert b[1..][0..|s[1..]|] == s[1..] by { assert b[0..|s|][1..] == s[1..]; }
      StoredCString(b[1..], s[1..]);
    }
  }

  /** A string stored at `at` is what a pointer to that place denotes. */
  lemma PointsTo(b: seq<char>, at: nat, s: string)
    requires Stored(b, at, s)
    ensures CString(b[at..]) == s
  {
    assert b[at..][0..|s|] == b[at..at + |s|];
    StoredCString(b[at..], s);
  }

  /** `buf` holds the terminated text `text`. */
  ghost predicate Written(buf: array<char>, text: string)
    reads buf
  {
    |text| < buf.Length && buf[..|text|] == text && buf[|text|] == NUL
  }

  /** `strcat(buf, piece)`, with the length of the text in `buf` already known; `ok` says whether it
      stays inside the buffer. */
  method Append(buf: array<char>, len: nat, piece: string, ghost text: string) returns (ok: bool)
    requires Written(buf, text) && len == |text|
    modifies buf
    ensures ok <==> |text + piece| < buf.Length
    ensures ok ==> Written(buf, text + piece)
  {
    ok := len + |piece| < buf.Length;
    if ok {
      forall k | 0 <= k < |piece| {
        buf[len + k] := piece[k];
      }
      buf[len + |piece|] := NUL;
    }
  }

  // ----- Words -----

  function Flush(cur: string): seq<string> {
    if cur == [] then [] else [cur]
  }

  /** The tokens `strtok` cuts out of `s`, with `cur` already read of the first one. */
  function Words(cur: string, s: string): seq<string>
    decreases |s|
  {
    if s == [] then Flush(cur)
    else if Delim(s[0]) then Flush(cur) + Words([], s[1..])
    else Words(cur + [s[0]], s[1..])
  }

  /** Tokens joined by single spaces. */
  function Join(ts: seq<string>): string {
    if ts == [] then ""
    else if |ts| == 1 then ts[0]
    else ts[0] + " " + Join(ts[1..])
  }

  lemma JoinFirst(ts: seq<string>)
    requires |ts| > 1
    ensures Join(ts) == ts[0] + ([' '] + Join(ts[1..]))
  {
    assert ts[0] + " " + Join(ts[1..]) == ts[0] + ([' '] + Join(ts[1..]));
  }

  /** One more token joined. */
  lemma {:induction false} TextGrows(ts: seq<string>, i: nat)
    requires 0 < i < |ts|
    ensures (Join(ts[..i]) + " ") + ts[i] == Join(ts[..i + 1])
  {
    if i == 1 {
      assert ts[..1] == [ts[0]] && ts[..2] == [ts[0], ts[1]] && ts[..2][1..] == [ts[1]];
      JoinFirst(ts[..2]);
    } else {
      TextGrows(ts[1..], i - 1);
      assert ts[1..][..i - 1] == ts[..i][1..] && ts[1..][..i] == ts[..i + 1][1..];
      JoinFirst(ts[..i]);
      JoinFirst(ts[..i + 1]);
    }
  }

  /** The text of a prefix of the tokens does not outgrow the whole. */
  lemma {:induction false} PrefixShorter(ts: seq<string>, i: nat)
    requires i <= |ts|
    ensures |Join(ts[..i])| <= |Join(ts)|
    decreases |ts| - i
  {
    if i < |ts| {
      if i > 0 { TextGrows(ts, i); }
      PrefixShorter(ts, i + 1);
    } else {
      assert ts[..i] == ts;
    }
  }

  predicate DelimFree(s: string) {
    forall c :: c in s ==> !Delim(c)
  }
}
