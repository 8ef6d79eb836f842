/** What the shell's invariants give for a background pipeline typed at any point of a session. */
module BackgroundLines {
  import opened Tokenizer
  import opened Shell
  import opened PipelineSplit

  /** Whatever was assigned before: exactly when the text recorded for a background pipeline tokenises to
      the tokens that run, those that expanded to nothing apart. */
  lemma RecordedTextRereads(lines: seq<string>, line: string)
    requires var d := DispatchOf(SessionEnv(map[], lines), line);
      d.Pipeline? && IsBackground(Segments(d.tokens))
    ensures var ex := DispatchOf(SessionEnv(map[], lines), line).tokens;
      var text := TextOf("", Commands(Segments(ex))) + " &";
      TokensOf(text) == NonEmpty(ex) <==> EchoFlag(text) || forall t :: t in ex ==> t == "" || Clean(t)
  {
    var ts := TokensOf(line);
    var ex := ExpandedTokens(SessionEnv(map[], lines), ts);
    forall t | t in ex ensures t == "" || Plain(t) {
      var i :| 0 <= i < |ex| && ex[i] == t;
      ExpansionKeepsStructure(lines, line, i);
    }
    BackgroundTextRereads(ex);
  }

  /** In particular for every line read with the echo flag off. */
  lemma RecordedTextIsFaithful(lines: seq<string>, line: string)
    requires !EchoFlag(line)
    requires var d := DispatchOf(SessionEnv(map[], lines), line);
      d.Pipeline? && IsBackground(Segments(d.tokens))
    ensures var ex := DispatchOf(SessionEnv(map[], lines), line).tokens;
      TokensOf(TextOf("", Commands(Segments(ex))) + " &") == NonEmpty(ex)
  {
    var ts := TokensOf(line);
    var ex := ExpandedTokens(SessionEnv(map[], lines), ts);
    forall t | t in ex ensures t == "" || Clean(t) {
      var i :| 0 <= i < |ex| && ex[i] == t;
      ExpansionKeepsStructure(lines, line, i);
    }
    RecordedTextRereads(lines, line);
  }
}
