# mysh: a verified model of the shell

`mysh` is a small Unix shell: it reads a line, spaces out its operators and cuts it into tokens,
expands variables, and runs the result as an assignment, a builtin, an external command or a pipeline.
It keeps background jobs, and it contains a chat server and client. This project models the parts of it
that change state step by step, in the form they have in C (buffers rewritten in place, linked lists,
token arrays cut with NULLs, descriptor tables changed by one system call at a time, a server loop over
two arrays and two counters), and proves what they are for.

* **Pipelines** (`Descriptors`, `PipelineSetup`, `PipelineFlow`, `PipelineProgress`, `PipelineStreams`,
  `Stages`). The shell and its children are processes with descriptor tables over shared open files, as
  POSIX.1-2017 (System Interfaces) describes `pipe`, `fork`, `dup2` and `close`; one step is one system
  call of one process, in any interleaving, and any call may fail. After wiring, commands run as
  deterministic programs over bounded queues, with reads and writes that may move any part of their data,
  end-of-file and SIGPIPE decided by who still holds an end. Every schedule is finite and none gets stuck,
  whatever fails; and a completed one has printed the composition of the stages' stream functions.
* **From line to output** (`Lines`). What tokeniser, expander, split and pipeline engine do together to a
  line of builtins.
* **Tokeniser** (`CStrings`, `Options`, `Tokenizer`, `LineBuffer`). The growing in-place pass refines a
  recursive function; spacing and splitting together refine a one-pass lexer; printing and reading again
  gives the tokens back exactly under a stated condition.
* **Variables** (`LinkedLists`, `Variables`, `Expansion`, `DoubleExpansion`, `Shell`, `SessionLines`,
  `BackgroundMarks`). The list refines a map; bounded expansion refines an unlimited one that is a homomorphism at token
  boundaries; no variable of the shell ever holds a delimiter or an operator, over every session, so
  expansion keeps the shape of a line, but for the background marks of echo lines. What whole lines do to
  the variables is told in terms of their characters.
* **Splitting a pipeline** (`TokenArrays`, `PipelineSplit`, `BackgroundLines`). The in-place cut is
  lossless and unique, and the text recorded for a background pipeline reads back.
* **Builtins** (`Redirection`, `WordCount`). What redirection leaves of the descriptor table for every
  pattern of failing calls; the counting automaton counts maximal runs.
* **Background jobs** (`Jobs`). Conservation of jobs and messages over every run.
* **Chat** (`ChatServer`, `ServerTurns`, `ChatClient`, `Collapse`). Total-order broadcast over every run of
  the server, the table's invariant, what a turn of the loop does slot by slot, the message a client sends,
  and whitespace collapsing.

Imperative code appears as methods over arrays and classes, each proved equal to a function of the state
before; the theorems are about those functions. Where the code does not keep a promise one might read
into it, the exact condition under which it does is proved, with the inputs that break it:

* tokens survive printing and reading again: `Tokenizer.RoundTripExactly`, and for echo lines
  `Tokenizer.EchoLineRoundTrip`;
* expansion makes no background mark: `BackgroundMarks.MarksKeptExactly`, `BackgroundMarks.MarkCanBeGained`;
* expanding twice is expanding once: `DoubleExpansion.DoubleTokenExactly` and `DoubleExpansion.TokenWitness`
  for tokens, `DoubleExpansion.DoubleBoundedExactly` for text of any length;
* a registered job leaves the list: `Jobs.FinishedExactly`, `Jobs.EarlyReapIsLost`;
* a line fits its buffer: `LineBuffer.TokenizeInput`, `LineBuffer.BarsOverrun`;
* a builtin's redirection is undone: `Redirection.RestoredExactly`.

Three remarks on reading the code against its comments. The comment above `tokenize_input`
(src/io_helpers.c:81) asks for a `tokens` array as long as the input and says nothing of spare room in
the input; the spacing pass needs up to two cells for every operator, and the model says exactly for
which lines it leaves the buffer. The echo flag is taken from the first `echo ` in the raw line, before
`|` is spaced out. And in an echo line the lookahead behind `&` skips spaces and tabs but not the final
newline.

## Model

| member | source | states |
|---|---|---|
| PipelineStreams.PipelineComputesComposition | src/commands.c:692-822 | under any interleaving of set-up calls and command steps, any chunking of reads and writes, any pipe capacity and any failing `dup2`s, what has reached standard output is always a prefix of the composed stream and, once all is over, all of it, where a child whose `dup2` failed counts as one that reads and writes nothing; the shell then has its old descriptor table |
| PipelineStreams.SchedulesAgree | src/commands.c:715-822 | two completed schedules of one pipeline in which the same children fail have printed the same |
| PipelineStreams.NoDeadlock | src/commands.c:692-822 | for commands that halt on the input they get: after any schedule in which at most `dup2`s fail either everything has exited or some process can make a step |
| PipelineStreams.SchedulesAreBounded | src/commands.c:715-822 | for such commands no schedule in which at most `dup2`s fail is longer than a bound known in advance |
| PipelineStreams.PipelineCanComplete | src/commands.c:715-822 | and there is a completed schedule without failures |
| PipelineStreams.FinishFrom | src/commands.c:715-822 | from every state that keeps the invariant, not only the first, some schedule leads to completion |
| PipelineStreams.ScheduleKeeps | src/commands.c:715-822 | the flow invariant (bytes written to a pipe are those read from it followed by those still in it; a live command has exactly the rest of its stream to come) holds after every schedule, and each step pays for itself in a decreasing bound |
| PipelineStreams.FailedNeverActs | src/commands.c:758-781 | a child whose `dup2` fails never runs its command |
| PipelineStreams.FailedHasEnded | src/commands.c:758-781 | and has exited, and so released its pipe ends |
| PipelineStreams.EofMeansWriterGone | src/commands.c:784-789 | end-of-file on a pipe is seen only after the command before it has exited |
| PipelineStreams.BrokenMeansReaderGone | src/commands.c:784-789 | SIGPIPE is raised only after the command behind has exited |
| PipelineStreams.EofMeansAllRead | src/commands.c:758-789 | whoever sees end-of-file has read the whole stream of the command before |
| PipelineProgress.AnyRunIsBounded | src/commands.c:692-855 | for commands that halt on any input: no schedule is longer than a bound known in advance, whichever `pipe`s, `fork`s and `dup2`s fail and whichever children are killed for taking too long |
| PipelineProgress.AnyRunCanGoOn | src/commands.c:692-855 | and none gets stuck before the shell is done and every child has exited |
| PipelineProgress.ScheduleHalts | src/commands.c:692-855 | no command ever comes to read more than the room it was given, and each step pays for itself, under all failures |
| PipelineProgress.CanAlwaysStep | src/commands.c:758-822 | in every state in which the running commands can pay for their next step, and which is not complete, some process can move without a failure |
| PipelineProgress.ReaderNeverStuck | src/commands.c:771-789 | a command that has input or end-of-file waiting can be held up only by a non-empty pipe behind it whose reader is alive |
| PipelineFlow.FailedSetupPrintsNothing | src/commands.c:692-735 | when a `pipe` or `fork` has failed nothing has been printed, whatever the children already started have done |
| PipelineFlow.PipesStayWithinCapacity | src/commands.c:692-705 | no pipe ever holds more than its capacity, over every schedule |
| PipelineSetup.PipeEndOwnership | src/commands.c:692-855 | for every interleaving, every pattern of failing calls and every child killed for taking too long: exactly who holds a pipe end, namely the shell until its close loop passes it, every child until its own does, and after that only the one child wired to it, while it lives |
| PipelineSetup.ShellTableRestored | src/commands.c:692-735 | however the call returns, with success or after a failed `pipe` or `fork`, the shell's descriptor table is the one before |
| PipelineSetup.RunningTable | src/commands.c:758-789 | over every run, a child that runs its command reads pipe i-1 as descriptor 0 and writes pipe i as descriptor 1, the first and the last child the shell's own, and otherwise has the shell's descriptors and no more |
| PipelineSetup.FailedSetupLeavesNobody | src/commands.c:720-735 | when a `pipe` or `fork` has failed and the call has returned, every child already started has been killed |
| PipelineSetup.EndLivesWithKeeper | src/commands.c:784-822 | once set-up is over nobody holds a pipe end exactly when the child it belongs to has exited, so end-of-file propagates |
| PipelineSetup.UnheldMeansGone | src/commands.c:692-822 | during a set-up without errors, an end nobody holds is one whose child has been started and has exited |
| PipelineSetup.RunKeeps | src/commands.c:692-822 | the wiring invariant holds after every run of set-up events |
| PipelineSetup.StepKeeps | src/commands.c:692-822 | every system call of the shell or of a child, failing or not, keeps the wiring invariant |
| PipelineSetup.ChildStepKeeps | src/commands.c:758-789 | a child's `dup2`s and closes take it from a copy of the shell's table through the stages of rewiring to its own two ends and nothing else |
| PipelineSetup.ParentStepKeeps | src/commands.c:692-735 | creating pipes, forking, and both close loops keep the shell's table equal to its old one plus the ends not yet closed |
| PipelineSetup.KidHolds | src/commands.c:758-789 | exactly when a child's table refers to a given pipe end |
| PipelineSetup.ParentHolds | src/commands.c:692-822 | exactly when the shell's table refers to a given pipe end |
| Descriptors.TableHolds | src/commands.c:784-789 | with the slots below `lo` closed, a pipe end is held exactly if the base holds it or its slot is at least `lo` |
| Stages.BuiltinPipeline | src/commands.c:715-822 | any pipeline of `cat`, `wc`, `echo` and lone assignments, in which no `pipe` or `fork` fails and nothing is killed, prints the composition of the stream functions of those commands whose `dup2`s did not fail |
| Stages.BuiltinPipelineEnds | src/commands.c:692-855 | every schedule of such a pipeline, whatever fails or is killed, is bounded |
| Stages.BuiltinPipelineGoesOn | src/commands.c:692-855 | and is not stuck before completion |
| Stages.BuiltinComputes | src/builtins.c:37-348 | each of the builtins, with or without a file argument, as the reads and writes it makes, computes its stream function however its input is cut into chunks |
| Stages.BuiltinHalts | src/builtins.c:37-348 | and halts within a computed number of actions on any input of at most a given length |
| Stages.BlocksText | src/builtins.c:295-300 | the blocks `cat` reads from a file and writes add up to its content |
| Stages.CatComputes | src/builtins.c:270-284 | the read-write loop of `cat`, 128 bytes at a time, copies its input |
| Stages.WcComputes | src/builtins.c:321-348 | `wc`, fed in arbitrary chunks from any point of its count, reports the counts of the whole input |
| Stages.WcTextExactly | src/builtins.c:337-345 | what `wc` prints, word for word: the numbers of positions at which a character that is no blank follows none or a blank, of characters, and of newlines |
| Stages.EchoPiecesText | src/builtins.c:37-59 | the separate writes of `echo` add up to its arguments joined by spaces and a newline |
| Stages.EchoWcPrints | src/builtins.c:37-59 | `echo w1 ... wn`, through any number of `cat`s, into `wc` reports n words, the joined length plus one characters and one newline |
| Lines.LinePrints | src/mysh.c:347-406 | for any line and any variables: if it is dispatched as a pipeline whose commands are builtins, every completed schedule without a failed `pipe` or `fork` and without a kill leaves on standard output the composition of the commands between its pipe symbols, as tokenised, expanded and split |
| Lines.EchoWcCommands | src/mysh.c:347-406 | a line `echo w1 ... wn`, a pipe symbol and `wc`, of words without operators and references, is dispatched as the pipeline of just those two commands |
| Lines.EchoWcLine | src/commands.c:692-822 | and prints the three counts of that text, however its processes interleave |
| Lines.CatWcCommands | src/mysh.c:347-406 | a line `cat f`, a pipe symbol and `wc` is dispatched as the pipeline of just those two commands |
| Lines.CatWcLine | src/commands.c:692-822 | and prints the counts of the file, or of nothing if it cannot be opened, however its processes interleave |
| Lines.CatStream | src/builtins.c:268-304 | `cat` alone hands on its input; with an argument, the content of the first file named, or nothing |
| Lines.WcStream | src/builtins.c:307-348 | `wc` alone reports on its input; with an argument, on the first file named, or not at all |
| Lines.EchoStream | src/builtins.c:37-59 | `echo` writes its words joined by spaces and a newline, whatever its input |
| Lines.AssignmentStream | src/commands.c:791-797 | a command that starts with an assignment writes nothing |
| Lines.PipelineHasTwo | src/mysh.c:377-406 | a line dispatched as a pipeline has at least two commands after expansion |
| Stages.ComposeIsLastStream | src/commands.c:758-781 | the stream behind the last command is the composition of all stages applied to the input |
| Tokenizer.TokensAreLexed | src/io_helpers.c:86-182 | spacing out the operators and splitting at delimiters gives the tokens of a one-pass lexer in which every operator stands alone |
| Tokenizer.SpacedTokens | src/io_helpers.c:97-179 | the same from any point of a line, with part of a token already read |
| Tokenizer.RoundTripExactly | src/io_helpers.c:86-224 | joining a line's tokens and tokenising again, with the flag detected afresh, returns the same tokens if and only if every `&` stands alone (flag off) or the last token has no attached final `&` (flag on) |
| Tokenizer.RereadExactly | src/io_helpers.c:86-224 | the same for any list of plain tokens, wherever it comes from |
| Tokenizer.LaysRereadExactly | src/io_helpers.c:86-182 | and for any one-line text that lays them out with gaps of any length |
| Tokenizer.RoundTripFlagOff | src/io_helpers.c:86-224 | a line read with the flag off always gets its tokens back, whatever flag the joined form has |
| Tokenizer.EchoLineRoundTrip | src/io_helpers.c:130-139 | an echo line with its newline is read as it was written, whatever its words; its joined form, without the newline, keeps its tokens if and only if the last word has no attached final `&`, so `echo hi&` loses them |
| Tokenizer.EchoPipelineRoundTrip | src/io_helpers.c:88-139 | the words of an `echo` behind a pipe symbol are read as they were written, `&`s attached to them included, if no token before ends in `echo` |
| Tokenizer.EchoFlagExactly | src/io_helpers.c:88-95 | the flag is set if and only if the first `echo ` of the line is at its start or right behind a pipe symbol and a space |
| Tokenizer.EchoBehindBar | src/io_helpers.c:92-95 | so a first `echo ` right behind a pipe symbol and a space sets it |
| Tokenizer.NoEchoNoFlag | src/io_helpers.c:88-95 | and without any `echo ` it is not set |
| Tokenizer.SpacedBars | src/io_helpers.c:97-119 | a line of n pipe symbols grows to 2n-1 characters |
| Tokenizer.SpacedLength | src/io_helpers.c:97-168 | the pass never shortens the line and adds at most two characters an operator |
| Tokenizer.SpacedInsertsSpaces | src/io_helpers.c:97-168 | the result is the line with spaces inserted and nothing else changed |
| Tokenizer.SpacedBounds | src/io_helpers.c:97-119 | afterwards every pipe symbol has a space or an end of the line on either side, and so has every `&` with the flag off |
| Tokenizer.BoundedAt | src/io_helpers.c:97-119 | what that means at a given position of the text |
| Tokenizer.SpacedIdempotent | src/io_helpers.c:97-168 | a second pass with the same flag changes nothing |
| Tokenizer.SpacedBlank | src/io_helpers.c:132-139 | the pass neither makes blank text non-blank nor the other way round, so the lookahead behind `&` gives the same answer before and after |
| Tokenizer.LexPlain | src/io_helpers.c:86-182 | no token holds a delimiter, a pipe symbol is always a token of its own, and so is `&` with the flag off |
| Tokenizer.LexLays | src/io_helpers.c:170-179 | plain tokens, laid out with any gaps, are read back by the lexer when the condition on `&` holds or a newline ends the text |
| Tokenizer.LaysMore | src/io_helpers.c:187-224 | one more token behind one more delimiter is laid out behind the others |
| Tokenizer.LexDetachesLastAmp | src/io_helpers.c:130-139 | in an echo line without a newline the last token never has an attached final `&` |
| LineBuffer.TokenizeInput | src/io_helpers.c:86-182 | the in-place tokeniser returns the starts of exactly the tokens of the line, each terminated in the buffer; it returns nothing, the next shift leaving the buffer, if and only if the spaced line does not fit |
| LineBuffer.SpaceOperators | src/io_helpers.c:97-168 | the `memmove` loop terminates, though the string grows under the cursor, and leaves the recursive spacing of the line in the buffer, if and only if that fits |
| LineBuffer.SpaceStep | src/io_helpers.c:99-167 | one turn of the loop makes the unread rest one character shorter and leaves the finished text the same; it leaves the buffer only if the finished text does not fit |
| LineBuffer.Isolate | src/io_helpers.c:101-119 | an operator gets the spaces it lacks on either side and the cursor goes behind them, if and only if there is room |
| LineBuffer.IsSpecial | src/io_helpers.c:101-139 | the nested tests recognise exactly the pipe symbol, `&` with the flag off, and `&` followed only by spaces and tabs with the flag on |
| LineBuffer.InsertSpace | src/io_helpers.c:105-107 | shifting the rest, terminator included, puts one space into the stored string, if and only if there is a free cell |
| LineBuffer.CutTokens | src/io_helpers.c:170-179 | the `strtok` loop returns the words of the line, each stored and terminated where it stood |
| LineBuffer.CutToken | src/io_helpers.c:172-178 | one call terminates the token under the cursor and leaves everything before it and the rest of the line intact |
| LineBuffer.RoomForOperators | src/io_helpers.c:97-119 | two free cells an operator are always enough room |
| LineBuffer.BarsOverrun | src/mysh.c:329 | 65 or more pipe symbols, which the line buffer of the main loop can hold, do not fit it once spaced |
| LineBuffer.CombineTokens | src/io_helpers.c:187-224 | the buffer allocated is exactly large enough and holds the tokens from the start index on, joined by single spaces |
| Variables.AssignedEnv | src/variables.c:36-79 | assigning in the list is assigning in the map it means, and keys stay unique |
| CStrings.DecValue | src/builtins.c:338-345 | the digits printed for a number are decimal digits without leading zeros and say that number |
| Variables.ReplacedEnv | src/variables.c:36-51 | overwriting the first binding of a known key updates the map and no key |
| Variables.ReversedEnv | src/variables.c:190-250 | reversing a list with unique keys changes no lookup |
| Variables.EnvAt | src/variables.c:85-101 | with unique keys every binding in the list is what a lookup finds |
| Variables.EnvKeys | src/variables.c:85-101 | a key is defined exactly if some cell of the list has it |
| Variables.VariableStore.SetVariable | src/variables.c:22-79 | refuses exactly the keys with a space or tab and otherwise updates the map at that key, in the list by changing one cell or adding one in front |
| Variables.VariableStore.GetVariable | src/variables.c:85-101 | returns what the map holds, or nothing |
| Variables.VariableStore.Duplicate | src/variables.c:190-250 | the copy consists of fresh cells and holds the bindings in reverse order |
| Variables.VariableStore.Replace | src/variables.c:255-261 | the store now owns exactly the cells of the given list |
| Expansion.ExpandVariables | src/variables.c:108-182 | the loop over the 129-character buffer keeps every write in range and returns the unlimited single-pass expansion cut at 128, or the text itself if it has no `$` |
| Expansion.NextPiece | src/variables.c:129-178 | one turn consumes a character, a lone `$` or a reference, and appends its expansion |
| Expansion.ExpandNamed | src/variables.c:129-160 | a `$` and a name of at most 127 characters turn into the whole value, or into nothing if there is none, and the text behind the name is expanded on its own |
| Expansion.ExpandNameless | src/variables.c:161-168 | a `$` without a name stays |
| Expansion.ExpandBefore | src/variables.c:169-178 | other characters stay |
| Expansion.ExpandBoundedNamed | src/variables.c:108-182 | a single reference gives the value, of which 128 characters are kept |
| Expansion.ExtractName | src/variables.c:130-150 | the name is the longest run of name characters, at most 127 of them |
| Expansion.BoundedRefines | src/variables.c:108-182 | what is returned is a prefix of the unlimited expansion, and all of it if that has at most 128 characters or the text no `$` |
| Expansion.ExpandAppend | src/variables.c:129-178 | expansion is a homomorphism at every split whose right part is empty or starts with a blank, newline or `$` |
| Expansion.ExpandJoin | src/io_helpers.c:187-224 | expanding the joined line equals joining the expanded tokens |
| DoubleExpansion.DoubleBoundedExactly | src/variables.c:108-182 | for text of any length: expanding it twice is expanding it once, cut included and for all `$`-free values, if and only if it has no `$`, or with any one variable set to a single letter and the others unset every `$` of its expansion, as cut, stands alone |
| DoubleExpansion.DoubleTokenExactly | src/variables.c:108-182 | for text of at most 128 characters, such as every token of a line: if and only if no `$$` in it is followed by a name character |
| DoubleExpansion.TokenWitness | src/variables.c:108-182 | for every other such text, values for which the second expansion changes what the first returned |
| DoubleExpansion.OneSuffices | src/variables.c:129-178 | a `$` that does not stand alone after an expansion is there, and no further behind, with one variable at most set, to a single letter |
| DoubleExpansion.CutHides | src/variables.c:108-182 | behind 128 other characters a `$$` with a name does no harm |
| Expansion.DoubleExpansionExactly | src/variables.c:129-178 | without the cut, expanding twice equals expanding once for all `$`-free values if and only if no `$$` in the text is followed by a name character |
| Expansion.UnstableWitness | src/variables.c:129-178 | for every other text, values of at most one character for which the second unlimited expansion changes it |
| Expansion.DoubleBoundedExpansion | src/variables.c:108-182 | if no `$$` is followed by a name character the second bounded expansion changes nothing, whatever the length of the text |
| Expansion.ExpandLeavesLone | src/variables.c:129-178 | after one expansion every `$` left stands alone |
| ChatClient.SendExpandsOnce | src/network.c:797-856 | on tokens the main loop has already expanded, `send`'s own expansion leaves port and host alone and at most cuts the message at 128 characters |
| ChatClient.AssembleMessage | src/network.c:833-853 | the loop joins the tokens, quotes taken off, by single spaces; it leaves its 4096-character buffer if and only if the text does not fit |
| ChatClient.UnquotedExactly | src/network.c:842-852 | quotes at both ends of a token come off, and no others |
| ChatClient.MessageMore | src/network.c:835-853 | one token more is one space and that token without its quotes more |
| Shell.ProcessLine | src/mysh.c:347-417 | one turn of the main loop, from the raw buffer to the place the line is handled: tokenise, look for pipes, expand, dispatch, with assignments carried out in the store; nothing comes of a line if and only if it or its tokens do not fit their arrays |
| SessionLines.AssignmentLine | src/mysh.c:149-193 | the line `key=value` is an assignment and sets the key, as it stands, to the expanded value |
| SessionLines.PlainAssignment | src/mysh.c:149-193 | without a reference, to the value itself |
| SessionLines.ReferenceAssignment | src/mysh.c:149-193 | with a reference, to the value of that variable, of which 128 characters are kept |
| SessionLines.NoAssignment | src/mysh.c:408-417 | a line whose first token has no `=`, or begins with one, leaves all variables as they are |
| SessionLines.AssignedThenEchoed | src/mysh.c:347-417 | after `key=value` the line `echo $key` is the command `echo` with that value |
| SessionLines.SessionGoesOn | src/mysh.c:333-417 | lines that do not end the session are carried out one after the other |
| SessionLines.CommandLine | src/mysh.c:377-417 | a line without a pipe symbol whose first token is no assignment is a command of its expanded tokens |
| SessionLines.PipelineLine | src/mysh.c:377-406 | a line with one is a pipeline of its expanded tokens, only an assignment at its head being left to the child |
| SessionLines.ExitLine | src/mysh.c:371-375 | a line that starts with `exit` ends the session |
| SessionLines.BlanksMakeNothing | src/mysh.c:364-369 | blanks and newlines alone make no token |
| SessionLines.EmptyLine | src/mysh.c:364-369 | and a line without tokens does nothing |
| TokenArrays.AssignmentShape | src/mysh.c:116-126 | a token is taken for an assignment if and only if it has a `=` and not in front |
| Shell.SessionIsSafe | src/mysh.c:149-224 | over every session no variable of the shell ever holds a delimiter, a pipe symbol or an `&` |
| Shell.AssignmentIsSafe | src/mysh.c:377-417 | an assignment the shell itself carries out holds no delimiter and no operator |
| Shell.ExpansionKeepsStructure | src/mysh.c:377-406 | at any point of any session the tokens that are pipe symbols after expansion are those that were before, no token is split, and with the flag off the same holds for `&` |
| BackgroundMarks.SessionMarkExactly | src/mysh.c:195-224 | at any point of any session, for any line: exactly which of its tokens are a lone `&` after expansion, namely an `&` among references to names whose values are empty |
| BackgroundMarks.MarksKeptExactly | src/mysh.c:195-224 | expansion keeps a token's being a lone `&` over every session if and only if it is one already, is a leading assignment, or is not an `&` among references |
| BackgroundMarks.MarkGainedExactly | src/variables.c:108-182 | a token neither gains nor loses a background mark under any variables that hold no operators if and only if it is `&` or not an `&` among references |
| BackgroundMarks.BoundedMarkExactly | src/variables.c:108-182 | exactly which texts expand to a lone `&` under given variables |
| BackgroundMarks.MarkCanBeGained | src/mysh.c:195-224 | every token of that shape, such as an `&` before an undefined reference, does become a background mark in an echo line |
| Shell.EchoFlagMeans | src/io_helpers.c:88-95 | a line read with the flag on is a pipeline or an `echo` command |
| Shell.HandleAssignment | src/mysh.c:150-193 | fails exactly without `=` or with a blank in the key, and otherwise stores the expanded value under the unexpanded key |
| Shell.ExpandInPlace | src/mysh.c:195-224 | every token of the array is replaced by its expansion, except a leading assignment |
| Shell.ContainsPipe | src/mysh.c:377-387 | whether one of the tokens is a pipe symbol |
| Shell.ChildStore | src/commands.c:741-756 | a pipeline child works on fresh cells with the shell's values and its own assignments, which it skips if the shell has no variables |
| SessionLines.ChildAssigns | src/commands.c:741-756 | a `key=value` among the tokens of a pipeline child sets that variable for it, if the shell has any |
| SessionLines.ChildIgnores | src/commands.c:741-756 | a token that is no assignment sets nothing |
| SessionLines.ChildWithNone | src/commands.c:741-756 | a child of a shell without variables sets none |
| Shell.ChildStores | src/commands.c:715-756 | all children's stores are fresh and share no cell with one another, so no assignment in one reaches another or the shell |
| Shell.CopyStore | src/commands.c:741-745 | copy and installation together give every key the same value, and the copy is NULL exactly if the shell has no variables |
| PipelineSplit.SegmentsInterleave | src/commands.c:629-643 | the segments, interleaved with pipe symbols, are the original tokens; there is one more of them than pipe symbols and none contains one |
| PipelineSplit.SplitIsUnique | src/commands.c:629-643 | no other list of segments without pipe symbols interleaves to the same tokens |
| PipelineSplit.SplitInPlace | src/commands.c:629-643 | with NULLs written over the pipe symbols, each command pointer denotes its segment as a NULL-terminated vector of the same array |
| PipelineSplit.Verify | src/commands.c:645-668 | reports the first empty or unknown command, and nothing exactly if there is none |
| PipelineSplit.TakeMark | src/commands.c:670-686 | a final `&` of the last command is recognised and cut off, and no other command changes |
| PipelineSplit.Prepare | src/commands.c:597-686 | a single command only loses its mark and is not verified; with a pipe symbol, split, verification and background mark together |
| PipelineSplit.CountCommands | src/commands.c:596-604 | there is one command more than there are pipe symbols |
| PipelineSplit.NoOffence | src/commands.c:645-668 | verification passes exactly if every command is non-empty and starts with an assignment or a known name |
| PipelineSplit.OffenceExactly | src/commands.c:645-668 | the first command that is empty, or starts neither with an assignment nor with a known name, is the one reported, as empty or under its name |
| PipelineSplit.BackgroundExactly | src/commands.c:670-686 | a line runs in the background if and only if its last token is `&`, and its commands are those of the line without it |
| PipelineSplit.BackgroundText | src/commands.c:860-881 | the `strcat` loops write the commands separated by pipe symbols, with `&` at the end; they leave the 128-character buffer if and only if that does not fit |
| PipelineSplit.TextIsJoined | src/commands.c:860-881 | for non-empty tokens that text is the original tokens, `&` included, joined by single spaces |
| PipelineSplit.MarkedTextHolds | src/commands.c:860-881 | in general it is one line that lays out the tokens that are not empty, with gaps |
| PipelineSplit.BackgroundTextRereads | src/commands.c:860-881 | read as a line it gives the non-empty tokens back if and only if every `&` stands alone or the text counts as an echo line |
| BackgroundLines.RecordedTextRereads | src/commands.c:860-881 | at any point of any session, the text recorded for a background pipeline tokenises to the tokens that ran, those expanded to nothing apart, if and only if every `&` in them stands alone or the text counts as an echo line |
| BackgroundLines.RecordedTextIsFaithful | src/commands.c:860-881 | so it does for every line read with the flag off |
| WordCount.Wc | src/builtins.c:316-333 | the automaton returns the number of maximal runs of non-blank characters, of characters and of newlines |
| WordCount.WordsAreRuns | src/builtins.c:321-333 | words begun by the automaton are exactly the positions where a maximal run starts |
| WordCount.WordsExactly | src/builtins.c:321-333 | in terms of spaces, tabs, newlines and carriage returns: how many words there are |
| WordCount.NewlinesExactly | src/builtins.c:324 | the newline count is the number of newlines |
| WordCount.WordsAcrossCut | src/builtins.c:321-333 | counting two pieces apart counts one word too many exactly when the cut falls inside a word |
| WordCount.WordsAreTokens | src/io_helpers.c:170-181 | on text without carriage returns the count is the number of tokens |
| WordCount.Echo | src/builtins.c:37-59 | the loop writes the arguments joined by single spaces and a newline |
| WordCount.EchoCounts | src/builtins.c:37-59 | echoed arguments without blanks count as that many words on one line, one character longer than their join |
| Redirection.ExecuteBuiltin | src/commands.c:495-584 | for every pattern of failing `dup`s and `dup2`s, those that restore included: no saved copy stays open, the redirected descriptors are closed, and a standard descriptor ends up elsewhere only if it was redirected and could not be put back; the builtin runs exactly if no needed call failed, with descriptors 0 and 1 on the files it was given; the queued messages are printed exactly when `dup2` onto standard output fails |
| Redirection.RestoredExactly | src/commands.c:571-582 | the shell has its own table back, less the redirected descriptors, if and only if every redirected standard descriptor was put back or was the same file anyway |
| Redirection.FinalMeans | src/commands.c:495-584 | that table, descriptor by descriptor |
| Redirection.SwapUndone | src/commands.c:571-582 | restoring from the saved copy undoes a redirection |
| Redirection.InnerSwapUndone | src/commands.c:571-582 | restoring standard input first, under a redirected standard output, undoes only the outer redirection |
| Redirection.ExecuteExternal | src/commands.c:388-480 | the shell closes both redirected descriptors, except that for an unknown command it leaves both open; a background command is registered with its tokens joined, if those fit the text buffer, and nothing else is; a foreground command gives its exit status, or -1 |
| Redirection.ExternalChild | src/commands.c:411-438 | a child that gets to run the command has the redirected files as descriptors 0 and 1 and no other copy of them |
| Redirection.WithoutMeans | src/commands.c:448-456 | the table without the redirected descriptors, descriptor by descriptor |
| Redirection.BothPutBack | src/commands.c:571-582 | redirecting input and output and putting them back in the same order leaves the stated table, whichever of the restoring calls fail |
| Jobs.NumberedMeans | src/commands.c:57-126 | the numbering kept in that account: numbers decrease along the list and lie between 1 and the next number |
| Jobs.JobsAreConservedFromStart | src/commands.c:57-126 | over every run of registering, reaping and draining, with any pids in any order: jobs begun are those active and those finished, messages delivered followed by those queued are the finished jobs' in order, numbers decrease along the list below the next one, and numbering restarts when the list is empty |
| Jobs.BeginExactly | src/commands.c:57-90 | a new job comes first in the list, under the next number, and the one after it gets the number behind |
| Jobs.NumbersCountUp | src/commands.c:70 | while nothing is reaped numbers count up by one |
| Jobs.ReapExactly | src/commands.c:249-263 | a reap of a listed pid queues the number in brackets, a plus, two spaces, `Done` and the command, cut at 127 characters, and restarts the numbering if the list is empty then |
| Jobs.BalancedMeans | src/commands.c:57-126 | that account of jobs, kept by counting, says that those begun are, as a multiset, those active and those finished |
| Jobs.PidsDiffer | src/commands.c:57-126 | if no pid is registered while it is listed, active jobs have different pids |
| Jobs.EventAccounted | src/mysh.c:41-51 | each single event keeps that account |
| Jobs.ReapAccounted | src/commands.c:249-263 | completing a job moves it from the active to the finished with exactly one message |
| Jobs.ReapTakesNewest | src/commands.c:249-263 | a reap finishes the newest job with its pid, if there is one, and leaves the other jobs of that pid as they are |
| Jobs.FinishedExactly | src/commands.c:249-263 | over every run: a listed job is finished if and only if some reap of its pid finds no newer job to take, and stays in the list until then |
| Jobs.ListedUntilReaped | src/commands.c:249-263 | the only job with its pid, if that is not registered again, stays listed exactly until its process is reaped |
| Jobs.EarlyReapIsLost | src/mysh.c:41-51 | a child reaped before it is registered is listed without a message, and stays so; it is reported as done if and only if its pid is handed out again and some later reap of it is not that of a job registered in between |
| Jobs.FindJobAt | src/commands.c:93-143 | lookup finds, and removal takes out, the first job with the pid and no other |
| Jobs.NoSuchJob | src/commands.c:129-143 | lookup fails exactly if no job has the pid |
| Jobs.JobTable.Add | src/commands.c:57-90 | the new job, with the next number, comes first in the list |
| Jobs.JobTable.Remove | src/commands.c:93-126 | the first job with the pid is unlinked, at the head or behind its predecessor, and the counter is reset when none is left |
| Jobs.JobTable.MarkCompleted | src/commands.c:249-263 | queues the job's Done message and removes it, or does nothing for an unknown pid |
| Jobs.JobTable.FindByPid | src/commands.c:129-143 | the walk returns the first job with the pid |
| Jobs.MessageQueue.Add | src/commands.c:177-210 | the message goes to the end of the queue |
| Jobs.MessageQueue.GetNext | src/commands.c:212-225 | the oldest message comes out |
| Jobs.MessageQueue.Drain | src/mysh.c:335-342 | everything queued is delivered in order and the queue is empty |
| Jobs.CommandText | src/commands.c:461-469 | the text of a single background command is its tokens joined; the loop leaves its 128-character buffer if and only if that does not fit |
| ChatServer.TotalOrderBroadcast | src/network.c:90-124 | over every run, what a client has been sent since its welcome is the contiguous stretch of the broadcast log from its acceptance to its removal, so two clients agree on contents and order wherever they overlap |
| ServerTurns.BroadcastExactly | src/network.c:90-124 | exactly the clients to which sending fails are removed; the others have the message behind what they had, the log has it, and nothing else changes |
| ServerTurns.BroadcastSlots | src/network.c:99-123 | the same for the slots with any client excluded |
| ServerTurns.SpeakingSlot | src/network.c:416-424 | in a turn, a ready client that sends a text, with or without a newline, has "client", its number, a colon and the text, or the number of clients, broadcast as one line |
| ServerTurns.LeavingSlot | src/network.c:204-235 | one whose socket is unusable or closed, or sends nothing, is dropped, and nothing is said |
| ServerTurns.QuietSlot | src/network.c:416-424 | one that is not ready changes nothing |
| ServerTurns.TurnBegins | src/network.c:342-425 | a turn is the check, the new connection, and the slots one after the other |
| ServerTurns.OneSpeaks | src/network.c:342-425 | a turn in which one client speaks and nothing else happens is one broadcast of what it said |
| ServerTurns.NothingHappens | src/network.c:342-425 | one in which nothing happens changes nothing |
| ServerTurns.CheckExactly | src/network.c:346-371 | the periodic check frees exactly the occupied slots whose sockets are broken |
| ServerTurns.AcceptExactly | src/network.c:145-188 | a connection takes the first free slot and the next number, or is dropped |
| ServerTurns.EverythingSays | src/network.c:237-244 | whatever is read is some text, up to a final newline or the first NUL |
| ChatServer.TableInvariant | src/network.c:126-271 | over every run the counter is the number of occupied slots and at most 100, live descriptors and live numbers are distinct, and exactly the numbers from 1 to the counter were issued |
| ChatServer.RunOrdered | src/network.c:342-425 | every run of the server loop keeps the table and the delivery invariant |
| ChatServer.RunExtends | src/network.c:342-425 | numbers are issued in increasing order and never again, the log only grows, and what is recorded about a client's arrival and departure never changes |
| ChatServer.BroadcastOrdered | src/network.c:90-124 | one broadcast, with any pattern of failing sends, reaches every client that stays and removes every other, and adds one entry to the log |
| ChatServer.BroadcastAtDelivers | src/network.c:99-123 | one slot's turn: its client now has the message or is gone, the others are as before |
| ChatServer.AcceptedOrdered | src/network.c:145-188 | a new client starts with nothing owed to it, a number never issued before and a slot that was free |
| ChatServer.HandledOrdered | src/network.c:202-271 | data, a closed or an unusable socket all keep the invariant |
| ChatServer.CheckedOrdered | src/network.c:346-371 | the periodic check removes broken clients and keeps the invariant |
| ChatServer.MessagesAreWhole | src/network.c:246-267 | no message is cut by the 4096-character buffer, and the reply to `\connected` carries the number of occupied slots at the moment it is built |
| ChatServer.ServerState.BroadcastMessage | src/network.c:90-124 | the loop over the arrays is the recursive broadcast |
| ChatServer.ServerState.HandleNewConnection | src/network.c:126-194 | the first free slot takes the client, or the connection is dropped; the welcome names its number |
| ChatServer.ServerState.HandleClientData | src/network.c:202-271 | one message is formatted and broadcast to all, sender included; anything else frees the slot |
| ChatServer.ServerState.PeriodicCheck | src/network.c:346-371 | frees exactly the occupied slots whose sockets are broken |
| ChatServer.ServerState.RunTurn | src/network.c:342-425 | one turn of the loop: check, accept, serve, in that order |
| Collapse.CollapseKeeps | src/network.c:728-749 | non-blank characters stay in order, and no tab and no two adjacent spaces remain |
| Collapse.CollapseExactly | src/network.c:728-749 | each run of spaces and tabs, of whatever length, becomes one space, and the rest stays |
| Collapse.NeatIsFixed | src/network.c:728-749 | collapsing leaves a text alone if and only if it has no tab and no two adjacent spaces |
| Collapse.NeatMeans | src/network.c:728-749 | what neatness says at a given position |
| Collapse.CollapseIdempotent | src/network.c:728-749 | collapsing twice is collapsing once |
| Collapse.NormalizeMessage | src/network.c:728-749 | the bounded loop yields the first 4094 characters of the collapse |
| Collapse.NormalizeLine | src/network.c:1116-1144 | the client's loop yields the same collapse, with a newline added if missing; it leaves the buffer if and only if that does not fit |

## Left out

- What the program does after a write has left its buffer: where a buffer can be too small the model stops at that write and says exactly for which inputs it is reached.
- Wall-clock behaviour: the 500 ms for which a foreground pipeline is polled (src/commands.c:824-855) appear only as the possibility that a child is killed at any time after set-up; the composition theorems are about runs in which none is.
- PipelineStreams.PipelineComputesComposition: is about runs in which no `pipe` or `fork` fails and no child is killed; when one of those calls fails nothing is printed (`PipelineFlow.FailedSetupPrintsNothing`), and `PipelineProgress.AnyRunIsBounded` and `PipelineProgress.AnyRunCanGoOn` cover all runs. A command that cannot be executed after wiring is not a stage.
- PipelineStreams.NoDeadlock: is, like `PipelineStreams.SchedulesAreBounded`, about runs in which at most `dup2`s fail, because it asks of commands only that they halt on the input they get; `PipelineProgress.AnyRunCanGoOn` is the form for all runs.
- Stages.BuiltinComputes: the loop of `cat` appears only as a program for the pipeline model; the content of a file does not change while it is read; counters are unbounded integers rather than 32-bit ones.
- Descriptors chosen by `pipe` and `dup`: any free one, where POSIX takes the lowest; the theorems hold for both.
- Shell.ProcessLine: what the main loop does with a command that is not a pipeline or an assignment (src/mysh.c:419 and after) is not modelled, but for `send` and external commands.
- ChatClient.SendExpandsOnce: parsing the port number and the checks for missing arguments are not modelled.
- Jobs.JobsAreConservedFromStart: a reap is an atomic step between steps of the main program; a signal in the middle of a list update is not modelled. `start-server` sets SIGCHLD to ignored (src/network.c:495), so runs are runs without it. The `[id] pid` line printed on registration is left out.
- Redirection.ExecuteExternal: the status word of a foreground command is taken as it is after `waitpid`; if the SIGCHLD handler has reaped the child first, the code reads a variable that was never set.
- ChatServer.TotalOrderBroadcast: a send is whole or fails, one `recv` is one message, and the result of sending the welcome is ignored as in the code; sockets, `select`, `fcntl` and `getsockopt` appear only as outcomes of events.
- `command_exists`, `check_command_exists` and the table of builtins: a set of known names.
- `ls` and its recursive helper, `cd`, `ps`, `kill`, opening files: thin wrappers over the system, or members that would be easy.
- Starting and closing the server process (src/network.c:442-615), host lookup and connecting.
- Allocation failure and freeing, `track_expanded_memory` included: allocation succeeds, and copies are fresh.
- Prompts, error texts and debug logging.
