/**
  The renderers of wut/utils.py: `command_to_string`, `build_query` and the
  string assembly of `get_terminal_context`. The pane text that
  `get_pane_output` captures is a parameter here; so is the tokenizer.
 */
module Context {
  import opened Wrappers
  import opened Text
  import opened Tokens
  import opened Session
  import opened Truncation

  const NO_TERMINAL_OUTPUT: string := "<terminal_history>No terminal output found.</terminal_history>"

  const DEFAULT_QUERY: string :=
    "Explain the last command's output. "
    + "Use the previous commands as context, if relevant, but focus on the last command."

  /** The `Shell` record; any of its fields may be missing. */
  datatype Shell = Shell(path: Option<string>, name: Option<string>, prompt: Option<string>)

  /** The prompt is given and non-empty (Python truthiness). */
  predicate HasPrompt(prompt: Option<string>) {
    prompt.Some? && prompt.value != []
  }

  /** `shell_prompt if shell_prompt else "$"` */
  function PromptOrDollar(prompt: Option<string>): string {
    if HasPrompt(prompt) then prompt.value else "$"
  }

  /** `command_to_string(command, shell_prompt)` */
  function CommandToString(c: Command, prompt: Option<string>): (r: string)
    ensures var header := (if HasPrompt(prompt) then prompt.value else "$") + " " + c.text;
      && |r| >= |header| && r[..|header|] == header
      && (IsBlank(c.output) ==> r == header)
      && (!IsBlank(c.output) ==> r[|header|..] == "\n" + c.output)
  {
    var header := PromptOrDollar(prompt) + " " + c.text;
    if Strip(c.output) != [] then header + "\n" + c.output else header
  }

  /**
    Read back line by line, a rendered command is its prompt line (with "$" when
    no prompt is known) followed by the lines of its output, which are left out
    when the output is blank.
   */
  lemma CommandToStringLines(c: Command, prompt: Option<string>)
    requires HasPrompt(prompt) ==> '\n' !in prompt.value
    requires '\n' !in c.text
    ensures SplitLines(CommandToString(c, prompt)) ==
      [(if HasPrompt(prompt) then prompt.value else "$") + " " + c.text]
      + (if IsBlank(c.output) then [] else SplitLines(c.output))
  {
    var header := PromptOrDollar(prompt) + " " + c.text;
    assert '\n' !in header;
    if IsBlank(c.output) {
      SplitLinesOfLineFree(header);
    } else {
      SplitLinesAfterLine(header, c.output);
    }
  }

  /**
    `build_query(context, query)`: the context, a blank line, then the question,
    which is the caller's when it is not blank and the default one otherwise; the
    question that follows is never blank.
   */
  function BuildQuery(context: string, query: Option<string>): (r: string)
    ensures |r| >= |context| + 2 && r[..|context|] == context && r[|context|..|context| + 2] == "\n\n"
    ensures !IsBlank(r[|context| + 2..])
    ensures query.Some? && !IsBlank(query.value) ==> r[|context| + 2..] == query.value
    ensures query.None? || IsBlank(query.value) ==> r[|context| + 2..] == DEFAULT_QUERY
  {
    assert DEFAULT_QUERY[0] == 'E' && !IsSpace(DEFAULT_QUERY[0]);
    var q := if query.Some? && Strip(query.value) != [] then query.value else DEFAULT_QUERY;
    var r := context + "\n\n" + q;
    assert r[|context| + 2..] == q;
    r
  }

  /** The rendering of each command, in the same order. */
  function Rendered(cs: seq<Command>, prompt: Option<string>): (r: seq<string>)
    ensures |r| == |cs|
    ensures forall j | 0 <= j < |cs| :: r[j] == CommandToString(cs[j], prompt)
  {
    seq(|cs|, j requires 0 <= j < |cs| => CommandToString(cs[j], prompt))
  }

  /** The commands that prompt mode renders, newest first. */
  function KeptHistory(tok: Tokenizer, pane: string, prompt: string, maxTokens: int, maxCommands: int): seq<Command>
    requires SegmentablePane(pane, prompt)
  {
    TruncatedCommands(tok, SliceTo(Segment(pane, prompt), maxCommands), maxTokens)
  }

  /**
    Prompt mode keeps at most `max_commands` of the newest commands, in the order
    of the history, each truncated on its own.
   */
  lemma KeptHistoryBounds(tok: Tokenizer, pane: string, prompt: string, maxTokens: int, maxCommands: int)
    requires SegmentablePane(pane, prompt)
    ensures |KeptHistory(tok, pane, prompt, maxTokens, maxCommands)| <= |Segment(pane, prompt)|
    ensures maxCommands >= 0 ==> |KeptHistory(tok, pane, prompt, maxTokens, maxCommands)| <= maxCommands
    ensures forall k | 0 <= k < |KeptHistory(tok, pane, prompt, maxTokens, maxCommands)| ::
      KeptHistory(tok, pane, prompt, maxTokens, maxCommands)[k] == TruncateCommand(tok, Segment(pane, prompt)[k], maxTokens)
  {
    var history := Segment(pane, prompt);
    var sliced := SliceTo(history, maxCommands);
    var kept := TruncatedCommands(tok, sliced, maxTokens);
    assert forall k | 0 <= k < |sliced| :: sliced[k] == history[k];
  }

  /** The prompt-mode history block for the kept commands, listed newest first. */
  function CommandsContext(kept: seq<Command>, prompt: Option<string>): string
    requires kept != []
  {
    var ordered := Reverse(kept);
    var previousCommands := ordered[..|ordered| - 1];
    var lastCommand := ordered[|ordered| - 1];
    "<terminal_history>\n" + "<previous_commands>\n" + Join(Rendered(previousCommands, prompt))
    + "\n</previous_commands>\n" + "\n<last_command>\n" + CommandToString(lastCommand, prompt)
    + "\n</last_command>" + "\n</terminal_history>"
  }

  /**
    The newest kept command is the one shown as the last command; the others are
    listed before it, oldest first.
   */
  lemma CommandsContextOrder(kept: seq<Command>, prompt: Option<string>)
    requires kept != []
    ensures CommandsContext(kept, prompt) ==
      "<terminal_history>\n" + "<previous_commands>\n" + Join(Rendered(Reverse(kept[1..]), prompt))
      + "\n</previous_commands>\n" + "\n<last_command>\n" + CommandToString(kept[0], prompt)
      + "\n</last_command>" + "\n</terminal_history>"
  {
    var ordered := Reverse(kept);
    assert ordered == Reverse(kept[1..]) + [kept[0]];
    assert ordered[..|ordered| - 1] == Reverse(kept[1..]);
  }

  /** What prompt mode needs to finish: the split succeeds and at least one command is kept. */
  predicate ContextDefined(tok: Tokenizer, shell: Shell, pane: string, maxTokens: int, maxCommands: int) {
    pane != [] && HasPrompt(shell.prompt) ==>
      && SegmentablePane(pane, shell.prompt.value)
      && KeptHistory(tok, pane, shell.prompt.value, maxTokens, maxCommands) != []
  }

  /**
    `get_terminal_context(shell, max_tokens, max_commands)` over the captured pane
    text, building the answer piece by piece.
   */
  method GetTerminalContext(tok: Tokenizer, shell: Shell, paneOutput: string, maxTokens: int, maxCommands: int)
    returns (context: string)
    requires ContextDefined(tok, shell, paneOutput, maxTokens, maxCommands)
    ensures paneOutput == [] ==> context == NO_TERMINAL_OUTPUT
    ensures paneOutput != [] && !HasPrompt(shell.prompt) ==>
      context == "<terminal_history>\n" + FlatHistory(tok, paneOutput, maxTokens) + "\n</terminal_history>"
    ensures paneOutput != [] && HasPrompt(shell.prompt) ==>
      context == CommandsContext(KeptHistory(tok, paneOutput, shell.prompt.value, maxTokens, maxCommands), shell.prompt)
  {
    if paneOutput == [] {
      return NO_TERMINAL_OUTPUT;
    }
    if !HasPrompt(shell.prompt) {
      var history := TruncatePaneOutput(tok, paneOutput, maxTokens);
      context := "<terminal_history>\n" + history + "\n</terminal_history>";
    } else {
      var commands := GetCommands(paneOutput, shell.prompt.value);
      commands := TruncateCommands(tok, SliceTo(commands, maxCommands), maxTokens);
      commands := Reverse(commands);  // oldest to newest
      var previousCommands := commands[..|commands| - 1];
      var lastCommand := commands[|commands| - 1];
      context := "<terminal_history>\n";
      context := context + "<previous_commands>\n";
      context := context + Join(Rendered(previousCommands, shell.prompt));
      context := context + "\n</previous_commands>\n";
      context := context + "\n<last_command>\n";
      context := context + CommandToString(lastCommand, shell.prompt);
      context := context + "\n</last_command>";
      context := context + "\n</terminal_history>";
    }
  }
}
