# wut: the terminal-history pipeline, modelled in Dafny

`wut` explains the last command run in a terminal. Before it asks a language model
anything, `wut/utils.py` turns the raw scrollback of the terminal pane into a
bounded, structured history. This project models that pipeline and proves what it
does:

- `get_shell_name` maps a bare shell name, in any letter case and possibly with an
  extension, to one of the supported shells; a path with directories gives `None`
  (see "## Findings").
- `get_commands` segments the pane text into `Command(text, output)` records,
  using the shell's prompt string to recognise the lines where commands were typed.
- `truncate_commands` trims the commands and their output lines to a token budget.
- `truncate_pane_output` trims the whole pane when no prompt is known.
- `command_to_string`, `build_query` and `get_terminal_context` render the result
  as the text that is sent.

The modules follow the program:

| file | module | what it holds |
|---|---|---|
| wrappers.dfy | `Wrappers` | `Option` |
| text.dfy | `Text` | the Python string and list primitives the code relies on |
| tokens.dfy | `Tokens` | `count_tokens` and `truncate_tokens` over a tokenizer given as a parameter |
| shells.dfy | `Shells` | `get_shell_name`, with `posixpath.splitext` |
| session.dfy | `Session` | `get_commands` |
| truncation.dfy | `Truncation` | `truncate_commands` and `truncate_pane_output` |
| context.dfy | `Context` | `command_to_string`, `build_query` and `get_terminal_context` |

## How the model works

**Loops become methods.** The functions whose source loops and appends are Dafny
methods with the same loops:

- `GetCommands`
- `TruncateCommands`, with its inner loop in `CollectLastLines`
- `TruncatePaneOutput`
- `GetTerminalContext`

Each method is proved equal to a specification function, and the lemmas state
what that function means.

**The session segmenter is specified twice.** `get_commands` scans the pane bottom
to top with a buffer.

- The first specification reads the classified lines top to bottom: `Leading` and
  `Records`.
- The second describes each record by the positions of the prompt lines around
  it: `PromptPositions`, `NextPrompt` and `RecordBetween`.
- `SegmentBetween` and `SegmentLength` connect the two.

**The tokenizer is a parameter.** It is a pair of functions: an encoder from text
to token ids and a decoder back. Nothing else is assumed about it. The two lemmas
that rely on a round trip through it, `Tokens.TruncateTokensWithinBudget` and
`Truncation.FlatHistoryWithinBudget`, take that round trip as a precondition.

**Python semantics** are written out:

- `str.strip` and `str.isspace` use Python's whitespace set.
- Slices with an `int` bound follow Python: a negative bound counts from the end.
- `str.find` gives the leftmost occurrence.
- `str.split(sep, 1)[1]` is what follows the first occurrence of `sep`.

**Edge cases of the code that the model keeps as they are:**

- **Zero or negative budget.** A budget of 0 with `reverse=True` keeps every token,
  because `tokens[-0:]` is the whole list. A negative budget drops tokens from the
  other end instead of keeping none. `Tokens.KeptTokens` states the slice for every
  sign of the budget.
- **Letter case in the prompt.** A line is recognised as a prompt line without
  regard to letter case, but the command text is split on the prompt as written. A
  line that matches the prompt only up to letter case therefore makes
  `split(prompt, 1)[1]` raise. The model takes that crash path as a precondition:
  see `Session.SegmentablePane`.
- **The budget is per item.** `num_tokens` is never increased in
  `truncate_commands`, so each command text and each output line is measured against
  `max_tokens` on its own. `Truncation.BudgetIsPerItem` states it.

## Model

| member | source | states |
|---|---|---|
| Shells.GetShellName | wut/utils.py:45-58 | An absent or empty path gives `None`; any name returned is a member of `SHELLS`. |
| Shells.ShellNameOfPath | wut/utils.py:45-58 | For a non-empty path, the result is the lower-cased root when that is a shell; otherwise the lower-cased whole path when that is a shell; otherwise `None`. |
| Shells.ExtensionIsNeverAShell | wut/utils.py:48-49 | The lower-cased extension is never in `SHELLS`, because it keeps its dot, so the first test never succeeds. |
| Shells.ShellNamesAreLowerCaseWords | wut/utils.py:22 | Every entry of `SHELLS` is non-empty, lower case, and holds neither '.' nor '/'. |
| Shells.SplitExt | wut/utils.py:48-52 | `root + ext` is the path; the extension is empty, or starts with its only '.' and holds no '/'. A non-empty extension is preceded, within the last component, by a character other than '.'. The extension is empty only when every '.' of the last component has only dots before it there, so leading dots never start an extension. |
| Shells.SplitExtUnique | wut/utils.py:48-52 | Any split of the path meeting the contract of `SplitExt` is the split it makes, so the root and extension that `get_shell_name` tests are determined by that contract. |
| Shells.ShellNameWithExtension | wut/utils.py:45-58 | Every shell name is recognised as it is, and also with any extension appended. |
| Shells.FullPathNotRecognised | wut/utils.py:45-58 | `get_shell_name("/bin/zsh")` is `None`. |
| Shells.Basename | wut/utils.py:45-58 | The last path component used by the correction: a suffix of the path with no '/', preceded by a '/' whenever it is shorter than the path. |
| Shells.ShellNameOfBasename | wut/utils.py:45-58 | Corrected version: the same tests applied to the last path component. It agrees with `get_shell_name` on paths with no '/', and any name it returns is a shell. |
| Shells.ShellInDirectoryRecognised | wut/utils.py:45-58 | With the correction, `dir + "/" + s` is recognised as `s` for every shell `s`. |
| Text.Strip | wut/utils.py:163 | The result is empty exactly when the input is blank; otherwise it starts and ends with non-whitespace. |
| Text.StripRemovesOnlySurroundingBlanks | wut/utils.py:167-168 | The input is a blank prefix, then the stripped string, then a blank suffix. |
| Text.IndexFromIsLeftmost | wut/utils.py:166-167 | `find` returns the leftmost occurrence at or after the start, and returns none only when there is no occurrence. |
| Text.AfterFirstOccurrence | wut/utils.py:167 | `split(sep, 1)[1]` is the rest of the string after the leftmost occurrence of `sep`. |
| Text.ContainsOccurs | wut/utils.py:166 | `sub in s` holds exactly when `sub` occurs at some index. |
| Text.SplitLinesJoin | wut/utils.py:194 | Re-joining the split lines gives the text back, less a final line break. |
| Text.SplitJoin | wut/utils.py:187-194 | Splitting undoes joining for lines that hold no line break. |
| Text.SliceTo | wut/utils.py:291 | `xs[:stop]` is a prefix; its length follows Python's rules for positive and negative `stop`. |
| Text.SliceFrom | wut/utils.py:41 | `xs[start:]` is a suffix; its length follows Python's rules for positive and negative `start`. |
| Tokens.CountTokens | wut/utils.py:35-36 | The count is the number of token ids the encoder gives for the text. |
| Tokens.TruncateTokens | wut/utils.py:39-42 | The result decodes a suffix of the text's tokens when reversing and a prefix otherwise. |
| Tokens.KeptTokens | wut/utils.py:38-42 | The exact slice kept for every sign of the budget: `tokens[-max:]` when reversing (all tokens for 0), `tokens[:max]` otherwise. |
| Tokens.TruncateTokensWithinBudget | wut/utils.py:38-42 | When the text fits the budget and the tokenizer gives it back unchanged, truncation leaves the text unchanged in either direction. |
| Session.NonBlank | wut/utils.py:162-164 | The kept lines are exactly the non-blank lines of the pane. |
| Session.NonBlankLine | wut/utils.py:163-164 | A single line is dropped when it is blank and kept otherwise. |
| Session.NonBlankAppend | wut/utils.py:162-164 | Dropping blank lines works piece by piece: on a concatenation it gives the kept lines of the first part, then those of the second, so order and repetitions are preserved. |
| Session.ClassifyAll | wut/utils.py:162-173 | A non-blank line is a prompt line exactly when the lower-cased prompt occurs in the lower-cased line. A prompt line carries the stripped text after the first verbatim occurrence of the prompt; any other line carries its own text. |
| Session.CommandTextAfterFirstPrompt | wut/utils.py:167 | The command text is what follows the first occurrence of the prompt, stripped. |
| Session.PromptPositions | wut/utils.py:166 | The listed positions are prompt lines, in strictly increasing order. |
| Session.PromptPositionsComplete | wut/utils.py:166 | Every prompt line is listed among the prompt positions. |
| Session.NextPrompt | wut/utils.py:166-173 | The lines before the next prompt line are output lines, and the line it stops at is a prompt line. |
| Session.LeadingRunsToNextPrompt | wut/utils.py:168-173 | The buffered output of a record is the run of output lines down to the next prompt line. |
| Session.RecordsByPosition | wut/utils.py:166-170 | There is one record per prompt line, in order; each record is the one for its prompt position. |
| Session.SegmentLength | wut/utils.py:175 | The result has one record fewer than there are prompt lines, and none when there are no prompt lines. |
| Session.SegmentBetween | wut/utils.py:160-175 | The `i`-th record, counted from the newest, is the command typed at the `(i+2)`-th prompt line from the bottom. Its output is the output lines down to the next prompt line, joined and stripped. The bottom-most prompt line has no record. |
| Session.GetCommands | wut/utils.py:156-175 | The bottom-up scan with a buffer returns exactly the segmentation specified top down. |
| Truncation.KeptSuffix | wut/utils.py:186-194 | The kept output lines are a suffix of the output lines in which every line fits the budget. The line just above that suffix does not fit, so it is the longest such suffix. |
| Truncation.TruncatedCommands | wut/utils.py:179-198 | The result is no longer than the input. Each kept command's text fits, and the command is the input command with its output cut to the kept suffix. The first command left out has a text that does not fit. |
| Truncation.FittingPrefix | wut/utils.py:181-184 | The count of leading commands whose texts fit; the next text does not fit. |
| Truncation.CollectLastLines | wut/utils.py:186-192 | The inner loop collects, newest first, exactly the kept suffix for the budget left after `num_tokens`. |
| Truncation.TruncateCommands | wut/utils.py:178-198 | The nested loops with a `num_tokens` that stays 0 compute exactly `TruncatedCommands`. |
| Truncation.BudgetIsPerItem | wut/utils.py:179-195 | When each text and each output line fits on its own, every command is kept with its text and all its output (less a final line break), whatever their total. |
| Truncation.ContentEnd | wut/utils.py:204-209 | Every line after the returned position is blank, and the line just before it is not. |
| Truncation.Scrollback | wut/utils.py:202-211 | The kept lines are a prefix of the pane lines. It is empty when every line is blank. Otherwise it stops just before the last non-blank line, which is the invoking command, and every line after that one is blank. |
| Truncation.ScrollbackIgnoresTrailingBlank | wut/utils.py:204-209 | A blank line at the bottom of the pane does not change what is kept. |
| Truncation.ScrollbackDropsInvokingLine | wut/utils.py:211 | Below a non-blank last line, exactly the lines above it are kept. |
| Truncation.TruncatePaneOutput | wut/utils.py:201-216 | The loop with the `hit_non_empty_line` flag returns the scrollback, joined, cut to its last `max_tokens` tokens and stripped. |
| Truncation.FlatHistoryWithinBudget | wut/utils.py:212-214 | When the scrollback fits the budget and the tokenizer gives it back unchanged, the result is the stripped scrollback. |
| Context.CommandToString | wut/utils.py:219-223 | The rendering starts with the prompt, or "$" when none is known, a space and the command text. The output follows on a new line exactly when it is not blank; nothing follows otherwise. |
| Context.CommandToStringLines | wut/utils.py:219-223 | Read back line by line, a rendered command is its prompt line (with "$" when no prompt is known) followed by its output lines, which are left out when the output is blank. |
| Context.BuildQuery | wut/utils.py:322-326 | The query is the context, a blank line, then a question that is never blank: the caller's when it is not blank, the default one otherwise. |
| Context.KeptHistoryBounds | wut/utils.py:290-291 | At most `max_commands` of the newest commands are kept in history order, and never more than the history holds. Each is truncated on its own. |
| Context.CommandsContextOrder | wut/utils.py:292-306 | The newest kept command is shown as the last command. The others are listed before it, oldest first. |
| Context.GetTerminalContext | wut/utils.py:280-308 | With an empty pane, the fixed "No terminal output found" block. With no prompt, the trimmed pane inside `<terminal_history>`. With a prompt, the assembled block of the kept commands. |

## Left out

- Reading the pane is not modelled. `get_pane_output` starts tmux or screen and uses temporary files, so the captured text is a parameter.
- The process tree, the environment and child shells are not modelled: `get_shell_name_and_path`, `get_shell_prompt`, `get_aliases`, `get_system_context` and `get_shell`. The `Shell` record is a parameter.
- The network clients and the terminal renderer are not modelled: `run_anthropic`, `run_openai`, `get_llm_provider`, `explain` and `format_output`.
- The real tokenizer (`tiktoken`, `cl100k_base`) is a foreign library. It is a parameter, and no encode/decode round trip is assumed of it.
- Text.Lower: lower-cases ASCII letters only, not the rest of Unicode.
- Text.SplitLines: treats '\n' as the only line boundary. Python's `splitlines` also breaks at '\r', form feeds and other Unicode separators.
- Session.GetCommands: it requires `SegmentablePane`. Where a line matches the prompt only up to letter case, or the prompt is empty, the source raises an exception, and that path is not modelled.
- Context.GetTerminalContext: it requires `ContextDefined`. With a prompt, when no command survives segmentation and truncation, the source raises an exception on `commands[-1]`, and that path is not modelled.
- Context.GetTerminalContext: the defaults `max_tokens=4096` and `max_commands=3` are not modelled. Both are ordinary parameters.

## Findings

| source | as written | input that shows it | evidently intended | confidence | as-written member | corrected member |
|---|---|---|---|---|---|---|
| wut/utils.py:45-58 | `get_shell_name` tests the extension, then the `splitext` root, then the whole lower-cased path. The root keeps its directories, and the extension keeps its dot. | `get_shell_name("/bin/zsh")` returns `None`. | Recognise the shell by the last path component, as a shell path such as `$SHELL` is given. | medium, not executed | Shells.FullPathNotRecognised | Shells.ShellNameOfBasename |
