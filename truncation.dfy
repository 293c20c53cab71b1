/**
  The two trimmers of wut/utils.py that bound the history before it is sent:
  `truncate_commands`, which keeps the commands and output lines that each fit the
  token budget on their own, and `truncate_pane_output`, which keeps the scrollback
  above the invoking line and cuts it to its last `max_tokens` tokens.
 */
module Truncation {
  import opened Text
  import opened Tokens
  import opened Session

  /** One piece of text fits the budget by itself. */
  predicate Fits(tok: Tokenizer, s: string, maxTokens: int) {
    CountTokens(tok, s) <= maxTokens
  }

  /**
    The longest suffix of `lines` whose every line fits the budget: what the inner
    loop of `truncate_commands` keeps of a command's output.
   */
  function KeptSuffix(tok: Tokenizer, lines: seq<string>, maxTokens: int): (r: seq<string>)
    ensures |r| <= |lines| && r == lines[|lines| - |r|..]
    ensures forall k | 0 <= k < |r| :: Fits(tok, r[k], maxTokens)
    ensures |r| < |lines| ==> !Fits(tok, lines[|lines| - |r| - 1], maxTokens)
  {
    if lines == [] || !Fits(tok, lines[|lines| - 1], maxTokens) then []
    else
      var r := KeptSuffix(tok, lines[..|lines| - 1], maxTokens) + [lines[|lines| - 1]];
      assert r == lines[|lines| - |r|..];
      r
  }

  /** A command with its output cut down to the lines that `truncate_commands` keeps. */
  function TruncateCommand(tok: Tokenizer, c: Command, maxTokens: int): Command {
    Command(c.text, Join(KeptSuffix(tok, SplitLines(c.output), maxTokens)))
  }

  /** How many leading commands have a text that fits the budget. */
  function FittingPrefix(tok: Tokenizer, cmds: seq<Command>, maxTokens: int): (n: nat)
    ensures n <= |cmds|
    ensures forall k | 0 <= k < n :: Fits(tok, cmds[k].text, maxTokens)
    ensures n < |cmds| ==> !Fits(tok, cmds[n].text, maxTokens)
  {
    if cmds == [] || !Fits(tok, cmds[0].text, maxTokens) then 0
    else 1 + FittingPrefix(tok, cmds[1..], maxTokens)
  }

  /**
    The result of `truncate_commands`: the commands up to the first whose text does
    not fit the budget, each with its output cut down. `num_tokens` never grows in
    the source, so every text and every output line is measured on its own.
   */
  function TruncatedCommands(tok: Tokenizer, cmds: seq<Command>, maxTokens: int): (r: seq<Command>)
    ensures |r| <= |cmds|
    ensures forall k | 0 <= k < |r| :: Fits(tok, cmds[k].text, maxTokens) && r[k] == TruncateCommand(tok, cmds[k], maxTokens)
    ensures |r| < |cmds| ==> !Fits(tok, cmds[|r|].text, maxTokens)
  {
    var n := FittingPrefix(tok, cmds, maxTokens);
    seq(n, k requires 0 <= k < n => TruncateCommand(tok, cmds[k], maxTokens))
  }

  /**
    The inner loop of `truncate_commands`: walk a command's output lines from the
    bottom up while `line_tokens + num_tokens` stays within the budget, collecting
    them newest first.
   */
  method CollectLastLines(tok: Tokenizer, lines: seq<string>, numTokens: int, maxTokens: int)
    returns (output: seq<string>)
    ensures output == Reverse(KeptSuffix(tok, lines, maxTokens - numTokens))
  {
    ghost var kept := KeptSuffix(tok, lines, maxTokens - numTokens);
    output := [];
    var j := |lines|;
    while j > 0
      invariant |lines| - |kept| <= j <= |lines|
      invariant output == Reverse(lines[j..])
    {
      var line := lines[j - 1];
      var lineTokens := CountTokens(tok, line);
      if lineTokens + numTokens > maxTokens {
        break;
      }
      SuffixCons(lines, j - 1);
      ReversePrepend(line, lines[j..]);
      output := output + [line];
      j := j - 1;
    }
    assert j == |lines| - |kept|;
  }

  /** `truncate_commands(commands, max_tokens)` */
  method TruncateCommands(tok: Tokenizer, commands: seq<Command>, maxTokens: int) returns (truncated: seq<Command>)
    ensures truncated == TruncatedCommands(tok, commands, maxTokens)
  {
    ghost var result := TruncatedCommands(tok, commands, maxTokens);
    var numTokens := 0;
    truncated := [];
    var i := 0;
    while i < |commands|
      invariant 0 <= i <= |result|
      invariant truncated == result[..i]
    {
      var command := commands[i];
      var commandTokens := CountTokens(tok, command.text);
      if commandTokens + numTokens > maxTokens {
        assert |result| == i;
        break;
      }
      assert i < |result| && result[i] == TruncateCommand(tok, command, maxTokens);
      var output := CollectLastLines(tok, SplitLines(command.output), numTokens, maxTokens);
      ReverseReverse(KeptSuffix(tok, SplitLines(command.output), maxTokens));
      assert Reverse(output) == KeptSuffix(tok, SplitLines(command.output), maxTokens);
      assert Command(command.text, Join(Reverse(output))) == result[i];
      PrefixSnoc(result, i);
      truncated := truncated + [Command(command.text, Join(Reverse(output)))];
      i := i + 1;
    }
    assert result == result[..i];
  }

  /**
    The budget applies to each text and each output line on its own: when each of
    them fits, every command is kept with all of its output (less a final line
    break), however many tokens they come to together.
   */
  lemma BudgetIsPerItem(tok: Tokenizer, cmds: seq<Command>, maxTokens: int)
    requires forall k | 0 <= k < |cmds| :: Fits(tok, cmds[k].text, maxTokens)
    requires forall k, l | 0 <= k < |cmds| && 0 <= l < |SplitLines(cmds[k].output)| ::
      Fits(tok, SplitLines(cmds[k].output)[l], maxTokens)
    ensures var r := TruncatedCommands(tok, cmds, maxTokens);
      && |r| == |cmds|
      && forall k | 0 <= k < |cmds| ::
        && r[k].text == cmds[k].text
        && r[k].output + (if EndsWithLineBreak(cmds[k].output) then "\n" else "") == cmds[k].output
  {
    var r := TruncatedCommands(tok, cmds, maxTokens);
    forall k | 0 <= k < |cmds|
      ensures r[k].text == cmds[k].text
      ensures r[k].output + (if EndsWithLineBreak(cmds[k].output) then "\n" else "") == cmds[k].output
    {
      var lines := SplitLines(cmds[k].output);
      assert KeptSuffix(tok, lines, maxTokens) == lines;
      SplitLinesJoin(cmds[k].output);
    }
  }

  /** One past the last non-blank line, or 0 when every line is blank. */
  function ContentEnd(lines: seq<string>): (e: nat)
    ensures e <= |lines|
    ensures forall k | e <= k < |lines| :: IsBlank(lines[k])
    ensures e > 0 ==> !IsBlank(lines[e - 1])
  {
    if lines == [] then 0
    else if !IsBlank(lines[|lines| - 1]) then |lines|
    else ContentEnd(lines[..|lines| - 1])
  }

  /**
    The lines `truncate_pane_output` keeps: everything above the last non-blank
    line, which is the invoking command; nothing when every line is blank.
   */
  function Scrollback(lines: seq<string>): (r: seq<string>)
    ensures |r| <= |lines| && r == lines[..|r|]
    ensures (forall k | 0 <= k < |lines| :: IsBlank(lines[k])) ==> r == []
    ensures (exists k | 0 <= k < |lines| :: !IsBlank(lines[k])) ==>
      && |r| < |lines|
      && !IsBlank(lines[|r|])
      && forall k | |r| < k < |lines| :: IsBlank(lines[k])
  {
    var e := ContentEnd(lines);
    if e == 0 then [] else lines[..e - 1]
  }

  /** The result of `truncate_pane_output(output, max_tokens)`. */
  function FlatHistory(tok: Tokenizer, output: string, maxTokens: int): string {
    Strip(TruncateTokens(tok, Join(Scrollback(SplitLines(output))), maxTokens, true))
  }

  /** A blank line at the bottom of the pane does not change what is kept. */
  lemma ScrollbackIgnoresTrailingBlank(lines: seq<string>, blank: string)
    requires IsBlank(blank)
    ensures Scrollback(lines + [blank]) == Scrollback(lines)
  {
    assert (lines + [blank])[..|lines|] == lines;
  }

  /** Below a non-blank invoking line, exactly the lines above it are kept. */
  lemma ScrollbackDropsInvokingLine(lines: seq<string>, invoking: string)
    requires !IsBlank(invoking)
    ensures Scrollback(lines + [invoking]) == lines
  {
    assert (lines + [invoking])[..|lines|] == lines;
  }

  /**
    When the tokenizer gives back the kept scrollback unchanged and it fits the
    budget, `truncate_pane_output` returns that scrollback, stripped.
   */
  lemma FlatHistoryWithinBudget(tok: Tokenizer, output: string, maxTokens: int)
    requires tok.decode(tok.encode(Join(Scrollback(SplitLines(output))))) == Join(Scrollback(SplitLines(output)))
    requires CountTokens(tok, Join(Scrollback(SplitLines(output)))) <= maxTokens
    ensures FlatHistory(tok, output, maxTokens) == Strip(Join(Scrollback(SplitLines(output))))
  {
    TruncateTokensWithinBudget(tok, Join(Scrollback(SplitLines(output))), maxTokens, true);
  }

  /** `truncate_pane_output(output, max_tokens)`, scanning the lines from the bottom up. */
  method TruncatePaneOutput(tok: Tokenizer, output: string, maxTokens: int) returns (result: string)
    ensures result == FlatHistory(tok, output, maxTokens)
  {
    var all := SplitLines(output);
    ghost var e := ContentEnd(all);
    var hitNonEmptyLine := false;
    var lines: seq<string> := [];  // newest to oldest
    var i := |all|;
    while i > 0
      invariant 0 <= i <= |all|
      invariant hitNonEmptyLine <==> i < e
      invariant hitNonEmptyLine ==> lines == [all[e - 1]] + Reverse(all[i..e - 1])
      invariant !hitNonEmptyLine ==> lines == []
    {
      i := i - 1;
      var line := all[i];
      if line != [] && Strip(line) != [] {
        hitNonEmptyLine := true;
      }
      if hitNonEmptyLine {
        if i < e - 1 {
          SuffixCons(all[..e - 1], i);
          assert all[..e - 1][i..] == all[i..e - 1] && all[..e - 1][i + 1..] == all[i + 1..e - 1];
          ReversePrepend(line, all[i + 1..e - 1]);
        }
        lines := lines + [line];
      }
    }
    var rest := if lines == [] then [] else lines[1..];
    assert rest == Reverse(Scrollback(all));
    ReverseReverse(Scrollback(all));
    var joined := Join(Reverse(rest));
    result := Strip(TruncateTokens(tok, joined, maxTokens, true));
  }
}
