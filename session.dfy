/**
  The session segmenter `get_commands` of wut/utils.py: it splits captured pane
  text into `Command(text, output)` records, using the shell's prompt string to
  recognise the lines where a command was typed.

  Blank lines are skipped; every other line is read either as a prompt line,
  carrying the command typed after the prompt, or as an output line. The
  segmentation of those classified lines is specified twice: `Leading` and
  `Records` follow the lines top to bottom, one line at a time, while
  `PromptPositions`, `NextPrompt` and `RecordBetween` describe each record by the
  positions of the prompt lines around it. The lemmas connect the two, and the
  method `GetCommands` scans the pane bottom to top as the source does.
 */
module Session {
  import opened Text

  datatype Command = Command(text: string, output: string)

  /** A non-blank pane line, as `get_commands` reads it. */
  datatype Line = PromptLine(command: string) | OutputLine(text: string)

  /** `prompt.lower() in line.lower()` */
  predicate IsPromptLine(line: string, prompt: string) {
    Contains(Lower(line), Lower(prompt))
  }

  /** `line.split(prompt, 1)[1]` exists: the prompt is non-empty and occurs verbatim. */
  predicate Splits(line: string, prompt: string) {
    prompt != [] && Contains(line, prompt)
  }

  /** `line.split(prompt, 1)[1].strip()`: the typed command. */
  function CommandText(line: string, prompt: string): string
    requires Splits(line, prompt)
  {
    Strip(AfterFirst(line, prompt))
  }

  /** Each prompt line in `lines` splits on the prompt. */
  predicate PromptLinesSplit(lines: seq<string>, prompt: string) {
    forall l | l in lines && IsPromptLine(l, prompt) :: Splits(l, prompt)
  }

  /**
    What `get_commands` needs of its input to finish: every non-blank line that
    matches the prompt up to letter case holds the prompt verbatim.
   */
  predicate SegmentablePane(pane: string, prompt: string) {
    forall l | l in SplitLines(pane) && !IsBlank(l) && IsPromptLine(l, prompt) :: Splits(l, prompt)
  }

  /** The non-blank lines, in order. */
  function NonBlank(lines: seq<string>): (r: seq<string>)
    ensures |r| <= |lines|
    ensures forall l | l in r :: l in lines && !IsBlank(l)
    ensures forall l | l in lines && !IsBlank(l) :: l in r
  {
    if lines == [] then []
    else (if IsBlank(lines[0]) then [] else [lines[0]]) + NonBlank(lines[1..])
  }

  /** A single line is dropped when it is blank and kept otherwise. */
  lemma NonBlankLine(line: string)
    ensures NonBlank([line]) == if IsBlank(line) then [] else [line]
  {
    assert [line][1..] == [];
  }

  /** Dropping blank lines from a concatenation drops them from each part, in order. */
  lemma {:induction false} NonBlankAppend(a: seq<string>, b: seq<string>)
    ensures NonBlank(a + b) == NonBlank(a) + NonBlank(b)
  {
    if a == [] {
      assert a + b == b;
    } else {
      assert (a + b)[0] == a[0] && (a + b)[1..] == a[1..] + b;
      NonBlankAppend(a[1..], b);
    }
  }

  /** How `get_commands` reads one line. */
  function Classify(line: string, prompt: string): Line
    requires IsPromptLine(line, prompt) ==> Splits(line, prompt)
  {
    if IsPromptLine(line, prompt) then PromptLine(CommandText(line, prompt)) else OutputLine(line)
  }

  /**
    The lines classified one by one: a prompt line carries the command typed
    after the prompt, any other line its own text.
   */
  function ClassifyAll(lines: seq<string>, prompt: string): (ls: seq<Line>)
    requires PromptLinesSplit(lines, prompt)
    ensures |ls| == |lines|
    ensures forall k | 0 <= k < |ls| :: ls[k].PromptLine? <==> IsPromptLine(lines[k], prompt)
    ensures forall k | 0 <= k < |ls| && ls[k].PromptLine? ::
      Splits(lines[k], prompt) && ls[k].command == CommandText(lines[k], prompt)
    ensures forall k | 0 <= k < |ls| && ls[k].OutputLine? :: ls[k].text == lines[k]
  {
    if lines == [] then []
    else
      assert forall l | l in lines[1..] :: l in lines;
      [Classify(lines[0], prompt)] + ClassifyAll(lines[1..], prompt)
  }

  lemma SegmentablePaneSplits(pane: string, prompt: string)
    requires SegmentablePane(pane, prompt)
    ensures PromptLinesSplit(NonBlank(SplitLines(pane)), prompt)
  {
  }

  /** The non-blank lines of the pane, classified. */
  function PaneLines(pane: string, prompt: string): seq<Line>
    requires SegmentablePane(pane, prompt)
  {
    SegmentablePaneSplits(pane, prompt);
    ClassifyAll(NonBlank(SplitLines(pane)), prompt)
  }

  /** The texts of a run of output lines. */
  function Texts(ls: seq<Line>): (ts: seq<string>)
    requires forall k | 0 <= k < |ls| :: ls[k].OutputLine?
    ensures |ts| == |ls|
    ensures forall k | 0 <= k < |ls| :: ts[k] == ls[k].text
  {
    if ls == [] then [] else [ls[0].text] + Texts(ls[1..])
  }

  /** The texts of the output lines before the first prompt line. */
  function Leading(ls: seq<Line>): seq<string> {
    if ls == [] || ls[0].PromptLine? then []
    else [ls[0].text] + Leading(ls[1..])
  }

  /** One record per prompt line, oldest first; the lines before the first prompt line belong to none. */
  function Records(ls: seq<Line>): seq<Command> {
    if ls == [] then []
    else
      (if ls[0].PromptLine? then [Command(ls[0].command, Strip(Join(Leading(ls[1..]))))] else [])
      + Records(ls[1..])
  }

  /** The records newest first, without the newest one. */
  function SegmentLines(ls: seq<Line>): seq<Command> {
    var newestFirst := Reverse(Records(ls));
    if newestFirst == [] then [] else newestFirst[1..]
  }

  /** The result of `get_commands`. */
  function Segment(pane: string, prompt: string): seq<Command>
    requires SegmentablePane(pane, prompt)
  {
    SegmentLines(PaneLines(pane, prompt))
  }

  /** The indices of the prompt lines at or after `i`, in increasing order. */
  function PromptPositions(ls: seq<Line>, i: nat): (ps: seq<nat>)
    requires i <= |ls|
    decreases |ls| - i
    ensures forall k | 0 <= k < |ps| :: i <= ps[k] < |ls| && ls[ps[k]].PromptLine?
    ensures forall a, b | 0 <= a < b < |ps| :: ps[a] < ps[b]
  {
    if i == |ls| then []
    else (if ls[i].PromptLine? then [i] else []) + PromptPositions(ls, i + 1)
  }

  /** Every prompt line at or after `i` is listed among the prompt positions. */
  lemma {:induction false} PromptPositionsComplete(ls: seq<Line>, i: nat, p: nat)
    requires i <= p < |ls| && ls[p].PromptLine?
    decreases |ls| - i
    ensures p in PromptPositions(ls, i)
  {
    if i < p {
      PromptPositionsComplete(ls, i + 1, p);
    }
  }

  /** The index of the first prompt line at or after `i`, or `|ls|` when there is none. */
  function NextPrompt(ls: seq<Line>, i: nat): (n: nat)
    requires i <= |ls|
    decreases |ls| - i
    ensures i <= n <= |ls|
    ensures forall k | i <= k < n :: ls[k].OutputLine?
    ensures n < |ls| ==> ls[n].PromptLine?
  {
    if i == |ls| || ls[i].PromptLine? then i else NextPrompt(ls, i + 1)
  }

  /**
    The record of the prompt line at `p` whose output ends before line `q`: the
    command typed after the prompt, and the output lines strictly between, joined
    and stripped.
   */
  function RecordBetween(ls: seq<Line>, p: nat, q: nat): Command
    requires p < q <= |ls| && ls[p].PromptLine?
    requires forall k | p < k < q :: ls[k].OutputLine?
  {
    Command(ls[p].command, Strip(Join(Texts(ls[p + 1..q]))))
  }

  /** The record of the prompt line at `p`: its output runs up to the next prompt line. */
  function RecordAt(ls: seq<Line>, p: nat): Command
    requires p < |ls| && ls[p].PromptLine?
  {
    RecordBetween(ls, p, NextPrompt(ls, p + 1))
  }

  /** The command text is what follows the first verbatim occurrence of the prompt, stripped. */
  lemma CommandTextAfterFirstPrompt(line: string, prompt: string, k: nat)
    requires prompt != [] && OccursAt(line, prompt, k)
    requires forall j | 0 <= j < k :: !OccursAt(line, prompt, j)
    ensures Splits(line, prompt)
    ensures CommandText(line, prompt) == Strip(line[k + |prompt|..])
  {
    AfterFirstOccurrence(line, prompt, k);
  }

  lemma {:induction false} LeadingRunsToNextPrompt(ls: seq<Line>, i: nat)
    requires i <= |ls|
    decreases |ls| - i
    ensures Leading(ls[i..]) == Texts(ls[i..NextPrompt(ls, i)])
  {
    if i < |ls| && ls[i].OutputLine? {
      LeadingRunsToNextPrompt(ls, i + 1);
      assert ls[i..][1..] == ls[i + 1..];
      assert ls[i..NextPrompt(ls, i)][1..] == ls[i + 1..NextPrompt(ls, i + 1)];
    }
  }

  /** The records of `ls[i..]` are, in order, the records of its prompt lines. */
  lemma {:induction false} RecordsByPosition(ls: seq<Line>, i: nat)
    requires i <= |ls|
    decreases |ls| - i
    ensures |Records(ls[i..])| == |PromptPositions(ls, i)|
    ensures forall j | 0 <= j < |PromptPositions(ls, i)| ::
      Records(ls[i..])[j] == RecordAt(ls, PromptPositions(ls, i)[j])
  {
    if i < |ls| {
      RecordsByPosition(ls, i + 1);
      RecordsStep(ls, i);
      var ps, rest := PromptPositions(ls, i), PromptPositions(ls, i + 1);
      var recs, below := Records(ls[i..]), Records(ls[i + 1..]);
      if ls[i].PromptLine? {
        assert ps == [i] + rest;
        assert recs == [RecordAt(ls, i)] + below;
        forall j | 0 <= j < |ps|
          ensures recs[j] == RecordAt(ls, ps[j])
        {
          if j > 0 {
            assert recs[j] == below[j - 1] && ps[j] == rest[j - 1];
          }
        }
      } else {
        assert ps == rest && recs == below;
        assert forall j | 0 <= j < |ps| :: recs[j] == RecordAt(ls, ps[j]);
      }
    }
  }

  /** The records of `ls[i..]`: the record of line `i` if it is a prompt line, then those below. */
  lemma RecordsStep(ls: seq<Line>, i: nat)
    requires i < |ls|
    ensures ls[i].PromptLine? ==> Records(ls[i..]) == [RecordAt(ls, i)] + Records(ls[i + 1..])
    ensures ls[i].OutputLine? ==> Records(ls[i..]) == Records(ls[i + 1..])
  {
    assert ls[i..][1..] == ls[i + 1..];
    if ls[i].PromptLine? {
      LeadingRunsToNextPrompt(ls, i + 1);
    }
  }

  /** In a strictly increasing sequence, a member above the `j`-th element is at least the next one. */
  lemma IncreasingSuccessor(ps: seq<nat>, j: nat, x: nat)
    requires forall a, b | 0 <= a < b < |ps| :: ps[a] < ps[b]
    requires j + 1 < |ps| && ps[j] < x && x in ps
    ensures ps[j + 1] <= x
  {
    var m :| 0 <= m < |ps| && ps[m] == x;
    assert forall a | 0 <= a <= j :: ps[a] <= ps[j];
    assert j < m;
    assert ps[j + 1] <= ps[m];
  }

  /** Below a prompt line, the next prompt line is the next prompt position. */
  lemma NextPromptIsNextPosition(ls: seq<Line>, ps: seq<nat>, j: nat)
    requires ps == PromptPositions(ls, 0)
    requires j + 1 < |ps|
    ensures ps[j] + 1 <= |ls| && NextPrompt(ls, ps[j] + 1) == ps[j + 1]
  {
    var n := NextPrompt(ls, ps[j] + 1);
    if n < |ls| {
      PromptPositionsComplete(ls, 0, n);
    }
    NextPromptAmong(ls, ps, j);
  }

  /** `NextPromptIsNextPosition` for any increasing sequence of prompt positions that lists the next one. */
  lemma NextPromptAmong(ls: seq<Line>, ps: seq<nat>, j: nat)
    requires forall k | 0 <= k < |ps| :: ps[k] < |ls| && ls[ps[k]].PromptLine?
    requires forall a, b | 0 <= a < b < |ps| :: ps[a] < ps[b]
    requires j + 1 < |ps|
    requires ps[j] + 1 <= |ls| && NextPrompt(ls, ps[j] + 1) < |ls| ==> NextPrompt(ls, ps[j] + 1) in ps
    ensures ps[j] + 1 <= |ls| && NextPrompt(ls, ps[j] + 1) == ps[j + 1]
  {
    var n := NextPrompt(ls, ps[j] + 1);
    assert ps[j] < ps[j + 1] && ls[ps[j + 1]].PromptLine?;
    if n < |ls| {
      IncreasingSuccessor(ps, j, n);
    }
  }

  /** The length of the segmentation: one record fewer than there are prompt lines. */
  lemma SegmentLength(ls: seq<Line>)
    ensures var ps := PromptPositions(ls, 0);
      |SegmentLines(ls)| == if |ps| == 0 then 0 else |ps| - 1
  {
    RecordsByPosition(ls, 0);
    assert ls[0..] == ls;
  }

  /** The `j`-th record, oldest first, is the record of the `j`-th prompt line. */
  lemma RecordsAt(ls: seq<Line>, ps: seq<nat>, j: nat)
    requires ps == PromptPositions(ls, 0)
    requires j < |ps|
    ensures |Records(ls)| == |ps|
    ensures Records(ls)[j] == RecordAt(ls, ps[j])
  {
    RecordsByPosition(ls, 0);
    assert ls[0..] == ls;
  }

  /**
    The `i`-th record of the segmentation, counted from the newest, belongs to the
    prompt line at the `i + 2`-th prompt position from the bottom: it holds the
    command typed there and the output lines down to the next prompt line. With
    `SegmentLength`, the bottom-most prompt line is the only one without a record,
    and output lines above the first prompt line belong to none.
   */
  lemma SegmentBetween(ls: seq<Line>, ps: seq<nat>, i: nat)
    requires ps == PromptPositions(ls, 0)
    requires i < |SegmentLines(ls)|
    ensures i + 2 <= |ps|
    ensures ps[|ps| - 2 - i] < ps[|ps| - 1 - i] <= |ls|
    ensures forall k | ps[|ps| - 2 - i] < k < ps[|ps| - 1 - i] :: ls[k].OutputLine?
    ensures SegmentLines(ls)[i] == RecordBetween(ls, ps[|ps| - 2 - i], ps[|ps| - 1 - i])
  {
    SegmentLength(ls);
    var j := |ps| - 2 - i;
    RecordsAt(ls, ps, j);
    NextPromptIsNextPosition(ls, ps, j);
    assert j + 1 == |ps| - 1 - i;
    var recs := Records(ls);
    assert SegmentLines(ls)[i] == Reverse(recs)[i + 1] == recs[j];
    assert recs[j] == RecordBetween(ls, ps[j], ps[j + 1]);
  }

  /** Dropping blank lines, one line at a time. */
  lemma NonBlankStep(lines: seq<string>, i: nat)
    requires i < |lines|
    ensures NonBlank(lines[i..]) == (if IsBlank(lines[i]) then [] else [lines[i]]) + NonBlank(lines[i + 1..])
  {
    assert lines[i..][1..] == lines[i + 1..];
  }

  /** Classifying, one line at a time. */
  lemma ClassifyPrepend(line: string, below: seq<string>, prompt: string)
    requires PromptLinesSplit([line] + below, prompt)
    ensures IsPromptLine(line, prompt) ==> Splits(line, prompt)
    ensures PromptLinesSplit(below, prompt)
    ensures ClassifyAll([line] + below, prompt) == [Classify(line, prompt)] + ClassifyAll(below, prompt)
  {
    assert line in [line] + below;
    assert ([line] + below)[1..] == below;
  }

  /** The records and the leading output lines, one line at a time. */
  lemma RecordsPrepend(first: Line, rest: seq<Line>)
    ensures Leading([first] + rest) == if first.PromptLine? then [] else [first.text] + Leading(rest)
    ensures Records([first] + rest) ==
      (if first.PromptLine? then [Command(first.command, Strip(Join(Leading(rest))))] else []) + Records(rest)
  {
    assert ([first] + rest)[1..] == rest;
  }

  /** `get_commands(pane_output, shell)`, scanning the pane from the bottom up. */
  method GetCommands(pane: string, prompt: string) returns (commands: seq<Command>)
    requires SegmentablePane(pane, prompt)
    ensures commands == Segment(pane, prompt)
  {
    var lines := SplitLines(pane);
    var found: seq<Command> := [];  // newest to oldest
    var buffer: seq<string> := [];
    var i := |lines|;
    while i > 0
      invariant 0 <= i <= |lines|
      invariant PromptLinesSplit(NonBlank(lines[i..]), prompt)
      invariant buffer == Reverse(Leading(ClassifyAll(NonBlank(lines[i..]), prompt)))
      invariant found == Reverse(Records(ClassifyAll(NonBlank(lines[i..]), prompt)))
    {
      i := i - 1;
      var line := lines[i];
      ghost var below := NonBlank(lines[i + 1..]);
      NonBlankStep(lines, i);
      if IsBlank(line) {
        assert NonBlank(lines[i..]) == below;
      } else {
        assert NonBlank(lines[i..]) == [line] + below;
        ClassifyPrepend(line, below, prompt);
        ghost var rest := ClassifyAll(below, prompt);
        ghost var first := Classify(line, prompt);
        assert ClassifyAll(NonBlank(lines[i..]), prompt) == [first] + rest;
        RecordsPrepend(first, rest);
        if IsPromptLine(line, prompt) {
          ReverseReverse(Leading(rest));
          var command := Command(CommandText(line, prompt), Strip(Join(Reverse(buffer))));
          assert first == PromptLine(CommandText(line, prompt));
          assert Records([first] + rest) == [command] + Records(rest);
          ReversePrepend(command, Records(rest));
          assert Reverse(Records(ClassifyAll(NonBlank(lines[i..]), prompt))) == found + [command];
          assert Reverse(Leading(ClassifyAll(NonBlank(lines[i..]), prompt))) == [];
          found := found + [command];
          buffer := [];
        } else {
          assert first == OutputLine(line);
          assert Leading([first] + rest) == [line] + Leading(rest);
          ReversePrepend(line, Leading(rest));
          assert Records([first] + rest) == Records(rest);
          assert Reverse(Records(ClassifyAll(NonBlank(lines[i..]), prompt))) == found;
          assert Reverse(Leading(ClassifyAll(NonBlank(lines[i..]), prompt))) == buffer + [line];
          buffer := buffer + [line];
        }
      }
    }
    assert lines[0..] == lines;
    commands := if found == [] then [] else found[1..];
  }
}
