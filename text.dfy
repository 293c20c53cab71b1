/**
  The Python string and list primitives that the functions of wut/utils.py
  modelled here rely on:
  `str.strip`, `str.lower`, `in` on strings, `str.split(sep, 1)`,
  `str.splitlines`, `"\n".join`, `reversed` and slicing with an int bound.
  Line boundaries are the character '\n' only.
 */
module Text {
  import opened Wrappers

  /** Python's `str.isspace()` for one character. */
  predicate IsSpace(c: char) {
    var n := c as int;
    (9 <= n <= 13) || (28 <= n <= 32) || n == 0x85 || n == 0xA0 || n == 0x1680
    || (0x2000 <= n <= 0x200A) || n == 0x2028 || n == 0x2029 || n == 0x202F
    || n == 0x205F || n == 0x3000
  }

  /** `not s.strip()`: the string is empty or whitespace only. */
  predicate IsBlank(s: string) {
    forall i | 0 <= i < |s| :: IsSpace(s[i])
  }

  /** Number of leading whitespace characters. */
  function FirstNonSpace(s: string): (k: nat)
    ensures k <= |s|
    ensures forall i | 0 <= i < k :: IsSpace(s[i])
    ensures k < |s| ==> !IsSpace(s[k])
  {
    if s == [] || !IsSpace(s[0]) then 0 else 1 + FirstNonSpace(s[1..])
  }

  /** One past the last non-whitespace character (0 if there is none). */
  function EndNonSpace(s: string): (k: nat)
    ensures k <= |s|
    ensures forall i | k <= i < |s| :: IsSpace(s[i])
    ensures k > 0 ==> !IsSpace(s[k - 1])
  {
    if s == [] || !IsSpace(s[|s| - 1]) then |s| else EndNonSpace(s[..|s| - 1])
  }

  /** `s.strip()` */
  function Strip(s: string): (r: string)
    ensures |r| <= |s|
    ensures r == [] <==> IsBlank(s)
    ensures r != [] ==> !IsSpace(r[0]) && !IsSpace(r[|r| - 1])
  {
    var a, b := FirstNonSpace(s), EndNonSpace(s);
    if a < b then s[a..b] else []
  }

  /** Stripping removes a blank prefix and a blank suffix and nothing else. */
  lemma StripRemovesOnlySurroundingBlanks(s: string)
    ensures exists lead, trail | IsBlank(lead) && IsBlank(trail) :: s == lead + Strip(s) + trail
  {
    var a, b := FirstNonSpace(s), EndNonSpace(s);
    if a < b {
      assert s == s[..a] + s[a..b] + s[b..];
      assert IsBlank(s[..a]) && IsBlank(s[b..]);
    } else {
      assert IsBlank(s);
      assert s == s + Strip(s) + [];
      assert IsBlank([]);
    }
  }

  /** The same character in lower case, for ASCII letters. */
  function LowerChar(c: char): char {
    if 'A' <= c <= 'Z' then (c as int + 32) as char else c
  }

  /** `s.lower()` on ASCII letters. */
  function Lower(s: string): string {
    seq(|s|, i requires 0 <= i < |s| => LowerChar(s[i]))
  }

  /** `sub` stands in `s` starting at index `k`. */
  predicate OccursAt(s: string, sub: string, k: nat) {
    k + |sub| <= |s| && s[k..k + |sub|] == sub
  }

  /** `s.find(sub, k)`, with `None` for -1. */
  function IndexFrom(s: string, sub: string, k: nat): Option<nat>
    decreases |s| - k
  {
    if k + |sub| > |s| then None
    else if s[k..k + |sub|] == sub then Some(k)
    else IndexFrom(s, sub, k + 1)
  }

  /** `s.find(sub, k)` finds the leftmost occurrence at or after `k`, and none only when there is none. */
  lemma {:induction false} IndexFromIsLeftmost(s: string, sub: string, k: nat)
    decreases |s| - k
    ensures var r := IndexFrom(s, sub, k);
      && (r.Some? ==> k <= r.value && OccursAt(s, sub, r.value))
      && (r.Some? ==> forall j | k <= j < r.value :: !OccursAt(s, sub, j))
      && (r.None? ==> forall j | k <= j :: !OccursAt(s, sub, j))
  {
    if k + |sub| <= |s| && s[k..k + |sub|] != sub {
      IndexFromIsLeftmost(s, sub, k + 1);
    }
  }

  /** `s.find(sub)`, with `None` for -1. */
  function IndexOf(s: string, sub: string): Option<nat> {
    IndexFrom(s, sub, 0)
  }

  /** `sub in s` */
  predicate Contains(s: string, sub: string) {
    IndexOf(s, sub).Some?
  }

  /** `s.split(sep, 1)[1]` where the separator occurs: what follows its first occurrence. */
  function AfterFirst(s: string, sep: string): string
    requires Contains(s, sep)
  {
    IndexFromIsLeftmost(s, sep, 0);
    var k := IndexOf(s, sep).value;
    s[k + |sep|..]
  }

  /** `sub in s` holds exactly when `sub` occurs somewhere in `s`. */
  lemma ContainsOccurs(s: string, sub: string)
    ensures Contains(s, sub) <==> exists k: nat :: OccursAt(s, sub, k)
  {
    IndexFromIsLeftmost(s, sub, 0);
  }

  /** What `s.split(sep, 1)[1]` returns: the rest of `s` after the leftmost occurrence of `sep`. */
  lemma AfterFirstOccurrence(s: string, sep: string, k: nat)
    requires OccursAt(s, sep, k)
    requires forall j | 0 <= j < k :: !OccursAt(s, sep, j)
    ensures Contains(s, sep)
    ensures AfterFirst(s, sep) == s[k + |sep|..]
  {
    IndexFromIsLeftmost(s, sep, 0);
    var r := IndexOf(s, sep);
    assert r.Some?;
    assert r.value == k;
  }

  /** `s.split("\n")`: never empty, and no piece holds a line break. */
  function Split(s: string): (r: seq<string>)
    ensures |r| >= 1
    ensures forall k | 0 <= k < |r| :: '\n' !in r[k]
  {
    if s == [] then [[]]
    else
      var rest := Split(s[1..]);
      if s[0] == '\n' then [[]] + rest else [[s[0]] + rest[0]] + rest[1..]
  }

  /** `"\n".join(lines)` */
  function Join(lines: seq<string>): string {
    if |lines| == 0 then []
    else if |lines| == 1 then lines[0]
    else lines[0] + "\n" + Join(lines[1..])
  }

  /** `s.splitlines()` for '\n' boundaries: a final line break ends the last line, it does not open a new one. */
  function SplitLines(s: string): (r: seq<string>)
    ensures r == [] <==> s == []
    ensures forall k | 0 <= k < |r| :: '\n' !in r[k]
  {
    if s == [] then []
    else if s[|s| - 1] == '\n' then Split(s[..|s| - 1])
    else Split(s)
  }

  lemma {:induction false} JoinSplit(s: string)
    ensures Join(Split(s)) == s
  {
    if s != [] {
      var rest := Split(s[1..]);
      JoinSplit(s[1..]);
      if s[0] == '\n' {
        assert ([[]] + rest)[1..] == rest;
      } else if |rest| == 1 {
        assert Join(rest) == rest[0];
      } else {
        var head := [s[0]] + rest[0];
        assert ([head] + rest[1..])[1..] == rest[1..];
        assert Join(rest) == rest[0] + "\n" + Join(rest[1..]);
        assert s == [s[0]] + s[1..];
      }
    }
  }

  lemma {:induction false} SplitOfLineFree(a: string)
    requires '\n' !in a
    ensures Split(a) == [a]
  {
    if a != [] {
      SplitOfLineFree(a[1..]);
      assert a == [a[0]] + a[1..];
    }
  }

  lemma {:induction false} SplitAfterLine(a: string, b: string)
    requires '\n' !in a
    ensures Split(a + "\n" + b) == [a] + Split(b)
  {
    var s := a + "\n" + b;
    if a == [] {
      assert s[1..] == b;
    } else {
      assert s[1..] == a[1..] + "\n" + b;
      SplitAfterLine(a[1..], b);
      assert a == [a[0]] + a[1..];
    }
  }

  /** Splitting undoes joining for lines that hold no line break. */
  lemma {:induction false} SplitJoin(lines: seq<string>)
    requires |lines| >= 1
    requires forall k | 0 <= k < |lines| :: '\n' !in lines[k]
    ensures Split(Join(lines)) == lines
  {
    if |lines| == 1 {
      SplitOfLineFree(lines[0]);
    } else {
      SplitJoin(lines[1..]);
      SplitAfterLine(lines[0], Join(lines[1..]));
      assert [lines[0]] + lines[1..] == lines;
    }
  }

  /** Without a line break, a non-empty text is one line. */
  lemma SplitLinesOfLineFree(a: string)
    requires a != [] && '\n' !in a
    ensures SplitLines(a) == [a]
  {
    SplitOfLineFree(a);
  }

  /** A first line that holds no line break comes off the front of `splitlines`. */
  lemma SplitLinesAfterLine(a: string, b: string)
    requires '\n' !in a && b != []
    ensures SplitLines(a + "\n" + b) == [a] + SplitLines(b)
  {
    var s := a + "\n" + b;
    if b[|b| - 1] == '\n' {
      assert s[..|s| - 1] == a + "\n" + b[..|b| - 1];
      SplitAfterLine(a, b[..|b| - 1]);
    } else {
      SplitAfterLine(a, b);
    }
  }

  /** The text ends with a line break. */
  predicate EndsWithLineBreak(s: string) {
    s != [] && s[|s| - 1] == '\n'
  }

  /** Re-joining the lines gives back the text, less a final line break. */
  lemma SplitLinesJoin(s: string)
    ensures Join(SplitLines(s)) + (if EndsWithLineBreak(s) then "\n" else "") == s
  {
    if s != [] && s[|s| - 1] == '\n' {
      JoinSplit(s[..|s| - 1]);
      assert s == s[..|s| - 1] + "\n";
    } else if s != [] {
      JoinSplit(s);
    }
  }

  /** `list(reversed(s))` */
  function Reverse<T>(s: seq<T>): (r: seq<T>)
    ensures |r| == |s|
    ensures forall i | 0 <= i < |s| :: r[i] == s[|s| - 1 - i]
  {
    if s == [] then [] else Reverse(s[1..]) + [s[0]]
  }

  lemma ReverseReverse<T>(s: seq<T>)
    ensures Reverse(Reverse(s)) == s
  {
  }

  /** Reversing moves a first element to the end. */
  lemma ReversePrepend<T>(x: T, s: seq<T>)
    ensures Reverse([x] + s) == Reverse(s) + [x]
  {
    assert ([x] + s)[1..] == s;
  }

  /** A suffix is its first element followed by the rest. */
  lemma SuffixCons<T>(s: seq<T>, j: nat)
    requires j < |s|
    ensures s[j..] == [s[j]] + s[j + 1..]
  {
  }

  /** A longer prefix is the shorter one followed by the next element. */
  lemma PrefixSnoc<T>(s: seq<T>, i: nat)
    requires i < |s|
    ensures s[..i + 1] == s[..i] + [s[i]]
  {
  }

  /** `xs[:stop]` for an int bound: a negative bound counts from the end. */
  function SliceTo<T>(xs: seq<T>, stop: int): (r: seq<T>)
    ensures |r| <= |xs| && r == xs[..|r|]
    ensures stop >= 0 ==> |r| == if stop < |xs| then stop else |xs|
    ensures stop < 0 ==> |r| == if |xs| + stop > 0 then |xs| + stop else 0
  {
    var end := if stop < 0 then (if |xs| + stop > 0 then |xs| + stop else 0)
               else (if stop < |xs| then stop else |xs|);
    xs[..end]
  }

  /** `xs[start:]` for an int bound: a negative bound counts from the end. */
  function SliceFrom<T>(xs: seq<T>, start: int): (r: seq<T>)
    ensures |r| <= |xs| && r == xs[|xs| - |r|..]
    ensures start >= 0 ==> |r| == if start < |xs| then |xs| - start else 0
    ensures start < 0 ==> |r| == if -start < |xs| then -start else |xs|
  {
    var begin := if start < 0 then (if |xs| + start > 0 then |xs| + start else 0)
                 else (if start < |xs| then start else |xs|);
    xs[begin..]
  }
}
