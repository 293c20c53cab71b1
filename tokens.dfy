/**
  The token meter of wut/utils.py (`count_tokens`, `truncate_tokens`). The real
  encoding is a foreign library, so the tokenizer is a parameter: an encoder and
  a decoder between text and token ids, and nothing more is assumed of them.
 */
module Tokens {
  import opened Text

  datatype Tokenizer = Tokenizer(encode: string -> seq<int>, decode: seq<int> -> string)

  /** `count_tokens(text)` */
  function CountTokens(tok: Tokenizer, text: string): (n: nat)
    ensures n == |tok.encode(text)|
  {
    |tok.encode(text)|
  }

  function Min(a: int, b: int): int {
    if a < b then a else b
  }

  /**
    The slice of the token list that `truncate_tokens` keeps: `tokens[-max_tokens:]`
    when reversing, `tokens[:max_tokens]` otherwise, with Python's slicing rules.
   */
  function KeptTokens(tokens: seq<int>, maxTokens: int, reverse: bool): (r: seq<int>)
    ensures reverse && maxTokens > 0 ==> r == tokens[|tokens| - Min(maxTokens, |tokens|)..]
    ensures reverse && maxTokens == 0 ==> r == tokens
    ensures reverse && maxTokens < 0 ==> r == tokens[Min(-maxTokens, |tokens|)..]
    ensures !reverse && maxTokens >= 0 ==> r == tokens[..Min(maxTokens, |tokens|)]
    ensures !reverse && maxTokens < 0 ==> r == tokens[..|tokens| - Min(-maxTokens, |tokens|)]
  {
    if reverse then SliceFrom(tokens, -maxTokens) else SliceTo(tokens, maxTokens)
  }

  /** `truncate_tokens(text, max_tokens, reverse)` */
  function TruncateTokens(tok: Tokenizer, text: string, maxTokens: int, reverse: bool): (r: string)
    ensures reverse ==> exists i | 0 <= i <= |tok.encode(text)| :: r == tok.decode(tok.encode(text)[i..])
    ensures !reverse ==> exists j | 0 <= j <= |tok.encode(text)| :: r == tok.decode(tok.encode(text)[..j])
  {
    var tokens := tok.encode(text);
    var kept := KeptTokens(tokens, maxTokens, reverse);
    assert reverse ==> kept == tokens[|tokens| - |kept|..];
    assert !reverse ==> kept == tokens[..|kept|];
    tok.decode(kept)
  }

  /** For an encoding that decodes back to its text, a budget the text fits leaves it unchanged. */
  lemma TruncateTokensWithinBudget(tok: Tokenizer, text: string, maxTokens: int, reverse: bool)
    requires tok.decode(tok.encode(text)) == text
    requires maxTokens >= CountTokens(tok, text)
    ensures TruncateTokens(tok, text, maxTokens, reverse) == text
  {
    var tokens := tok.encode(text);
    assert tokens[0..] == tokens && tokens[..|tokens|] == tokens;
    assert KeptTokens(tokens, maxTokens, reverse) == tokens;
  }
}
