/**
 * The token corpus: the process-wide, read-only sequence of token strings
 * (`TOKENIZED_OUTPUT`), its length (`MAX_TOKENS`) and its concatenation
 * (`MAX_OUTPUT`), and the whitespace tokenizer used when no model tokenizer
 * can be loaded (`str::split_whitespace`).
 */
module Corpus {
  import opened RustStd

  // ---------------------------------------------------------------------
  // TOKENIZED_OUTPUT, MAX_TOKENS, MAX_OUTPUT
  // ---------------------------------------------------------------------

  /** `[&str]::concat`: the tokens glued together in order. */
  function Concat(ts: seq<string>): string
    decreases |ts|
  {
    if ts == [] then "" else Concat(ts[..|ts| - 1]) + ts[|ts| - 1]
  }

  /** `MAX_TOKENS`: the number of tokens in the corpus. */
  function MaxTokens(corpus: seq<string>): nat {
    |corpus|
  }

  /** `MAX_OUTPUT`: the whole corpus as one string. */
  function MaxOutput(corpus: seq<string>): string {
    Concat(corpus)
  }

  /** Total length of the tokens `ts`. */
  function TotalLength(ts: seq<string>): nat
    decreases |ts|
  {
    if ts == [] then 0 else |ts[0]| + TotalLength(ts[1..])
  }

  /** Concatenation distributes over sequence concatenation. */
  lemma {:induction false} ConcatAppend(a: seq<string>, b: seq<string>)
    ensures Concat(a + b) == Concat(a) + Concat(b)
    decreases |b|
  {
    if b == [] {
      assert a + b == a;
    } else {
      var b' := b[..|b| - 1];
      assert (a + b)[..|a + b| - 1] == a + b';
      assert (a + b)[|a + b| - 1] == b[|b| - 1];
      ConcatAppend(a, b');
    }
  }

  /** Concatenation starting from the front: the first token comes first. */
  lemma ConcatCons(t: string, ts: seq<string>)
    ensures Concat([t] + ts) == t + Concat(ts)
  {
    ConcatAppend([t], ts);
    assert [t][..0] == [];
  }

  /** The concatenation is exactly as long as all the tokens together. */
  lemma {:induction false} ConcatLength(ts: seq<string>)
    ensures |Concat(ts)| == TotalLength(ts)
    decreases |ts|
  {
    if ts != [] {
      ConcatCons(ts[0], ts[1..]);
      assert [ts[0]] + ts[1..] == ts;
      ConcatLength(ts[1..]);
    }
  }

  /**
   * `MAX_OUTPUT` holds token `i` at the offset where the tokens before it end:
   * the tokens appear in corpus order, each in full.
   */
  lemma TokenInMaxOutput(corpus: seq<string>, i: nat)
    requires i < |corpus|
    ensures var off := |Concat(corpus[..i])|;
      off + |corpus[i]| <= |MaxOutput(corpus)| &&
      MaxOutput(corpus)[off..off + |corpus[i]|] == corpus[i]
  {
    assert corpus == corpus[..i] + [corpus[i]] + corpus[i + 1..];
    ConcatAppend(corpus[..i] + [corpus[i]], corpus[i + 1..]);
    ConcatAppend(corpus[..i], [corpus[i]]);
    assert [corpus[i]][..0] == [];
  }

  /** A prefix of the corpus concatenates to a prefix of `MAX_OUTPUT`. */
  lemma PrefixOfMaxOutput(corpus: seq<string>, k: nat)
    requires k <= |corpus|
    ensures Concat(corpus[..k]) <= MaxOutput(corpus)
  {
    assert corpus == corpus[..k] + corpus[k..];
    ConcatAppend(corpus[..k], corpus[k..]);
  }

  // ---------------------------------------------------------------------
  // The whitespace fallback: str::split_whitespace
  // ---------------------------------------------------------------------

  /** Number of whitespace characters at the front of `s`. */
  function LeadingSpace(s: string): (k: nat)
    ensures k <= |s|
    ensures k < |s| ==> !IsWhitespace(s[k])
    decreases |s|
  {
    if s == [] || !IsWhitespace(s[0]) then 0 else 1 + LeadingSpace(s[1..])
  }

  /** Number of non-whitespace characters at the front of `s`. */
  function WordLength(s: string): (k: nat)
    ensures k <= |s|
    ensures k < |s| ==> IsWhitespace(s[k])
    ensures |s| > 0 && !IsWhitespace(s[0]) ==> k > 0
    decreases |s|
  {
    if s == [] || IsWhitespace(s[0]) then 0 else 1 + WordLength(s[1..])
  }

  /** The leading run counted by `LeadingSpace` is all whitespace. */
  lemma {:induction false} LeadingSpaceIsSpace(s: string)
    ensures AllWhitespace(s[..LeadingSpace(s)])
    decreases |s|
  {
    if s != [] && IsWhitespace(s[0]) {
      LeadingSpaceIsSpace(s[1..]);
      assert s[..LeadingSpace(s)] == [s[0]] + s[1..][..LeadingSpace(s[1..])];
    }
  }

  /** The leading run counted by `WordLength` holds no whitespace. */
  lemma {:induction false} WordLengthIsWord(s: string)
    ensures NoWhitespace(s[..WordLength(s)])
    decreases |s|
  {
    if s != [] && !IsWhitespace(s[0]) {
      WordLengthIsWord(s[1..]);
      assert s[..WordLength(s)] == [s[0]] + s[1..][..WordLength(s[1..])];
    }
  }

  /** Where the first token of `s` ends: after its leading whitespace and one maximal word. */
  function TokenEnd(s: string): (e: nat)
    requires LeadingSpace(s) < |s|
    ensures LeadingSpace(s) < e <= |s|
  {
    LeadingSpace(s) + WordLength(s[LeadingSpace(s)..])
  }

  /** `s.split_whitespace().collect()`: every maximal run of non-whitespace, in order. */
  function SplitWhitespace(s: string): seq<string>
    decreases |s|
  {
    if LeadingSpace(s) == |s| then []
    else [s[LeadingSpace(s)..TokenEnd(s)]] + SplitWhitespace(s[TokenEnd(s)..])
  }

  /**
   * The whitespace between the tokens of `SplitWhitespace(s)`: one run before
   * the first token, one between each pair, one after the last. Used only to
   * state what the tokenizer keeps and drops.
   */
  ghost function Separators(s: string): seq<string>
    decreases |s|
  {
    if LeadingSpace(s) == |s| then [s]
    else [s[..LeadingSpace(s)]] + Separators(s[TokenEnd(s)..])
  }

  /** `seps[0] + toks[0] + seps[1] + ... + toks[n-1] + seps[n]`. */
  ghost function Interleave(seps: seq<string>, toks: seq<string>): string
    requires |seps| == |toks| + 1
    decreases |toks|
  {
    if toks == [] then seps[0] else seps[0] + toks[0] + Interleave(seps[1..], toks[1..])
  }

  /** `s` with every whitespace character removed. */
  function RemoveWhitespace(s: string): string
    decreases |s|
  {
    if s == [] then ""
    else (if IsWhitespace(s[0]) then "" else [s[0]]) + RemoveWhitespace(s[1..])
  }

  lemma ThreeSlices(s: string, i: nat, j: nat)
    requires i <= j <= |s|
    ensures s == s[..i] + s[i..j] + s[j..]
  {
    assert s[..i] + s[i..j] == s[..j];
  }

  /** The pieces of one tokenizer step rebuild the source. */
  lemma StepRebuild(s: string)
    requires LeadingSpace(s) < |s|
    ensures s == s[..LeadingSpace(s)] + s[LeadingSpace(s)..TokenEnd(s)] + s[TokenEnd(s)..]
  {
    ThreeSlices(s, LeadingSpace(s), TokenEnd(s));
  }

  /** The first token holds no whitespace. */
  lemma StepWord(s: string)
    requires LeadingSpace(s) < |s|
    ensures NoWhitespace(s[LeadingSpace(s)..TokenEnd(s)])
  {
    TokenEndIs(s);
    WordAt(s, LeadingSpace(s), TokenEnd(s));
  }

  lemma TokenEndIs(s: string)
    requires LeadingSpace(s) < |s|
    ensures TokenEnd(s) == LeadingSpace(s) + WordLength(s[LeadingSpace(s)..])
  {
  }

  /** The word starting at offset `k` and ending at `e` holds no whitespace. */
  lemma WordAt(s: string, k: nat, e: nat)
    requires k <= |s| && e == k + WordLength(s[k..])
    ensures e <= |s| && NoWhitespace(s[k..e])
  {
    var t := s[k..];
    var w := WordLength(t);
    var word := s[k..e];
    WordLengthIsWord(t);
    forall i | 0 <= i < |word|
      ensures !IsWhitespace(word[i])
    {
      assert word[i] == t[..w][i];
    }
  }

  /** What follows the first token starts with whitespace: the token is maximal. */
  lemma StepNextIsSpace(s: string)
    requires LeadingSpace(s) < |s|
    ensures TokenEnd(s) < |s| ==> IsWhitespace(s[TokenEnd(s)])
  {
    var k := LeadingSpace(s);
    if TokenEnd(s) < |s| {
      assert s[k..][WordLength(s[k..])] == s[TokenEnd(s)];
    }
  }

  /** Every token is non-empty and free of whitespace. */
  lemma {:induction false} SplitTokensWellFormed(s: string)
    ensures forall i :: 0 <= i < |SplitWhitespace(s)| ==>
      SplitWhitespace(s)[i] != "" && NoWhitespace(SplitWhitespace(s)[i])
    decreases |s|
  {
    if LeadingSpace(s) < |s| {
      StepWord(s);
      SplitTokensWellFormed(s[TokenEnd(s)..]);
    }
  }

  /** A separator that starts with whitespace is not empty. */
  lemma FirstSeparatorNonEmpty(s: string)
    requires |s| > 0 && IsWhitespace(s[0])
    ensures Separators(s)[0] != ""
  {
  }

  /**
   * The tokens are the maximal non-whitespace runs of `s` in source order:
   * `s` is rebuilt by interleaving them with whitespace-only separators, and
   * every separator between two tokens is non-empty.
   */
  lemma {:induction false} SplitIsMaximalRuns(s: string)
    ensures |Separators(s)| == |SplitWhitespace(s)| + 1
    ensures Interleave(Separators(s), SplitWhitespace(s)) == s
    ensures forall i :: 0 <= i < |Separators(s)| ==> AllWhitespace(Separators(s)[i])
    ensures forall i :: 0 < i < |Separators(s)| - 1 ==> Separators(s)[i] != ""
    decreases |s|
  {
    var k := LeadingSpace(s);
    LeadingSpaceIsSpace(s);
    if k == |s| {
      assert s[..k] == s;
    } else {
      var rest := s[TokenEnd(s)..];
      StepRebuild(s);
      StepNextIsSpace(s);
      SplitIsMaximalRuns(rest);
      var seps, toks := Separators(s), SplitWhitespace(s);
      assert seps[1..] == Separators(rest);
      assert toks[1..] == SplitWhitespace(rest);
      assert Interleave(seps, toks) == seps[0] + toks[0] + Interleave(Separators(rest), SplitWhitespace(rest));
      forall i | 0 < i < |seps| - 1
        ensures seps[i] != ""
      {
        assert seps[i] == Separators(rest)[i - 1];
        if i == 1 {
          FirstSeparatorNonEmpty(rest);
        }
      }
    }
  }

  lemma {:induction false} RemoveWhitespaceAppend(a: string, b: string)
    ensures RemoveWhitespace(a + b) == RemoveWhitespace(a) + RemoveWhitespace(b)
    decreases |a|
  {
    if a != [] {
      assert (a + b)[1..] == a[1..] + b;
      RemoveWhitespaceAppend(a[1..], b);
    } else {
      assert a + b == b;
    }
  }

  lemma {:induction false} RemoveWhitespaceOfSpace(s: string)
    requires AllWhitespace(s)
    ensures RemoveWhitespace(s) == ""
    decreases |s|
  {
    if s != [] {
      RemoveWhitespaceOfSpace(s[1..]);
    }
  }

  lemma {:induction false} RemoveWhitespaceOfWord(s: string)
    requires NoWhitespace(s)
    ensures RemoveWhitespace(s) == s
    decreases |s|
  {
    if s != [] {
      RemoveWhitespaceOfWord(s[1..]);
    }
  }

  lemma ConcatSplitStep(s: string)
    requires LeadingSpace(s) < |s|
    ensures Concat(SplitWhitespace(s)) ==
      s[LeadingSpace(s)..TokenEnd(s)] + Concat(SplitWhitespace(s[TokenEnd(s)..]))
  {
    ConcatCons(s[LeadingSpace(s)..TokenEnd(s)], SplitWhitespace(s[TokenEnd(s)..]));
  }

  lemma RemoveWhitespaceAfterSpace(space: string, x: string)
    requires AllWhitespace(space)
    ensures RemoveWhitespace(space + x) == RemoveWhitespace(x)
  {
    RemoveWhitespaceAppend(space, x);
    RemoveWhitespaceOfSpace(space);
  }

  lemma RemoveWhitespaceAfterWord(word: string, x: string)
    requires NoWhitespace(word)
    ensures RemoveWhitespace(word + x) == word + RemoveWhitespace(x)
  {
    RemoveWhitespaceAppend(word, x);
    RemoveWhitespaceOfWord(word);
  }

  lemma RemoveWhitespaceOfParts(space: string, word: string, rest: string)
    requires AllWhitespace(space) && NoWhitespace(word)
    ensures RemoveWhitespace(space + word + rest) == word + RemoveWhitespace(rest)
  {
    Regroup(space, word, rest);
    RemoveWhitespaceAfterSpace(space, word + rest);
    RemoveWhitespaceAfterWord(word, rest);
  }

  lemma RemoveWhitespaceStep(s: string)
    requires LeadingSpace(s) < |s|
    ensures RemoveWhitespace(s) ==
      s[LeadingSpace(s)..TokenEnd(s)] + RemoveWhitespace(s[TokenEnd(s)..])
  {
    StepRebuild(s);
    StepWord(s);
    LeadingSpaceIsSpace(s);
    RemoveWhitespaceOfParts(s[..LeadingSpace(s)], s[LeadingSpace(s)..TokenEnd(s)], s[TokenEnd(s)..]);
  }

  /** Gluing the tokens back together gives the source with its whitespace removed. */
  lemma {:induction false} SplitConcatIsSourceWithoutWhitespace(s: string)
    ensures Concat(SplitWhitespace(s)) == RemoveWhitespace(s)
    decreases |s|
  {
    if LeadingSpace(s) == |s| {
      LeadingSpaceIsSpace(s);
      assert s[..LeadingSpace(s)] == s;
      RemoveWhitespaceOfSpace(s);
    } else {
      ConcatSplitStep(s);
      RemoveWhitespaceStep(s);
      SplitConcatIsSourceWithoutWhitespace(s[TokenEnd(s)..]);
    }
  }

  /**
   * The fallback yields no token exactly when the source is whitespace only,
   * and then `MAX_TOKENS` is 0 and `MAX_OUTPUT` is empty.
   */
  lemma SplitEmptyIffWhitespaceOnly(s: string)
    ensures SplitWhitespace(s) == [] <==> AllWhitespace(s)
    ensures AllWhitespace(s) ==>
      MaxTokens(SplitWhitespace(s)) == 0 && MaxOutput(SplitWhitespace(s)) == ""
  {
    LeadingSpaceIsSpace(s);
    if LeadingSpace(s) == |s| {
      assert s[..LeadingSpace(s)] == s;
    }
  }
}
