/**
 * The word-window chunker `chunkText(text, maxWords = 150)`: split the text on
 * runs of whitespace, cut the tokens into consecutive non-overlapping windows
 * of `maxWords`, and join each window with single spaces.
 */
module Chunker {
  import opened Strings

  /** The default window size both callers use. */
  const MaxWords: nat := 150

  function Min(a: int, b: int): int {
    if a <= b then a else b
  }

  /**
   * The token windows from position `i` on: `words.slice(i, i + maxWords)`,
   * then the windows from `i + maxWords`, until `i` passes the end.
   */
  function WindowsFrom(words: seq<string>, maxWords: nat, i: nat): (ws: seq<seq<string>>)
    requires maxWords >= 1
    decreases |words| - i
  {
    if i >= |words| then []
    else [words[i..Min(i + maxWords, |words|)]] + WindowsFrom(words, maxWords, i + maxWords)
  }

  /** What `chunkText` returns: each window of `text.split(/\s+/)` joined with spaces. */
  function Chunks(text: string, maxWords: nat): (chunks: seq<string>)
    requires maxWords >= 1
  {
    JoinEach(WindowsFrom(Split(text), maxWords, 0))
  }

  /**
   * The loop of `chunkText`: `i` steps by `maxWords` from 0 while `i < words.length`,
   * and each step pushes `words.slice(i, i + maxWords).join(" ")`. A `maxWords` of 0
   * would never advance `i`, so the caller must pass at least 1.
   */
  method ChunkText(text: string, maxWords: nat) returns (chunks: seq<string>)
    requires maxWords >= 1
    ensures chunks == Chunks(text, maxWords)
  {
    var words := Split(text);
    chunks := [];
    var i: nat := 0;
    while i < |words|
      invariant chunks + JoinEach(WindowsFrom(words, maxWords, i)) == JoinEach(WindowsFrom(words, maxWords, 0))
      decreases |words| - i
    {
      var end := Min(i + maxWords, |words|);
      WindowsPush(words, maxWords, i, chunks);
      chunks := chunks + [Join(words[i..end], " ")];
      i := i + maxWords;
    }
    assert chunks + [] == chunks;
  }

  /** The loop invariant survives pushing the window at `i`. */
  lemma WindowsPush(words: seq<string>, maxWords: nat, i: nat, chunks: seq<string>)
    requires maxWords >= 1 && i < |words|
    ensures chunks + JoinEach(WindowsFrom(words, maxWords, i)) ==
            (chunks + [Join(words[i..Min(i + maxWords, |words|)], " ")]) + JoinEach(WindowsFrom(words, maxWords, i + maxWords))
  {
    var w := words[i..Min(i + maxWords, |words|)];
    var later := WindowsFrom(words, maxWords, i + maxWords);
    assert ([w] + later)[1..] == later;
    assert JoinEach([w] + later) == [Join(w, " ")] + JoinEach(later);
    assert chunks + ([Join(w, " ")] + JoinEach(later)) == (chunks + [Join(w, " ")]) + JoinEach(later);
  }

  /** There are ceil((n - i) / maxWords) windows from `i`: the least c with n - i <= c * maxWords. */
  lemma {:induction false} WindowsCount(words: seq<string>, maxWords: nat, i: nat)
    requires maxWords >= 1 && i <= |words|
    ensures var c := |WindowsFrom(words, maxWords, i)|;
      (c - 1) * maxWords < |words| - i <= c * maxWords
    decreases |words| - i
  {
    var m := maxWords;
    if i + m < |words| {
      WindowsCount(words, m, i + m);
      var c' := |WindowsFrom(words, m, i + m)|;
      assert (c' + 1) * m == c' * m + m;
      assert (c' - 1) * m + m == c' * m;
    } else if i < |words| {
      assert WindowsFrom(words, m, i + m) == [];
    }
  }

  /** Window `k` from `i` is the token slice `[i + k * maxWords, min(i + (k + 1) * maxWords, n))`. */
  lemma {:induction false} WindowsAt(words: seq<string>, maxWords: nat, i: nat, k: nat)
    requires maxWords >= 1 && k < |WindowsFrom(words, maxWords, i)|
    ensures i + k * maxWords < |words|
    ensures WindowsFrom(words, maxWords, i)[k] ==
            words[i + k * maxWords .. Min(i + (k + 1) * maxWords, |words|)]
    decreases |words| - i
  {
    var m := maxWords;
    if k > 0 {
      WindowsAt(words, m, i + m, k - 1);
      assert (i + m) + (k - 1) * m == i + k * m;
      assert (i + m) + k * m == i + (k + 1) * m;
    }
  }

  /** Concatenating the windows from `i` gives back the tokens from `i`. */
  lemma {:induction false} WindowsFlatten(words: seq<string>, maxWords: nat, i: nat)
    requires maxWords >= 1 && i <= |words|
    ensures Flatten(WindowsFrom(words, maxWords, i)) == words[i..]
    decreases |words| - i
  {
    var m := maxWords;
    if i < |words| {
      var ws := WindowsFrom(words, m, i);
      var end := Min(i + m, |words|);
      WindowsFlatten(words, m, end);
      if i + m < |words| {
        assert WindowsFrom(words, m, i + m) == WindowsFrom(words, m, end);
      } else {
        assert WindowsFrom(words, m, i + m) == [];
      }
      assert ws[1..] == WindowsFrom(words, m, i + m);
      assert words[i..end] + words[end..] == words[i..];
    }
  }

  lemma TokensSlice(w: seq<string>, a: nat, b: nat)
    requires Tokens(w) && a < b <= |w|
    ensures Tokens(w[a..b])
  {
    var s := w[a..b];
    forall k | 0 <= k < |s| ensures NoSpace(s[k]) { assert s[k] == w[a + k]; }
    forall k | 0 < k < |s| - 1 ensures s[k] != "" { assert s[k] == w[a + k]; }
  }

  /**
   * Chunk count: `chunkText` returns ceil(n / maxWords) chunks (the least c with
   * n <= c * maxWords) for the n >= 1 tokens of `text.split(/\s+/)`, so never none;
   * the empty text gives `[""]`.
   */
  lemma ChunkCount(text: string, maxWords: nat)
    requires maxWords >= 1
    ensures var n, c := |Split(text)|, |Chunks(text, maxWords)|;
      n >= 1 && (c - 1) * maxWords < n <= c * maxWords
    ensures |Chunks(text, maxWords)| >= 1
    ensures text == "" ==> Chunks(text, maxWords) == [""]
  {
    SplitTokens(text);
    WindowsCount(Split(text), maxWords, 0);
    if text == "" {
      var ws := WindowsFrom(Split(text), maxWords, 0);
      var words := Split(text);
      assert words == [""];
      assert words[0..Min(maxWords, 1)] == [""];
      assert WindowsFrom(words, maxWords, maxWords) == [];
      assert ws == [[""]];
      JoinEachAt(ws, 0);
    }
  }

  /**
   * Window bounds: re-splitting chunk `k` gives exactly the tokens
   * `[k * maxWords, min((k + 1) * maxWords, n))` of the text, so every chunk has at
   * most `maxWords` tokens and every chunk but the last exactly `maxWords`.
   */
  lemma ChunkTokens(text: string, maxWords: nat, k: nat)
    requires maxWords >= 1 && k < |Chunks(text, maxWords)|
    ensures var words := Split(text);
      k * maxWords < |words| &&
      Split(Chunks(text, maxWords)[k]) == words[k * maxWords .. Min((k + 1) * maxWords, |words|)]
    ensures 1 <= |Split(Chunks(text, maxWords)[k])| <= maxWords
    ensures k < |Chunks(text, maxWords)| - 1 ==> |Split(Chunks(text, maxWords)[k])| == maxWords
  {
    SplitTokens(text);
    WindowTokens(Split(text), maxWords, k);
  }

  /** `ChunkTokens` for any well-formed token sequence. */
  lemma WindowTokens(words: seq<string>, maxWords: nat, k: nat)
    requires Tokens(words)
    requires maxWords >= 1 && k < |WindowsFrom(words, maxWords, 0)|
    ensures var chunk := JoinEach(WindowsFrom(words, maxWords, 0))[k];
      k * maxWords < |words| &&
      Split(chunk) == words[k * maxWords .. Min((k + 1) * maxWords, |words|)]
    ensures var chunk := JoinEach(WindowsFrom(words, maxWords, 0))[k];
      1 <= |Split(chunk)| <= maxWords &&
      (k < |WindowsFrom(words, maxWords, 0)| - 1 ==> |Split(chunk)| == maxWords)
  {
    var m := maxWords;
    var ws := WindowsFrom(words, m, 0);
    WindowsAt(words, m, 0, k);
    JoinEachAt(ws, k);
    var lo, hi := k * m, Min((k + 1) * m, |words|);
    assert ws[k] == words[lo..hi];
    TokensSlice(words, lo, hi);
    SplitJoin(ws[k]);
    if k < |ws| - 1 {
      WindowsAt(words, m, 0, k + 1);
      assert (k + 1) * m < |words|;
      assert hi - lo == m;
    }
  }

  /**
   * Token round trip: joining the chunks with single spaces equals joining the
   * tokens of the text with single spaces, so splitting that again gives the
   * text's tokens in order, none dropped and none repeated.
   */
  lemma ChunksRoundTrip(text: string, maxWords: nat)
    requires maxWords >= 1
    ensures Join(Chunks(text, maxWords), " ") == Join(Split(text), " ")
    ensures Split(Join(Chunks(text, maxWords), " ")) == Split(text)
  {
    var words := Split(text);
    var ws := WindowsFrom(words, maxWords, 0);
    forall k | 0 <= k < |ws| ensures |ws[k]| >= 1 {
      WindowsAt(words, maxWords, 0, k);
    }
    JoinFlatten(ws);
    WindowsFlatten(words, maxWords, 0);
    assert words[0..] == words;
    SplitTokens(text);
    SplitJoin(words);
  }
}
