/**
 * The JavaScript string operations the pipeline relies on, stated over
 * `seq<char>`: the `\s` character class (shared by `split(/\s+/)` and
 * `String.prototype.trim`), `split(/\s+/)`, `Array.prototype.join`, `trim`,
 * and the decimal rendering of a non-negative integer in a template literal.
 */
module Strings {

  /** JavaScript's `\s` (WhiteSpace and LineTerminator), which is also the set `trim` strips. */
  predicate IsSpace(c: char) {
    var n := c as int;
    (0x09 <= n <= 0x0D) || n == 0x20 || n == 0xA0 || n == 0x1680 ||
    (0x2000 <= n <= 0x200A) || n == 0x2028 || n == 0x2029 || n == 0x202F ||
    n == 0x205F || n == 0x3000 || n == 0xFEFF
  }

  predicate NoSpace(s: string) {
    forall i | 0 <= i < |s| :: !IsSpace(s[i])
  }

  predicate AllSpace(s: string) {
    forall i | 0 <= i < |s| :: IsSpace(s[i])
  }

  /** Length of the longest prefix of `s` without whitespace. */
  function WordLen(s: string): (n: nat)
    ensures n <= |s|
    ensures NoSpace(s[..n])
    ensures n < |s| ==> IsSpace(s[n])
  {
    if s == [] || IsSpace(s[0]) then 0 else 1 + WordLen(s[1..])
  }

  /** Length of the longest prefix of `s` made of whitespace only. */
  function SpaceLen(s: string): (n: nat)
    ensures n <= |s|
    ensures AllSpace(s[..n])
    ensures n < |s| ==> !IsSpace(s[n])
  {
    if s == [] || !IsSpace(s[0]) then 0 else 1 + SpaceLen(s[1..])
  }

  /**
   * `s.split(/\s+/)`: the pieces between maximal runs of whitespace. Leading
   * (trailing) whitespace gives an empty first (last) piece, and the empty
   * string gives `[""]`.
   */
  function Split(s: string): (tokens: seq<string>)
    decreases |s|
  {
    var n := WordLen(s);
    if n == |s| then [s]
    else
      var gap := SpaceLen(s[n..]);
      [s[..n]] + Split(s[n + gap..])
  }

  /** `parts.join(sep)`; an empty array joins to the empty string. */
  function Join(parts: seq<string>, sep: string): (r: string)
  {
    if |parts| == 0 then ""
    else if |parts| == 1 then parts[0]
    else parts[0] + sep + Join(parts[1..], sep)
  }

  /**
   * The shape of every result of `Split`: at least one token, no token holds
   * whitespace, and only the first and the last token may be empty.
   */
  predicate Tokens(w: seq<string>) {
    |w| >= 1 &&
    (forall k | 0 <= k < |w| :: NoSpace(w[k])) &&
    (forall k | 0 < k < |w| - 1 :: w[k] != "")
  }

  lemma WordLenOfSpaceFree(a: string, b: string)
    requires NoSpace(a)
    ensures WordLen(a + b) == |a| + WordLen(b)
  {
    if a != [] {
      assert (a + b)[0] == a[0] && !IsSpace(a[0]);
      assert (a + b)[1..] == a[1..] + b;
      assert NoSpace(a[1..]) by {
        forall i | 0 <= i < |a| - 1 ensures !IsSpace(a[1..][i]) { assert a[1..][i] == a[i + 1]; }
      }
      WordLenOfSpaceFree(a[1..], b);
    } else {
      assert a + b == b;
    }
  }

  /** Every result of `Split` has the shape `Tokens` describes. */
  lemma {:induction false} SplitTokens(s: string)
    ensures Tokens(Split(s))
    decreases |s|
  {
    var n := WordLen(s);
    if n < |s| {
      var gap := SpaceLen(s[n..]);
      var rest := s[n + gap..];
      SplitTokens(rest);
      if rest != [] {
        // the run of whitespace is maximal, so the next token starts with a word character
        assert !IsSpace(rest[0]);
        assert WordLen(rest) >= 1;
      }
      var r := Split(s);
      assert r == [s[..n]] + Split(rest);
      forall k | 0 < k < |r| - 1 ensures r[k] != "" {
        assert r[k] == Split(rest)[k - 1];
      }
    }
  }

  /** `tokens[0] + gaps[0] + tokens[1] + ... + gaps[n - 1] + tokens[n]`. */
  function Interleave(tokens: seq<string>, gaps: seq<string>): (r: string)
    requires |tokens| == |gaps| + 1
    decreases |gaps|
  {
    if gaps == [] then tokens[0]
    else tokens[0] + gaps[0] + Interleave(tokens[1..], gaps[1..])
  }

  /** An interleaving starts with the first token and ends with the last. */
  lemma {:induction false} InterleaveEnds(tokens: seq<string>, gaps: seq<string>)
    requires |tokens| == |gaps| + 1
    ensures var r := Interleave(tokens, gaps);
      |r| >= |tokens[0]| && r[..|tokens[0]|] == tokens[0] &&
      |r| >= |tokens[|gaps|]| && r[|r| - |tokens[|gaps|]|..] == tokens[|gaps|]
    decreases |gaps|
  {
    if gaps != [] {
      var tail := Interleave(tokens[1..], gaps[1..]);
      InterleaveEnds(tokens[1..], gaps[1..]);
      assert tokens[1..][|gaps| - 1] == tokens[|gaps|];
      var r := tokens[0] + gaps[0] + tail;
      assert r[|r| - |tail|..] == tail;
    }
  }

  /** The whitespace runs that `Split` cuts out of `s`, in order. */
  lemma {:induction false} SplitGaps(s: string) returns (gaps: seq<string>)
    ensures |gaps| + 1 == |Split(s)|
    ensures forall k | 0 <= k < |gaps| :: gaps[k] != "" && AllSpace(gaps[k])
    ensures s == Interleave(Split(s), gaps)
    decreases |s|
  {
    var n := WordLen(s);
    if n == |s| {
      gaps := [];
      assert s[..n] == s;
    } else {
      var gap := SpaceLen(s[n..]);
      WordThenGap(s);
      var g := s[n..][..gap];
      var rest := s[n + gap..];
      var more := SplitGaps(rest);
      InterleaveStep(s[..n], g, Split(rest), more);
      gaps := [g] + more;
      SplitUnfold(s, n, gap, rest);
    }
  }

  /** `Split` on a string with whitespace after its first word. */
  lemma SplitUnfold(s: string, n: nat, gap: nat, rest: string)
    requires n == WordLen(s) && n < |s| && gap == SpaceLen(s[n..]) && rest == s[n + gap..]
    ensures Split(s) == [s[..n]] + Split(rest)
  {
  }

  /** A word that stops before the end of `s` is followed by a non-empty run of whitespace. */
  lemma WordThenGap(s: string)
    requires WordLen(s) < |s|
    ensures var n := WordLen(s); var gap := SpaceLen(s[n..]);
      gap >= 1 && n + gap <= |s| && AllSpace(s[n..][..gap]) &&
      s == s[..n] + s[n..][..gap] + s[n + gap..]
  {
    var n := WordLen(s);
    var gap := SpaceLen(s[n..]);
    assert gap >= 1 by {
      assert s[n..][0] == s[n];
    }
    SliceThree(s, n, gap);
  }

  /** One more token and one more non-empty whitespace run in front of an interleaving. */
  lemma InterleaveStep(t: string, g: string, tokens: seq<string>, gaps: seq<string>)
    requires |tokens| == |gaps| + 1
    requires g != "" && AllSpace(g)
    requires forall k | 0 <= k < |gaps| :: gaps[k] != "" && AllSpace(gaps[k])
    ensures Interleave([t] + tokens, [g] + gaps) == t + g + Interleave(tokens, gaps)
    ensures forall k | 0 <= k < |[g] + gaps| :: ([g] + gaps)[k] != "" && AllSpace(([g] + gaps)[k])
  {
    assert ([t] + tokens)[1..] == tokens && ([g] + gaps)[1..] == gaps;
  }

  /** A sequence is its prefix of length `i`, the next `k` elements, and the rest. */
  lemma SliceThree<T>(s: seq<T>, i: nat, k: nat)
    requires i + k <= |s|
    ensures s == s[..i] + s[i..][..k] + s[i + k..]
  {
  }

  /**
   * `Split` cuts `s` exactly at its maximal runs of whitespace: between
   * consecutive tokens lies a non-empty run of whitespace (and the tokens
   * themselves hold none, by `SplitTokens`), and nothing else of `s` is lost.
   * Leading (trailing) whitespace therefore gives an empty first (last) token.
   */
  lemma SplitDecompose(s: string)
    ensures exists gaps: seq<string> ::
      |gaps| + 1 == |Split(s)| &&
      (forall k | 0 <= k < |gaps| :: gaps[k] != "" && AllSpace(gaps[k])) &&
      s == Interleave(Split(s), gaps)
    ensures |s| > 0 && IsSpace(s[0]) ==> Split(s)[0] == ""
    ensures |s| > 0 && IsSpace(s[|s| - 1]) ==> Split(s)[|Split(s)| - 1] == ""
  {
    var gaps := SplitGaps(s);
    assert |gaps| + 1 == |Split(s)| &&
      (forall k | 0 <= k < |gaps| :: gaps[k] != "" && AllSpace(gaps[k])) &&
      s == Interleave(Split(s), gaps);
    if |s| > 0 && IsSpace(s[0]) {
      assert WordLen(s) == 0;
    }
    if |s| > 0 && IsSpace(s[|s| - 1]) {
      SplitTrailing(s, gaps);
    }
  }

  lemma SplitTrailing(s: string, gaps: seq<string>)
    requires |gaps| + 1 == |Split(s)| && s == Interleave(Split(s), gaps)
    requires |s| > 0 && IsSpace(s[|s| - 1])
    ensures Split(s)[|gaps|] == ""
  {
    var last := Split(s)[|gaps|];
    InterleaveEnds(Split(s), gaps);
    assert NoSpace(last) by {
      SplitTokens(s);
    }
    if last != "" {
      assert false;
    }
  }

  lemma JoinAppend(a: seq<string>, b: seq<string>, sep: string)
    requires |a| >= 1 && |b| >= 1
    ensures Join(a + b, sep) == Join(a, sep) + sep + Join(b, sep)
  {
    if |a| == 1 {
      assert (a + b)[1..] == b;
    } else {
      assert (a + b)[1..] == a[1..] + b;
      JoinAppend(a[1..], b, sep);
    }
  }

  /** A token, one space, and a rest that does not start with whitespace split at that space. */
  lemma SplitCons(a: string, b: string)
    requires NoSpace(a) && (b == [] || !IsSpace(b[0]))
    ensures Split(a + " " + b) == [a] + Split(b)
  {
    var s := a + " " + b;
    var n := |a|;
    assert WordLen(s) == n by {
      assert s == a + (" " + b);
      WordLenOfSpaceFree(a, " " + b);
    }
    assert s[..n] == a && s[n..] == " " + b && s[n + 1..] == b;
    assert SpaceLen(s[n..]) == 1 by {
      assert (" " + b)[1..] == b;
    }
    assert Split(s) == [s[..n]] + Split(s[n + 1..]);
  }

  /** Splitting the single-space join of well-shaped tokens gives the tokens back. */
  lemma {:induction false} SplitJoin(w: seq<string>)
    requires Tokens(w)
    ensures Split(Join(w, " ")) == w
  {
    if |w| == 1 {
      SplitWord(w[0]);
    } else {
      var j := Join(w[1..], " ");
      assert Split(j) == w[1..] by {
        TokensTail(w);
        SplitJoin(w[1..]);
      }
      assert Split(w[0] + " " + j) == [w[0]] + Split(j) by {
        TokensTail(w);
        JoinHead(w[1..]);
        SplitCons(w[0], j);
      }
      assert Join(w, " ") == w[0] + " " + j;
      assert w == [w[0]] + w[1..];
    }
  }

  /** A text without whitespace splits into itself alone. */
  lemma SplitWord(a: string)
    requires NoSpace(a)
    ensures Split(a) == [a]
  {
    WordLenOfSpaceFree(a, []);
    assert a + [] == a;
  }

  /** Dropping the first token keeps the shape, and the new first token is non-empty unless it is the last. */
  lemma TokensTail(w: seq<string>)
    requires Tokens(w) && |w| >= 2
    ensures Tokens(w[1..])
    ensures w[1] == "" ==> |w| == 2
  {
    forall k | 0 < k < |w[1..]| - 1 ensures w[1..][k] != "" {
      assert w[1..][k] == w[k + 1];
    }
  }

  /** The join of well-shaped tokens is empty or starts with a non-whitespace character. */
  lemma JoinHead(w: seq<string>)
    requires Tokens(w)
    requires w[0] == "" ==> |w| == 1
    ensures var j := Join(w, " "); j == [] || !IsSpace(j[0])
  {
    if w[0] != "" {
      var j := Join(w, " ");
      if |w| > 1 {
        assert j == w[0] + (" " + Join(w[1..], " "));
      }
      assert j[0] == w[0][0];
    }
  }

  /** Concatenation of a sequence of token windows. */
  function Flatten(ws: seq<seq<string>>): (r: seq<string>)
  {
    if ws == [] then [] else ws[0] + Flatten(ws[1..])
  }

  /** Each window joined with single spaces. */
  function JoinEach(ws: seq<seq<string>>): (r: seq<string>)
    ensures |r| == |ws|
  {
    if ws == [] then [] else [Join(ws[0], " ")] + JoinEach(ws[1..])
  }

  /** Entry `k` of `JoinEach(ws)` is window `k` joined with single spaces. */
  lemma {:induction false} JoinEachAt(ws: seq<seq<string>>, k: nat)
    requires k < |ws|
    ensures JoinEach(ws)[k] == Join(ws[k], " ")
  {
    if k > 0 {
      JoinEachAt(ws[1..], k - 1);
    }
  }

  /** Joining the joined windows equals joining the flattened tokens. */
  lemma {:induction false} JoinFlatten(ws: seq<seq<string>>)
    requires forall k | 0 <= k < |ws| :: |ws[k]| >= 1
    ensures Join(JoinEach(ws), " ") == Join(Flatten(ws), " ")
  {
    if |ws| == 1 {
      assert Flatten(ws) == ws[0] + Flatten([]);
      assert ws[0] + [] == ws[0];
    } else if |ws| > 1 {
      var rest := ws[1..];
      JoinFlatten(rest);
      assert JoinEach(ws) == [Join(ws[0], " ")] + JoinEach(rest);
      assert |Flatten(rest)| >= 1 by { assert Flatten(rest) == rest[0] + Flatten(rest[1..]); }
      JoinAppend(ws[0], Flatten(rest), " ");
    }
  }

  /** `s` occurs in `text` as a contiguous piece. */
  predicate Contains(text: string, s: string) {
    exists i, j | 0 <= i <= j <= |text| :: text[i..j] == s
  }

  /** Every part of a join occurs in the joined text. */
  lemma {:induction false} JoinContainsParts(parts: seq<string>, sep: string, k: nat)
    requires k < |parts|
    ensures Contains(Join(parts, sep), parts[k])
  {
    var t := Join(parts, sep);
    if |parts| == 1 {
      assert t[0..|t|] == parts[0];
    } else if k == 0 {
      assert t[0..|parts[0]|] == parts[0];
    } else {
      var tail := Join(parts[1..], sep);
      JoinContainsParts(parts[1..], sep, k - 1);
      var i, j :| 0 <= i <= j <= |tail| && tail[i..j] == parts[k];
      var off := |parts[0]| + |sep|;
      assert t == parts[0] + sep + tail;
      assert t[off + i..off + j] == tail[i..j];
    }
  }

  /** The length of the longest prefix of `s` free of `c`. */
  function PrefixWithout(s: string, c: char): (n: nat)
    ensures n <= |s| && c !in s[..n] && (n < |s| ==> s[n] == c)
  {
    if |s| == 0 || s[0] == c then 0
    else
      var n := PrefixWithout(s[1..], c) + 1;
      assert s[..n] == [s[0]] + s[1..][..n - 1];
      n
  }

  /** `s.split(c)` for a one-character separator: the pieces between the `c`s. */
  function SplitOn(s: string, c: char): (parts: seq<string>)
    ensures |parts| >= 1
    decreases |s|
  {
    var n := PrefixWithout(s, c);
    if n == |s| then [s] else [s[..n]] + SplitOn(s[n + 1..], c)
  }

  lemma PrefixWithoutAppend(a: string, c: char, b: string)
    requires c !in a
    ensures PrefixWithout(a + [c] + b, c) == |a|
  {
    var s := a + [c] + b;
    var n := PrefixWithout(s, c);
    assert s[..|a|] == a;
    assert forall i | 0 <= i < |a| :: s[i] == a[i];
    assert forall m | |a| < m <= |s| :: s[..m][|a|] == c;
  }

  /**
   * Splitting a join on its one-character separator gives back the parts,
   * when no part contains the separator.
   */
  lemma {:induction false} SplitOnJoin(parts: seq<string>, c: char)
    requires |parts| >= 1
    requires forall k | 0 <= k < |parts| :: c !in parts[k]
    ensures SplitOn(Join(parts, [c]), c) == parts
  {
    var t := Join(parts, [c]);
    if |parts| == 1 {
      assert PrefixWithout(t, c) == |t| by {
        assert t[..|t|] == t;
      }
    } else {
      var tail := Join(parts[1..], [c]);
      assert t == parts[0] + [c] + tail;
      PrefixWithoutAppend(parts[0], c, tail);
      assert t[..|parts[0]|] == parts[0];
      assert t[|parts[0]| + 1..] == tail;
      SplitOnJoin(parts[1..], c);
      assert parts == [parts[0]] + parts[1..];
    }
  }

  /** `s.trim()`: `s` without its leading and trailing whitespace. */
  function Trim(s: string): (r: string)
  {
    TrimEnd(s[SpaceLen(s)..])
  }

  function TrimEnd(s: string): (r: string)
    ensures |r| <= |s| && r == s[..|r|]
    ensures AllSpace(s[|r|..])
    ensures r == [] || !IsSpace(r[|r| - 1])
  {
    if s != [] && IsSpace(s[|s| - 1]) then
      var r := TrimEnd(s[..|s| - 1]);
      assert s[|r|..] == s[..|s| - 1][|r|..] + [s[|s| - 1]];
      r
    else
      s
  }

  /**
   * `Trim` against an independent description: `s` is some whitespace, then the
   * result, then some whitespace, and the result neither starts nor ends with
   * whitespace. The result is empty exactly when `s` is all whitespace.
   */
  lemma TrimSpec(s: string)
    ensures var r := Trim(s);
      exists lead, trail :: s == lead + r + trail && AllSpace(lead) && AllSpace(trail)
    ensures var r := Trim(s);
      r == [] || (!IsSpace(r[0]) && !IsSpace(r[|r| - 1]))
    ensures Trim(s) == [] <==> AllSpace(s)
  {
    var n := SpaceLen(s);
    var t := s[n..];
    var r := TrimEnd(t);
    assert s == s[..n] + r + t[|r|..];
    if r != [] {
      assert r[0] == s[n];
    }
    if r == [] {
      assert n == |s|;
    }
  }

  /** Trimming twice is trimming once. */
  lemma TrimIdempotent(s: string)
    ensures Trim(Trim(s)) == Trim(s)
  {
    var r := Trim(s);
    TrimSpec(s);
    assert SpaceLen(r) == 0;
    assert r[0..] == r;
  }

  // ----- decimal rendering of naturals (`${n}` in a template literal) -----

  predicate IsDigit(c: char) {
    '0' <= c <= '9'
  }

  predicate AllDigits(s: string) {
    forall i | 0 <= i < |s| :: IsDigit(s[i])
  }

  function DigitChar(d: nat): (c: char)
    requires d < 10
    ensures IsDigit(c)
  {
    ('0' as int + d) as char
  }

  /** The shortest decimal numeral of `n`, as JavaScript prints a safe integer. */
  function Decimal(n: nat): (s: string)
    ensures |s| >= 1 && AllDigits(s)
  {
    if n < 10 then [DigitChar(n)] else Decimal(n / 10) + [DigitChar(n % 10)]
  }

  /** Reads a string of decimal digits back as a number. */
  function ParseDecimal(s: string): (n: nat)
    requires AllDigits(s)
  {
    if s == [] then 0
    else 10 * ParseDecimal(s[..|s| - 1]) + (s[|s| - 1] as int - '0' as int)
  }

  /** `Decimal` is undone by `ParseDecimal`; so distinct numbers print differently. */
  lemma {:induction false} DecimalRoundTrip(n: nat)
    ensures ParseDecimal(Decimal(n)) == n
  {
    if n >= 10 {
      var s := Decimal(n);
      assert s[..|s| - 1] == Decimal(n / 10);
      DecimalRoundTrip(n / 10);
    }
  }

  lemma DecimalInjective(a: nat, b: nat)
    ensures Decimal(a) == Decimal(b) ==> a == b
  {
    DecimalRoundTrip(a);
    DecimalRoundTrip(b);
  }

  /**
   * An identifier `prefix + digits`, where the prefix ends in a non-digit,
   * determines its trailing digit run and everything before it.
   */
  lemma TrailingDigits(p1: string, d1: string, p2: string, d2: string)
    requires |p1| >= 1 && !IsDigit(p1[|p1| - 1]) && AllDigits(d1)
    requires |p2| >= 1 && !IsDigit(p2[|p2| - 1]) && AllDigits(d2)
    ensures p1 + d1 == p2 + d2 ==> p1 == p2 && d1 == d2
  {
    if p1 + d1 == p2 + d2 {
      var s := p1 + d1;
      assert p1 == s[..|p1|];
      assert p2 == s[..|p2|];
      assert d1 == s[|p1|..];
      assert d2 == s[|p2|..];
    }
  }
}
