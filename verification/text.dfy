/**
  The JavaScript string operations the node relies on: `trim()`,
  `includes()`, `startsWith()`, `split(/\s+/)`, `join()` and the decimal
  rendering of a whole number inside a template literal.
 */
module Text {

  /** The characters JavaScript's `trim()` strips and the regular expression
      class `\s` matches: the white-space and line-terminator code points. */
  predicate IsWhitespace(c: char) {
    || c == '\t' || c == '\n' || c == '\U{000B}' || c == '\U{000C}' || c == '\r'
    || c == ' ' || c == '\U{00A0}' || c == '\U{1680}'
    || ('\U{2000}' <= c <= '\U{200A}')
    || c == '\U{2028}' || c == '\U{2029}' || c == '\U{202F}' || c == '\U{205F}'
    || c == '\U{3000}' || c == '\U{FEFF}'
  }

  /** Empty, or made of white space only. */
  predicate IsBlank(s: string) {
    forall i | 0 <= i < |s| :: IsWhitespace(s[i])
  }

  /** Holds no white-space character at all. */
  predicate HasNoWhitespace(s: string) {
    forall i | 0 <= i < |s| :: !IsWhitespace(s[i])
  }

  /** The number of white-space characters `s` starts with. */
  function LeadingSpace(s: string): (k: nat)
    ensures k <= |s|
    ensures forall i | 0 <= i < k :: IsWhitespace(s[i])
    ensures k < |s| ==> !IsWhitespace(s[k])
  {
    if s != [] && IsWhitespace(s[0]) then 1 + LeadingSpace(s[1..]) else 0
  }

  /** The number of white-space characters `s` ends with. */
  function TrailingSpace(s: string): (k: nat)
    ensures k <= |s|
    ensures forall i | |s| - k <= i < |s| :: IsWhitespace(s[i])
    ensures k < |s| ==> !IsWhitespace(s[|s| - 1 - k])
  {
    if s != [] && IsWhitespace(s[|s| - 1]) then 1 + TrailingSpace(s[..|s| - 1]) else 0
  }

  /** The number of non-white-space characters `s` starts with. */
  function WordLength(s: string): (k: nat)
    ensures k <= |s|
    ensures forall i | 0 <= i < k :: !IsWhitespace(s[i])
    ensures k < |s| ==> IsWhitespace(s[k])
  {
    if s != [] && !IsWhitespace(s[0]) then 1 + WordLength(s[1..]) else 0
  }

  /** JavaScript's `s.trim()`: the white space at both ends removed. The
      result is the infix of `s` that starts after its leading white space,
      is followed only by white space, and neither starts nor ends with
      white space; it is empty exactly when `s` is blank. */
  function Trim(s: string): (r: string)
    ensures r == [] <==> IsBlank(s)
    ensures r != [] ==> !IsWhitespace(r[0]) && !IsWhitespace(r[|r| - 1])
    ensures LeadingSpace(s) + |r| <= |s|
    ensures r == s[LeadingSpace(s)..LeadingSpace(s) + |r|]
    ensures IsBlank(s[LeadingSpace(s) + |r|..])
  {
    var t := s[LeadingSpace(s)..];
    t[..|t| - TrailingSpace(t)]
  }

  /** JavaScript's `s.startsWith(p)`. */
  predicate StartsWith(s: string, p: string) {
    |p| <= |s| && s[..|p|] == p
  }

  /** `w` occurs in `s` starting at index `i`. */
  predicate OccursAt(s: string, w: string, i: int) {
    0 <= i && i + |w| <= |s| && s[i..i + |w|] == w
  }

  /** JavaScript's `s.includes(w)`: `w` occurs somewhere in `s`. */
  predicate Contains(s: string, w: string) {
    exists i | 0 <= i <= |s| - |w| :: OccursAt(s, w, i)
  }

  /** A word surrounded by two strings occurs in the whole when it occurs in
      the middle. */
  lemma ContainsMiddle(a: string, m: string, b: string)
    ensures Contains(a + m + b, m)
  {
    assert (a + m + b)[|a|..|a| + |m|] == m;
    assert OccursAt(a + m + b, m, |a|);
  }

  /** Some character occurs both in `d` and in `w`. */
  predicate SharesChar(d: string, w: string) {
    exists x, y | 0 <= x < |d| && 0 <= y < |w| :: d[x] == w[y]
  }

  /** An occurrence of `w` in `a + d + b` lies inside `a`, lies inside `b`,
      or overlaps `d` and so shares a character with it. */
  lemma OccurrenceAroundSeparator(a: string, d: string, b: string, w: string, i: int)
    requires d != [] && w != [] && OccursAt(a + d + b, w, i)
    ensures OccursAt(a, w, i) || OccursAt(b, w, i - |a| - |d|) || SharesChar(d, w)
  {
    var s := a + d + b;
    if i + |w| <= |a| {
      assert s[i..i + |w|] == a[i..i + |w|];
    } else if i >= |a| + |d| {
      var k := i - |a| - |d|;
      assert s[i..i + |w|] == b[k..k + |w|];
    } else {
      var p := if i >= |a| then i else |a|;
      assert s[p] == s[i..i + |w|][p - i];
      assert d[p - |a|] == w[p - i];
    }
  }

  /** An occurrence in either part of a concatenation is an occurrence in
      the whole, shifted past the first part when it lies in the second. */
  lemma OccursInParts(a: string, b: string, w: string, i: int)
    ensures OccursAt(a, w, i) ==> OccursAt(a + b, w, i)
    ensures OccursAt(b, w, i) ==> OccursAt(a + b, w, |a| + i)
  {
    if OccursAt(a, w, i) {
      assert (a + b)[i..i + |w|] == a[i..i + |w|];
    }
    if OccursAt(b, w, i) {
      assert (a + b)[|a| + i..|a| + i + |w|] == b[i..i + |w|];
    }
  }

  /** A word that shares no character with a non-empty separator `d` occurs
      in `a + d + b` exactly when it occurs in `a` or in `b`. */
  lemma ContainsAcrossSeparator(a: string, d: string, b: string, w: string)
    requires d != [] && w != [] && !SharesChar(d, w)
    ensures Contains(a + d + b, w) <==> Contains(a, w) || Contains(b, w)
  {
    var s := a + d + b;
    forall i | OccursAt(s, w, i)
      ensures Contains(a, w) || Contains(b, w)
    {
      OccurrenceAroundSeparator(a, d, b, w, i);
    }
    if i :| OccursAt(a, w, i) {
      OccursInParts(a, d, w, i);
      OccursInParts(a + d, b, w, i);
    }
    if k :| OccursAt(b, w, k) {
      OccursInParts(a + d, b, w, k);
    }
  }

  /** A word holding a character that `s` lacks does not occur in `s`. */
  lemma MissingCharNotContained(s: string, w: string, c: char)
    requires c in w && c !in s
    ensures !Contains(s, w)
  {
  }

  /** JavaScript's `s.split(/\s+/)`: the maximal runs of non-white-space
      characters between runs of white space, with an empty first (last)
      piece when `s` starts (ends) with white space. */
  function Split(s: string): (r: seq<string>)
    ensures |r| >= 1
    decreases |s|
  {
    var k := WordLength(s);
    if k == |s| then [s]
    else
      var rest := s[k..];
      [s[..k]] + Split(rest[LeadingSpace(rest)..])
  }

  /** Every piece `Split` returns is free of white space. */
  lemma {:induction false} SplitPiecesHaveNoWhitespace(s: string)
    ensures forall t <- Split(s) :: HasNoWhitespace(t)
    decreases |s|
  {
    var k := WordLength(s);
    if k < |s| {
      var rest := s[k..];
      SplitPiecesHaveNoWhitespace(rest[LeadingSpace(rest)..]);
    }
  }

  /** Splitting a string that neither starts nor ends with white space
      yields only non-empty pieces. */
  lemma {:induction false} SplitTrimmedPiecesNonEmpty(s: string)
    requires s != [] && !IsWhitespace(s[0]) && !IsWhitespace(s[|s| - 1])
    ensures forall t <- Split(s) :: t != []
    decreases |s|
  {
    var k := WordLength(s);
    if k < |s| {
      var rest := s[k..];
      var next := rest[LeadingSpace(rest)..];
      assert LeadingSpace(rest) < |rest| by {
        assert !IsWhitespace(rest[|rest| - 1]);
      }
      SplitTrimmedPiecesNonEmpty(next);
    }
  }

  /** The characters of `s` that are not white space, in order. */
  function NonWhitespace(s: string): (r: string)
    ensures HasNoWhitespace(r)
  {
    if s == [] then []
    else if IsWhitespace(s[0]) then NonWhitespace(s[1..])
    else [s[0]] + NonWhitespace(s[1..])
  }

  lemma {:induction false} NonWhitespaceAppend(a: string, b: string)
    ensures NonWhitespace(a + b) == NonWhitespace(a) + NonWhitespace(b)
    decreases |a|
  {
    if a == [] {
      assert a + b == b;
    } else {
      assert (a + b)[0] == a[0];
      assert (a + b)[1..] == a[1..] + b;
      NonWhitespaceAppend(a[1..], b);
    }
  }

  lemma {:induction false} NonWhitespaceOfBlank(s: string)
    requires IsBlank(s)
    ensures NonWhitespace(s) == []
    decreases |s|
  {
    if s != [] {
      NonWhitespaceOfBlank(s[1..]);
    }
  }

  lemma {:induction false} NonWhitespaceOfWord(s: string)
    requires HasNoWhitespace(s)
    ensures NonWhitespace(s) == s
    decreases |s|
  {
    if s != [] {
      NonWhitespaceOfWord(s[1..]);
    }
  }

  /** The strings of `ts` concatenated in order. */
  function Concat(ts: seq<string>): string {
    if ts == [] then [] else ts[0] + Concat(ts[1..])
  }

  /** Splitting loses no character but white space: the pieces, put back
      together in order, are exactly the non-white-space characters of the
      input. */
  lemma {:induction false} SplitKeepsContent(s: string)
    ensures Concat(Split(s)) == NonWhitespace(s)
    decreases |s|
  {
    var k := WordLength(s);
    if k == |s| {
      NonWhitespaceOfWord(s);
    } else {
      var rest := s[k..];
      var next := rest[LeadingSpace(rest)..];
      ConcatSplitAtGap(s);
      NonWhitespaceAtGap(s);
      SplitKeepsContent(next);
    }
  }

  lemma ConcatSplitAtGap(s: string)
    requires WordLength(s) < |s|
    ensures var k := WordLength(s); var rest := s[k..];
      Concat(Split(s)) == s[..k] + Concat(Split(rest[LeadingSpace(rest)..]))
  {
    var k := WordLength(s);
    var rest := s[k..];
    var pieces := Split(rest[LeadingSpace(rest)..]);
    assert Split(s) == [s[..k]] + pieces;
    assert ([s[..k]] + pieces)[1..] == pieces;
  }

  lemma NonWhitespaceAtGap(s: string)
    requires WordLength(s) < |s|
    ensures var k := WordLength(s); var rest := s[k..];
      NonWhitespace(s) == s[..k] + NonWhitespace(rest[LeadingSpace(rest)..])
  {
    var k := WordLength(s);
    var rest := s[k..];
    NonWhitespaceKeepsWord(s, k);
    NonWhitespaceDropsBlank(rest, LeadingSpace(rest));
  }

  /** A string is its prefix followed by the rest. */
  lemma TakeThenDrop(s: string, n: nat)
    requires n <= |s|
    ensures s[..n] + s[n..] == s
  {
  }

  lemma NonWhitespaceOfWordThen(word: string, rest: string)
    requires HasNoWhitespace(word)
    ensures NonWhitespace(word + rest) == word + NonWhitespace(rest)
  {
    NonWhitespaceOfWord(word);
    NonWhitespaceAppend(word, rest);
  }

  lemma NonWhitespaceOfBlankThen(blank: string, rest: string)
    requires IsBlank(blank)
    ensures NonWhitespace(blank + rest) == NonWhitespace(rest)
  {
    NonWhitespaceOfBlank(blank);
    NonWhitespaceAppend(blank, rest);
  }

  lemma NonWhitespaceKeepsWord(s: string, n: nat)
    requires n <= |s| && forall i | 0 <= i < n :: !IsWhitespace(s[i])
    ensures NonWhitespace(s) == s[..n] + NonWhitespace(s[n..])
  {
    TakeThenDrop(s, n);
    NonWhitespaceOfWordThen(s[..n], s[n..]);
  }

  lemma NonWhitespaceDropsBlank(s: string, n: nat)
    requires n <= |s| && forall i | 0 <= i < n :: IsWhitespace(s[i])
    ensures NonWhitespace(s) == NonWhitespace(s[n..])
  {
    TakeThenDrop(s, n);
    NonWhitespaceOfBlankThen(s[..n], s[n..]);
  }

  lemma NonWhitespaceDropsTrailingBlank(s: string, n: nat)
    requires n <= |s| && IsBlank(s[n..])
    ensures NonWhitespace(s) == NonWhitespace(s[..n])
  {
    TakeThenDrop(s, n);
    NonWhitespaceAppend(s[..n], s[n..]);
    NonWhitespaceOfBlank(s[n..]);
  }

  /** Trimming drops white space only. */
  lemma NonWhitespaceOfTrim(s: string)
    ensures NonWhitespace(Trim(s)) == NonWhitespace(s)
  {
    var r := Trim(s);
    var lead := LeadingSpace(s);
    var body := s[lead..];
    NonWhitespaceDropsBlank(s, lead);
    assert body[|r|..] == s[lead + |r|..];
    assert body[..|r|] == r;
    NonWhitespaceDropsTrailingBlank(body, |r|);
  }

  /** JavaScript's `xs.join(sep)`. */
  function Join(xs: seq<string>, sep: string): string {
    if xs == [] then []
    else if |xs| == 1 then xs[0]
    else xs[0] + sep + Join(xs[1..], sep)
  }

  /** Non-empty strings free of white space. */
  predicate AreWords(ts: seq<string>) {
    forall t <- ts :: t != [] && HasNoWhitespace(t)
  }

  /** Non-empty runs of white space. */
  predicate AreGaps(gaps: seq<string>) {
    forall g <- gaps :: g != [] && IsBlank(g)
  }

  /** The words `ts` with `gaps[i]` written between `ts[i]` and
      `ts[i + 1]`. */
  function JoinWith(ts: seq<string>, gaps: seq<string>): string
    requires |ts| >= 1 && |gaps| == |ts| - 1
    decreases |ts|
  {
    if |ts| == 1 then ts[0] else ts[0] + gaps[0] + JoinWith(ts[1..], gaps[1..])
  }

  /** A run of white space followed by a non-white-space character is the
      leading white space. */
  lemma LeadingSpaceOfGap(g: string, rest: string)
    requires IsBlank(g) && rest != [] && !IsWhitespace(rest[0])
    ensures LeadingSpace(g + rest) == |g|
  {
    assert (g + rest)[|g|] == rest[0];
    assert forall i | 0 <= i < |g| :: (g + rest)[i] == g[i];
  }

  /** Splitting words separated by arbitrary runs of white space gives the
      words back: the separators are where the pieces break, and nowhere
      else. */
  lemma {:induction false} SplitJoinWithRoundTrip(ts: seq<string>, gaps: seq<string>)
    requires |ts| >= 1 && |gaps| == |ts| - 1
    requires AreWords(ts) && AreGaps(gaps)
    ensures Split(JoinWith(ts, gaps)) == ts
    decreases |ts|
  {
    assert ts[0] in ts;
    if |ts| > 1 {
      var tail := JoinWith(ts[1..], gaps[1..]);
      assert gaps[0] in gaps && ts[1] in ts;
      JoinWithStartsWithFirst(ts[1..], gaps[1..]);
      SplitAtGap(ts[0], gaps[0], tail);
      assert AreWords(ts[1..]) by {
        assert forall t <- ts[1..] :: t in ts;
      }
      assert AreGaps(gaps[1..]) by {
        assert forall t <- gaps[1..] :: t in gaps;
      }
      SplitJoinWithRoundTrip(ts[1..], gaps[1..]);
      assert ts == [ts[0]] + ts[1..];
    }
  }

  /** A word, a run of white space, and a string starting with a
      non-white-space character split into the word and the pieces of that
      string. */
  lemma SplitAtGap(w: string, g: string, tail: string)
    requires w != [] && HasNoWhitespace(w)
    requires g != [] && IsBlank(g)
    requires tail != [] && !IsWhitespace(tail[0])
    ensures Split(w + g + tail) == [w] + Split(tail)
  {
    var s := w + g + tail;
    assert s == w + (g + tail);
    assert (g + tail)[0] == g[0];
    WordLengthOfWordThenSpace(w, g + tail);
    var rest := s[|w|..];
    assert rest == g + tail;
    LeadingSpaceOfGap(g, tail);
    assert rest[|g|..] == tail;
    assert s[..|w|] == w;
  }

  lemma JoinWithStartsWithFirst(ts: seq<string>, gaps: seq<string>)
    requires |ts| >= 1 && |gaps| == |ts| - 1 && ts[0] != []
    ensures JoinWith(ts, gaps) != [] && JoinWith(ts, gaps)[0] == ts[0][0]
  {
  }

  /** The joined words end with the last word. */
  lemma {:induction false} JoinWithEndsWithLast(ts: seq<string>, gaps: seq<string>)
    requires |ts| >= 1 && |gaps| == |ts| - 1
    ensures |JoinWith(ts, gaps)| >= |ts[|ts| - 1]|
    ensures JoinWith(ts, gaps)[|JoinWith(ts, gaps)| - |ts[|ts| - 1]|..] == ts[|ts| - 1]
    decreases |ts|
  {
    if |ts| > 1 {
      JoinWithEndsWithLast(ts[1..], gaps[1..]);
      var j := JoinWith(ts, gaps);
      var tail := JoinWith(ts[1..], gaps[1..]);
      assert j == (ts[0] + gaps[0]) + tail;
      assert j[|j| - |tail|..] == tail;
    }
  }

  /** A character that is not white space lies before any blank suffix. */
  lemma NonWhitespaceBeforeBlank(s: string, j: nat, k: nat)
    requires j <= |s| && IsBlank(s[j..]) && k < |s| && !IsWhitespace(s[k])
    ensures k < j
  {
  }

  /** When `s` is white space outside the window `s[a..b]` and the window
      neither starts nor ends with white space, trimming gives the window. */
  lemma TrimOfWindow(s: string, a: nat, b: nat)
    requires a < b <= |s|
    requires forall i | 0 <= i < a :: IsWhitespace(s[i])
    requires forall i | b <= i < |s| :: IsWhitespace(s[i])
    requires !IsWhitespace(s[a]) && !IsWhitespace(s[b - 1])
    ensures Trim(s) == s[a..b]
  {
    var k := LeadingSpace(s);
    assert k == a;
    var r := Trim(s);
    assert r != [] by { assert !IsWhitespace(s[a]); }
    assert IsBlank(s[a + |r|..]);
    NonWhitespaceBeforeBlank(s, a + |r|, b - 1);
    assert s[a + |r| - 1] == r[|r| - 1];
    assert a + |r| <= b;
  }

  /** Trimming a non-empty string that neither starts nor ends with white
      space, padded with white space on both sides, gives that string. */
  lemma TrimOfPadded(lead: string, x: string, trail: string)
    requires IsBlank(lead) && IsBlank(trail)
    requires x != [] && !IsWhitespace(x[0]) && !IsWhitespace(x[|x| - 1])
    ensures Trim(lead + x + trail) == x
  {
    var s := lead + x + trail;
    var a, b := |lead|, |lead| + |x|;
    assert forall i | 0 <= i < a :: s[i] == lead[i];
    assert forall i | b <= i < |s| :: s[i] == trail[i - b];
    assert s[a..b] == x;
    TrimOfWindow(s, a, b);
  }

  /** Joining ends with the last element. */
  /** `xs.join(sep)` is the joining with the same separator in every gap. */
  lemma {:induction false} JoinIsJoinWith(xs: seq<string>, sep: string)
    requires xs != []
    ensures Join(xs, sep) == JoinWith(xs, seq(|xs| - 1, _ => sep))
    decreases |xs|
  {
    if |xs| > 1 {
      var gaps := seq(|xs| - 1, _ => sep);
      assert gaps[0] == sep;
      assert gaps[1..] == seq(|xs| - 2, _ => sep);
      JoinIsJoinWith(xs[1..], sep);
    }
  }

  lemma JoinEndsWithLast(xs: seq<string>, sep: string)
    requires xs != []
    ensures |Join(xs, sep)| >= |xs[|xs| - 1]|
    ensures Join(xs, sep)[|Join(xs, sep)| - |xs[|xs| - 1]|..] == xs[|xs| - 1]
  {
    JoinIsJoinWith(xs, sep);
    JoinWithEndsWithLast(xs, seq(|xs| - 1, _ => sep));
  }

  lemma WordLengthOfWordThenSpace(w: string, rest: string)
    requires HasNoWhitespace(w)
    requires rest != [] && IsWhitespace(rest[0])
    ensures WordLength(w + rest) == |w|
  {
    assert (w + rest)[|w|] == rest[0];
  }

  /** The decimal digit `d` as a character. */
  function DigitChar(d: nat): (c: char)
    requires d < 10
    ensures '0' <= c <= '9'
  {
    (48 + d) as char
  }

  /** The decimal digits of `n`. For `n` below 2^53 this is what `${n}`
      prints; JavaScript numbers are doubles, so larger values print rounded
      digits, and from 10^21 on exponent form. */
  function NatToString(n: nat): (r: string)
    ensures r != []
    ensures forall i | 0 <= i < |r| :: '0' <= r[i] <= '9'
    decreases n
  {
    if n < 10 then [DigitChar(n)] else NatToString(n / 10) + [DigitChar(n % 10)]
  }

  /** The value of a string of decimal digits. */
  function DigitsValue(s: string): nat
    requires forall i | 0 <= i < |s| :: '0' <= s[i] <= '9'
  {
    if s == [] then 0
    else 10 * DigitsValue(s[..|s| - 1]) + (s[|s| - 1] as int - 48)
  }

  /** The rendering of a whole number reads back as that number. */
  lemma {:induction false} NatToStringRoundTrip(n: nat)
    ensures DigitsValue(NatToString(n)) == n
    decreases n
  {
    if n >= 10 {
      NatToStringRoundTrip(n / 10);
      var r := NatToString(n);
      assert r[..|r| - 1] == NatToString(n / 10);
    }
  }
}
