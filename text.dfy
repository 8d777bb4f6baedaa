/** The word limiter applied to every assistant reply: JavaScript's trim, a split on
    runs of whitespace and a join with single spaces, together with a reference
    definition of "the words of a string" as its maximal runs of non-whitespace
    characters. Positions are used instead of slices wherever a definition walks
    along a string. */
module Text {

  /** U+2026 HORIZONTAL ELLIPSIS, the truncation marker. */
  const Ellipsis: char := '\U{2026}'

  /** The characters JavaScript's String.prototype.trim removes and its regular
      expression class \s matches (WhiteSpace and LineTerminator). */
  predicate IsSpace(c: char) {
    c == ' ' || c == '\t' || c == '\n' || c == '\r' || c == '\U{000B}' || c == '\U{000C}'
    || c == '\U{00A0}' || c == '\U{1680}' || ('\U{2000}' <= c <= '\U{200A}')
    || c == '\U{2028}' || c == '\U{2029}' || c == '\U{202F}' || c == '\U{205F}'
    || c == '\U{3000}' || c == '\U{FEFF}'
  }

  /** Every character of s[i..j] is whitespace. */
  predicate AllSpaceIn(s: string, i: nat, j: nat)
    requires i <= j <= |s|
  {
    forall k :: i <= k < j ==> IsSpace(s[k])
  }

  /** No character of s[i..j] is whitespace. */
  predicate NoSpaceIn(s: string, i: nat, j: nat)
    requires i <= j <= |s|
  {
    forall k :: i <= k < j ==> !IsSpace(s[k])
  }

  predicate AllSpace(s: string) {
    AllSpaceIn(s, 0, |s|)
  }

  predicate NoSpace(s: string) {
    NoSpaceIn(s, 0, |s|)
  }

  /** Neither starts nor ends with whitespace. */
  predicate IsTrimmed(s: string) {
    s == [] || (!IsSpace(s[0]) && !IsSpace(s[|s| - 1]))
  }

  /** A word: non-empty and free of whitespace. */
  predicate IsWord(w: string) {
    w != [] && NoSpace(w)
  }

  /** The end of the run of whitespace that starts at position i. */
  function SpaceEnd(s: string, i: nat): (j: nat)
    requires i <= |s|
    ensures i <= j <= |s| && AllSpaceIn(s, i, j)
    ensures j < |s| ==> !IsSpace(s[j])
    decreases |s| - i
  {
    if i == |s| || !IsSpace(s[i]) then i else SpaceEnd(s, i + 1)
  }

  /** The end of the run of non-whitespace that starts at position i. */
  function WordEnd(s: string, i: nat): (j: nat)
    requires i <= |s|
    ensures i <= j <= |s| && NoSpaceIn(s, i, j)
    ensures j < |s| ==> IsSpace(s[j])
    decreases |s| - i
  {
    if i == |s| || IsSpace(s[i]) then i else WordEnd(s, i + 1)
  }

  /** The start of the run of whitespace that ends at position j. */
  function SpaceStart(s: string, j: nat): (i: nat)
    requires j <= |s|
    ensures i <= j && AllSpaceIn(s, i, j)
    ensures i > 0 ==> !IsSpace(s[i - 1])
  {
    if j == 0 || !IsSpace(s[j - 1]) then j else SpaceStart(s, j - 1)
  }

  /** String.prototype.trim: the trimmed infix of `s` outside of which there is
      only whitespace. */
  function Trim(s: string): (r: string)
    ensures IsTrimmed(r)
    ensures exists a :: 0 <= a <= |s| - |r| && r == s[a..a + |r|]
                        && AllSpaceIn(s, 0, a) && AllSpaceIn(s, a + |r|, |s|)
  {
    var a := SpaceEnd(s, 0);
    var e := SpaceStart(s, |s|);
    if a == |s| then
      assert s[a..a] == "";
      ""
    else
      assert a < e;
      s[a..e]
  }

  /** String.prototype.split with the pattern /\s+/, from position i on: the
      pieces between maximal runs of whitespace (an empty piece before a leading
      run, after a trailing run, and for the empty string). */
  function SplitFrom(t: string, i: nat): (pieces: seq<string>)
    requires i <= |t|
    ensures |pieces| >= 1
    ensures forall k :: 0 <= k < |pieces| ==> NoSpace(pieces[k])
    decreases |t| - i
  {
    var e := WordEnd(t, i);
    assert NoSpace(t[i..e]) by {
      assert forall k :: 0 <= k < e - i ==> t[i..e][k] == t[i + k];
    }
    if e == |t| then [t[i..]]
    else [t[i..e]] + SplitFrom(t, SpaceEnd(t, e))
  }

  function Split(t: string): (pieces: seq<string>)
    ensures |pieces| >= 1
  {
    SplitFrom(t, 0)
  }

  /** Array.prototype.join. */
  function Join(ws: seq<string>, sep: string): string {
    if ws == [] then ""
    else if |ws| == 1 then ws[0]
    else ws[0] + sep + Join(ws[1..], sep)
  }

  /** The reference notion of the words of `s` from position i on: its maximal
      runs of non-whitespace characters, left to right. */
  function WordsFrom(s: string, i: nat): seq<string>
    requires i <= |s|
    decreases |s| - i
  {
    var a := SpaceEnd(s, i);
    if a == |s| then []
    else
      var b := WordEnd(s, a);
      [s[a..b]] + WordsFrom(s, b)
  }

  function Words(s: string): (ws: seq<string>)
    ensures forall k :: 0 <= k < |ws| ==> IsWord(ws[k])
  {
    WordsFromAreWords(s, 0);
    WordsFrom(s, 0)
  }

  /** The count JavaScript computes as `trim().split(/\s+/).length`: the number
      of words, except that a string without words still counts one (empty)
      word. */
  function WordCount(s: string): (n: nat)
    ensures n == if Words(s) == [] then 1 else |Words(s)|
  {
    WordCountIsWords(s);
    |Split(Trim(s))|
  }

  /** limitWords(s, n): `s` itself, untrimmed, when it has at most `n` words,
      otherwise its first `n` words joined by single spaces and followed by an
      ellipsis. */
  function LimitWords(s: string, n: nat): (r: string)
    ensures 1 <= n && |Words(s)| <= n ==> r == s
    ensures |Words(s)| > n ==> r == Join(Words(s)[..n], " ") + [Ellipsis]
    ensures n == 0 ==> r == [Ellipsis]
  {
    var words := Split(Trim(s));
    WordCountIsWords(s);
    if |words| > n then Join(words[..n], " ") + [Ellipsis] else s
  }

  // ---- Lemmas -----------------------------------------------------------------

  lemma {:induction false} WordsFromAreWords(s: string, i: nat)
    requires i <= |s|
    ensures forall k :: 0 <= k < |WordsFrom(s, i)| ==> IsWord(WordsFrom(s, i)[k])
    decreases |s| - i
  {
    var a := SpaceEnd(s, i);
    if a < |s| {
      var b := WordEnd(s, a);
      assert NoSpace(s[a..b]) by {
        assert forall k :: 0 <= k < b - a ==> s[a..b][k] == s[a + k];
      }
      WordsFromAreWords(s, b);
    }
  }

  lemma SpaceEndUnique(s: string, i: nat, j: nat)
    requires i <= j <= |s| && AllSpaceIn(s, i, j) && (j < |s| ==> !IsSpace(s[j]))
    ensures SpaceEnd(s, i) == j
  {
  }

  lemma WordEndUnique(s: string, i: nat, j: nat)
    requires i <= j <= |s| && NoSpaceIn(s, i, j) && (j < |s| ==> IsSpace(s[j]))
    ensures WordEnd(s, i) == j
  {
  }

  /** Whitespace between i and j does not change the words from i on. */
  lemma WordsSkipSpace(s: string, i: nat, j: nat)
    requires i <= j <= |s| && AllSpaceIn(s, i, j)
    ensures WordsFrom(s, i) == WordsFrom(s, j)
  {
    SpaceEndUnique(s, i, SpaceEnd(s, j));
  }

  /** Trailing whitespace does not change the words. */
  lemma {:induction false} WordsDropTrailingSpace(x: string, y: string, i: nat)
    requires i <= |x| && AllSpace(y)
    ensures WordsFrom(x + y, i) == WordsFrom(x, i)
    decreases |x| - i
  {
    var xy := x + y;
    var a := SpaceEnd(x, i);
    if a == |x| {
      SpaceEndUnique(xy, i, |xy|);
    } else {
      SpaceEndUnique(xy, i, a);
      var b := WordEnd(x, a);
      WordEndUnique(xy, a, b);
      assert xy[a..b] == x[a..b];
      WordsDropTrailingSpace(x, y, b);
    }
  }

  /** x occurs in y at offset d and runs to the end of y. */
  predicate SuffixAt(y: string, x: string, d: nat) {
    |y| == d + |x| && forall k :: 0 <= k < |x| ==> y[d + k] == x[k]
  }

  lemma SuffixAtConcat(p: string, x: string)
    ensures SuffixAt(p + x, x, |p|)
  {
  }

  lemma SuffixAtSuffix(x: string, a: nat)
    requires a <= |x|
    ensures SuffixAt(x, x[a..], a)
  {
  }

  lemma SpaceEndShift(y: string, x: string, d: nat, i: nat)
    requires SuffixAt(y, x, d) && i <= |x|
    ensures SpaceEnd(y, d + i) == d + SpaceEnd(x, i)
  {
    var a := SpaceEnd(x, i);
    assert forall k :: d + i <= k < d + a ==> y[k] == x[k - d];
    assert a < |x| ==> y[d + a] == x[a];
    SpaceEndUnique(y, d + i, d + a);
  }

  lemma WordEndShift(y: string, x: string, d: nat, i: nat)
    requires SuffixAt(y, x, d) && i <= |x|
    ensures WordEnd(y, d + i) == d + WordEnd(x, i)
  {
    var b := WordEnd(x, i);
    assert forall k :: d + i <= k < d + b ==> y[k] == x[k - d];
    assert b < |x| ==> y[d + b] == x[b];
    WordEndUnique(y, d + i, d + b);
  }

  lemma SliceShift(y: string, x: string, d: nat, a: nat, b: nat)
    requires SuffixAt(y, x, d) && a <= b <= |x|
    ensures y[d + a..d + b] == x[a..b]
  {
    forall k | 0 <= k < b - a
      ensures y[d + a..d + b][k] == x[a..b][k]
    {
      assert y[d + a + k] == x[a + k];
    }
  }

  /** The words of y after offset d are the words of the suffix x found there. */
  lemma {:induction false} WordsShift(y: string, x: string, d: nat, i: nat)
    requires SuffixAt(y, x, d) && i <= |x|
    ensures WordsFrom(y, d + i) == WordsFrom(x, i)
    decreases |x| - i
  {
    var a := SpaceEnd(x, i);
    SpaceEndShift(y, x, d, i);
    if a < |x| {
      var b := WordEnd(x, a);
      WordEndShift(y, x, d, a);
      SliceShift(y, x, d, a, b);
      WordsShift(y, x, d, b);
      assert WordsFrom(y, d + i) == [y[d + a..d + b]] + WordsFrom(y, d + b);
    } else {
      assert WordsFrom(y, d + i) == [];
    }
  }

  /** Whitespace from e on does not change the words. */
  lemma WordsDropSuffix(s: string, e: nat, i: nat)
    requires i <= e <= |s| && AllSpaceIn(s, e, |s|)
    ensures WordsFrom(s, i) == WordsFrom(s[..e], i)
  {
    assert s == s[..e] + s[e..];
    assert AllSpace(s[e..]) by {
      assert forall k :: 0 <= k < |s| - e ==> s[e..][k] == s[e + k];
    }
    WordsDropTrailingSpace(s[..e], s[e..], i);
  }

  /** The words from position a on are the words of the suffix from a. */
  lemma WordsDropPrefix(x: string, a: nat)
    requires a <= |x|
    ensures WordsFrom(x, a) == Words(x[a..])
  {
    SuffixAtSuffix(x, a);
    WordsShift(x, x[a..], a, 0);
  }

  /** The words of the trimmed string are the words of the string. */
  lemma WordsOfTrim(s: string)
    ensures Words(Trim(s)) == Words(s)
  {
    var a := SpaceEnd(s, 0);
    if a < |s| {
      var e := SpaceStart(s, |s|);
      WordsSkipSpace(s, 0, a);
      WordsDropSuffix(s, e, a);
      WordsDropPrefix(s[..e], a);
      assert s[..e][a..] == s[a..e];
    }
  }

  /** On a trimmed string from a word's start on, the split on whitespace runs
      yields exactly the maximal runs of non-whitespace. */
  lemma {:induction false} SplitFromIsWordsFrom(t: string, i: nat)
    requires i < |t| && !IsSpace(t[i]) && !IsSpace(t[|t| - 1])
    ensures SplitFrom(t, i) == WordsFrom(t, i)
    decreases |t| - i
  {
    SpaceEndUnique(t, i, i);
    var e := WordEnd(t, i);
    assert WordsFrom(t, i) == [t[i..e]] + WordsFrom(t, e);
    if e < |t| {
      var j := SpaceEnd(t, e);
      assert j < |t|;
      WordsSkipSpace(t, e, j);
      SplitFromIsWordsFrom(t, j);
      assert SplitFrom(t, i) == [t[i..e]] + SplitFrom(t, j);
    } else {
      assert WordsFrom(t, e) == [];
      assert t[i..] == t[i..e];
    }
  }

  lemma WordCountIsWords(s: string)
    ensures |Split(Trim(s))| == if Words(s) == [] then 1 else |Words(s)|
    ensures Trim(s) != [] ==> Split(Trim(s)) == Words(s)
    ensures Trim(s) == [] ==> Split(Trim(s)) == [""] && Words(s) == []
  {
    WordsOfTrim(s);
    var t := Trim(s);
    if t != [] {
      SplitFromIsWordsFrom(t, 0);
      SpaceEndUnique(t, 0, 0);
    }
  }

  lemma WordsOfWord(w: string)
    requires IsWord(w)
    ensures Words(w) == [w]
  {
    SpaceEndUnique(w, 0, 0);
    WordEndUnique(w, 0, |w|);
    assert w[0..|w|] == w;
    assert WordsFrom(w, |w|) == [];
  }

  lemma WordsOfWordThen(w: string, tail: string)
    requires IsWord(w) && tail != [] && !IsSpace(tail[0])
    ensures Words(w + " " + tail) == [w] + Words(tail)
  {
    var p := w + " ";
    var j := p + tail;
    SpaceEndUnique(j, 0, 0);
    WordEndUnique(j, 0, |w|);
    assert j[0..|w|] == w;
    assert Words(j) == [w] + WordsFrom(j, |w|);
    WordsSkipSpace(j, |w|, |p|);
    SuffixAtConcat(p, tail);
    WordsShift(j, tail, |p|, 0);
  }

  /** Words and Join with single spaces are inverse on sequences of words. */
  lemma {:induction false} WordsOfJoin(ws: seq<string>)
    requires forall k :: 0 <= k < |ws| ==> IsWord(ws[k])
    ensures Words(Join(ws, " ")) == ws
  {
    if |ws| == 1 {
      WordsOfWord(ws[0]);
    } else if |ws| > 1 {
      var tail := Join(ws[1..], " ");
      WordsOfJoin(ws[1..]);
      assert tail == ws[1] + (if |ws| == 2 then "" else " " + Join(ws[2..], " "));
      WordsOfWordThen(ws[0], tail);
    }
  }

  /** Appending to a join extends its last element. */
  lemma {:induction false} JoinAppend(ws: seq<string>, sep: string, x: string)
    requires ws != []
    ensures Join(ws, sep) + x == Join(ws[..|ws| - 1] + [ws[|ws| - 1] + x], sep)
  {
    if |ws| > 1 {
      JoinAppend(ws[1..], sep, x);
      var ws' := ws[..|ws| - 1] + [ws[|ws| - 1] + x];
      assert ws'[1..] == ws[1..][..|ws| - 2] + [ws[1..][|ws| - 2] + x];
    }
  }

  /** A truncated reply has exactly `n` words: the first `n - 1` words of the
      input and its `n`-th word with the ellipsis attached. */
  lemma LimitWordsTruncated(s: string, n: nat)
    requires 1 <= n < |Words(s)|
    ensures Words(LimitWords(s, n)) == Words(s)[..n - 1] + [Words(s)[n - 1] + [Ellipsis]]
  {
    var ws := Words(s)[..n];
    JoinAppend(ws, " ", [Ellipsis]);
    var last := ws[n - 1] + [Ellipsis];
    assert IsWord(last) by {
      assert forall k :: 0 <= k < |last| - 1 ==> last[k] == ws[n - 1][k];
    }
    assert ws[..n - 1] == Words(s)[..n - 1];
    WordsOfJoin(ws[..n - 1] + [last]);
  }

  /** The limiter never leaves more than `n` words (for `n` at least one: with
      `n == 0` the result is the single word made of the ellipsis). */
  lemma LimitWordsBound(s: string, n: nat)
    requires n >= 1
    ensures |Words(LimitWords(s, n))| <= n
    ensures WordCount(LimitWords(s, n)) <= n
  {
    if |Words(s)| > n {
      LimitWordsTruncated(s, n);
    }
  }

  /** Limiting twice is limiting once. */
  lemma LimitWordsIdempotent(s: string, n: nat)
    ensures LimitWords(LimitWords(s, n), n) == LimitWords(s, n)
  {
    if 1 <= n {
      LimitWordsBound(s, n);
    }
  }
}
