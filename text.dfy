/**
 * String handling shared by the grading strategies: Python's `str.lower()`, `str.strip()`,
 * `str.split()`, the regex scans `\b[a-zA-Z]+\b` / `\b[a-zA-Z]{3,}\b`, the
 * substring test `needle in hay` and `", ".join(...)`, all restricted to ASCII.
 */
module Text {

  /** `str.isspace()` on ASCII: \t \n \v \f \r, the separators \x1c-\x1f and the space. */
  predicate IsSpace(c: char) {
    c == ' ' || (9 <= c as int <= 13) || (28 <= c as int <= 31)
  }

  predicate IsNonSpace(c: char) {
    !IsSpace(c)
  }

  predicate IsUpper(c: char) {
    'A' <= c <= 'Z'
  }

  predicate IsLowerLetter(c: char) {
    'a' <= c <= 'z'
  }

  predicate IsAsciiLetter(c: char) {
    IsLowerLetter(c) || IsUpper(c)
  }

  /** The regex class `\w` on ASCII text: letters, digits and the underscore. */
  predicate IsWordChar(c: char) {
    IsAsciiLetter(c) || ('0' <= c <= '9') || c == '_'
  }

  function LowerChar(c: char): char {
    if IsUpper(c) then (c as int + 32) as char else c
  }

  /** `s.lower()` */
  function Lower(s: string): string {
    seq(|s|, i requires 0 <= i < |s| => LowerChar(s[i]))
  }

  lemma LowerIdempotent(s: string)
    ensures Lower(Lower(s)) == Lower(s)
  {
  }

  lemma LowerKeepsSpaces(s: string)
    ensures forall i :: 0 <= i < |s| ==> (IsSpace(Lower(s)[i]) <==> IsSpace(s[i]))
  {
  }

  predicate AllLetters(w: string) {
    forall k :: 0 <= k < |w| ==> IsAsciiLetter(w[k])
  }

  /** A word made of lower-case ASCII letters only. */
  predicate IsLowerWord(w: string) {
    forall k :: 0 <= k < |w| ==> IsLowerLetter(w[k])
  }

  lemma LowerOfLowerWord(w: string)
    requires IsLowerWord(w)
    ensures Lower(w) == w
  {
  }

  // ---------------------------------------------------------------------------
  // Leading and trailing runs, strip

  /** Length of the longest prefix of `s` whose characters all satisfy `p`. */
  function LeadLen(s: string, p: char -> bool): (n: nat)
    ensures n <= |s|
    ensures forall k :: 0 <= k < n ==> p(s[k])
    ensures n < |s| ==> !p(s[n])
  {
    if s == [] || !p(s[0]) then 0 else 1 + LeadLen(s[1..], p)
  }

  /** Length of the longest suffix of `s` whose characters all satisfy `p`. */
  function TrailLen(s: string, p: char -> bool): (n: nat)
    ensures n <= |s|
    ensures forall k :: |s| - n <= k < |s| ==> p(s[k])
    ensures n < |s| ==> !p(s[|s| - n - 1])
  {
    if s == [] || !p(s[|s| - 1]) then 0 else 1 + TrailLen(s[..|s| - 1], p)
  }

  /** `s.strip()`: drop leading and trailing whitespace. */
  function Strip(s: string): (r: string)
    ensures r == [] || (!IsSpace(r[0]) && !IsSpace(r[|r| - 1]))
    ensures r == [] <==> forall k :: 0 <= k < |s| ==> IsSpace(s[k])
    ensures exists a :: OccursAt(s, r, a)
  {
    var a := LeadLen(s, IsSpace);
    var b := TrailLen(s[a..], IsSpace);
    assert OccursAt(s, s[a..|s| - b], a);
    s[a..|s| - b]
  }

  lemma StripUnpadded(s: string)
    requires s == [] || (!IsSpace(s[0]) && !IsSpace(s[|s| - 1]))
    ensures Strip(s) == s
  {
  }

  // ---------------------------------------------------------------------------
  // Maximal runs

  /**
   * The maximal runs of characters satisfying `p`, left to right. With `p` the
   * non-space test this is `s.split()`; with `p` the `\w` test these are the
   * candidate matches of `\b...\b` patterns.
   */
  function Runs(s: string, p: char -> bool): seq<string>
    decreases |s|
  {
    if s == [] then []
    else if !p(s[0]) then Runs(s[1..], p)
    else
      var n := LeadLen(s, p);
      [s[..n]] + Runs(s[n..], p)
  }

  /** `s[i..j]` is a maximal, non-empty run of characters satisfying `p`. */
  ghost predicate IsRun(s: string, p: char -> bool, i: int, j: int) {
    && 0 <= i < j <= |s|
    && (i == 0 || !p(s[i - 1]))
    && (j == |s| || !p(s[j]))
    && forall k :: i <= k < j ==> p(s[k])
  }

  /** A run of a suffix `s[n..]` is a run of `s` when it does not touch a `p`-character before `n`. */
  lemma RunOfSuffix(s: string, p: char -> bool, n: nat, i: int, j: int)
    requires n <= |s| && IsRun(s[n..], p, i, j)
    requires i > 0 || n == 0 || !p(s[n - 1])
    ensures IsRun(s, p, i + n, j + n) && s[i + n..j + n] == s[n..][i..j]
  {
    assert forall k :: i + n <= k < j + n ==> s[k] == s[n..][k - n];
  }

  lemma {:induction false} RunsSound(s: string, p: char -> bool, w: string)
    requires w in Runs(s, p)
    ensures exists i, j :: IsRun(s, p, i, j) && s[i..j] == w
    decreases |s|
  {
    if !p(s[0]) {
      RunsSound(s[1..], p, w);
      var i, j :| IsRun(s[1..], p, i, j) && s[1..][i..j] == w;
      RunOfSuffix(s, p, 1, i, j);
    } else {
      var n := LeadLen(s, p);
      if w == s[..n] {
        assert IsRun(s, p, 0, n);
      } else {
        assert w in Runs(s[n..], p);
        RunsSound(s[n..], p, w);
        var i, j :| IsRun(s[n..], p, i, j) && s[n..][i..j] == w;
        RunOfSuffix(s, p, n, i, j);
      }
    }
  }

  /** A run of `s` that starts at or after `n` is a run of the suffix `s[n..]`. */
  lemma RunInSuffix(s: string, p: char -> bool, n: nat, i: int, j: int)
    requires IsRun(s, p, i, j) && n <= i
    ensures IsRun(s[n..], p, i - n, j - n) && s[n..][i - n..j - n] == s[i..j]
  {
    assert forall k :: n <= k < |s| ==> s[n..][k - n] == s[k];
  }

  lemma {:induction false} RunsComplete(s: string, p: char -> bool, i: int, j: int)
    requires IsRun(s, p, i, j)
    ensures s[i..j] in Runs(s, p)
    decreases |s|
  {
    if !p(s[0]) {
      RunInSuffix(s, p, 1, i, j);
      RunsComplete(s[1..], p, i - 1, j - 1);
    } else {
      var n := LeadLen(s, p);
      if i == 0 {
        assert j == n;
      } else {
        assert !p(s[i - 1]);
        assert i > n;
        RunInSuffix(s, p, n, i, j);
        RunsComplete(s[n..], p, i - n, j - n);
      }
    }
  }

  /** A string is a run of `s` exactly when it is a maximal `p`-run somewhere in `s`. */
  lemma RunsCharacterized(s: string, p: char -> bool, w: string)
    ensures w in Runs(s, p) <==> exists i, j :: IsRun(s, p, i, j) && s[i..j] == w
  {
    if w in Runs(s, p) {
      RunsSound(s, p, w);
    }
    if exists i, j :: IsRun(s, p, i, j) && s[i..j] == w {
      var i, j :| IsRun(s, p, i, j) && s[i..j] == w;
      RunsComplete(s, p, i, j);
    }
  }

  lemma {:induction false} RunsEmpty(s: string, p: char -> bool)
    ensures Runs(s, p) == [] <==> forall k :: 0 <= k < |s| ==> !p(s[k])
    decreases |s|
  {
    if s != [] {
      RunsEmpty(s[1..], p);
      if !p(s[0]) {
        assert forall k :: 1 <= k < |s| ==> s[k] == s[1..][k - 1];
      }
    }
  }

  /** `s.split()`: the maximal runs of non-whitespace characters. */
  function Words(s: string): seq<string> {
    Runs(s, IsNonSpace)
  }

  /** `len(s.split())` */
  function WordCount(s: string): nat {
    |Words(s)|
  }

  /** An answer has no words exactly when it is empty or whitespace only. */
  lemma WordCountZero(s: string)
    ensures WordCount(s) == 0 <==> forall k :: 0 <= k < |s| ==> IsSpace(s[k])
  {
    RunsEmpty(s, IsNonSpace);
  }

  /** The runs that consist of ASCII letters only, in order. */
  function LetterRuns(rs: seq<string>): seq<string> {
    if rs == [] then []
    else (if AllLetters(rs[0]) then [rs[0]] else []) + LetterRuns(rs[1..])
  }

  lemma {:induction false} LetterRunsMember(rs: seq<string>, w: string)
    ensures w in LetterRuns(rs) <==> w in rs && AllLetters(w)
  {
    if rs != [] {
      LetterRunsMember(rs[1..], w);
    }
  }

  /**
   * `re.findall(r'\b[a-zA-Z]+\b', s)`: a match must start and end at a word
   * boundary and contain letters only, so the matches are exactly the maximal
   * `\w` runs made of letters (a run such as "abc1" yields nothing).
   */
  function Tokens(s: string): seq<string> {
    LetterRuns(Runs(s, IsWordChar))
  }

  lemma TokensCharacterized(s: string, w: string)
    ensures w in Tokens(s) <==> AllLetters(w) && exists i, j :: IsRun(s, IsWordChar, i, j) && s[i..j] == w
  {
    LetterRunsMember(Runs(s, IsWordChar), w);
    RunsCharacterized(s, IsWordChar, w);
  }

  /** Every token of a lower-cased text is a non-empty lower-case ASCII word. */
  lemma TokensOfLowerAreLowerWords(s: string, w: string)
    requires w in Tokens(Lower(s))
    ensures |w| > 0 && IsLowerWord(w)
  {
    var t := Lower(s);
    LetterRunsMember(Runs(t, IsWordChar), w);
    RunsSound(t, IsWordChar, w);
    var i, j :| IsRun(t, IsWordChar, i, j) && t[i..j] == w;
    forall k | 0 <= k < |w|
      ensures IsLowerLetter(w[k])
    {
      assert w[k] == t[i + k] == LowerChar(s[i + k]);
    }
  }

  /** Every entry is a non-empty lower-case ASCII word. */
  predicate AllLowerWords(words: seq<string>) {
    words == [] || (|words[0]| > 0 && IsLowerWord(words[0]) && AllLowerWords(words[1..]))
  }

  lemma {:induction false} AllLowerWordsMember(words: seq<string>)
    requires forall w :: w in words ==> |w| > 0 && IsLowerWord(w)
    ensures AllLowerWords(words)
  {
    if words != [] {
      assert words[0] in words;
      assert forall w :: w in words[1..] ==> w in words;
      AllLowerWordsMember(words[1..]);
    }
  }

  lemma AllTokensOfLowerAreLowerWords(s: string)
    ensures AllLowerWords(Tokens(Lower(s)))
  {
    forall w | w in Tokens(Lower(s))
      ensures |w| > 0 && IsLowerWord(w)
    {
      TokensOfLowerAreLowerWords(s, w);
    }
    AllLowerWordsMember(Tokens(Lower(s)));
  }

  // ---------------------------------------------------------------------------
  // Substrings and joining

  /** `needle` occurs in `hay` starting at index `i`. */
  predicate OccursAt(hay: string, needle: string, i: int) {
    0 <= i <= |hay| - |needle| && hay[i..i + |needle|] == needle
  }

  /** Python's `needle in hay` on strings. */
  predicate Contains(hay: string, needle: string) {
    exists i :: 0 <= i <= |hay| - |needle| && OccursAt(hay, needle, i)
  }

  predicate StartsWith(s: string, prefix: string) {
    |prefix| <= |s| && s[..|prefix|] == prefix
  }

  predicate EndsWith(s: string, suffix: string) {
    |suffix| <= |s| && s[|s| - |suffix|..] == suffix
  }

  /** `sep.join(parts)` */
  function Join(parts: seq<string>, sep: string): string {
    if parts == [] then []
    else if |parts| == 1 then parts[0]
    else parts[0] + sep + Join(parts[1..], sep)
  }

  /** A character of a joined string comes from one of the parts or from the separator. */
  lemma {:induction false} JoinChars(parts: seq<string>, sep: string, c: char)
    requires c in Join(parts, sep)
    ensures c in sep || exists w :: w in parts && c in w
  {
    if |parts| > 1 {
      var rest := Join(parts[1..], sep);
      assert Join(parts, sep) == parts[0] + sep + rest;
      if c in rest {
        JoinChars(parts[1..], sep, c);
        if !(c in sep) {
          var w :| w in parts[1..] && c in w;
          assert w in parts;
        }
      }
    }
  }

  lemma JoinOfLastPart(parts: seq<string>, sep: string)
    requires |parts| > 0
    ensures EndsWith(Join(parts, sep), parts[|parts| - 1])
    decreases |parts|
  {
    if |parts| > 1 {
      JoinOfLastPart(parts[1..], sep);
    }
  }

  /** The join starts with the first part, followed by the separator unless it is the only part. */
  lemma JoinOfFirstPart(parts: seq<string>, sep: string)
    requires |parts| > 0
    ensures StartsWith(Join(parts, sep), parts[0])
    ensures |parts| == 1 ==> Join(parts, sep) == parts[0]
    ensures |parts| > 1 ==> StartsWith(Join(parts, sep), parts[0] + sep)
  {
    if |parts| > 1 {
      var rest := Join(parts[1..], sep);
      assert (parts[0] + sep + rest)[..|parts[0] + sep|] == parts[0] + sep;
    }
  }

  /** Appending a part to a non-empty list appends the separator and that part to the join. */
  lemma {:induction false} JoinAppend(parts: seq<string>, w: string, sep: string)
    requires |parts| > 0
    ensures Join(parts + [w], sep) == Join(parts, sep) + sep + w
  {
    if |parts| > 1 {
      assert (parts + [w])[1..] == parts[1..] + [w];
      JoinAppend(parts[1..], w, sep);
    }
  }

  // ---------------------------------------------------------------------------
  // Duplicates

  predicate NoDup<T(==)>(s: seq<T>) {
    forall i, j :: 0 <= i < j < |s| ==> s[i] != s[j]
  }

  function SetOf<T>(s: seq<T>): set<T> {
    set x | x in s
  }

  lemma {:induction false} SetOfSize<T>(s: seq<T>)
    ensures |SetOf(s)| <= |s|
  {
    if s != [] {
      SetOfSize(s[1..]);
      assert SetOf(s) == {s[0]} + SetOf(s[1..]);
    }
  }

  /** A subset is no larger than its superset. */
  lemma SubsetSize<T>(a: set<T>, b: set<T>)
    requires a <= b
    ensures |a| <= |b|
  {
    assert b == a + (b - a);
  }

  /** `len(xs) == len(set(xs))` holds exactly when `xs` has no duplicates. */
  lemma {:induction false} NoDupIffSetSize<T>(s: seq<T>)
    ensures NoDup(s) <==> |SetOf(s)| == |s|
  {
    if s != [] {
      var t := s[1..];
      NoDupIffSetSize(t);
      assert SetOf(s) == {s[0]} + SetOf(t);
      if s[0] in t {
        var j :| 0 <= j < |t| && t[j] == s[0];
        assert s[0] == s[j + 1];
        assert SetOf(s) == SetOf(t);
        SetOfSize(t);
      } else {
        assert NoDup(s) <==> NoDup(t);
      }
    }
  }
}
