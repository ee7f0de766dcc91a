/**
 * Character classes and string operations shared by the programs, restricted to
 * ASCII: `\d`, `\s`, `str.split()`, `str.upper()` and `str.lower()` as they
 * behave on characters below 128.
 */
module Text {

  /** `\d` on ASCII characters. */
  predicate IsDigit(c: char) {
    '0' <= c <= '9'
  }

  /**
   * `\s` and the separators of `str.split()` on ASCII characters: tab, line feed,
   * vertical tab, form feed, carriage return, the four information separators
   * 0x1C-0x1F, and space.
   */
  predicate IsSpace(c: char) {
    c == ' ' || '\t' <= c <= '\r' || '\U{001C}' <= c <= '\U{001F}'
  }

  predicate IsDigits(s: string) {
    forall i | 0 <= i < |s| :: IsDigit(s[i])
  }

  function UpperChar(c: char): char {
    if 'a' <= c <= 'z' then (c as int - 'a' as int + 'A' as int) as char else c
  }

  function LowerChar(c: char): char {
    if 'A' <= c <= 'Z' then (c as int - 'A' as int + 'a' as int) as char else c
  }

  /**
   * `str.upper()`: no lower-case letter is left; each one becomes the capital of
   * the same letter, and every other character is kept.
   */
  function Upper(s: string): (r: string)
    ensures |r| == |s|
    ensures forall i | 0 <= i < |r| :: !('a' <= r[i] <= 'z')
    ensures forall i | 0 <= i < |s| && 'a' <= s[i] <= 'z' :: 'A' <= r[i] <= 'Z' && LowerChar(r[i]) == s[i]
    ensures forall i | 0 <= i < |s| && !('a' <= s[i] <= 'z') :: r[i] == s[i]
  {
    seq(|s|, i requires 0 <= i < |s| => UpperChar(s[i]))
  }

  /**
   * `str.lower()`: no capital letter is left; each one becomes the lower-case
   * form of the same letter, and every other character is kept.
   */
  function Lower(s: string): (r: string)
    ensures |r| == |s|
    ensures forall i | 0 <= i < |r| :: !('A' <= r[i] <= 'Z')
    ensures forall i | 0 <= i < |s| && 'A' <= s[i] <= 'Z' :: 'a' <= r[i] <= 'z' && UpperChar(r[i]) == s[i]
    ensures forall i | 0 <= i < |s| && !('A' <= s[i] <= 'Z') :: r[i] == s[i]
  {
    seq(|s|, i requires 0 <= i < |s| => LowerChar(s[i]))
  }

  /** A string with no capital letter is its own lower-case form. */
  lemma LowerOfLowered(s: string)
    requires forall i | 0 <= i < |s| :: !('A' <= s[i] <= 'Z')
    ensures Lower(s) == s
  {
  }

  /** A string with no lower-case letter is its own upper-case form. */
  lemma UpperOfUppered(s: string)
    requires forall i | 0 <= i < |s| :: !('a' <= s[i] <= 'z')
    ensures Upper(s) == s
  {
  }

  /** Upper-casing twice is upper-casing once. */
  lemma UpperIdempotent(s: string)
    ensures Upper(Upper(s)) == Upper(s)
  {
    UpperOfUppered(Upper(s));
  }

  /** Lower-casing twice is lower-casing once. */
  lemma LowerIdempotent(s: string)
    ensures Lower(Lower(s)) == Lower(s)
  {
    LowerOfLowered(Lower(s));
  }

  /** A word as `str.split()` yields it: non-empty, without separators. */
  predicate IsWord(w: string) {
    w != [] && forall i | 0 <= i < |w| :: !IsSpace(w[i])
  }

  /** Length of the run of non-separator characters that begins `s`. */
  function WordLength(s: string): (n: nat)
    ensures n <= |s|
    ensures forall i | 0 <= i < n :: !IsSpace(s[i])
    ensures n < |s| ==> IsSpace(s[n])
  {
    if s == [] || IsSpace(s[0]) then 0 else 1 + WordLength(s[1..])
  }

  /**
   * `str.split()` without arguments: the maximal runs of non-separator characters,
   * in order; leading, trailing and repeated separators produce no empty words.
   */
  function Split(s: string): (words: seq<string>)
    ensures forall k | 0 <= k < |words| :: IsWord(words[k])
    ensures forall k | 0 <= k < |words| :: multiset(words[k]) <= multiset(s)
    decreases |s|
  {
    if s == [] then []
    else if IsSpace(s[0]) then
      assert multiset(s) == multiset([s[0]]) + multiset(s[1..]) by { assert s == [s[0]] + s[1..]; }
      Split(s[1..])
    else
      var n := WordLength(s);
      assert multiset(s) == multiset(s[..n]) + multiset(s[n..]) by { assert s == s[..n] + s[n..]; }
      [s[..n]] + Split(s[n..])
  }

  /** A leading separator yields no word: splitting goes on after it. */
  lemma SplitLeadingSpace(s: string)
    requires s != [] && IsSpace(s[0])
    ensures Split(s) == Split(s[1..])
  {
  }

  /** Words joined by single spaces: the reference text `Split` must take apart again. */
  function JoinWords(words: seq<string>): string {
    if words == [] then []
    else if |words| == 1 then words[0]
    else words[0] + " " + JoinWords(words[1..])
  }

  lemma {:induction false} WordLengthOfWord(w: string, rest: string)
    requires IsWord(w)
    requires rest == [] || IsSpace(rest[0])
    ensures WordLength(w + rest) == |w|
    decreases |w|
  {
    if |w| > 1 {
      assert (w + rest)[1..] == w[1..] + rest;
      WordLengthOfWord(w[1..], rest);
    } else {
      assert (w + rest)[1..] == rest;
    }
  }

  /** A word followed by nothing or by a separator is split off whole. */
  lemma SplitWordThen(w: string, rest: string)
    requires IsWord(w)
    requires rest == [] || IsSpace(rest[0])
    ensures Split(w + rest) == [w] + Split(rest)
  {
    WordLengthOfWord(w, rest);
    var s := w + rest;
    assert s[..|w|] == w;
    assert s[|w|..] == rest;
  }

  /** Splitting words joined by spaces gives back exactly those words. */
  lemma {:induction false} SplitJoinWords(words: seq<string>)
    requires forall k | 0 <= k < |words| :: IsWord(words[k])
    ensures Split(JoinWords(words)) == words
  {
    if words == [] {
    } else if |words| == 1 {
      SplitWordThen(words[0], []);
      assert words[0] + [] == words[0];
    } else {
      SplitJoinWords(words[1..]);
      SplitWordSpace(words[0], JoinWords(words[1..]));
      assert words == [words[0]] + words[1..];
    }
  }

  /** A word followed by a space is split off whole and the space is skipped. */
  lemma SplitWordSpace(w: string, rest: string)
    requires IsWord(w)
    ensures Split(w + " " + rest) == [w] + Split(rest)
  {
    var tail := " " + rest;
    assert tail[1..] == rest;
    SplitWordThen(w, tail);
    assert w + " " + rest == w + tail;
  }

  /** `str.split()` yields no word exactly when the text is empty or separators only. */
  lemma {:induction false} SplitEmptyIffBlank(s: string)
    ensures Split(s) == [] <==> forall i | 0 <= i < |s| :: IsSpace(s[i])
    decreases |s|
  {
    if s != [] {
      SplitEmptyIffBlank(s[1..]);
      if IsSpace(s[0]) {
        forall i | 0 <= i < |s| && (forall j | 0 <= j < |s| - 1 :: IsSpace(s[1..][j]))
          ensures IsSpace(s[i])
        {
          if i > 0 { assert s[i] == s[1..][i - 1]; }
        }
      }
    }
  }
}
