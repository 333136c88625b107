/**
 * The string operations the command handlers rely on: Python's `str.strip()`,
 * `str.lower()`, the substring test `word in text`, slicing a preview, and
 * joining words with spaces. Strings are sequences of Unicode scalar values,
 * as Python's `str` is.
 */
module Text {

  /** Python's `str.isspace()`: the characters `str.strip()` removes. */
  predicate IsSpace(c: char) {
    || ('\t' <= c <= '\r')
    || ('\U{1C}' <= c <= ' ')
    || c == '\U{85}' || c == '\U{A0}' || c == '\U{1680}'
    || ('\U{2000}' <= c <= '\U{200A}')
    || c == '\U{2028}' || c == '\U{2029}' || c == '\U{202F}' || c == '\U{205F}' || c == '\U{3000}'
  }

  ghost predicate AllSpace(s: string) {
    forall k :: 0 <= k < |s| ==> IsSpace(s[k])
  }

  // ---------------------------------------------------------------------------
  // strip()

  function TrimStart(s: string): (r: string)
    ensures |r| <= |s| && r == s[|s| - |r|..]
    ensures AllSpace(s[..|s| - |r|])
    ensures r != [] ==> !IsSpace(r[0])
  {
    if s != [] && IsSpace(s[0]) then
      var r := TrimStart(s[1..]);
      assert s[1..][|s| - 1 - |r|..] == s[|s| - |r|..];
      var spaces := s[..|s| - |r|];
      forall k | 0 <= k < |spaces| ensures IsSpace(spaces[k]) {
        if k > 0 {
          assert spaces[k] == s[1..][..|s| - 1 - |r|][k - 1];
        }
      }
      r
    else
      s
  }

  function TrimEnd(s: string): (r: string)
    ensures |r| <= |s| && r == s[..|r|]
    ensures AllSpace(s[|r|..])
    ensures r != [] ==> !IsSpace(r[|r| - 1])
  {
    if s != [] && IsSpace(s[|s| - 1]) then
      var t := s[..|s| - 1];
      var r := TrimEnd(t);
      assert t[..|r|] == s[..|r|];
      assert s[|r|..] == t[|r|..] + [s[|s| - 1]];
      r
    else
      s
  }

  /** `s.strip()`: `s` without its leading and trailing white space. */
  function Strip(s: string): (r: string)
    ensures |r| <= |s|
    ensures r != [] ==> !IsSpace(r[0]) && !IsSpace(r[|r| - 1])
  {
    TrimEnd(TrimStart(s))
  }

  /** The stripped string is the infix of `s` that is left once the white space around it is cut off. */
  lemma StripIsInfix(s: string) returns (i: nat)
    ensures i + |Strip(s)| <= |s| && s[i..i + |Strip(s)|] == Strip(s)
    ensures AllSpace(s[..i]) && AllSpace(s[i + |Strip(s)|..])
  {
    var t := TrimStart(s);
    var r := TrimEnd(t);
    i := |s| - |t|;
    assert s[i + |r|..] == t[|r|..];
  }

  /** `not s.strip()` holds exactly when `s` is all white space. */
  lemma StripEmptyIff(s: string)
    ensures Strip(s) == [] <==> AllSpace(s)
  {
    var i := StripIsInfix(s);
    if Strip(s) == [] {
      assert s == s[..i] + s[i..];
    } else {
      assert s[i] == Strip(s)[0];
    }
  }

  lemma StripIdempotent(s: string)
    ensures Strip(Strip(s)) == Strip(s)
  {
  }

  // ---------------------------------------------------------------------------
  // lower()

  /** Python's `str.lower()` on one character, for ASCII and Latin-1 letters. */
  function LowerChar(c: char): (d: char)
    ensures IsSpace(d) == IsSpace(c)
  {
    if 'A' <= c <= 'Z' || ('\U{C0}' <= c <= '\U{DE}' && c != '\U{D7}') then
      (c as int + 32) as char
    else
      c
  }

  function Lower(s: string): (r: string)
    ensures |r| == |s|
  {
    seq(|s|, k requires 0 <= k < |s| => LowerChar(s[k]))
  }

  lemma LowerIdempotent(s: string)
    ensures Lower(Lower(s)) == Lower(s)
  {
  }

  lemma LowerAppend(a: string, b: string)
    ensures Lower(a + b) == Lower(a) + Lower(b)
  {
  }

  lemma LowerSlice(s: string, i: nat, j: nat)
    requires i <= j <= |s|
    ensures Lower(s[i..j]) == Lower(s)[i..j]
  {
  }

  lemma {:induction false} LowerTrimStart(s: string)
    ensures TrimStart(Lower(s)) == Lower(TrimStart(s))
    decreases |s|
  {
    if s != [] && IsSpace(s[0]) {
      assert Lower(s)[1..] == Lower(s[1..]);
      LowerTrimStart(s[1..]);
    }
  }

  lemma {:induction false} LowerTrimEnd(s: string)
    ensures TrimEnd(Lower(s)) == Lower(TrimEnd(s))
    decreases |s|
  {
    if s != [] && IsSpace(s[|s| - 1]) {
      assert Lower(s)[..|s| - 1] == Lower(s[..|s| - 1]);
      LowerTrimEnd(s[..|s| - 1]);
    }
  }

  /** Stripping and lower-casing commute, since lower-casing maps white space to white space. */
  lemma LowerStrip(s: string)
    ensures Strip(Lower(s)) == Lower(Strip(s))
  {
    LowerTrimStart(s);
    LowerTrimEnd(TrimStart(s));
  }

  // ---------------------------------------------------------------------------
  // `word in text`

  ghost predicate OccursAt(word: string, text: string, i: int) {
    0 <= i && i + |word| <= |text| && text[i..i + |word|] == word
  }

  /** The meaning of Python's `word in text`. */
  ghost predicate Occurs(word: string, text: string) {
    exists i :: OccursAt(word, text, i)
  }

  /** Does `word` match `text` at position `i`, from the `j`-th character of `word` on? */
  predicate MatchAt(text: string, word: string, i: nat, j: nat)
    decreases |word| - j
  {
    if j >= |word| then true
    else if i + j >= |text| then false
    else if text[i + j] != word[j] then false
    else MatchAt(text, word, i, j + 1)
  }

  /** Does `word` occur in `text` at some position `i` or later? */
  predicate ContainsFrom(text: string, word: string, i: nat)
    decreases |text| - i
  {
    if i + |word| > |text| then false
    else if MatchAt(text, word, i, 0) then true
    else ContainsFrom(text, word, i + 1)
  }

  /** Python's `word in text`, as a left-to-right search. */
  predicate Contains(text: string, word: string) {
    ContainsFrom(text, word, 0)
  }

  lemma {:induction false} MatchAtIff(text: string, word: string, i: nat, j: nat)
    requires i + |word| <= |text| && j <= |word|
    ensures MatchAt(text, word, i, j) <==> text[i + j..i + |word|] == word[j..]
    decreases |word| - j
  {
    if j < |word| {
      MatchAtIff(text, word, i, j + 1);
      assert text[i + j..i + |word|] == [text[i + j]] + text[i + j + 1..i + |word|];
      assert word[j..] == [word[j]] + word[j + 1..];
    }
  }

  lemma {:induction false} ContainsFromIff(text: string, word: string, i: nat)
    ensures ContainsFrom(text, word, i) <==> exists k :: i <= k && OccursAt(word, text, k)
    decreases |text| - i
  {
    if i + |word| <= |text| {
      MatchAtIff(text, word, i, 0);
      ContainsFromIff(text, word, i + 1);
      if exists k :: i <= k && OccursAt(word, text, k) {
        var k :| i <= k && OccursAt(word, text, k);
        if k == i {
          assert MatchAt(text, word, i, 0);
        } else {
          assert i + 1 <= k;
        }
      }
      if ContainsFrom(text, word, i) {
        if MatchAt(text, word, i, 0) {
          assert OccursAt(word, text, i);
        } else {
          var k :| i + 1 <= k && OccursAt(word, text, k);
          assert i <= k;
        }
      }
    }
  }

  /** The search finds `word` exactly when `word` occurs in `text`. */
  lemma ContainsIff(text: string, word: string)
    ensures Contains(text, word) <==> Occurs(word, text)
  {
    ContainsFromIff(text, word, 0);
  }

  lemma OccursInInfix(word: string, text: string, i: nat, j: nat)
    requires i <= j <= |text| && Occurs(word, text[i..j])
    ensures Occurs(word, text)
  {
    var k :| OccursAt(word, text[i..j], k);
    forall m | 0 <= m < |word|
      ensures text[i + k + m] == word[m]
    {
      assert text[i..j][k..k + |word|][m] == word[m];
    }
    assert OccursAt(word, text, i + k);
  }

  lemma OccursInMiddle(word: string, a: string, b: string, c: string)
    requires Occurs(word, b)
    ensures Occurs(word, a + b + c)
  {
    var t := a + b + c;
    assert t[|a|..|a| + |b|] == b;
    OccursInInfix(word, t, |a|, |a| + |b|);
  }

  lemma OccursInSelf(word: string)
    ensures Occurs(word, word)
  {
    assert OccursAt(word, word, 0);
  }

  // ---------------------------------------------------------------------------
  // Words joined by single spaces

  function Join(words: seq<string>): string
  {
    if |words| == 0 then ""
    else if |words| == 1 then words[0]
    else words[0] + " " + Join(words[1..])
  }

  /** A word without white space that occurs in a space-joined text occurs in one of its words. */
  lemma {:induction false} OccursInJoin(word: string, words: seq<string>)
    requires word != [] && forall k :: 0 <= k < |word| ==> !IsSpace(word[k])
    requires Occurs(word, Join(words))
    ensures exists k :: 0 <= k < |words| && Occurs(word, words[k])
  {
    if |words| == 0 {
      assert false;
    } else if |words| == 1 {
      assert Occurs(word, words[0]);
    } else {
      var a, rest := words[0], Join(words[1..]);
      var t := a + " " + rest;
      var i :| OccursAt(word, t, i);
      forall p | i <= p < i + |word|
        ensures t[p] == word[p - i]
      {
        assert t[i..i + |word|][p - i] == t[p];
      }
      assert t[|a|] == ' ';
      if i + |word| <= |a| {
        assert t[i..i + |word|] == a[i..i + |word|];
        assert OccursAt(word, a, i);
      } else {
        assert i > |a|;
        assert t[i..i + |word|] == rest[i - |a| - 1..i - |a| - 1 + |word|];
        assert OccursAt(word, rest, i - |a| - 1);
        OccursInJoin(word, words[1..]);
        var k :| 0 <= k < |words[1..]| && Occurs(word, words[1..][k]);
        assert Occurs(word, words[k + 1]);
      }
    }
  }

  lemma {:induction false} LowerJoin(words: seq<string>)
    requires forall k :: 0 <= k < |words| ==> Lower(words[k]) == words[k]
    ensures Lower(Join(words)) == Join(words)
  {
    if |words| > 1 {
      LowerJoin(words[1..]);
      LowerAppend(words[0] + " ", Join(words[1..]));
      LowerAppend(words[0], " ");
    }
  }

  lemma {:induction false} JoinEnds(words: seq<string>)
    requires |words| > 0 && forall k :: 0 <= k < |words| ==> words[k] != []
    ensures Join(words) != []
    ensures Join(words)[0] == words[0][0]
    ensures Join(words)[|Join(words)| - 1] == words[|words| - 1][|words[|words| - 1]| - 1]
  {
    if |words| > 1 {
      JoinEnds(words[1..]);
    }
  }

  /** A joined text is at least as long as its first word, and at most `n + 1` per word of at most `n` characters. */
  lemma {:induction false} JoinLength(words: seq<string>, n: nat)
    requires forall k :: 0 <= k < |words| ==> |words[k]| <= n
    ensures |Join(words)| <= |words| * (n + 1)
    ensures |words| > 0 ==> |Join(words)| >= |words[0]|
  {
    if |words| > 1 {
      JoinLength(words[1..], n);
      assert |Join(words)| == |words[0]| + 1 + |Join(words[1..])|;
      assert |words| * (n + 1) == (n + 1) + (|words| - 1) * (n + 1);
    }
  }

  // ---------------------------------------------------------------------------
  // Previews

  /** `s[:n] + "..." if len(s) > n else s`: a short prefix shown in place of a long text. */
  function Preview(s: string, n: nat): (r: string)
    ensures |s| <= n ==> r == s
    ensures |s| > n ==> |r| == n + 3 && r[..n] == s[..n] && r[n..] == "..."
    ensures |r| <= n + 3
  {
    if |s| > n then s[..n] + "..." else s
  }
}
