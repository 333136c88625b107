/**
 * The `/image` command: a prompt validator (length bounds and a list of
 * forbidden words) and the handler that answers the keywords "styles" and
 * "random" and otherwise turns a valid prompt into an image request.
 */
module ImageCommand {
  import opened Wrappers
  import opened Text
  import opened ImageThemes

  const MinPromptLength := 3
  const MaxPromptLength := 200
  const ForbiddenWords: seq<string> := ["nsfw", "nude", "explicit", "xxx", "sexual", "porn"]

  datatype PromptError = TooShort | TooLong | Inappropriate

  datatype Validation = Accepted(prompt: string) | Rejected(error: PromptError)

  /** Some forbidden word occurs somewhere in `text`. */
  ghost predicate HasForbiddenWord(text: string) {
    exists k :: 0 <= k < |ForbiddenWords| && Occurs(ForbiddenWords[k], text)
  }

  /** The loop over the forbidden words from the `k`-th on, each tested with `word in text`. */
  predicate ContainsForbiddenFrom(text: string, k: nat)
    decreases |ForbiddenWords| - k
  {
    k < |ForbiddenWords| && (Contains(text, ForbiddenWords[k]) || ContainsForbiddenFrom(text, k + 1))
  }

  lemma {:induction false} ContainsForbiddenFromIff(text: string, k: nat)
    ensures ContainsForbiddenFrom(text, k) <==> exists j :: k <= j < |ForbiddenWords| && Occurs(ForbiddenWords[j], text)
    decreases |ForbiddenWords| - k
  {
    if k < |ForbiddenWords| {
      ContainsIff(text, ForbiddenWords[k]);
      ContainsForbiddenFromIff(text, k + 1);
    }
  }

  /** A prompt free of forbidden words stays free of them once stripped. */
  lemma StrippedStaysClean(p: string)
    requires !HasForbiddenWord(Lower(p))
    ensures !HasForbiddenWord(Lower(Strip(p)))
  {
    NoWordAfterStrip(ForbiddenWords, p);
  }

  /** Stripping cannot create an occurrence of any of `words` in the lower-cased text. */
  lemma NoWordAfterStrip(words: seq<string>, p: string)
    requires forall k :: 0 <= k < |words| ==> !Occurs(words[k], Lower(p))
    ensures forall k :: 0 <= k < |words| ==> !Occurs(words[k], Lower(Strip(p)))
  {
    var s := Strip(p);
    var i := StripIsInfix(p);
    LowerSlice(p, i, i + |s|);
    forall k | 0 <= k < |words| ensures !Occurs(words[k], Lower(s)) {
      if Occurs(words[k], Lower(s)) {
        OccursInInfix(words[k], Lower(p), i, i + |s|);
      }
    }
  }

  /**
   * `validate_image_prompt`: the "too short" test comes first (a missing or
   * empty prompt is too short), then the length of the unstripped prompt,
   * then the forbidden words in the lower-cased prompt; an accepted prompt
   * is returned stripped.
   */
  function ValidatePrompt(prompt: Option<string>): (v: Validation)
    ensures v == Rejected(TooShort) <==> prompt == None || |Strip(prompt.value)| < MinPromptLength
    ensures v == Rejected(TooLong) <==>
      prompt.Some? && |Strip(prompt.value)| >= MinPromptLength && |prompt.value| > MaxPromptLength
    ensures v == Rejected(Inappropriate) <==>
      && prompt.Some? && |Strip(prompt.value)| >= MinPromptLength && |prompt.value| <= MaxPromptLength
      && HasForbiddenWord(Lower(prompt.value))
    ensures v.Accepted? ==>
      && v.prompt == Strip(prompt.value)
      && MinPromptLength <= |v.prompt| <= MaxPromptLength
      && !HasForbiddenWord(Lower(v.prompt))
  {
    if prompt == None || |Strip(prompt.value)| < MinPromptLength then
      Rejected(TooShort)
    else if |prompt.value| > MaxPromptLength then
      Rejected(TooLong)
    else
      ContainsForbiddenFromIff(Lower(prompt.value), 0);
      if ContainsForbiddenFrom(Lower(prompt.value), 0) then
        Rejected(Inappropriate)
      else
        StrippedStaysClean(prompt.value);
        Accepted(Strip(prompt.value))
  }

  // ---------------------------------------------------------------------------
  // The handler

  /** The `i`-th theme: its words joined by single spaces. */
  function Theme(i: nat): string
    requires i < ThemeCount
  {
    Join(ThemeWordList(i))
  }

  const SeedLow := 100000
  const SeedHigh := 999999

  /** `random.randint(lo, hi)`, with the random draw as an input. */
  function RandInt(lo: int, hi: int, draw: nat): (n: int)
    requires lo <= hi
    ensures lo <= n <= hi
  {
    lo + draw % (hi - lo + 1)
  }

  /** The fixed words wrapped around a validated prompt before it is sent. */
  function Enhance(prompt: string): string {
    "high quality, detailed, beautiful, " + prompt + ", masterpiece, trending"
  }

  datatype ImageReply =
    | Usage                                // the help text for an empty argument
    | Styles                               // the list of styles
    | Invalid(error: PromptError)          // "❌ " followed by the validator's message
    | Image(prompt: string, seed: int)     // the image request: enhanced prompt and seed

  /** Validation of the prompt, then the image request for an accepted one. */
  function Generate(prompt: string, seedDraw: nat): (r: ImageReply)
    ensures r.Invalid? || r.Image?
    ensures r.Invalid? <==> ValidatePrompt(Some(prompt)).Rejected?
    ensures r.Invalid? ==> r.error == ValidatePrompt(Some(prompt)).error
    ensures r.Image? ==> r.prompt == Enhance(ValidatePrompt(Some(prompt)).prompt) && SeedLow <= r.seed <= SeedHigh
  {
    match ValidatePrompt(Some(prompt))
    case Rejected(e) => Invalid(e)
    case Accepted(p) => Image(Enhance(p), RandInt(SeedLow, SeedHigh, seedDraw))
  }

  /** `execute(sender_id, args)` of the image command; `themeDraw` and `seedDraw` stand for the random draws. */
  function Execute(args: string, themeDraw: nat, seedDraw: nat): (r: ImageReply)
    ensures r == Usage <==> Strip(args) == []
    ensures r == Styles <==> Strip(args) != [] && Lower(Strip(args)) == "styles"
    ensures Lower(Strip(args)) == "random" ==> r == Generate(Theme(themeDraw % ThemeCount), seedDraw)
    ensures Strip(args) != [] && Lower(Strip(args)) !in {"styles", "random"} ==>
      r == Generate(Lower(Strip(args)), seedDraw)
  {
    var prompt := Lower(Strip(args));
    if prompt == [] then
      Usage
    else if prompt == "styles" then
      Styles
    else if prompt == "random" then
      Generate(Theme(themeDraw % ThemeCount), seedDraw)
    else
      Generate(prompt, seedDraw)
  }

  /** `/image random` always yields an image of one of the themes. */
  lemma RandomAlwaysImage(args: string, themeDraw: nat, seedDraw: nat)
    requires Lower(Strip(args)) == "random"
    ensures Execute(args, themeDraw, seedDraw).Image?
    ensures Execute(args, themeDraw, seedDraw).prompt == Enhance(Theme(themeDraw % ThemeCount))
  {
    ChosenThemeValid(themeDraw);
  }

  /** Any other argument is validated in its stripped, lower-cased form; only an accepted one yields an image. */
  lemma PromptValidated(args: string, themeDraw: nat, seedDraw: nat)
    requires Strip(args) != [] && Lower(Strip(args)) !in {"styles", "random"}
    ensures var r := Execute(args, themeDraw, seedDraw);
      match ValidatePrompt(Some(Lower(Strip(args))))
      case Rejected(e) => r == Invalid(e)
      case Accepted(p) => r.Image? && p == Lower(Strip(args)) && r.prompt == Enhance(Lower(Strip(args)))
  {
    LowerStrip(args);
    StripIdempotent(Lower(args));
  }

  /** The handler lower-cases the prompt first, so its answer does not depend on letter case. */
  lemma ExecuteIgnoresCase(a: string, b: string, themeDraw: nat, seedDraw: nat)
    requires Lower(a) == Lower(b)
    ensures Execute(a, themeDraw, seedDraw) == Execute(b, themeDraw, seedDraw)
  {
    LowerStrip(a);
    LowerStrip(b);
  }

  // ---------------------------------------------------------------------------
  // Every random theme passes the validator

  /** The scan state after the characters of `w` from position `j` on. */
  ghost function Fold(w: string, j: nat, s: Seen): Seen
    decreases |w| - j
  {
    if j >= |w| then s else Fold(w, j + 1, Note(s, w[j]))
  }

  lemma {:induction false} ScanMeans(w: string, j: nat, s: Seen)
    requires Scan(w, j, s)
    ensures Final(Fold(w, j, s))
    ensures forall m :: j <= m < |w| ==> 'a' <= w[m] <= 'z'
    decreases |w| - j
  {
    if j < |w| {
      ScanMeans(w, j + 1, Note(s, w[j]));
    }
  }

  /** State `t` records at least what state `s` records. */
  ghost predicate Covers(t: Seen, s: Seen) {
    && (s.w ==> t.w) && (s.f ==> t.f) && (s.d ==> t.d) && (s.u ==> t.u)
    && s.x <= t.x && (s.p ==> t.p) && (s.o ==> t.o)
  }

  /** State `t` records the letter `c`. */
  ghost predicate Saw(t: Seen, c: char) {
    && (c == 'w' ==> t.w) && (c == 'f' ==> t.f) && (c == 'd' ==> t.d) && (c == 'u' ==> t.u)
    && (c == 'x' ==> t.x > 0) && (c == 'p' ==> t.p) && (c == 'o' ==> t.o)
  }

  lemma NoteCovers(s: Seen, c: char)
    ensures Covers(Note(s, c), s)
  {
  }

  lemma NoteSaw(s: Seen, c: char)
    ensures Saw(Note(s, c), c)
  {
  }

  lemma NoteCountsX(s: Seen, c: char)
    ensures Note(s, c).x == s.x + (if c == 'x' then 1 else 0)
  {
  }

  lemma CoversTransitive(a: Seen, b: Seen, c: Seen)
    requires Covers(a, b) && Covers(b, c)
    ensures Covers(a, c)
  {
  }

  lemma SawCovered(t: Seen, s: Seen, c: char)
    requires Covers(t, s) && Saw(s, c)
    ensures Saw(t, c)
  {
  }

  lemma {:induction false} FoldCovers(w: string, j: nat, s: Seen)
    ensures Covers(Fold(w, j, s), s)
    decreases |w| - j
  {
    if j < |w| {
      FoldCovers(w, j + 1, Note(s, w[j]));
      NoteCovers(s, w[j]);
      CoversTransitive(Fold(w, j, s), Note(s, w[j]), s);
    }
  }

  /** A scan records every letter it passes. */
  lemma {:induction false} FoldSaw(w: string, j: nat, s: Seen, m: nat)
    requires j <= m < |w|
    ensures Saw(Fold(w, j, s), w[m])
    decreases |w| - j
  {
    if m == j {
      FoldCovers(w, j + 1, Note(s, w[j]));
      NoteSaw(s, w[j]);
      SawCovered(Fold(w, j, s), Note(s, w[j]), w[j]);
    } else {
      FoldSaw(w, j + 1, Note(s, w[j]), m);
    }
  }

  /** The number of x in `w` from position `j` on. */
  ghost function XCount(w: string, j: nat): nat
    decreases |w| - j
  {
    if j >= |w| then 0 else (if w[j] == 'x' then 1 else 0) + XCount(w, j + 1)
  }

  lemma {:induction false} FoldCountsX(w: string, j: nat, s: Seen)
    ensures Fold(w, j, s).x == s.x + XCount(w, j)
    decreases |w| - j
  {
    if j < |w| {
      FoldCountsX(w, j + 1, Note(s, w[j]));
      NoteCountsX(s, w[j]);
    }
  }

  lemma {:induction false} XCountFrom(w: string, j: nat, i: nat)
    requires j <= i
    ensures XCount(w, j) >= XCount(w, i)
    decreases i - j
  {
    if j < i {
      XCountFrom(w, j + 1, i);
    }
  }

  /** Each character of a word that occurs in `w` is a character of `w`. */
  lemma CharOfOccurrence(word: string, w: string, m: nat) returns (j: nat)
    requires Occurs(word, w) && m < |word|
    ensures j < |w| && w[j] == word[m]
  {
    var i :| OccursAt(word, w, i);
    j := i + m;
    assert w[i..i + |word|][m] == w[j];
  }

  /** A word whose letters could not all be seen by a finished scan does not occur in the scanned word. */
  lemma FinalExcludes(w: string, f: nat)
    requires Final(Fold(w, 0, Seen(false, false, false, false, 0, false, false))) && f < |ForbiddenWords|
    ensures !Occurs(ForbiddenWords[f], w)
  {
    var word := ForbiddenWords[f];
    var s0 := Seen(false, false, false, false, 0, false, false);
    if Occurs(word, w) {
      if f == 3 {
        var i :| OccursAt(word, w, i);
        assert w[i] == 'x' && w[i + 1] == 'x' && w[i + 2] == 'x' by {
          assert w[i..i + 3][0] == w[i] && w[i..i + 3][1] == w[i + 1] && w[i..i + 3][2] == w[i + 2];
        }
        assert XCount(w, i + 2) >= 1;
        assert XCount(w, i + 1) >= 2;
        assert XCount(w, i) >= 3;
        FoldCountsX(w, 0, s0);
        XCountFrom(w, 0, i);
      } else {
        var a, b := if f == 0 then 3 else if f == 1 then 2 else if f == 2 then 1 else if f == 4 then 2 else 0,
                    if f == 0 then 2 else if f == 1 then 1 else if f == 2 then 2 else if f == 4 then 3 else 1;
        var ja := CharOfOccurrence(word, w, a);
        var jb := CharOfOccurrence(word, w, b);
        FoldSaw(w, 0, s0, ja);
        FoldSaw(w, 0, s0, jb);
      }
    }
  }

  /** A good word is lower-case, has no white space at either end and holds no forbidden word. */
  lemma GoodWordMeans(w: string)
    requires GoodWord(w)
    ensures Lower(w) == w && !IsSpace(w[0]) && !IsSpace(w[|w| - 1])
    ensures !HasForbiddenWord(w)
  {
    ScanMeans(w, 0, Seen(false, false, false, false, 0, false, false));
    if HasForbiddenWord(w) {
      var f :| 0 <= f < |ForbiddenWords| && Occurs(ForbiddenWords[f], w);
      FinalExcludes(w, f);
    }
  }

  lemma ForbiddenWordsSpaceless()
    ensures forall f :: 0 <= f < |ForbiddenWords| ==> ForbiddenWords[f] != []
    ensures forall f, m :: 0 <= f < |ForbiddenWords| && 0 <= m < |ForbiddenWords[f]| ==> !IsSpace(ForbiddenWords[f][m])
  {
  }

  /** The validator accepts, unchanged, up to nine good words joined by spaces, the first of at least three letters. */
  lemma JoinedGoodWordsAccepted(words: seq<string>)
    requires 0 < |words| <= 9 && |words[0]| >= 3
    requires forall k :: 0 <= k < |words| ==> GoodWord(words[k])
    ensures ValidatePrompt(Some(Join(words))) == Accepted(Join(words))
  {
    var t := Join(words);
    forall k | 0 <= k < |words|
      ensures words[k] != [] && |words[k]| <= 10 && Lower(words[k]) == words[k] && !HasForbiddenWord(words[k])
    {
      GoodWordMeans(words[k]);
    }
    JoinLength(words, 10);
    JoinEnds(words);
    GoodWordMeans(words[0]);
    GoodWordMeans(words[|words| - 1]);
    assert Strip(t) == t;
    LowerJoin(words);
    ForbiddenWordsSpaceless();
    if HasForbiddenWord(t) {
      var f :| 0 <= f < |ForbiddenWords| && Occurs(ForbiddenWords[f], t);
      OccursInJoin(ForbiddenWords[f], words);
    }
  }

  /** `random` only ever picks a theme the validator accepts unchanged. */
  lemma ThemesAreValid()
    ensures forall i :: 0 <= i < ThemeCount ==> ValidatePrompt(Some(Theme(i))) == Accepted(Theme(i))
  {
    forall i | 0 <= i < ThemeCount
      ensures ValidatePrompt(Some(Theme(i))) == Accepted(Theme(i))
    {
      ThemeGood(i);
      JoinedGoodWordsAccepted(ThemeWordList(i));
    }
  }

  lemma ChosenThemeValid(draw: nat)
    ensures ValidatePrompt(Some(Theme(draw % ThemeCount))) == Accepted(Theme(draw % ThemeCount))
  {
    ThemesAreValid();
  }
}
