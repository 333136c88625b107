/**
 * The eight themes `/image random` draws from, each given as its words, and
 * a word-by-word check that none of them holds a forbidden word. The check
 * is computed on the literal words; the image command turns it into facts
 * about the prompt validator.
 */
module ImageThemes {

  const ThemeCount := 8

  /** The words of the `i`-th theme; the theme text is these words joined by single spaces. */
  function ThemeWordList(i: nat): seq<string>
    requires i < ThemeCount
  {
    if i == 0 then ["beautiful", "landscape", "with", "mountains", "and", "sunset"]
    else if i == 1 then ["cute", "cat", "wearing", "a", "wizard", "hat", "with", "magical", "sparkles"]
    else if i == 2 then ["futuristic", "cyberpunk", "city", "with", "neon", "lights", "at", "night"]
    else if i == 3 then ["fantasy", "dragon", "flying", "over", "a", "medieval", "castle"]
    else if i == 4 then ["colorful", "abstract", "art", "with", "geometric", "patterns"]
    else if i == 5 then ["peaceful", "forest", "with", "sunlight", "filtering", "through", "trees"]
    else if i == 6 then ["space", "scene", "with", "planets", "and", "galaxies"]
    else ["vintage", "car", "on", "a", "scenic", "coastal", "road"]
  }

  /**
   * What a scan has seen so far of the letters that matter: w, f, d, u, p
   * and o, and how many x.
   */
  datatype Seen = Seen(w: bool, f: bool, d: bool, u: bool, x: nat, p: bool, o: bool)

  /** The scan state after one more character `c`. */
  function Note(s: Seen, c: char): Seen {
    if c == 'w' then s.(w := true)
    else if c == 'f' then s.(f := true)
    else if c == 'd' then s.(d := true)
    else if c == 'u' then s.(u := true)
    else if c == 'x' then s.(x := s.x + 1)
    else if c == 'p' then s.(p := true)
    else if c == 'o' then s.(o := true)
    else s
  }

  /**
   * For each of the forbidden words "nsfw", "nude", "explicit", "xxx",
   * "sexual" and "porn", in that order, the scanned word lacks one of two
   * of its letters, or (for "xxx") holds fewer than three x.
   */
  predicate Final(s: Seen) {
    && !(s.w && s.f)
    && !(s.d && s.u)
    && !(s.x > 0 && s.p)
    && s.x < 3
    && !(s.x > 0 && s.u)
    && !(s.p && s.o)
  }

  /** From position `j` on, `w` is lower-case ASCII letters, and the whole scan ends in a final state. */
  predicate Scan(w: string, j: nat, s: Seen)
    decreases |w| - j
  {
    if j >= |w| then Final(s)
    else 'a' <= w[j] <= 'z' && Scan(w, j + 1, Note(s, w[j]))
  }

  /** A theme word: 1 to 10 lower-case letters that spell out no forbidden word. */
  predicate GoodWord(w: string) {
    0 < |w| <= 10 && Scan(w, 0, Seen(false, false, false, false, 0, false, false))
  }

  // Each word of each theme, checked once.

  lemma WordBeautiful()
    ensures GoodWord("beautiful")
  {
  }

  lemma WordLandscape()
    ensures GoodWord("landscape")
  {
  }

  lemma WordWith()
    ensures GoodWord("with")
  {
  }

  lemma WordMountains()
    ensures GoodWord("mountains")
  {
  }

  lemma WordAnd()
    ensures GoodWord("and")
  {
  }

  lemma WordSunset()
    ensures GoodWord("sunset")
  {
  }

  lemma WordCute()
    ensures GoodWord("cute")
  {
  }

  lemma WordCat()
    ensures GoodWord("cat")
  {
  }

  lemma WordWearing()
    ensures GoodWord("wearing")
  {
  }

  lemma WordA()
    ensures GoodWord("a")
  {
  }

  lemma WordWizard()
    ensures GoodWord("wizard")
  {
  }

  lemma WordHat()
    ensures GoodWord("hat")
  {
  }

  lemma WordMagical()
    ensures GoodWord("magical")
  {
  }

  lemma WordSparkles()
    ensures GoodWord("sparkles")
  {
  }

  lemma WordFuturistic()
    ensures GoodWord("futuristic")
  {
  }

  lemma WordCyberpunk()
    ensures GoodWord("cyberpunk")
  {
  }

  lemma WordCity()
    ensures GoodWord("city")
  {
  }

  lemma WordNeon()
    ensures GoodWord("neon")
  {
  }

  lemma WordLights()
    ensures GoodWord("lights")
  {
  }

  lemma WordAt()
    ensures GoodWord("at")
  {
  }

  lemma WordNight()
    ensures GoodWord("night")
  {
  }

  lemma WordFantasy()
    ensures GoodWord("fantasy")
  {
  }

  lemma WordDragon()
    ensures GoodWord("dragon")
  {
  }

  lemma WordFlying()
    ensures GoodWord("flying")
  {
  }

  lemma WordOver()
    ensures GoodWord("over")
  {
  }

  lemma WordMedieval()
    ensures GoodWord("medieval")
  {
  }

  lemma WordCastle()
    ensures GoodWord("castle")
  {
  }

  lemma WordColorful()
    ensures GoodWord("colorful")
  {
  }

  lemma WordAbstract()
    ensures GoodWord("abstract")
  {
  }

  lemma WordArt()
    ensures GoodWord("art")
  {
  }

  lemma WordGeometric()
    ensures GoodWord("geometric")
  {
  }

  lemma WordPatterns()
    ensures GoodWord("patterns")
  {
  }

  lemma WordPeaceful()
    ensures GoodWord("peaceful")
  {
  }

  lemma WordForest()
    ensures GoodWord("forest")
  {
  }

  lemma WordSunlight()
    ensures GoodWord("sunlight")
  {
  }

  lemma WordFiltering()
    ensures GoodWord("filtering")
  {
  }

  lemma WordThrough()
    ensures GoodWord("through")
  {
  }

  lemma WordTrees()
    ensures GoodWord("trees")
  {
  }

  lemma WordSpace()
    ensures GoodWord("space")
  {
  }

  lemma WordScene()
    ensures GoodWord("scene")
  {
  }

  lemma WordPlanets()
    ensures GoodWord("planets")
  {
  }

  lemma WordGalaxies()
    ensures GoodWord("galaxies")
  {
  }

  lemma WordVintage()
    ensures GoodWord("vintage")
  {
  }

  lemma WordCar()
    ensures GoodWord("car")
  {
  }

  lemma WordOn()
    ensures GoodWord("on")
  {
  }

  lemma WordScenic()
    ensures GoodWord("scenic")
  {
  }

  lemma WordCoastal()
    ensures GoodWord("coastal")
  {
  }

  lemma WordRoad()
    ensures GoodWord("road")
  {
  }

  lemma Theme0Good()
    ensures 0 < |ThemeWordList(0)| <= 9 && |ThemeWordList(0)[0]| >= 3
    ensures forall k :: 0 <= k < |ThemeWordList(0)| ==> GoodWord(ThemeWordList(0)[k])
  {
    WordBeautiful();
    WordLandscape();
    WordWith();
    WordMountains();
    WordAnd();
    WordSunset();
  }

  lemma Theme1Good()
    ensures 0 < |ThemeWordList(1)| <= 9 && |ThemeWordList(1)[0]| >= 3
    ensures forall k :: 0 <= k < |ThemeWordList(1)| ==> GoodWord(ThemeWordList(1)[k])
  {
    WordCute();
    WordCat();
    WordWearing();
    WordA();
    WordWizard();
    WordHat();
    WordWith();
    WordMagical();
    WordSparkles();
  }

  lemma Theme2Good()
    ensures 0 < |ThemeWordList(2)| <= 9 && |ThemeWordList(2)[0]| >= 3
    ensures forall k :: 0 <= k < |ThemeWordList(2)| ==> GoodWord(ThemeWordList(2)[k])
  {
    WordFuturistic();
    WordCyberpunk();
    WordCity();
    WordWith();
    WordNeon();
    WordLights();
    WordAt();
    WordNight();
  }

  lemma Theme3Good()
    ensures 0 < |ThemeWordList(3)| <= 9 && |ThemeWordList(3)[0]| >= 3
    ensures forall k :: 0 <= k < |ThemeWordList(3)| ==> GoodWord(ThemeWordList(3)[k])
  {
    WordFantasy();
    WordDragon();
    WordFlying();
    WordOver();
    WordA();
    WordMedieval();
    WordCastle();
  }

  lemma Theme4Good()
    ensures 0 < |ThemeWordList(4)| <= 9 && |ThemeWordList(4)[0]| >= 3
    ensures forall k :: 0 <= k < |ThemeWordList(4)| ==> GoodWord(ThemeWordList(4)[k])
  {
    WordColorful();
    WordAbstract();
    WordArt();
    WordWith();
    WordGeometric();
    WordPatterns();
  }

  lemma Theme5Good()
    ensures 0 < |ThemeWordList(5)| <= 9 && |ThemeWordList(5)[0]| >= 3
    ensures forall k :: 0 <= k < |ThemeWordList(5)| ==> GoodWord(ThemeWordList(5)[k])
  {
    WordPeaceful();
    WordForest();
    WordWith();
    WordSunlight();
    WordFiltering();
    WordThrough();
    WordTrees();
  }

  lemma Theme6Good()
    ensures 0 < |ThemeWordList(6)| <= 9 && |ThemeWordList(6)[0]| >= 3
    ensures forall k :: 0 <= k < |ThemeWordList(6)| ==> GoodWord(ThemeWordList(6)[k])
  {
    WordSpace();
    WordScene();
    WordWith();
    WordPlanets();
    WordAnd();
    WordGalaxies();
  }

  lemma Theme7Good()
    ensures 0 < |ThemeWordList(7)| <= 9 && |ThemeWordList(7)[0]| >= 3
    ensures forall k :: 0 <= k < |ThemeWordList(7)| ==> GoodWord(ThemeWordList(7)[k])
  {
    WordVintage();
    WordCar();
    WordOn();
    WordA();
    WordScenic();
    WordCoastal();
    WordRoad();
  }

  /** Every theme is a short list of good words whose first word has at least three letters. */
  lemma ThemeGood(i: nat)
    requires i < ThemeCount
    ensures 0 < |ThemeWordList(i)| <= 9 && |ThemeWordList(i)[0]| >= 3
    ensures forall k :: 0 <= k < |ThemeWordList(i)| ==> GoodWord(ThemeWordList(i)[k])
  {
    if i == 0 { Theme0Good(); }
    else if i == 1 { Theme1Good(); }
    else if i == 2 { Theme2Good(); }
    else if i == 3 { Theme3Good(); }
    else if i == 4 { Theme4Good(); }
    else if i == 5 { Theme5Good(); }
    else if i == 6 { Theme6Good(); }
    else { Theme7Good(); }
  }
}
