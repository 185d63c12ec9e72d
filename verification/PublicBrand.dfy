/** Consumer-visible brand and score wording. */
module PublicBrand {
  import opened Substrings

  const PUBLIC_BRAND := "PiqSavi"
  const INTERNAL_CODENAME := "DealBrain"
  const PUBLIC_SCORE_NAME := "PiqScore"
  const INTERNAL_SCORE_NAME := "DealScore"
  const PUBLIC_PERSONAL_SCORE_LABEL := "Personalized PiqScore"

  /** The name that the ordering of the replacements is meant to avoid. */
  const MIXED_NAME := "PersonalPiqScore"

  function PresentBrand(text: string): string {
    if !Contains(text, INTERNAL_CODENAME) then text
    else Replace(text, INTERNAL_CODENAME, PUBLIC_BRAND)
  }

  /** The first k of the seven ordered replacements. */
  function Replaced(text: string, k: nat): string
    requires k <= 7
  {
    if k == 0 then text
    else
      var t := Replaced(text, k - 1);
      if k == 1 then Replace(t, "PersonalDealScore", PUBLIC_PERSONAL_SCORE_LABEL)
      else if k == 2 then Replace(t, "Personal DealScore", PUBLIC_PERSONAL_SCORE_LABEL)
      else if k == 3 then Replace(t, "Personal Deal Score", PUBLIC_PERSONAL_SCORE_LABEL)
      else if k == 4 then Replace(t, "DealScores", PUBLIC_SCORE_NAME + "s")
      else if k == 5 then Replace(t, "Deal Scores", PUBLIC_SCORE_NAME + "s")
      else if k == 6 then Replace(t, INTERNAL_SCORE_NAME, PUBLIC_SCORE_NAME)
      else Replace(t, "Deal Score", PUBLIC_SCORE_NAME)
  }

  /** The guard in front of the replacements. */
  predicate NamesNoScore(text: string) {
    && !Contains(text, "PersonalDealScore")
    && !Contains(text, "Personal DealScore")
    && !Contains(text, "Personal Deal Score")
    && !Contains(text, "Deal Scores")
    && !Contains(text, "Deal Score")
    && !Contains(text, INTERNAL_SCORE_NAME)
  }

  function PresentScore(text: string): string {
    if NamesNoScore(text) then text else Replaced(text, 7)
  }

  function PresentConsumerText(text: string): string {
    PresentScore(PresentBrand(text))
  }

  // Which of these words can overlap which.

  lemma BrandWords()
    ensures Separate("DealBrain", "PiqSavi")
    ensures Separate("DealBrain", "Personalized PiqScore")
    ensures Separate("DealBrain", "PiqScores")
    ensures Separate("DealBrain", "PiqScore")
  {
    FirstCharacters("DealBrain", "PiqSavi", 9, 0, 9, 0, 7, 0);
    FirstCharacters("DealBrain", "Personalized PiqScore", 9, 0, 9, 0, 21, 0);
    FirstCharacters("DealBrain", "PiqScores", 9, 0, 9, 0, 9, 0);
    FirstCharacters("DealBrain", "PiqScore", 9, 0, 9, 0, 8, 0);
  }

  lemma ScoreWords()
    ensures Separate("PersonalDealScore", "Personalized PiqScore")
    ensures Separate("PersonalDealScore", "PiqScores")
    ensures Separate("PersonalDealScore", "PiqScore")
    ensures Separate("DealScore", "PiqScore")
    ensures Separate("Deal Score", "PiqScore")
  {
    FirstCharacters("PersonalDealScore", "Personalized PiqScore", 17, 8, 17, 0, 13, 1);
    FirstCharacters("PersonalDealScore", "PiqScores", 17, 1, 17, 0, 9, 0);
    FirstCharacters("PersonalDealScore", "PiqScore", 17, 1, 17, 0, 8, 0);
    FirstCharacters("DealScore", "PiqScore", 9, 0, 9, 0, 8, 0);
    FirstCharacters("Deal Score", "PiqScore", 10, 0, 10, 0, 8, 0);
  }

  /** The mixed name can overlap a new score name at its second half only. */
  lemma MixedAndReplacements()
    ensures Separate("PersonalPiqScore", "Personalized PiqScore")
    ensures OnlyMeets("PersonalPiqScore", "PiqScores", 8)
    ensures OnlyMeets("PersonalPiqScore", "PiqScore", 8)
    ensures Separate("PersonalDeal Score", "Personalized PiqScore")
    ensures Separate("PersonalDeal Score", "PiqScores")
    ensures Separate("PersonalDeal Score", "PiqScore")
  {
    FirstCharacters("PersonalPiqScore", "Personalized PiqScore", 16, 8, 8, 1, 13, 1);
    FirstCharacters("PersonalPiqScore", "PiqScores", 8, 1, 8, 0, 9, 0);
    FirstCharacters("PersonalPiqScore", "PiqScore", 8, 1, 8, 0, 8, 0);
    FirstCharacters("PersonalDeal Score", "Personalized PiqScore", 18, 8, 18, 0, 13, 1);
    FirstCharacters("PersonalDeal Score", "PiqScores", 18, 1, 18, 0, 9, 0);
    FirstCharacters("PersonalDeal Score", "PiqScore", 18, 1, 18, 0, 8, 0);
  }

  lemma MixedAndPatterns()
    ensures Separate("PersonalPiqScore", "PersonalDealScore")
    ensures Separate("PersonalPiqScore", "Personal DealScore")
    ensures Separate("PersonalPiqScore", "Personal Deal Score")
    ensures Separate("PersonalPiqScore", "DealScores")
    ensures Separate("PersonalPiqScore", "Deal Scores")
    ensures Separate("PersonalPiqScore", "DealScore")
    ensures Separate("PersonalPiqScore", "Deal Score")
  {
    FirstCharacters("PersonalPiqScore", "PersonalDealScore", 16, 8, 8, 1, 17, 0);
    FirstCharacters("PersonalPiqScore", "Personal DealScore", 16, 8, 8, 1, 18, 0);
    FirstCharacters("PersonalPiqScore", "Personal Deal Score", 16, 8, 8, 1, 19, 0);
    FirstCharacters("PersonalPiqScore", "DealScores", 16, 0, 16, 0, 10, 0);
    FirstCharacters("PersonalPiqScore", "Deal Scores", 16, 0, 16, 0, 11, 0);
    FirstCharacters("PersonalPiqScore", "DealScore", 16, 0, 16, 0, 9, 0);
    FirstCharacters("PersonalPiqScore", "Deal Score", 16, 0, 16, 0, 10, 0);
  }

  lemma HalfMixedAndPatterns()
    ensures Separate("PersonalDeal Score", "PersonalDealScore")
    ensures Separate("PersonalDeal Score", "Personal DealScore")
    ensures Separate("PersonalDeal Score", "Personal Deal Score")
    ensures Separate("PersonalDeal Score", "DealScores")
    ensures Separate("PersonalDeal Score", "DealScore")
    ensures OnlyMeets("PersonalDeal Score", "Deal Scores", 8)
    ensures Separate("Personal", "Deal Scores")
    ensures Separate("Personal", "Deal Score")
  {
    FirstCharacters("PersonalDeal Score", "PersonalDealScore", 18, 12, 18, 0, 17, 0);
    FirstCharacters("PersonalDeal Score", "Personal DealScore", 18, 8, 18, 0, 18, 0);
    FirstCharacters("PersonalDeal Score", "Personal Deal Score", 18, 8, 18, 0, 19, 0);
    FirstCharacters("PersonalDeal Score", "DealScores", 18, 0, 8, 4, 10, 0);
    FirstCharacters("PersonalDeal Score", "DealScore", 18, 0, 8, 4, 9, 0);
    FirstCharacters("PersonalDeal Score", "Deal Scores", 8, 0, 8, 0, 11, 0);
    FirstCharacters("Personal", "Deal Scores", 8, 0, 8, 0, 11, 0);
    FirstCharacters("Personal", "Deal Score", 8, 0, 8, 0, 10, 0);
  }

  /** Which patterns are parts of which. */
  lemma Parts()
    ensures Contains("PersonalDealScore", "DealScore")
    ensures Contains("Personal DealScore", "DealScore")
    ensures Contains("Personal Deal Score", "Deal Score")
    ensures Contains("DealScores", "DealScore")
    ensures Contains("Deal Scores", "Deal Score")
    ensures Contains("PersonalDealScores", "PersonalDealScore")
    ensures Contains("PersonalDeal Scores", "PersonalDeal Score")
    ensures Contains("PersonalPiqScores", "PersonalPiqScore")
  {
    hide Contains;
    StandsAt("PersonalDealScore", 8, "DealScore");
    StandsAt("Personal DealScore", 9, "DealScore");
    StandsAt("Personal Deal Score", 9, "Deal Score");
    StandsAt("DealScores", 0, "DealScore");
    StandsAt("Deal Scores", 0, "Deal Score");
    StandsAt("PersonalDealScores", 0, "PersonalDealScore");
    StandsAt("PersonalDeal Scores", 0, "PersonalDeal Score");
    StandsAt("PersonalPiqScores", 0, "PersonalPiqScore");
  }

  lemma StandsAt(whole: string, i: nat, part: string)
    requires i + |part| <= |whole| && forall k :: 0 <= k < |part| ==> whole[i + k] == part[k]
    ensures Contains(whole, part)
  {
    assert whole[i..i + |part|] == part;
    assert At(whole, i, part);
  }

  /** A text without a word has none that the word is part of. */
  lemma LacksWhole(text: string, whole: string, part: string)
    requires Contains(whole, part) && !Contains(text, part)
    ensures !Contains(text, whole)
  {
    if Contains(text, whole) {
      ContainsTrans(text, whole, part);
    }
  }

  /** The guards change nothing: every text comes out as from the full chains. */
  lemma GuardsAreTransparent(text: string)
    ensures PresentBrand(text) == Replace(text, INTERNAL_CODENAME, PUBLIC_BRAND)
    ensures PresentScore(text) == Replaced(text, 7)
  {
    if !Contains(text, INTERNAL_CODENAME) {
      ReplaceAbsent(text, INTERNAL_CODENAME, PUBLIC_BRAND);
    }
    if NamesNoScore(text) {
      Parts();
      LacksWhole(text, "DealScores", "DealScore");
      ReplaceAbsent(text, "PersonalDealScore", PUBLIC_PERSONAL_SCORE_LABEL);
      assert Replaced(text, 1) == text;
      ReplaceAbsent(text, "Personal DealScore", PUBLIC_PERSONAL_SCORE_LABEL);
      assert Replaced(text, 2) == text;
      ReplaceAbsent(text, "Personal Deal Score", PUBLIC_PERSONAL_SCORE_LABEL);
      assert Replaced(text, 3) == text;
      ReplaceAbsent(text, "DealScores", PUBLIC_SCORE_NAME + "s");
      assert Replaced(text, 4) == text;
      ReplaceAbsent(text, "Deal Scores", PUBLIC_SCORE_NAME + "s");
      assert Replaced(text, 5) == text;
      ReplaceAbsent(text, "DealScore", PUBLIC_SCORE_NAME);
      assert Replaced(text, 6) == text;
      ReplaceAbsent(text, "Deal Score", PUBLIC_SCORE_NAME);
    }
  }

  /** A word that cannot overlap the replacement does not arise from it. */
  lemma DoesNotArise(s: string, p: string, r: string, q: string)
    requires p != "" && r != "" && q != "" && Separate(q, r) && !Contains(s, q)
    ensures !Contains(Replace(s, p, r), q)
  {
    if Contains(Replace(s, p, r), q) {
      Origin(s, p, r, q, |q|);
    }
  }

  lemma ScoreChainDropsNames(text: string)
    ensures !Contains(Replaced(text, 7), "DealScore")
    ensures !Contains(Replaced(text, 7), "Deal Score")
    ensures !Contains(text, "DealBrain") ==> !Contains(Replaced(text, 7), "DealBrain")
  {
    ScoreWords();
    Eliminated(Replaced(text, 5), "DealScore", "PiqScore");
    DoesNotArise(Replaced(text, 6), "Deal Score", "PiqScore", "DealScore");
    Eliminated(Replaced(text, 6), "Deal Score", "PiqScore");
    if !Contains(text, "DealBrain") {
      BrandWords();
      assert PUBLIC_SCORE_NAME + "s" == "PiqScores";
      assert Replaced(text, 0) == text;
      DoesNotArise(Replaced(text, 0), "PersonalDealScore", "Personalized PiqScore", "DealBrain");
      DoesNotArise(Replaced(text, 1), "Personal DealScore", "Personalized PiqScore", "DealBrain");
      DoesNotArise(Replaced(text, 2), "Personal Deal Score", "Personalized PiqScore", "DealBrain");
      DoesNotArise(Replaced(text, 3), "DealScores", "PiqScores", "DealBrain");
      DoesNotArise(Replaced(text, 4), "Deal Scores", "PiqScores", "DealBrain");
      DoesNotArise(Replaced(text, 5), "DealScore", "PiqScore", "DealBrain");
      DoesNotArise(Replaced(text, 6), "Deal Score", "PiqScore", "DealBrain");
    }
  }

  /** No internal name reaches the shopper, whatever the text. */
  lemma NoInternalNames(text: string)
    ensures !Contains(PresentConsumerText(text), "DealBrain")
    ensures !Contains(PresentConsumerText(text), "DealScore")
    ensures !Contains(PresentConsumerText(text), "Deal Score")
  {
    var branded := PresentBrand(text);
    GuardsAreTransparent(text);
    BrandWords();
    Eliminated(text, "DealBrain", "PiqSavi");
    GuardsAreTransparent(branded);
    ScoreChainDropsNames(branded);
  }

  /** Presenting twice is presenting once. */
  lemma PresentationIsIdempotent(text: string)
    ensures PresentConsumerText(PresentConsumerText(text)) == PresentConsumerText(text)
  {
    var out := PresentConsumerText(text);
    NoInternalNames(text);
    Parts();
    LacksWhole(out, "PersonalDealScore", "DealScore");
    LacksWhole(out, "Personal DealScore", "DealScore");
    LacksWhole(out, "Personal Deal Score", "Deal Score");
    LacksWhole(out, "Deal Scores", "Deal Score");
  }

  /** The seven replacements, one by one. */
  lemma Chain(text: string)
    ensures Replaced(text, 1) == Replace(text, "PersonalDealScore", "Personalized PiqScore")
    ensures Replaced(text, 2) == Replace(Replaced(text, 1), "Personal DealScore", "Personalized PiqScore")
    ensures Replaced(text, 3) == Replace(Replaced(text, 2), "Personal Deal Score", "Personalized PiqScore")
    ensures Replaced(text, 4) == Replace(Replaced(text, 3), "DealScores", "PiqScores")
    ensures Replaced(text, 5) == Replace(Replaced(text, 4), "Deal Scores", "PiqScores")
    ensures Replaced(text, 6) == Replace(Replaced(text, 5), "DealScore", "PiqScore")
    ensures Replaced(text, 7) == Replace(Replaced(text, 6), "Deal Score", "PiqScore")
  {
    assert PUBLIC_SCORE_NAME + "s" == "PiqScores";
    assert Replaced(text, 0) == text;
  }

  /** After the first replacement the full personal name is gone for good. */
  lemma FullNameIsGone(text: string)
    ensures !Contains(Replaced(text, 3), "PersonalDealScore")
    ensures !Contains(Replaced(text, 5), "PersonalDealScore")
  {
    hide Replaced, Replace, Contains, OnlyMeets;
    var full := "PersonalDealScore";
    Chain(text);
    ScoreWords();
    Eliminated(text, full, "Personalized PiqScore");
    DoesNotArise(Replaced(text, 1), "Personal DealScore", "Personalized PiqScore", full);
    DoesNotArise(Replaced(text, 2), "Personal Deal Score", "Personalized PiqScore", full);
    DoesNotArise(Replaced(text, 3), "DealScores", "PiqScores", full);
    DoesNotArise(Replaced(text, 4), "Deal Scores", "PiqScores", full);
  }

  /** The mixed name in the output goes back to it, or to "PersonalDeal Score", in the input. */
  lemma MixedNameComesFrom(text: string)
    requires Contains(Replaced(text, 7), MIXED_NAME)
    ensures Contains(text, MIXED_NAME) || Contains(text, "PersonalDeal Score")
  {
    hide Replaced, Replace, Contains, OnlyMeets;
    var q, half, full := "PersonalPiqScore", "PersonalDeal Score", "PersonalDealScore";
    MixedAndReplacements();
    Parts();
    Chain(text);
    FullNameIsGone(text);
    assert q[..8] == "Personal";
    Origin(Replaced(text, 6), "Deal Score", "PiqScore", q, 8);
    assert "Personal" + "Deal Score" == half;
    if !Contains(Replaced(text, 6), q) {
      HalfComesFrom(text);
    } else {
      Origin(Replaced(text, 5), "DealScore", "PiqScore", q, 8);
      assert "Personal" + "DealScore" == full;
      MixedInFive(text);
    }
  }

  lemma MixedInFive(text: string)
    requires Contains(Replaced(text, 5), MIXED_NAME)
    ensures Contains(text, MIXED_NAME) || Contains(text, "PersonalDeal Score")
  {
    hide Replaced, Replace, Contains, OnlyMeets;
    var q, half, full := "PersonalPiqScore", "PersonalDeal Score", "PersonalDealScore";
    MixedAndReplacements();
    Parts();
    Chain(text);
    assert q[..8] == "Personal";
    Origin(Replaced(text, 4), "Deal Scores", "PiqScores", q, 8);
    assert "Personal" + "Deal Scores" == "PersonalDeal Scores";
    if !Contains(Replaced(text, 4), q) {
      ContainsTrans(Replaced(text, 4), "PersonalDeal Scores", half);
      HalfInFour(text);
    } else {
      FullNameIsGone(text);
      Origin(Replaced(text, 3), "DealScores", "PiqScores", q, 8);
      assert "Personal" + "DealScores" == "PersonalDealScores";
      LacksWhole(Replaced(text, 3), "PersonalDealScores", full);
      Origin(Replaced(text, 2), "Personal Deal Score", "Personalized PiqScore", q, 16);
      Origin(Replaced(text, 1), "Personal DealScore", "Personalized PiqScore", q, 16);
      Origin(text, full, "Personalized PiqScore", q, 16);
    }
  }

  lemma HalfInFour(text: string)
    requires Contains(Replaced(text, 4), "PersonalDeal Score")
    ensures Contains(text, "PersonalDeal Score")
  {
    var half := "PersonalDeal Score";
    MixedAndReplacements();
    assert PUBLIC_SCORE_NAME + "s" == "PiqScores";
    assert Replaced(text, 0) == text;
    Origin(Replaced(text, 3), "DealScores", "PiqScores", half, 18);
    Origin(Replaced(text, 2), "Personal Deal Score", "Personalized PiqScore", half, 18);
    Origin(Replaced(text, 1), "Personal DealScore", "Personalized PiqScore", half, 18);
    Origin(text, "PersonalDealScore", "Personalized PiqScore", half, 18);
  }

  lemma HalfComesFrom(text: string)
    requires Contains(Replaced(text, 6), "PersonalDeal Score")
    ensures Contains(text, "PersonalDeal Score")
  {
    var half := "PersonalDeal Score";
    MixedAndReplacements();
    assert PUBLIC_SCORE_NAME + "s" == "PiqScores";
    Origin(Replaced(text, 5), "DealScore", "PiqScore", half, 18);
    Origin(Replaced(text, 4), "Deal Scores", "PiqScores", half, 18);
    HalfInFour(text);
  }

  /** The mixed name survives every replacement. */
  lemma MixedNameSurvives(text: string, k: nat)
    requires k <= 7 && Contains(Replaced(text, k), MIXED_NAME)
    ensures Contains(Replaced(text, 7), MIXED_NAME)
    decreases 7 - k
  {
    MixedAndPatterns();
    var t, q := Replaced(text, k), "PersonalPiqScore";
    if k < 7 {
      if k == 0 {
        Survives(t, "PersonalDealScore", PUBLIC_PERSONAL_SCORE_LABEL, q, 16);
      } else if k == 1 {
        Survives(t, "Personal DealScore", PUBLIC_PERSONAL_SCORE_LABEL, q, 16);
      } else if k == 2 {
        Survives(t, "Personal Deal Score", PUBLIC_PERSONAL_SCORE_LABEL, q, 16);
      } else if k == 3 {
        Survives(t, "DealScores", PUBLIC_SCORE_NAME + "s", q, 16);
      } else if k == 4 {
        Survives(t, "Deal Scores", PUBLIC_SCORE_NAME + "s", q, 16);
      } else if k == 5 {
        Survives(t, "DealScore", PUBLIC_SCORE_NAME, q, 16);
      } else {
        Survives(t, "Deal Score", PUBLIC_SCORE_NAME, q, 16);
      }
      MixedNameSurvives(text, k + 1);
    }
  }

  /** "PersonalDeal Score" comes through the first four replacements. */
  lemma HalfMixedSurvives(text: string)
    requires Contains(text, "PersonalDeal Score")
    ensures Contains(Replaced(text, 4), "PersonalDeal Score")
  {
    hide Replaced, Replace, Contains, OnlyMeets;
    var half := "PersonalDeal Score";
    HalfMixedAndPatterns();
    Chain(text);
    Survives(text, "PersonalDealScore", "Personalized PiqScore", half, 18);
    Survives(Replaced(text, 1), "Personal DealScore", "Personalized PiqScore", half, 18);
    Survives(Replaced(text, 2), "Personal Deal Score", "Personalized PiqScore", half, 18);
    Survives(Replaced(text, 3), "DealScores", "PiqScores", half, 18);
  }

  /** And then it turns mixed, in the fifth replacement or in the last. */
  lemma HalfMixedTurnsMixed(text: string)
    requires Contains(text, "PersonalDeal Score")
    ensures Contains(Replaced(text, 7), MIXED_NAME)
  {
    hide Replaced, Replace, Contains, OnlyMeets;
    var half := "PersonalDeal Score";
    HalfMixedAndPatterns();
    HalfMixedSurvives(text);
    Chain(text);
    assert half[..8] == "Personal";
    Survives(Replaced(text, 4), "Deal Scores", "PiqScores", half, 8);
    if Contains(Replaced(text, 4), "Personal" + "Deal Scores") {
      TurnsInto(Replaced(text, 4), "Deal Scores", "PiqScores", "Personal");
      assert "Personal" + "PiqScores" == "PersonalPiqScores";
      Parts();
      ContainsTrans(Replaced(text, 5), "PersonalPiqScores", MIXED_NAME);
      MixedNameSurvives(text, 5);
    } else {
      Survives(Replaced(text, 5), "DealScore", "PiqScore", half, 18);
      assert half == "Personal" + "Deal Score";
      TurnsInto(Replaced(text, 6), "Deal Score", "PiqScore", "Personal");
      assert "Personal" + "PiqScore" == MIXED_NAME;
    }
  }

  /**
   * The mixed name appears exactly when the text already held it, or held
   * "PersonalDeal Score", the one spelling that no personal pattern covers.
   */
  lemma MixedNameExactlyWhen(text: string)
    ensures Contains(PresentScore(text), MIXED_NAME) <==>
              Contains(text, MIXED_NAME) || Contains(text, "PersonalDeal Score")
  {
    GuardsAreTransparent(text);
    if Contains(Replaced(text, 7), MIXED_NAME) {
      MixedNameComesFrom(text);
    }
    if Contains(text, MIXED_NAME) {
      assert Replaced(text, 0) == text;
      MixedNameSurvives(text, 0);
    }
    if Contains(text, "PersonalDeal Score") {
      HalfMixedTurnsMixed(text);
    }
  }

  // What stays.

  /** A name that starts with D overlaps no new name. */
  lemma DealMeetsNothing(q: string)
    requires q != "" && q[0] == 'D' && 'P' !in q
    ensures Separate(q, "PiqSavi") && Separate(q, "Personalized PiqScore")
    ensures Separate(q, "PiqScores") && Separate(q, "PiqScore")
  {
    FirstCharacters(q, "PiqSavi", |q|, 0, |q|, 0, 7, 0);
    FirstCharacters(q, "Personalized PiqScore", |q|, 0, |q|, 0, 21, 0);
    FirstCharacters(q, "PiqScores", |q|, 0, |q|, 0, 9, 0);
    FirstCharacters(q, "PiqScore", |q|, 0, |q|, 0, 8, 0);
  }

  /** Nor does a personal one. */
  lemma PersonalMeetsNothing(q: string)
    requires |q| > 8 && q[0] == 'P' && q[1] == 'e' && q[8] != 'i' && 'P' !in q[1..]
    ensures Separate(q, "PiqSavi") && Separate(q, "Personalized PiqScore")
    ensures Separate(q, "PiqScores") && Separate(q, "PiqScore")
  {
    forall d | 0 < d < |q|
      ensures q[d] != 'P'
    {
      assert q[d] == q[1..][d - 1];
    }
    FirstCharacters(q, "PiqSavi", |q|, 1, |q|, 0, 7, 0);
    FirstCharacters(q, "Personalized PiqScore", |q|, 8, |q|, 0, 13, 1);
    FirstCharacters(q, "PiqScores", |q|, 1, |q|, 0, 9, 0);
    FirstCharacters(q, "PiqScore", |q|, 1, |q|, 0, 8, 0);
  }

  /** The seven replaced score names, in the order of their replacement. */
  function ScoreName(k: nat): string
    requires k < 7
  {
    if k == 0 then "PersonalDealScore"
    else if k == 1 then "Personal DealScore"
    else if k == 2 then "Personal Deal Score"
    else if k == 3 then "DealScores"
    else if k == 4 then "Deal Scores"
    else if k == 5 then "DealScore"
    else "Deal Score"
  }

  /** What each is shown as. */
  function PublicName(k: nat): string
    requires k < 7
  {
    if k <= 2 then "Personalized PiqScore" else if k <= 4 then "PiqScores" else "PiqScore"
  }

  lemma ChainStep(text: string, k: nat)
    requires k < 7
    ensures Replaced(text, k + 1) == Replace(Replaced(text, k), ScoreName(k), PublicName(k))
  {
    hide Replace;
    Chain(text);
    assert Replaced(text, 0) == text;
  }

  /** The word overlaps none of the new names. */
  predicate MeetsNothing(q: string) {
    && Separate(q, "PiqSavi") && Separate(q, "Personalized PiqScore")
    && Separate(q, "PiqScores") && Separate(q, "PiqScore")
  }

  lemma PersonalNames()
    ensures MeetsNothing("PersonalDealScore") && MeetsNothing("Personal DealScore")
    ensures MeetsNothing("Personal Deal Score")
  {
    hide Separate;
    PersonalMeetsNothing("PersonalDealScore");
    PersonalMeetsNothing("Personal DealScore");
    PersonalMeetsNothing("Personal Deal Score");
  }

  lemma DealNames()
    ensures MeetsNothing("DealScores") && MeetsNothing("Deal Scores")
    ensures MeetsNothing("DealScore") && MeetsNothing("Deal Score")
  {
    hide Separate;
    DealMeetsNothing("DealScores");
    DealMeetsNothing("Deal Scores");
    DealMeetsNothing("DealScore");
    DealMeetsNothing("Deal Score");
  }

  lemma ScoreNamesMeetNothing(k: nat)
    requires k < 7
    ensures Separate(ScoreName(k), "PiqSavi") && Separate(ScoreName(k), "Personalized PiqScore")
    ensures Separate(ScoreName(k), "PiqScores") && Separate(ScoreName(k), "PiqScore")
  {
    hide MeetsNothing, Separate;
    PersonalNames();
    DealNames();
    var q := ScoreName(k);
    assert MeetsNothing(q);
    hide ScoreName;
    NothingMet(q);
  }

  lemma NothingMet(q: string)
    requires MeetsNothing(q)
    ensures Separate(q, "PiqSavi") && Separate(q, "Personalized PiqScore")
    ensures Separate(q, "PiqScores") && Separate(q, "PiqScore")
  {
    hide Separate;
  }

  ghost predicate NameApart(x: string, y: string, k: nat) {
    k < 7 ==> NoneStraddles(x, y, ScoreName(k))
  }

  ghost predicate NamesApart(x: string, y: string) {
    forall k :: NameApart(x, y, k)
  }

  /** No internal name straddles the boundary between the two texts. */
  ghost predicate Apart(x: string, y: string) {
    NoneStraddles(x, y, INTERNAL_CODENAME) && NamesApart(x, y)
  }

  lemma StageApart(x: string, y: string, k: nat)
    requires k < 7 && NamesApart(Replaced(x, k), Replaced(y, k))
    requires Replaced(x + y, k) == Replaced(x, k) + Replaced(y, k)
    ensures Replaced(x + y, k + 1) == Replaced(x, k + 1) + Replaced(y, k + 1)
    ensures NamesApart(Replaced(x, k + 1), Replaced(y, k + 1))
  {
    hide Replaced, NoneStraddles, Separate, Replace;
    ChainStep(x, k);
    ChainStep(y, k);
    ChainStep(x + y, k);
    assert NameApart(Replaced(x, k), Replaced(y, k), k);
    ReplaceApart(Replaced(x, k), Replaced(y, k), ScoreName(k), PublicName(k));
    var x', y' := Replaced(x, k + 1), Replaced(y, k + 1);
    forall j: nat
      ensures NameApart(x', y', j)
    {
      assert NameApart(Replaced(x, k), Replaced(y, k), j);
      if j < 7 {
        ScoreNamesMeetNothing(j);
        StaysApart(Replaced(x, k), Replaced(y, k), ScoreName(k), PublicName(k), ScoreName(j));
      }
    }
  }

  lemma {:induction false} ScoresApart(x: string, y: string, k: nat)
    requires k <= 7 && NamesApart(x, y)
    ensures Replaced(x + y, k) == Replaced(x, k) + Replaced(y, k)
    ensures NamesApart(Replaced(x, k), Replaced(y, k))
  {
    if k == 0 {
      assert Replaced(x, 0) == x && Replaced(y, 0) == y && Replaced(x + y, 0) == x + y;
    } else {
      ScoresApart(x, y, k - 1);
      StageApart(x, y, k - 1);
    }
  }

  /**
   * Presentation works piece by piece: at a boundary that no internal name straddles, the
   * whole is presented as its two parts are.
   */
  lemma PiecesArePresentedApart(x: string, y: string)
    requires Apart(x, y)
    ensures PresentConsumerText(x + y) == PresentConsumerText(x) + PresentConsumerText(y)
  {
    hide Replaced, Replace, NoneStraddles, Separate, PresentBrand, PresentScore;
    GuardsAreTransparent(x);
    GuardsAreTransparent(y);
    GuardsAreTransparent(x + y);
    GuardsAreTransparent(PresentBrand(x));
    GuardsAreTransparent(PresentBrand(y));
    GuardsAreTransparent(PresentBrand(x + y));
    ReplaceApart(x, y, INTERNAL_CODENAME, PUBLIC_BRAND);
    var x', y' := PresentBrand(x), PresentBrand(y);
    forall j: nat
      ensures NameApart(x', y', j)
    {
      assert NameApart(x, y, j);
      if j < 7 {
        ScoreNamesMeetNothing(j);
        StaysApart(x, y, INTERNAL_CODENAME, PUBLIC_BRAND, ScoreName(j));
      }
    }
    ScoresApart(PresentBrand(x), PresentBrand(y), 7);
  }

  /** A text without internal names is shown as it is. */
  lemma CleanTextStays(text: string)
    requires !Contains(text, INTERNAL_CODENAME) && NamesNoScore(text)
    ensures PresentConsumerText(text) == text
  {
  }

  /** A name alone goes through the replacements before its own as it is. */
  lemma {:induction false} NameWaits(k: nat, j: nat)
    requires j <= k < 7
    ensures Replaced(ScoreName(k), j) == ScoreName(k)
  {
    if j > 0 {
      NameWaits(k, j - 1);
      ChainStep(ScoreName(k), j - 1);
      EarlierIsNoPart(k, j - 1);
      ReplaceAbsent(ScoreName(k), ScoreName(j - 1), PublicName(j - 1));
    }
  }

  /** No name holds one that is replaced before it. */
  lemma EarlierIsNoPart(k: nat, j: nat)
    requires j < k < 7
    ensures !Contains(ScoreName(k), ScoreName(j))
  {
    var s, p := ScoreName(k), ScoreName(j);
    forall i | 0 <= i <= |s|
      ensures !At(s, i, p)
    {
      if i + |p| <= |s| {
        var d := if j == 0 && k == 2 then 8 else if j == 0 then 8 else if j == 1 then 13 else 4;
        assert i == 0 ==> s[i..i + |p|][d] == s[i + d];
        assert i > 0 ==> s[i..i + |p|][0] == s[i];
      }
    }
  }

  lemma {:induction false} NewNameStays(k: nat, j: nat)
    requires k < 7 && k < j <= 7
    ensures Replaced(ScoreName(k), j) == PublicName(k)
  {
    ChainStep(ScoreName(k), j - 1);
    if j == k + 1 {
      NameWaits(k, k);
      var s := ScoreName(k);
      assert s[..|s|] == s && s[|s|..] == "";
    } else {
      NewNameStays(k, j - 1);
      ScoreNamesMeetNothing(j - 1);
      SeparateAbsent(ScoreName(j - 1), PublicName(k));
      ReplaceAbsent(PublicName(k), ScoreName(j - 1), PublicName(j - 1));
    }
  }

  lemma ScoreNameHasNoBrand(k: nat)
    requires k < 7
    ensures !Contains(ScoreName(k), INTERNAL_CODENAME)
  {
    var s := ScoreName(k);
    forall i | 0 <= i <= |s|
      ensures !At(s, i, INTERNAL_CODENAME)
    {
      if i + 9 <= |s| {
        assert s[i..i + 9][4] == s[i + 4];
      }
    }
    assert 'B' !in s;
  }

  /** Each score name alone is shown as its public name, and the codename as the brand. */
  lemma NamesAreReplaced(k: nat)
    requires k < 7
    ensures PresentConsumerText(ScoreName(k)) == PublicName(k)
    ensures PresentConsumerText("DealBrain") == "PiqSavi"
  {
    hide Replaced, Replace;
    ScoreNameHasNoBrand(k);
    GuardsAreTransparent(ScoreName(k));
    NewNameStays(k, 7);
    BrandAlone();
  }

  lemma BrandAlone()
    ensures PresentConsumerText("DealBrain") == "PiqSavi"
  {
    assert "DealBrain"[..9] == "DealBrain" && "DealBrain"[9..] == "";
    assert At("DealBrain", 0, "DealBrain");
    assert NamesNoScore("PiqSavi");
  }

  /** In a clean context a score name, and it alone, gives way to its public name. */
  lemma NameInContext(a: string, k: nat, b: string)
    requires k < 7 && Apart(a, ScoreName(k) + b) && Apart(ScoreName(k), b)
    requires !Contains(a, INTERNAL_CODENAME) && NamesNoScore(a)
    requires !Contains(b, INTERNAL_CODENAME) && NamesNoScore(b)
    ensures PresentConsumerText(a + (ScoreName(k) + b)) == a + (PublicName(k) + b)
  {
    hide PresentConsumerText, Apart, ScoreName, PublicName, NamesNoScore, Contains;
    PiecesArePresentedApart(a, ScoreName(k) + b);
    PiecesArePresentedApart(ScoreName(k), b);
    NamesAreReplaced(k);
    CleanTextStays(a);
    CleanTextStays(b);
  }
}
