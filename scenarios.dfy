/** Worked examples over the built-in rule table: the two rules a running
    nose with sneezing brings up, the gate on Influenza's required
    symptoms, and a greeting keyword hiding inside a symptom name. */
module Scenarios {
  import opened Text
  import opened Knowledge
  import opened Inference
  import opened Expert

  /** The reported symptoms are all among the rule's, include every one of
      its required symptoms, and the rule's names are already lower case. */
  predicate Covers(rule: Rule, user: seq<string>)
  {
    && LowerAll(rule.symptoms) == rule.symptoms
    && LowerAll(rule.requiredSymptoms) == rule.requiredSymptoms
    && rule.symptoms != [] && rule.requiredSymptoms != []
    && (forall i :: 0 <= i < |user| ==> user[i] in rule.symptoms)
    && AllPresent(rule.requiredSymptoms, user)
  }

  lemma CoveredScore(user: seq<string>, rule: Rule)
    requires Covers(rule, user)
    ensures Score(user, rule) ==
      MatchScore(Confidence(|user|, |rule.symptoms|, true, 0), user, Missing(rule.symptoms, user))
  {
    ScoreAllMatched(user, rule);
  }

  /** Two symptoms listed first and second by a rule whose only required
      symptom is the first. */
  lemma PairCovered(a: string, b: string, rule: Rule)
    requires LowerAll(rule.symptoms) == rule.symptoms
    requires LowerAll(rule.requiredSymptoms) == rule.requiredSymptoms
    requires |rule.symptoms| >= 2 && rule.symptoms[0] == a && rule.symptoms[1] == b
    requires rule.requiredSymptoms == [a] || rule.requiredSymptoms == [a, b]
    ensures Covers(rule, [a, b]) && Covers(rule, [b, a])
  {
    assert rule.symptoms[0] in rule.symptoms && rule.symptoms[1] in rule.symptoms;
  }

  // The built-in symptom names are already lower case, so the scorer's
  // lower-casing leaves them unchanged.

  lemma CommonColdSymptomsLowerCase()
    ensures LowerAll(CommonCold.symptoms) == CommonCold.symptoms
  {
    var s := CommonCold.symptoms;
    assert IsLowerCase(s[0]);
    assert IsLowerCase(s[1]);
    assert IsLowerCase(s[2]);
    assert IsLowerCase(s[3]);
    assert IsLowerCase(s[4]);
    assert IsLowerCase(s[5]);
    LowerAllOfLowerCase(s);
  }

  lemma CommonColdRequiredLowerCase()
    ensures LowerAll(CommonCold.requiredSymptoms) == CommonCold.requiredSymptoms
  {
    var s := CommonCold.requiredSymptoms;
    assert IsLowerCase(s[0]);
    LowerAllOfLowerCase(s);
  }

  lemma AllergicRhinitisSymptomsLowerCase()
    ensures LowerAll(AllergicRhinitis.symptoms) == AllergicRhinitis.symptoms
  {
    var s := AllergicRhinitis.symptoms;
    assert IsLowerCase(s[0]);
    assert IsLowerCase(s[1]);
    assert IsLowerCase(s[2]);
    assert IsLowerCase(s[3]);
    assert IsLowerCase(s[4]);
    LowerAllOfLowerCase(s);
  }

  lemma AllergicRhinitisRequiredLowerCase()
    ensures LowerAll(AllergicRhinitis.requiredSymptoms) == AllergicRhinitis.requiredSymptoms
  {
    var s := AllergicRhinitis.requiredSymptoms;
    assert IsLowerCase(s[0]);
    assert IsLowerCase(s[1]);
    LowerAllOfLowerCase(s);
  }

  lemma InfluenzaRequiredLowerCase()
    ensures LowerAll(Influenza.requiredSymptoms) == Influenza.requiredSymptoms
  {
    var s := Influenza.requiredSymptoms;
    assert IsLowerCase(s[0]);
    assert IsLowerCase(s[1]);
    LowerAllOfLowerCase(s);
  }

  lemma ReportedLowerCase()
    ensures LowerAll(["runny nose", "sneezing"]) == ["runny nose", "sneezing"]
  {
    var u := ["runny nose", "sneezing"];
    assert IsLowerCase(u[0]);
    assert IsLowerCase(u[1]);
    LowerAllOfLowerCase(u);
  }

  lemma CommonColdCovers()
    ensures Covers(CommonCold, ["runny nose", "sneezing"]) && |CommonCold.symptoms| == 6
  {
    CommonColdSymptomsLowerCase();
    CommonColdRequiredLowerCase();
    PairCovered("runny nose", "sneezing", CommonCold);
  }

  lemma AllergicRhinitisCovers()
    ensures Covers(AllergicRhinitis, ["runny nose", "sneezing"]) && |AllergicRhinitis.symptoms| == 5
  {
    AllergicRhinitisSymptomsLowerCase();
    AllergicRhinitisRequiredLowerCase();
    PairCovered("sneezing", "runny nose", AllergicRhinitis);
  }

  lemma CommonColdMissing()
    ensures Missing(CommonCold.symptoms, ["runny nose", "sneezing"]) ==
      ["sore throat", "cough", "mild fever", "fatigue"]
  {
    var s := CommonCold.symptoms;
    var u := ["runny nose", "sneezing"];
    assert s[2] !in u && s[3] !in u && s[4] !in u && s[5] !in u;
    MissingNoneReported(s[2..], u);
    assert s[1..][1..] == s[2..];
  }

  lemma AllergicRhinitisMissing()
    ensures Missing(AllergicRhinitis.symptoms, ["runny nose", "sneezing"]) ==
      ["itchy eyes", "nasal congestion", "fatigue"]
  {
    var s := AllergicRhinitis.symptoms;
    var u := ["runny nose", "sneezing"];
    assert s[2] !in u && s[3] !in u && s[4] !in u;
    MissingNoneReported(s[2..], u);
    assert s[1..][1..] == s[2..];
  }

  lemma TwoOfSixWithBonus() ensures Confidence(2, 6, true, 0) == 130.0 / 3.0 {}

  lemma TwoOfFiveWithBonus() ensures Confidence(2, 5, true, 0) == 50.0 {}

  /** "runny nose" and "sneezing" cover 2 of Common Cold's 6 symptoms and
      include its required "runny nose": 2/6 * 100 + 10, no penalty, every
      other symptom missing. */
  lemma CommonColdScore()
    ensures Score(["runny nose", "sneezing"], CommonCold) ==
      MatchScore(130.0 / 3.0, ["runny nose", "sneezing"],
                 ["sore throat", "cough", "mild fever", "fatigue"])
  {
    CommonColdCovers();
    CoveredScore(["runny nose", "sneezing"], CommonCold);
    CommonColdMissing();
    TwoOfSixWithBonus();
  }

  /** The same two symptoms are both of Allergic Rhinitis's required
      symptoms and 2 of its 5: 2/5 * 100 + 10 = 50. */
  lemma AllergicRhinitisScore()
    ensures Score(["runny nose", "sneezing"], AllergicRhinitis) ==
      MatchScore(50.0, ["runny nose", "sneezing"],
                 ["itchy eyes", "nasal congestion", "fatigue"])
  {
    AllergicRhinitisCovers();
    CoveredScore(["runny nose", "sneezing"], AllergicRhinitis);
    AllergicRhinitisMissing();
    TwoOfFiveWithBonus();
  }

  /** Influenza requires both "fever" and "body ache": three of its symptoms
      without "body ache" score 0 and match nothing. */
  lemma InfluenzaGated()
    ensures Score(["cough", "fever", "headache"], Influenza).confidence == 0.0
    ensures Score(["cough", "fever", "headache"], Influenza).matchedSymptoms == []
  {
    var u := ["cough", "fever", "headache"];
    InfluenzaRequiredLowerCase();
    assert Influenza.requiredSymptoms[1] !in u;
    assert !AllPresent(Influenza.requiredSymptoms, u);
  }

  /** The rule's first required symptom is written in lower case and was
      not reported, so the gate closes. */
  predicate GatedOut(rule: Rule, user: seq<string>)
  {
    rule.requiredSymptoms != [] && IsLowerCase(rule.requiredSymptoms[0]) && rule.requiredSymptoms[0] !in user
  }

  lemma GatedOutScoresZero(rule: Rule, user: seq<string>)
    requires GatedOut(rule, user)
    ensures Score(user, rule).confidence == 0.0
  {
    var r := rule.requiredSymptoms[0];
    LowerAllAt(rule.requiredSymptoms, 0);
    LowerOfLowerCase(r);
    ScoreRequiredGate(user, rule, r);
  }

  lemma AllGatedOut(rules: seq<Rule>, user: seq<string>)
    requires forall i :: 0 <= i < |rules| ==> GatedOut(rules[i], user)
    ensures Candidates(rules, user) == []
  {
    forall i | 0 <= i < |rules| ensures Score(user, rules[i]).confidence <= 0.0 {
      GatedOutScoresZero(rules[i], user);
    }
    CandidatesNone(rules, user);
  }

  /** The built-in rules between Common Cold and Allergic Rhinitis. */
  const Between: seq<Rule> :=
    [Influenza, Covid19, Migraine, Gastroenteritis, Pneumonia, Bronchitis, StrepThroat, Sinusitis]

  /** The built-in rules after Allergic Rhinitis. */
  const After: seq<Rule> :=
    [TensionHeadache, UrinaryTractInfection, AsthmaAttack, FoodPoisoning, Dehydration, AnxietyDisorder]

  lemma BetweenGatedOutFirstHalf()
    ensures forall i :: 0 <= i < 4 ==> GatedOut(Between[i], ["runny nose", "sneezing"])
  {
    assert IsLowerCase(Between[0].requiredSymptoms[0]);
    assert IsLowerCase(Between[1].requiredSymptoms[0]);
    assert IsLowerCase(Between[2].requiredSymptoms[0]);
    assert IsLowerCase(Between[3].requiredSymptoms[0]);
  }

  lemma BetweenGatedOutSecondHalf()
    ensures forall i :: 4 <= i < |Between| ==> GatedOut(Between[i], ["runny nose", "sneezing"])
  {
    assert IsLowerCase(Between[4].requiredSymptoms[0]);
    assert IsLowerCase(Between[5].requiredSymptoms[0]);
    assert IsLowerCase(Between[6].requiredSymptoms[0]);
    assert IsLowerCase(Between[7].requiredSymptoms[0]);
  }

  lemma AfterGatedOutFirstHalf()
    ensures forall i :: 0 <= i < 3 ==> GatedOut(After[i], ["runny nose", "sneezing"])
  {
    assert IsLowerCase(After[0].requiredSymptoms[0]);
    assert IsLowerCase(After[1].requiredSymptoms[0]);
    assert IsLowerCase(After[2].requiredSymptoms[0]);
  }

  lemma AfterGatedOutSecondHalf()
    ensures forall i :: 3 <= i < |After| ==> GatedOut(After[i], ["runny nose", "sneezing"])
  {
    assert IsLowerCase(After[3].requiredSymptoms[0]);
    assert IsLowerCase(After[4].requiredSymptoms[0]);
    assert IsLowerCase(After[5].requiredSymptoms[0]);
  }

  /** The built-in table, cut around the two rules a cold report can reach. */
  lemma BuiltInSplit()
    ensures BuiltInRules == [CommonCold] + Between + [AllergicRhinitis] + After
  {
  }

  /** Two scoring rules with only gated-out rules around them are the only
      candidates, in table order. */
  lemma TwoAmongGated(a: Rule, between: seq<Rule>, b: Rule, after: seq<Rule>, user: seq<string>, sa: MatchScore, sb: MatchScore)
    requires sa == Score(user, a) && sa.confidence > 0.0
    requires sb == Score(user, b) && sb.confidence > 0.0
    requires forall i :: 0 <= i < |between| ==> GatedOut(between[i], user)
    requires forall i :: 0 <= i < |after| ==> GatedOut(after[i], user)
    ensures Candidates([a] + between + [b] + after, user) == [Entry(a, sa), Entry(b, sb)]
  {
    CandidatesAppend([a] + between + [b], after, user);
    CandidatesAppend([a] + between, [b], user);
    CandidatesAppend([a], between, user);
    AllGatedOut(between, user);
    AllGatedOut(after, user);
    CandidatesOne(a, user, sa);
    CandidatesOne(b, user, sb);
  }

  /** Of the sixteen built-in rules only Common Cold and Allergic Rhinitis
      pass their gates for a runny nose with sneezing. */
  lemma ColdReportCandidates(sc: MatchScore, sa: MatchScore)
    requires sc == Score(["runny nose", "sneezing"], CommonCold)
    requires sa == Score(["runny nose", "sneezing"], AllergicRhinitis)
    ensures Candidates(BuiltInRules, ["runny nose", "sneezing"]) == [Entry(CommonCold, sc), Entry(AllergicRhinitis, sa)]
  {
    BuiltInSplit();
    BetweenGatedOutFirstHalf();
    BetweenGatedOutSecondHalf();
    AfterGatedOutFirstHalf();
    AfterGatedOutSecondHalf();
    CommonColdScore();
    AllergicRhinitisScore();
    TwoAmongGated(CommonCold, Between, AllergicRhinitis, After, ["runny nose", "sneezing"], sc, sa);
  }

  /** Ranking a report whose candidates are exactly two entries. */
  lemma RankTwoCandidates(rules: seq<Rule>, userSymptoms: seq<string>, e1: Diagnosis, e2: Diagnosis)
    requires userSymptoms != []
    requires e1.confidence > 0.0 && e2.confidence > 0.0
    requires Candidates(rules, LowerAll(userSymptoms)) == [e1, e2]
    ensures Diagnoses(rules, userSymptoms) == if e2.confidence > e1.confidence then [e2, e1] else [e1, e2]
  {
    PositiveTwo(e1, e2);
    RankTwo(e1, e2);
  }

  /** In the full built-in table a runny nose with sneezing ranks Allergic
      Rhinitis (50) above Common Cold (130/3), and nothing else. */
  lemma ColdAndAllergyRanking(sc: MatchScore, sa: MatchScore)
    requires sc == Score(["runny nose", "sneezing"], CommonCold)
    requires sa == Score(["runny nose", "sneezing"], AllergicRhinitis)
    ensures Diagnoses(BuiltInRules, ["runny nose", "sneezing"]) == [Entry(AllergicRhinitis, sa), Entry(CommonCold, sc)]
  {
    ReportedLowerCase();
    ColdReportCandidates(sc, sa);
    CommonColdScore();
    AllergicRhinitisScore();
    RankTwoCandidates(BuiltInRules, ["runny nose", "sneezing"], Entry(CommonCold, sc), Entry(AllergicRhinitis, sa));
  }

  /** The greeting keyword "hi" occurs inside "chills". */
  lemma HiInChills()
    ensures Contains("chills", GreetingKeywords[1])
  {
    assert OccursAt(GreetingKeywords[1], "chills", 1);
  }

  /** The greeting test is a plain substring test, so "hi" inside "chills"
      makes any input mentioning chills a greeting, in every state: the
      symptom is never extracted that way, and a finished diagnosis is not
      kept. */
  lemma ChillsGreets(rules: seq<Rule>, vocab: seq<string>, state: State, symptoms: seq<string>, input: string)
    requires Contains(Strip(Lower(input)), "chills")
    ensures Step(rules, vocab, state, symptoms, input) == Outcome(CollectingSymptoms, symptoms, Greeting)
  {
    var lowered := Strip(Lower(input));
    HiInChills();
    ContainsTransitive(lowered, "chills", GreetingKeywords[1]);
    StepGreeting(rules, vocab, state, symptoms, lowered);
  }
}
