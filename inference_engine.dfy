/** The inference engine: scores one rule against the user's symptoms, ranks
    all rules, and the generic forward-chaining fixpoint. */
module Inference {
  import opened Text
  import opened Knowledge

  /** The three fields `calculate_match_score` returns.  `confidence` is the
      exact value before `round(…, 2)`. */
  datatype MatchScore = MatchScore(confidence: real, matchedSymptoms: seq<string>, missingSymptoms: seq<string>)

  /** One entry of the list `diagnose` returns. */
  datatype Diagnosis = Diagnosis(
    condition: string,
    confidence: real,
    matchedSymptoms: seq<string>,
    missingSymptoms: seq<string>,
    description: string,
    recommendations: string)

  predicate NoDup(s: seq<string>)
  {
    forall i, j :: 0 <= i < j < |s| ==> s[i] != s[j]
  }

  function RMin(a: real, b: real): real { if a <= b then a else b }
  function RMax(a: real, b: real): real { if a >= b then a else b }

  // ---------------------------------------------------------------------------
  // Scoring one rule

  /** `all(req in user for req in required)` */
  predicate AllPresent(required: seq<string>, user: seq<string>)
  {
    forall r :: r in required ==> r in user
  }

  /** The user symptoms, in user order, that occur among the rule symptoms
      (the list the scoring loop accumulates). */
  function Matched(user: seq<string>, ruleSymptoms: seq<string>): seq<string>
  {
    if user == [] then []
    else
      var last := user[|user| - 1];
      Matched(user[..|user| - 1], ruleSymptoms) + (if last in ruleSymptoms then [last] else [])
  }

  /** `[s for s in rule_symptoms if s not in user_symptoms]` */
  function Missing(ruleSymptoms: seq<string>, user: seq<string>): seq<string>
  {
    if ruleSymptoms == [] then []
    else (if ruleSymptoms[0] in user then [] else [ruleSymptoms[0]]) + Missing(ruleSymptoms[1..], user)
  }

  /** The confidence of a rule that passed the required-symptom gate and has
      `total > 0` symptoms: coverage percentage, then the +10 bonus capped at
      100 when the rule has required symptoms, then the penalty of 5 per
      extra symptom capped at 20, floored at 0. */
  function Confidence(matched: nat, total: nat, bonus: bool, extra: int): (r: real)
    requires total > 0
    ensures r >= 0.0
  {
    assert (matched as real / total as real) * total as real == matched as real;
    var base := (matched as real / total as real) * 100.0;
    var withBonus := if bonus then RMin(100.0, base + 10.0) else base;
    if extra > 0 then RMax(0.0, withBonus - RMin(20.0, (extra * 5) as real)) else withBonus
  }

  /** `calculate_match_score(user_symptoms, rule)`, `user` being already
      lower-cased. */
  function Score(user: seq<string>, rule: Rule): (r: MatchScore)
    ensures r.confidence >= 0.0
  {
    var ruleSymptoms := LowerAll(rule.symptoms);
    var required := LowerAll(rule.requiredSymptoms);
    var requiredMatched := AllPresent(required, user);
    if required != [] && !requiredMatched then
      MatchScore(0.0, [], ruleSymptoms)
    else
      var matched := Matched(user, ruleSymptoms);
      var confidence :=
        if |ruleSymptoms| > 0
        then Confidence(|matched|, |ruleSymptoms|, required != [] && requiredMatched, |user| - |matched|)
        else 0.0;
      MatchScore(confidence, matched, Missing(ruleSymptoms, user))
  }

  /** `calculate_match_score`, step by step as the source computes it. */
  method CalculateMatchScore(user: seq<string>, rule: Rule) returns (score: MatchScore)
    ensures score == Score(user, rule)
  {
    var ruleSymptoms := LowerAll(rule.symptoms);
    var required := LowerAll(rule.requiredSymptoms);
    var requiredMatched := AllPresent(required, user);
    if required != [] && !requiredMatched {
      return MatchScore(0.0, [], ruleSymptoms);
    }
    var matched: seq<string> := [];
    var i := 0;
    while i < |user|
      invariant 0 <= i <= |user|
      invariant matched == Matched(user[..i], ruleSymptoms)
    {
      assert user[..i + 1][..i] == user[..i];
      if user[i] in ruleSymptoms {
        matched := matched + [user[i]];
      }
      i := i + 1;
    }
    assert user[..i] == user;
    var baseConfidence: real;
    if |ruleSymptoms| > 0 {
      baseConfidence := (|matched| as real / |ruleSymptoms| as real) * 100.0;
      if required != [] && requiredMatched {
        var bonus := 10.0;
        baseConfidence := RMin(100.0, baseConfidence + bonus);
      }
      var extraSymptoms := |user| - |matched|;
      if extraSymptoms > 0 {
        var penalty := RMin(20.0, (extraSymptoms * 5) as real);
        baseConfidence := RMax(0.0, baseConfidence - penalty);
      }
    } else {
      baseConfidence := 0.0;
    }
    score := MatchScore(baseConfidence, matched, Missing(ruleSymptoms, user));
  }

  /** A rule whose non-empty required list is not covered by the user's
      symptoms scores 0, matches nothing and misses all its symptoms. */
  lemma ScoreRequiredGate(user: seq<string>, rule: Rule, r: string)
    requires r in LowerAll(rule.requiredSymptoms) && r !in user
    ensures Score(user, rule) == MatchScore(0.0, [], LowerAll(rule.symptoms))
  {
  }

  /** A rule with no symptoms always scores 0. */
  lemma ScoreEmptyRule(user: seq<string>, rule: Rule)
    requires rule.symptoms == []
    ensures Score(user, rule).confidence == 0.0
  {
  }

  /** Matching keeps every user symptom the rule lists. */
  lemma {:induction false} MatchedAll(user: seq<string>, ruleSymptoms: seq<string>)
    requires forall i :: 0 <= i < |user| ==> user[i] in ruleSymptoms
    ensures Matched(user, ruleSymptoms) == user
  {
    if user != [] {
      MatchedAll(user[..|user| - 1], ruleSymptoms);
    }
  }

  /** No rule symptom reported: all of them are missing. */
  lemma {:induction false} MissingNoneReported(ruleSymptoms: seq<string>, user: seq<string>)
    requires forall i :: 0 <= i < |ruleSymptoms| ==> ruleSymptoms[i] !in user
    ensures Missing(ruleSymptoms, user) == ruleSymptoms
  {
    if ruleSymptoms != [] {
      MissingNoneReported(ruleSymptoms[1..], user);
    }
  }

  /** When every reported symptom belongs to a rule that passes the gate,
      the user scores the plain coverage percentage (plus the bonus when the
      rule has required symptoms) with no penalty. */
  lemma ScoreAllMatched(user: seq<string>, rule: Rule)
    requires forall i :: 0 <= i < |user| ==> user[i] in LowerAll(rule.symptoms)
    requires AllPresent(LowerAll(rule.requiredSymptoms), user)
    requires rule.symptoms != []
    ensures Score(user, rule) ==
      MatchScore(Confidence(|user|, |rule.symptoms|, rule.requiredSymptoms != [], 0),
                 user, Missing(LowerAll(rule.symptoms), user))
  {
    MatchedAll(user, LowerAll(rule.symptoms));
  }

  lemma {:induction false} MatchedMultiset(user: seq<string>, ruleSymptoms: seq<string>, x: string)
    ensures multiset(Matched(user, ruleSymptoms))[x] == if x in ruleSymptoms then multiset(user)[x] else 0
  {
    if user != [] {
      var n := |user| - 1;
      MatchedMultiset(user[..n], ruleSymptoms, x);
      assert user == user[..n] + [user[n]];
    }
  }

  lemma {:induction false} MissingMultiset(ruleSymptoms: seq<string>, user: seq<string>, x: string)
    ensures multiset(Missing(ruleSymptoms, user))[x] == if x in user then 0 else multiset(ruleSymptoms)[x]
  {
    if ruleSymptoms != [] {
      MissingMultiset(ruleSymptoms[1..], user, x);
      assert ruleSymptoms == [ruleSymptoms[0]] + ruleSymptoms[1..];
    }
  }

  /** When the gate is passed, the matched list holds each user symptom that
      occurs in the rule, as often as the user lists it, and the missing list
      holds each rule symptom the user does not have, as often as the rule
      lists it. */
  lemma ScoreMatchedMissing(user: seq<string>, rule: Rule, x: string)
    requires AllPresent(LowerAll(rule.requiredSymptoms), user)
    ensures var s := Score(user, rule);
      && multiset(s.matchedSymptoms)[x] == (if x in LowerAll(rule.symptoms) then multiset(user)[x] else 0)
      && multiset(s.missingSymptoms)[x] == (if x in user then 0 else multiset(LowerAll(rule.symptoms))[x])
  {
    MatchedMultiset(user, LowerAll(rule.symptoms), x);
    MissingMultiset(LowerAll(rule.symptoms), user, x);
  }

  lemma {:induction false} MatchedSubsequence(user: seq<string>, ruleSymptoms: seq<string>)
    ensures |Matched(user, ruleSymptoms)| <= |user|
    ensures forall x :: x in Matched(user, ruleSymptoms) ==> x in user && x in ruleSymptoms
    ensures NoDup(user) ==> NoDup(Matched(user, ruleSymptoms))
  {
    if user != [] {
      var n := |user| - 1;
      MatchedSubsequence(user[..n], ruleSymptoms);
      assert forall x :: x in user[..n] ==> x in user;
      if NoDup(user) {
        assert forall i :: 0 <= i < n ==> user[..n][i] == user[i];
        assert user[n] !in user[..n];
      }
    }
  }

  /** A duplicate-free list drawn from `t` is no longer than `t`. */
  lemma {:induction false} DistinctSubsetLength(s: seq<string>, t: seq<string>)
    requires NoDup(s)
    requires forall x :: x in s ==> x in t
    ensures |s| <= |t|
  {
    if s != [] {
      assert s[0] in s;
      var k :| 0 <= k < |t| && t[k] == s[0];
      var t' := t[..k] + t[k + 1..];
      forall x | x in s[1..] ensures x in t' {
        var i :| 1 <= i < |s| && s[i] == x;
        assert x != s[0];
        assert x in s;
        var j :| 0 <= j < |t| && t[j] == x;
        if j < k { assert t'[j] == x; } else { assert t'[j - 1] == x; }
      }
      DistinctSubsetLength(s[1..], t');
    }
  }

  /** A coverage percentage of at most all the symptoms lies in [0, 100]. */
  lemma RatioBounds(m: nat, t: nat)
    requires 0 < t && m <= t
    ensures 0.0 <= (m as real / t as real) * 100.0 <= 100.0
  {
    var q := m as real / t as real;
    assert q * t as real == m as real;
  }

  /** The bonus cap and the penalty floor keep a percentage in [0, 100]. */
  lemma ConfidenceBounds(matched: nat, total: nat, bonus: bool, extra: int)
    requires 0 < total && matched <= total
    ensures 0.0 <= Confidence(matched, total, bonus, extra) <= 100.0
  {
    RatioBounds(matched, total);
  }

  /** For duplicate-free user symptoms the confidence lies in [0, 100]. */
  lemma ScoreBounds(user: seq<string>, rule: Rule)
    requires NoDup(user)
    ensures 0.0 <= Score(user, rule).confidence <= 100.0
  {
    var ruleSymptoms := LowerAll(rule.symptoms);
    var matched := Matched(user, ruleSymptoms);
    MatchedSubsequence(user, ruleSymptoms);
    DistinctSubsetLength(matched, ruleSymptoms);
    if |ruleSymptoms| > 0 {
      var required := LowerAll(rule.requiredSymptoms);
      ConfidenceBounds(|matched|, |ruleSymptoms|, required != [] && AllPresent(required, user), |user| - |matched|);
    }
  }

  /** The bound for what `diagnose` scores: the report is lower-cased first,
      so it needs the report free of repeats and already in lower case. */
  lemma LowerCaseReportBounds(userSymptoms: seq<string>, rule: Rule)
    requires NoDup(userSymptoms)
    requires forall i :: 0 <= i < |userSymptoms| ==> IsLowerCase(userSymptoms[i])
    ensures 0.0 <= Score(LowerAll(userSymptoms), rule).confidence <= 100.0
  {
    LowerAllOfLowerCase(userSymptoms);
    ScoreBounds(userSymptoms, rule);
  }

  /** Without the duplicate-free premise the upper bound fails: only the
      bonus branch caps at 100, so a symptom reported twice against a
      one-symptom rule with no required symptoms scores 200. */
  lemma RepeatedSymptomAboveHundred(s: string, rule: Rule)
    requires Lower(s) == s
    requires rule.symptoms == [s] && rule.requiredSymptoms == []
    ensures Score([s, s], rule).confidence == 200.0
  {
    assert LowerAll(rule.symptoms) == [s];
    assert [s][..0] == [];
    assert Matched([s], [s]) == [s];
    assert [s, s][..1] == [s];
    assert Matched([s, s], [s]) == [s, s];
  }

  lemma ConfidenceWithoutMatches(total: nat, extra: int)
    requires total > 0
    ensures Confidence(0, total, false, extra) <= 0.0
  {
    assert (0 as real / total as real) == 0.0;
  }

  /** A well-formed rule that scores above 0 has matched at least one of the
      user's symptoms. */
  lemma PositiveScoreMatches(user: seq<string>, rule: Rule)
    requires WellFormed(rule)
    requires Score(user, rule).confidence > 0.0
    ensures Score(user, rule).matchedSymptoms != []
  {
    var ruleSymptoms := LowerAll(rule.symptoms);
    var required := LowerAll(rule.requiredSymptoms);
    var matched := Matched(user, ruleSymptoms);
    if required != [] {
      var r := rule.requiredSymptoms[0];
      assert r in rule.requiredSymptoms;
      var k :| 0 <= k < |rule.symptoms| && rule.symptoms[k] == r;
      LowerAllAt(rule.requiredSymptoms, 0);
      LowerAllAt(rule.symptoms, k);
      assert required[0] in required;
      assert AllPresent(required, user);
      MatchedMultiset(user, ruleSymptoms, required[0]);
      assert ruleSymptoms[k] == required[0];
      assert multiset(user)[required[0]] > 0;
      assert Score(user, rule).matchedSymptoms == matched;
    } else {
      assert Score(user, rule).matchedSymptoms == matched;
      if |ruleSymptoms| > 0 {
        ConfidenceWithoutMatches(|ruleSymptoms|, |user|);
      }
    }
  }

  // ---------------------------------------------------------------------------
  // Ranking

  function Entry(rule: Rule, s: MatchScore): Diagnosis
  {
    Diagnosis(rule.condition, s.confidence, s.matchedSymptoms, s.missingSymptoms,
              rule.description, rule.recommendations)
  }

  /** One entry per rule, in rule-table order. */
  function Entries(rules: seq<Rule>, user: seq<string>): (r: seq<Diagnosis>)
    ensures |r| == |rules|
  {
    if rules == [] then []
    else Entries(rules[..|rules| - 1], user) + [Entry(rules[|rules| - 1], Score(user, rules[|rules| - 1]))]
  }

  lemma {:induction false} EntriesAt(rules: seq<Rule>, user: seq<string>, i: int)
    requires 0 <= i < |rules|
    ensures Entries(rules, user)[i] == Entry(rules[i], Score(user, rules[i]))
  {
    var n := |rules| - 1;
    if i < n {
      EntriesAt(rules[..n], user, i);
      assert rules[..n][i] == rules[i];
    }
  }

  /** The entries with confidence > 0, in order. */
  function Positive(es: seq<Diagnosis>): (r: seq<Diagnosis>)
    ensures |r| <= |es|
  {
    if es == [] then []
    else Positive(es[..|es| - 1]) + (if es[|es| - 1].confidence > 0.0 then [es[|es| - 1]] else [])
  }

  lemma {:induction false} PositiveMembership(es: seq<Diagnosis>, d: Diagnosis)
    ensures d in Positive(es) <==> d in es && d.confidence > 0.0
  {
    if es != [] {
      var n := |es| - 1;
      PositiveMembership(es[..n], d);
      assert es == es[..n] + [es[n]];
    }
  }

  /** The entries with confidence > 0, in rule-table order, before sorting. */
  function Candidates(rules: seq<Rule>, user: seq<string>): seq<Diagnosis>
  {
    Positive(Entries(rules, user))
  }

  /** The entries before sorting are exactly the entries of the rules that
      score above 0. */
  lemma CandidatesMembership(rules: seq<Rule>, user: seq<string>, d: Diagnosis)
    ensures d in Candidates(rules, user) <==>
      exists i :: 0 <= i < |rules| && Score(user, rules[i]).confidence > 0.0
        && d == Entry(rules[i], Score(user, rules[i]))
  {
    var es := Entries(rules, user);
    PositiveMembership(es, d);
    if d in es {
      var i :| 0 <= i < |es| && es[i] == d;
      EntriesAt(rules, user, i);
    }
    if exists i :: 0 <= i < |rules| && Score(user, rules[i]).confidence > 0.0
        && d == Entry(rules[i], Score(user, rules[i])) {
      var i :| 0 <= i < |rules| && Score(user, rules[i]).confidence > 0.0
        && d == Entry(rules[i], Score(user, rules[i]));
      EntriesAt(rules, user, i);
      assert d == es[i];
    }
  }

  lemma {:induction false} EntriesAppend(a: seq<Rule>, b: seq<Rule>, user: seq<string>)
    ensures Entries(a + b, user) == Entries(a, user) + Entries(b, user)
  {
    if b != [] {
      var n := |b| - 1;
      EntriesAppend(a, b[..n], user);
      assert (a + b)[..|a + b| - 1] == a + b[..n];
      assert (a + b)[|a + b| - 1] == b[n];
    } else {
      assert a + b == a;
    }
  }

  lemma {:induction false} PositiveAppend(x: seq<Diagnosis>, y: seq<Diagnosis>)
    ensures Positive(x + y) == Positive(x) + Positive(y)
  {
    if y != [] {
      var n := |y| - 1;
      PositiveAppend(x, y[..n]);
      assert (x + y)[..|x + y| - 1] == x + y[..n];
      assert (x + y)[|x + y| - 1] == y[n];
    } else {
      assert x + y == x;
    }
  }

  /** Splitting the rule table splits the candidate list the same way. */
  lemma CandidatesAppend(a: seq<Rule>, b: seq<Rule>, user: seq<string>)
    ensures Candidates(a + b, user) == Candidates(a, user) + Candidates(b, user)
  {
    EntriesAppend(a, b, user);
    PositiveAppend(Entries(a, user), Entries(b, user));
  }

  /** A table in which no rule scores above 0 has no candidates. */
  lemma {:induction false} CandidatesNone(rules: seq<Rule>, user: seq<string>)
    requires forall i :: 0 <= i < |rules| ==> Score(user, rules[i]).confidence <= 0.0
    ensures Candidates(rules, user) == []
  {
    if rules != [] {
      var n := |rules| - 1;
      CandidatesNone(rules[..n], user);
      assert Entries(rules, user)[..n] == Entries(rules[..n], user);
    }
  }

  lemma PositiveOne(e: Diagnosis)
    requires e.confidence > 0.0
    ensures Positive([e]) == [e]
  {
    assert [e][..0] == [];
  }

  /** A single rule that scores above 0 is its own only candidate. */
  lemma CandidatesOne(rule: Rule, user: seq<string>, s: MatchScore)
    requires s == Score(user, rule) && s.confidence > 0.0
    ensures Candidates([rule], user) == [Entry(rule, s)]
  {
    EntriesAt([rule], user, 0);
    PositiveOne(Entry(rule, s));
  }

  lemma PositiveTwo(e1: Diagnosis, e2: Diagnosis)
    requires e1.confidence > 0.0 && e2.confidence > 0.0
    ensures Positive([e1, e2]) == [e1, e2]
  {
    assert [e1, e2][..1] == [e1];
    PositiveOne(e1);
  }

  predicate SortedDesc(s: seq<Diagnosis>)
  {
    forall i, j :: 0 <= i < j < |s| ==> s[i].confidence >= s[j].confidence
  }

  /** The entries of `s` with confidence exactly `c`, in order. */
  function WithConfidence(s: seq<Diagnosis>, c: real): seq<Diagnosis>
  {
    if s == [] then []
    else (if s[0].confidence == c then [s[0]] else []) + WithConfidence(s[1..], c)
  }

  /** Puts `x` in front of the first entry whose confidence is not above its
      own, so that it stays ahead of the entries it preceded. */
  function InsertDesc(x: Diagnosis, s: seq<Diagnosis>): (r: seq<Diagnosis>)
    ensures |r| == |s| + 1
  {
    if s == [] || s[0].confidence <= x.confidence then [x] + s
    else [s[0]] + InsertDesc(x, s[1..])
  }

  /** `list.sort(key=confidence, reverse=True)`: a stable sort into
      non-increasing confidence. */
  function SortDesc(s: seq<Diagnosis>): (r: seq<Diagnosis>)
    ensures |r| == |s|
  {
    if s == [] then [] else InsertDesc(s[0], SortDesc(s[1..]))
  }

  lemma {:induction false} InsertDescMultiset(x: Diagnosis, s: seq<Diagnosis>)
    ensures multiset(InsertDesc(x, s)) == multiset{x} + multiset(s)
  {
    if s != [] && s[0].confidence > x.confidence {
      InsertDescMultiset(x, s[1..]);
      assert s == [s[0]] + s[1..];
    }
  }

  lemma {:induction false} InsertDescSorted(x: Diagnosis, s: seq<Diagnosis>)
    requires SortedDesc(s)
    ensures SortedDesc(InsertDesc(x, s))
  {
    if s != [] && s[0].confidence > x.confidence {
      InsertDescSorted(x, s[1..]);
      InsertDescMultiset(x, s[1..]);
      var r := InsertDesc(x, s[1..]);
      forall j | 0 <= j < |r| ensures s[0].confidence >= r[j].confidence {
        assert r[j] in multiset(r);
        if r[j] != x {
          assert r[j] in multiset(s[1..]);
          var k :| 0 <= k < |s[1..]| && s[1..][k] == r[j];
          assert s[k + 1] == r[j];
        }
      }
    }
  }

  lemma {:induction false} WithConfidenceAppend(a: seq<Diagnosis>, b: seq<Diagnosis>, c: real)
    ensures WithConfidence(a + b, c) == WithConfidence(a, c) + WithConfidence(b, c)
  {
    if a != [] {
      WithConfidenceAppend(a[1..], b, c);
      assert (a + b)[0] == a[0];
      assert (a + b)[1..] == a[1..] + b;
    } else {
      assert a + b == b;
    }
  }

  lemma WithConfidenceSingle(y: Diagnosis, c: real)
    ensures WithConfidence([y], c) == if y.confidence == c then [y] else []
  {
    assert [y][1..] == [];
  }

  lemma {:induction false} InsertDescStable(x: Diagnosis, s: seq<Diagnosis>, c: real)
    ensures WithConfidence(InsertDesc(x, s), c) == WithConfidence([x] + s, c)
  {
    if s != [] && s[0].confidence > x.confidence {
      var rest := s[1..];
      assert s == [s[0]] + rest;
      InsertDescStable(x, rest, c);
      var wx, w0, wr := WithConfidence([x], c), WithConfidence([s[0]], c), WithConfidence(rest, c);
      WithConfidenceSingle(x, c);
      WithConfidenceSingle(s[0], c);
      WithConfidenceAppend([s[0]], InsertDesc(x, rest), c);
      WithConfidenceAppend([x], rest, c);
      WithConfidenceAppend([s[0]], rest, c);
      WithConfidenceAppend([x], s, c);
      // x and s[0] have different confidences, so at most one of them is kept
      if x.confidence == c {
        assert w0 == [];
        assert WithConfidence(InsertDesc(x, s), c) == wx + wr;
      } else {
        assert wx == [];
        assert WithConfidence(InsertDesc(x, s), c) == w0 + wr;
      }
    }
  }

  /** The sort yields a non-increasing permutation of its input that keeps,
      for every confidence value, the input order of the entries having it. */
  lemma {:induction false} SortDescProperties(s: seq<Diagnosis>, c: real)
    ensures SortedDesc(SortDesc(s))
    ensures multiset(SortDesc(s)) == multiset(s)
    ensures WithConfidence(SortDesc(s), c) == WithConfidence(s, c)
  {
    if s != [] {
      SortDescProperties(s[1..], c);
      InsertDescSorted(s[0], SortDesc(s[1..]));
      InsertDescMultiset(s[0], SortDesc(s[1..]));
      InsertDescStable(s[0], SortDesc(s[1..]), c);
      WithConfidenceAppend([s[0]], SortDesc(s[1..]), c);
      WithConfidenceAppend([s[0]], s[1..], c);
      assert s == [s[0]] + s[1..];
    }
  }

  /** `s[:5]` */
  function Top5(s: seq<Diagnosis>): (r: seq<Diagnosis>)
    ensures r <= s
    ensures |r| <= 5
    ensures |s| >= 5 ==> |r| == 5
    ensures |s| <= 5 ==> r == s
  {
    if |s| <= 5 then s else s[..5]
  }

  /** `diagnose(user_symptoms)` over the rule table `rules`. */
  function Diagnoses(rules: seq<Rule>, userSymptoms: seq<string>): (r: seq<Diagnosis>)
    ensures userSymptoms == [] ==> r == []
    ensures |r| <= 5 && |r| <= |rules|
  {
    if userSymptoms == [] then []
    else Top5(SortDesc(Candidates(rules, LowerAll(userSymptoms))))
  }

  /** `diagnose`: scores every rule in table order, keeps the positive scores,
      sorts them (the library sort is `SortDesc`) and keeps the first five. */
  method Diagnose(rules: seq<Rule>, userSymptoms: seq<string>) returns (diagnoses: seq<Diagnosis>)
    ensures diagnoses == Diagnoses(rules, userSymptoms)
  {
    if userSymptoms == [] {
      return [];
    }
    var userSymptomsLower := LowerAll(userSymptoms);
    diagnoses := [];
    var i := 0;
    while i < |rules|
      invariant 0 <= i <= |rules|
      invariant diagnoses == Positive(Entries(rules[..i], userSymptomsLower))
    {
      assert rules[..i + 1][..i] == rules[..i];
      var matchScore := CalculateMatchScore(userSymptomsLower, rules[i]);
      ghost var es := Entries(rules[..i + 1], userSymptomsLower);
      assert es[..i] == Entries(rules[..i], userSymptomsLower);
      if matchScore.confidence > 0.0 {
        diagnoses := diagnoses + [Entry(rules[i], matchScore)];
      }
      i := i + 1;
    }
    assert rules[..i] == rules;
    diagnoses := SortDesc(diagnoses);
    diagnoses := Top5(diagnoses);
  }

  lemma {:induction false} WithConfidencePrefix(s: seq<Diagnosis>, k: nat, c: real)
    requires k <= |s|
    ensures WithConfidence(s[..k], c) <= WithConfidence(s, c)
  {
    if k > 0 {
      WithConfidencePrefix(s[1..], k - 1, c);
      assert s[..k][1..] == s[1..][..k - 1];
    }
  }

  /** What `diagnose` promises: nothing for no symptoms; otherwise at most
      five entries, each the entry of some rule and scored above 0, in
      non-increasing confidence; and for each confidence value the entries
      having it keep their rule-table order. */
  lemma DiagnosesProperties(rules: seq<Rule>, userSymptoms: seq<string>, c: real)
    ensures userSymptoms == [] ==> Diagnoses(rules, userSymptoms) == []
    ensures |Diagnoses(rules, userSymptoms)| <= 5
    ensures SortedDesc(Diagnoses(rules, userSymptoms))
    ensures forall d :: d in Diagnoses(rules, userSymptoms) ==>
      d.confidence > 0.0 && d in Entries(rules, LowerAll(userSymptoms))
    ensures WithConfidence(Diagnoses(rules, userSymptoms), c)
      <= WithConfidence(Candidates(rules, LowerAll(userSymptoms)), c)
  {
    if userSymptoms != [] {
      var u := LowerAll(userSymptoms);
      var cands := Candidates(rules, u);
      var sorted := SortDesc(cands);
      SortDescProperties(cands, c);
      var r := Top5(sorted);
      assert r == sorted[..|r|];
      forall d | d in r
        ensures d.confidence > 0.0 && d in Entries(rules, u)
      {
        assert d in sorted;
        assert d in multiset(sorted);
        assert d in cands;
        PositiveMembership(Entries(rules, u), d);
      }
      WithConfidencePrefix(sorted, |r|, c);
    }
  }

  /** Every positive-scoring entry the truncation drops has a confidence no
      higher than any entry kept. */
  lemma DiagnosesAreTop(rules: seq<Rule>, userSymptoms: seq<string>, d: Diagnosis)
    requires userSymptoms != []
    requires d in Candidates(rules, LowerAll(userSymptoms))
    requires d !in Diagnoses(rules, userSymptoms)
    ensures forall i :: 0 <= i < |Diagnoses(rules, userSymptoms)| ==>
      Diagnoses(rules, userSymptoms)[i].confidence >= d.confidence
  {
    var cands := Candidates(rules, LowerAll(userSymptoms));
    var sorted := SortDesc(cands);
    SortDescProperties(cands, 0.0);
    assert d in multiset(sorted);
    var j :| 0 <= j < |sorted| && sorted[j] == d;
    var r := Top5(sorted);
    assert j >= |r|;
  }

  /** Nothing positive is lost before the cut: the ranking holds every
      positive-scoring entry up to five of them, so it is non-empty exactly
      when some rule scores above 0. */
  lemma DiagnosesKeepPositive(rules: seq<Rule>, userSymptoms: seq<string>)
    requires userSymptoms != []
    ensures var cands := Candidates(rules, LowerAll(userSymptoms));
      |Diagnoses(rules, userSymptoms)| == if |cands| <= 5 then |cands| else 5
    ensures Diagnoses(rules, userSymptoms) != [] <==>
      exists i :: 0 <= i < |rules| && Score(LowerAll(userSymptoms), rules[i]).confidence > 0.0
  {
    var u := LowerAll(userSymptoms);
    var cands := Candidates(rules, u);
    SortDescProperties(cands, 0.0);
    assert |SortDesc(cands)| == |multiset(SortDesc(cands))| == |multiset(cands)| == |cands|;
    if cands != [] {
      assert cands[0] in cands;
      CandidatesMembership(rules, u, cands[0]);
    }
    if exists i :: 0 <= i < |rules| && Score(u, rules[i]).confidence > 0.0 {
      var i :| 0 <= i < |rules| && Score(u, rules[i]).confidence > 0.0;
      CandidatesMembership(rules, u, Entry(rules[i], Score(u, rules[i])));
    }
  }

  /** Sorting two positive entries: the higher confidence first, a tie in
      the original order. */
  lemma RankTwo(e1: Diagnosis, e2: Diagnosis)
    requires e1.confidence > 0.0 && e2.confidence > 0.0
    ensures Top5(SortDesc(Positive([e1, e2]))) ==
      if e2.confidence > e1.confidence then [e2, e1] else [e1, e2]
  {
    assert [e1, e2][..1] == [e1];
    assert Positive([e1]) == [e1];
    assert Positive([e1, e2]) == [e1, e2];
    assert [e1, e2][1..] == [e2];
    assert SortDesc([e2]) == [e2];
    assert [e2][1..] == [];
    assert SortDesc([e1, e2]) == InsertDesc(e1, [e2]);
  }

  lemma EntriesTwo(first: Rule, second: Rule, user: seq<string>)
    ensures Entries([first, second], user) ==
      [Entry(first, Score(user, first)), Entry(second, Score(user, second))]
  {
    EntriesAt([first, second], user, 0);
    EntriesAt([first, second], user, 1);
  }

  /** With two positive-scoring rules, the higher score comes first, and a
      tie keeps table order (the sort is stable). */
  lemma TwoRuleRanking(first: Rule, second: Rule, userSymptoms: seq<string>, s1: MatchScore, s2: MatchScore)
    requires userSymptoms != []
    requires s1 == Score(LowerAll(userSymptoms), first) && s1.confidence > 0.0
    requires s2 == Score(LowerAll(userSymptoms), second) && s2.confidence > 0.0
    ensures Diagnoses([first, second], userSymptoms) ==
      if s2.confidence > s1.confidence then [Entry(second, s2), Entry(first, s1)]
      else [Entry(first, s1), Entry(second, s2)]
  {
    EntriesTwo(first, second, LowerAll(userSymptoms));
    RankTwo(Entry(first, s1), Entry(second, s2));
  }

  // ---------------------------------------------------------------------------
  // Explaining one diagnosis

  /** The part of `explain_diagnosis` that is not text formatting. */
  datatype Explanation = ConditionNotFound | Explained(rule: Rule, score: MatchScore)

  method ExplainDiagnosis(rules: seq<Rule>, conditionName: string, userSymptoms: seq<string>)
    returns (e: Explanation)
    ensures e.ConditionNotFound? <==>
      forall i :: 0 <= i < |rules| ==> Lower(rules[i].condition) != Lower(conditionName)
    ensures e.Explained? ==>
      && ConditionInfo(rules, conditionName) == Some(e.rule)
      && e.score == Score(LowerAll(userSymptoms), e.rule)
  {
    var conditionInfo := ConditionInfo(rules, conditionName);
    if conditionInfo.None? {
      return ConditionNotFound;
    }
    var userSymptomsLower := LowerAll(userSymptoms);
    var matchScore := CalculateMatchScore(userSymptomsLower, conditionInfo.value);
    e := Explained(conditionInfo.value, matchScore);
  }

  // ---------------------------------------------------------------------------
  // Forward chaining

  /** A chaining rule: `rule.get('conditions', [])` and `rule.get('conclusion')`. */
  datatype ChainRule = ChainRule(conditions: seq<string>, conclusion: Option<string>)

  /** The conclusion is present and truthy (a non-empty string). */
  predicate HasConclusion(r: ChainRule)
  {
    r.conclusion.Some? && r.conclusion.value != ""
  }

  /** All the rule's conditions are facts. */
  predicate Fires(r: ChainRule, facts: set<string>)
  {
    forall c :: c in r.conditions ==> c in facts
  }

  /** Each of the first `k` rules whose conditions all hold has its
      conclusion in `facts`. */
  ghost predicate ClosedUpTo(rules: seq<ChainRule>, facts: set<string>, k: int)
  {
    forall i :: 0 <= i < k && i < |rules| && HasConclusion(rules[i]) && Fires(rules[i], facts) ==>
      rules[i].conclusion.value in facts
  }

  /** Every rule whose conditions all hold has its conclusion in `facts`. */
  ghost predicate Closed(rules: seq<ChainRule>, facts: set<string>)
  {
    ClosedUpTo(rules, facts, |rules|)
  }

  ghost function Conclusions(rules: seq<ChainRule>): set<string>
  {
    set i | 0 <= i < |rules| && HasConclusion(rules[i]) :: rules[i].conclusion.value
  }

  /** `s` lies inside every closed set that contains `facts`. */
  ghost predicate BelowEveryClosure(rules: seq<ChainRule>, facts: set<string>, s: set<string>)
  {
    forall t :: facts <= t && Closed(rules, t) ==> s <= t
  }

  /** `s` is the least closed set containing `facts`. */
  ghost predicate LeastClosure(rules: seq<ChainRule>, facts: set<string>, s: set<string>)
  {
    facts <= s && Closed(rules, s) && BelowEveryClosure(rules, facts, s)
  }

  /** Adding the conclusion of a rule that fires keeps `s` inside every
      closed superset of the facts. */
  lemma FireKeepsBelow(rules: seq<ChainRule>, facts: set<string>, s: set<string>, i: int)
    requires BelowEveryClosure(rules, facts, s)
    requires 0 <= i < |rules| && HasConclusion(rules[i]) && Fires(rules[i], s)
    ensures BelowEveryClosure(rules, facts, s + {rules[i].conclusion.value})
  {
    forall t | facts <= t && Closed(rules, t) ensures s + {rules[i].conclusion.value} <= t {
      assert s <= t;
      assert Fires(rules[i], t);
    }
  }

  /** Adding a conclusion not yet derived brings the derivation closer to
      the finite set of all conclusions. */
  lemma FireProgress(all: set<string>, s: set<string>, c: string)
    requires c in all && c !in s
    ensures |all - (s + {c})| < |all - s|
  {
    assert all - (s + {c}) == (all - s) - {c};
  }

  /** `forward_chain(facts, rules)`: passes over the rules adding conclusions
      until a pass adds nothing.  The result is the least closed superset of
      the facts, and holds nothing but facts and conclusions. */
  method ForwardChain(facts: seq<string>, rules: seq<ChainRule>) returns (inferred: set<string>)
    ensures inferred <= SetOf(facts) + Conclusions(rules)
    ensures LeastClosure(rules, SetOf(facts), inferred)
  {
    ghost var start := SetOf(facts);
    ghost var all := Conclusions(rules);
    inferred := SetOf(facts);
    var newFactsAdded := true;
    while newFactsAdded
      invariant start <= inferred <= start + all
      invariant BelowEveryClosure(rules, start, inferred)
      invariant !newFactsAdded ==> Closed(rules, inferred)
      decreases |all - inferred|, newFactsAdded
    {
      newFactsAdded := false;
      ghost var before := inferred;
      var i := 0;
      while i < |rules|
        invariant 0 <= i <= |rules|
        invariant start <= before <= inferred <= start + all
        invariant BelowEveryClosure(rules, start, inferred)
        invariant !newFactsAdded ==> inferred == before && ClosedUpTo(rules, inferred, i)
        invariant newFactsAdded ==> |all - inferred| < |all - before|
      {
        var rule := rules[i];
        if Fires(rule, inferred) {
          var conclusion := rule.conclusion;
          if HasConclusion(rule) && conclusion.value !in inferred {
            assert conclusion.value in all;
            FireKeepsBelow(rules, start, inferred, i);
            FireProgress(all, inferred, conclusion.value);
            inferred := inferred + {conclusion.value};
            newFactsAdded := true;
          }
        }
        i := i + 1;
      }
    }
  }

  /** Chaining from more facts derives more. */
  lemma ClosureMonotone(rules: seq<ChainRule>, f1: set<string>, f2: set<string>, s1: set<string>, s2: set<string>)
    requires LeastClosure(rules, f1, s1) && LeastClosure(rules, f2, s2)
    requires f1 <= f2
    ensures s1 <= s2
  {
  }

  /** Chaining from its own result derives nothing new. */
  lemma ClosureIdempotent(rules: seq<ChainRule>, f: set<string>, s: set<string>)
    requires LeastClosure(rules, f, s)
    ensures LeastClosure(rules, s, s)
  {
  }
}
