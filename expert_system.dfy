/** The conversational front of the expert system: symptom extraction from
    free text (whole-phrase vocabulary matches, then a synonym table) and the
    three-state consultation that accumulates symptoms and runs the
    inference engine. */
module Expert {
  import opened Text
  import opened Ordering
  import opened Knowledge
  import opened Inference

  // ---------------------------------------------------------------------------
  // Symptom extraction

  /** The synonym table, in its declaration order: a symptom name and the
      phrases that stand for it. */
  const SymptomVariations: seq<(string, seq<string>)> := [
    ("fever", ["temperature", "hot", "burning up"]),
    ("headache", ["head pain", "head hurts", "migraine"]),
    ("cough", ["coughing", "coughed"]),
    ("fatigue", ["tired", "exhausted", "weak", "weakness"]),
    ("nausea", ["feel sick", "queasy", "sick to stomach"]),
    ("sore throat", ["throat pain", "throat hurts"]),
    ("runny nose", ["nose running", "nasal discharge"]),
    ("body ache", ["body pain", "muscle pain", "aches"]),
    ("shortness of breath", ["hard to breathe", "breathing difficulty", "can't breathe"]),
    ("chest pain", ["chest hurts", "chest discomfort"]),
    ("dizziness", ["dizzy", "lightheaded", "vertigo"]),
    ("vomiting", ["throwing up", "vomit", "puking"]),
    ("diarrhea", ["loose stool", "stomach runs"]),
    ("abdominal pain", ["stomach pain", "belly pain", "stomach ache"]),
    ("loss of appetite", ["not hungry", "don't want to eat"]),
    ("chills", ["shivering", "cold sweats"]),
    ("confusion", ["confused", "disoriented"]),
    ("rash", ["skin rash", "skin irritation", "red spots"])
  ]

  /** The vocabulary symptoms, in vocabulary order, whose lower-cased name
      occurs in `text` between word boundaries. */
  function VocabularyMatches(vocab: seq<string>, text: string): (r: seq<string>)
    ensures |r| <= |vocab|
  {
    if vocab == [] then []
    else
      var last := vocab[|vocab| - 1];
      VocabularyMatches(vocab[..|vocab| - 1], text)
        + (if WholePhraseIn(text, Lower(last)) then [last] else [])
  }

  /** Some variation is a plain substring of `text`. */
  predicate AnyVariation(variations: seq<string>, text: string)
  {
    exists j :: 0 <= j < |variations| && Contains(text, variations[j])
  }

  /** `found` after the synonym pass over `table`: each name, in table order,
      is appended when one of its variations occurs in `text` and the name is
      not yet in the list. */
  function SynonymPass(table: seq<(string, seq<string>)>, text: string, found: seq<string>): (r: seq<string>)
    ensures |r| <= |found| + |table|
  {
    if table == [] then found
    else
      var prev := SynonymPass(table[..|table| - 1], text, found);
      var entry := table[|table| - 1];
      if entry.0 !in prev && AnyVariation(entry.1, text) then prev + [entry.0] else prev
  }

  /** `extract_symptoms(text)` over the vocabulary `vocab` and synonym table
      `table`. */
  function Extracted(vocab: seq<string>, table: seq<(string, seq<string>)>, text: string): (r: seq<string>)
    ensures |r| <= |vocab| + |table|
  {
    SynonymPass(table, text, VocabularyMatches(vocab, text))
  }

  /** `x` is the name of some entry of the synonym table with a variation
      occurring in `text`. */
  predicate SynonymHit(table: seq<(string, seq<string>)>, text: string, x: string)
  {
    exists i :: 0 <= i < |table| && table[i].0 == x && AnyVariation(table[i].1, text)
  }

  lemma {:induction false} VocabularyMatchesMembership(vocab: seq<string>, text: string, x: string)
    ensures x in VocabularyMatches(vocab, text) <==> x in vocab && WholePhraseIn(text, Lower(x))
  {
    if vocab != [] {
      var n := |vocab| - 1;
      VocabularyMatchesMembership(vocab[..n], text, x);
      assert vocab == vocab[..n] + [vocab[n]];
    }
  }

  lemma {:induction false} VocabularyMatchesNoDup(vocab: seq<string>, text: string)
    requires NoDup(vocab)
    ensures NoDup(VocabularyMatches(vocab, text))
  {
    if vocab != [] {
      var n := |vocab| - 1;
      var front := vocab[..n];
      assert NoDup(front);
      VocabularyMatchesNoDup(front, text);
      VocabularyMatchesMembership(front, text, vocab[n]);
    }
  }

  /** The synonym pass only appends. */
  lemma {:induction false} SynonymPassExtends(table: seq<(string, seq<string>)>, text: string, found: seq<string>)
    ensures |SynonymPass(table, text, found)| >= |found|
    ensures SynonymPass(table, text, found)[..|found|] == found
  {
    if table != [] {
      SynonymPassExtends(table[..|table| - 1], text, found);
    }
  }

  lemma {:induction false} SynonymPassNoDup(table: seq<(string, seq<string>)>, text: string, found: seq<string>)
    requires NoDup(found)
    ensures NoDup(SynonymPass(table, text, found))
  {
    if table != [] {
      SynonymPassNoDup(table[..|table| - 1], text, found);
    }
  }

  lemma {:induction false} SynonymPassMembership(table: seq<(string, seq<string>)>, text: string, found: seq<string>, x: string)
    ensures x in SynonymPass(table, text, found) <==> x in found || SynonymHit(table, text, x)
  {
    if table != [] {
      var n := |table| - 1;
      var front := table[..n];
      SynonymPassMembership(front, text, found, x);
      if SynonymHit(front, text, x) {
        var i :| 0 <= i < n && front[i].0 == x && AnyVariation(front[i].1, text);
        assert table[i] == front[i];
      }
      if SynonymHit(table, text, x) {
        var i :| 0 <= i < |table| && table[i].0 == x && AnyVariation(table[i].1, text);
        if i < n {
          assert front[i] == table[i];
        }
      }
    }
  }

  /** The extracted list has no repetition, starts with the vocabulary
      matches, holds exactly the whole-phrase vocabulary matches and the
      synonym names with a variation in the text, and so only names from the
      vocabulary or the synonym table. */
  lemma ExtractedProperties(vocab: seq<string>, table: seq<(string, seq<string>)>, text: string, x: string)
    requires NoDup(vocab)
    ensures NoDup(Extracted(vocab, table, text))
    ensures |VocabularyMatches(vocab, text)| <= |Extracted(vocab, table, text)|
    ensures Extracted(vocab, table, text)[..|VocabularyMatches(vocab, text)|] == VocabularyMatches(vocab, text)
    ensures x in Extracted(vocab, table, text) <==>
      (x in vocab && WholePhraseIn(text, Lower(x))) || SynonymHit(table, text, x)
    ensures x in Extracted(vocab, table, text) ==>
      x in vocab || exists i :: 0 <= i < |table| && table[i].0 == x
  {
    var hits := VocabularyMatches(vocab, text);
    VocabularyMatchesNoDup(vocab, text);
    SynonymPassNoDup(table, text, hits);
    SynonymPassExtends(table, text, hits);
    VocabularyMatchesMembership(vocab, text, x);
    SynonymPassMembership(table, text, hits, x);
  }

  /** A strictly sorted vocabulary (what `get_all_symptoms` returns) has no
      repetition. */
  lemma SortedNoDup(s: seq<string>)
    requires StrictlySorted(s)
    ensures NoDup(s)
  {
    forall i, j | 0 <= i < j < |s| ensures s[i] != s[j] {
      StrictlySortedDistinct(s, i, j);
    }
  }

  /** The first loop of `extract_symptoms`: each vocabulary symptom, in
      order, whose lower-cased name matches between word boundaries. */
  method ScanVocabulary(vocab: seq<string>, text: string) returns (detected: seq<string>)
    ensures detected == VocabularyMatches(vocab, text)
  {
    detected := [];
    var i := 0;
    while i < |vocab|
      invariant 0 <= i <= |vocab|
      invariant detected == VocabularyMatches(vocab[..i], text)
    {
      assert vocab[..i + 1][..i] == vocab[..i];
      var symptom := vocab[i];
      if WholePhraseIn(text, Lower(symptom)) {
        detected := detected + [symptom];
      }
      i := i + 1;
    }
    assert vocab[..i] == vocab;
  }

  /** The second, nested loop of `extract_symptoms`: the first variation
      found in the text adds the name, unless it is already detected. */
  method ScanSynonyms(table: seq<(string, seq<string>)>, text: string, found: seq<string>)
    returns (detected: seq<string>)
    ensures detected == SynonymPass(table, text, found)
  {
    detected := found;
    var k := 0;
    while k < |table|
      invariant 0 <= k <= |table|
      invariant detected == SynonymPass(table[..k], text, found)
    {
      assert table[..k + 1][..k] == table[..k];
      var symptom := table[k].0;
      var variations := table[k].1;
      ghost var before := detected;
      var j := 0;
      while j < |variations|
        invariant 0 <= j <= |variations|
        invariant detected == before
        invariant symptom !in before ==> forall m :: 0 <= m < j ==> !Contains(text, variations[m])
      {
        if Contains(text, variations[j]) && symptom !in detected {
          detected := detected + [symptom];
          break;
        }
        j := j + 1;
      }
      k := k + 1;
    }
    assert table[..k] == table;
  }

  // ---------------------------------------------------------------------------
  // Accumulating the session's symptoms

  /** `acc` after appending, in order, each element of `xs` it does not hold
      yet. */
  function Merge(acc: seq<string>, xs: seq<string>): (r: seq<string>)
    ensures |r| <= |acc| + |xs|
  {
    if xs == [] then acc
    else
      var m := Merge(acc, xs[..|xs| - 1]);
      var x := xs[|xs| - 1];
      if x in m then m else m + [x]
  }

  lemma {:induction false} MergeExtends(acc: seq<string>, xs: seq<string>)
    ensures |Merge(acc, xs)| >= |acc|
    ensures Merge(acc, xs)[..|acc|] == acc
  {
    if xs != [] {
      MergeExtends(acc, xs[..|xs| - 1]);
    }
  }

  lemma {:induction false} MergeMembership(acc: seq<string>, xs: seq<string>, x: string)
    ensures x in Merge(acc, xs) <==> x in acc || x in xs
  {
    if xs != [] {
      var n := |xs| - 1;
      MergeMembership(acc, xs[..n], x);
      assert xs == xs[..n] + [xs[n]];
    }
  }

  lemma {:induction false} MergeNoDup(acc: seq<string>, xs: seq<string>)
    requires NoDup(acc)
    ensures NoDup(Merge(acc, xs))
  {
    if xs != [] {
      MergeNoDup(acc, xs[..|xs| - 1]);
    }
  }

  /** Merging elements that are all present already changes nothing. */
  lemma {:induction false} MergePresent(acc: seq<string>, xs: seq<string>)
    requires forall i :: 0 <= i < |xs| ==> xs[i] in acc
    ensures Merge(acc, xs) == acc
  {
    if xs != [] {
      MergePresent(acc, xs[..|xs| - 1]);
    }
  }

  /** Merging the same list twice is merging it once. */
  lemma MergeIdempotent(acc: seq<string>, xs: seq<string>)
    ensures Merge(Merge(acc, xs), xs) == Merge(acc, xs)
  {
    forall i | 0 <= i < |xs| ensures xs[i] in Merge(acc, xs) {
      MergeMembership(acc, xs, xs[i]);
    }
    MergePresent(Merge(acc, xs), xs);
  }

  // ---------------------------------------------------------------------------
  // The consultation state machine

  datatype State = Initial | CollectingSymptoms | DiagnosisComplete

  /** What a reply carries besides its message text: which reply it is and,
      for a diagnosis, the ranked conditions. */
  datatype Reply =
    | Greeting
    | NoSymptomRecognised
    | NeedMoreSymptoms
    | Diagnosed(diagnoses: seq<Diagnosis>)
    | FreshStart
    | Help

  /** The session fields after one input, and the reply. */
  datatype Outcome = Outcome(state: State, symptoms: seq<string>, reply: Reply)

  const GreetingKeywords: seq<string> :=
    ["hello", "hi", "hey", "greetings", "good morning", "good afternoon", "good evening"]

  const RestartWords: seq<string> := ["new", "start", "again"]

  /** Some word of `words` is a plain substring of `t`. */
  predicate ContainsAny(t: string, words: seq<string>)
  {
    exists k :: 0 <= k < |words| && Contains(t, words[k])
  }

  /** `process_input` on a session in `state` holding `symptoms`, over the
      rule table `rules` and the vocabulary `vocab`. */
  function Step(rules: seq<Rule>, vocab: seq<string>, state: State, symptoms: seq<string>, input: string): (r: Outcome)
    ensures r.state != Initial
  {
    Respond(rules, vocab, state, symptoms, Strip(Lower(input)))
  }

  /** The same step, given the input already lower-cased and stripped. */
  function Respond(rules: seq<Rule>, vocab: seq<string>, state: State, symptoms: seq<string>, lowered: string): (r: Outcome)
    ensures r.state != Initial
  {
    if state == Initial || ContainsAny(lowered, GreetingKeywords) then
      Outcome(CollectingSymptoms, symptoms, Greeting)
    else if state == CollectingSymptoms then
      var extracted := Extracted(vocab, SymptomVariations, lowered);
      if extracted == [] then
        Outcome(CollectingSymptoms, symptoms, NoSymptomRecognised)
      else
        var merged := Merge(symptoms, extracted);
        var diagnoses := Diagnoses(rules, merged);
        if diagnoses == [] then Outcome(CollectingSymptoms, merged, NeedMoreSymptoms)
        else Outcome(DiagnosisComplete, merged, Diagnosed(diagnoses))
    else if ContainsAny(lowered, RestartWords) then
      Outcome(CollectingSymptoms, [], FreshStart)
    else
      Outcome(DiagnosisComplete, symptoms, Help)
  }

  /** A session in its first state, or an input holding a greeting keyword
      anywhere (even inside another word), moves to collecting symptoms and
      keeps the symptoms. */
  lemma StepGreeting(rules: seq<Rule>, vocab: seq<string>, state: State, symptoms: seq<string>, lowered: string)
    requires state == Initial || ContainsAny(lowered, GreetingKeywords)
    ensures Respond(rules, vocab, state, symptoms, lowered) == Outcome(CollectingSymptoms, symptoms, Greeting)
  {
  }

  /** While collecting, with no greeting in the input: nothing recognised
      changes nothing; otherwise the new symptoms are appended after the old
      ones, which keep their order, and the session moves on exactly when
      the inference engine finds some condition for the whole list, whose
      ranking is the reply. */
  lemma StepCollecting(rules: seq<Rule>, vocab: seq<string>, symptoms: seq<string>, lowered: string)
    requires !ContainsAny(lowered, GreetingKeywords)
    ensures
      var o := Respond(rules, vocab, CollectingSymptoms, symptoms, lowered);
      var extracted := Extracted(vocab, SymptomVariations, lowered);
      && (extracted == [] ==> o == Outcome(CollectingSymptoms, symptoms, NoSymptomRecognised))
      && (extracted != [] ==>
            && o.symptoms == Merge(symptoms, extracted)
            && |o.symptoms| >= |symptoms| && o.symptoms[..|symptoms|] == symptoms
            && (o.state == DiagnosisComplete <==> Diagnoses(rules, o.symptoms) != [])
            && (o.state == DiagnosisComplete ==> o.reply == Diagnosed(Diagnoses(rules, o.symptoms)))
            && (o.state != DiagnosisComplete ==> o.state == CollectingSymptoms && o.reply == NeedMoreSymptoms))
  {
    var extracted := Extracted(vocab, SymptomVariations, lowered);
    MergeExtends(symptoms, extracted);
  }

  /** While collecting, a message that names some symptom completes the
      session exactly when some rule scores above 0 for the merged list. */
  lemma CollectingCompletesIffSomeRuleScores(rules: seq<Rule>, vocab: seq<string>, symptoms: seq<string>, lowered: string)
    requires !ContainsAny(lowered, GreetingKeywords)
    requires Extracted(vocab, SymptomVariations, lowered) != []
    ensures
      var o := Respond(rules, vocab, CollectingSymptoms, symptoms, lowered);
      o.state == DiagnosisComplete <==>
        exists i :: 0 <= i < |rules| && Score(LowerAll(o.symptoms), rules[i]).confidence > 0.0
  {
    var extracted := Extracted(vocab, SymptomVariations, lowered);
    var merged := Merge(symptoms, extracted);
    MergeMembership(symptoms, extracted, extracted[0]);
    assert merged != [];
    DiagnosesKeepPositive(rules, merged);
  }

  /** After a diagnosis, a restart word clears the symptoms and collects
      again; any other input (without a greeting) changes nothing. */
  lemma StepComplete(rules: seq<Rule>, vocab: seq<string>, symptoms: seq<string>, lowered: string)
    requires !ContainsAny(lowered, GreetingKeywords)
    ensures ContainsAny(lowered, RestartWords) ==>
      Respond(rules, vocab, DiagnosisComplete, symptoms, lowered) == Outcome(CollectingSymptoms, [], FreshStart)
    ensures !ContainsAny(lowered, RestartWords) ==>
      Respond(rules, vocab, DiagnosisComplete, symptoms, lowered) == Outcome(DiagnosisComplete, symptoms, Help)
  {
  }

  /** Empty text extracts nothing, as long as no variation is itself empty:
      `\b` never matches in empty text, but `"" in ""` holds. */
  lemma EmptyInputExtractsNothing(vocab: seq<string>, table: seq<(string, seq<string>)>)
    requires forall k, j :: 0 <= k < |table| && 0 <= j < |table[k].1| ==> table[k].1[j] != []
    ensures Extracted(vocab, table, []) == []
  {
    var e := Extracted(vocab, table, []);
    if e != [] {
      var x := e[0];
      VocabularyMatchesMembership(vocab, [], x);
      SynonymPassMembership(table, [], VocabularyMatches(vocab, []), x);
      if SynonymHit(table, [], x) {
        var k :| 0 <= k < |table| && table[k].0 == x && AnyVariation(table[k].1, []);
        var j :| 0 <= j < |table[k].1| && Contains([], table[k].1[j]);
        EmptyContainsOnlyEmpty(table[k].1[j]);
      }
      assert false;
    }
  }

  /** Every variation in the synonym table is a non-empty phrase. */
  lemma SymptomVariationsNonEmpty()
    ensures forall k, j :: 0 <= k < |SymptomVariations| && 0 <= j < |SymptomVariations[k].1| ==>
      SymptomVariations[k].1[j] != []
  {
  }

  /** While collecting, an empty or all-whitespace message recognises
      nothing and leaves the session as it was. */
  lemma BlankInputChangesNothing(rules: seq<Rule>, vocab: seq<string>, symptoms: seq<string>, input: string)
    requires forall i :: 0 <= i < |input| ==> IsSpace(input[i])
    ensures Step(rules, vocab, CollectingSymptoms, symptoms, input) ==
      Outcome(CollectingSymptoms, symptoms, NoSymptomRecognised)
  {
    BlankStripsToEmpty(input);
    SymptomVariationsNonEmpty();
    EmptyInputExtractsNothing(vocab, SymptomVariations);
  }

  /** What holds of every session between inputs: its symptoms have no
      repetition and are vocabulary or synonym names, and a session that
      reached a diagnosis has a non-empty ranking for its symptoms. */
  predicate SessionInvariant(rules: seq<Rule>, vocab: seq<string>, state: State, symptoms: seq<string>)
  {
    && NoDup(symptoms)
    && (forall i :: 0 <= i < |symptoms| ==>
          symptoms[i] in vocab || exists k :: 0 <= k < |SymptomVariations| && SymptomVariations[k].0 == symptoms[i])
    && (state == DiagnosisComplete ==> Diagnoses(rules, symptoms) != [])
  }

  lemma StepKeepsInvariant(rules: seq<Rule>, vocab: seq<string>, state: State, symptoms: seq<string>, lowered: string)
    requires NoDup(vocab)
    requires SessionInvariant(rules, vocab, state, symptoms)
    ensures
      var o := Respond(rules, vocab, state, symptoms, lowered);
      SessionInvariant(rules, vocab, o.state, o.symptoms)
  {
    if !(state == Initial || ContainsAny(lowered, GreetingKeywords)) && state == CollectingSymptoms {
      var extracted := Extracted(vocab, SymptomVariations, lowered);
      var merged := Merge(symptoms, extracted);
      MergeNoDup(symptoms, extracted);
      forall i | 0 <= i < |merged|
        ensures merged[i] in vocab || exists k :: 0 <= k < |SymptomVariations| && SymptomVariations[k].0 == merged[i]
      {
        var x := merged[i];
        MergeMembership(symptoms, extracted, x);
        if x !in symptoms {
          ExtractedProperties(vocab, SymptomVariations, lowered, x);
        }
      }
    }
  }

  /** The session record `process_input` updates. */
  class Session {
    var state: State
    var symptoms: seq<string>

    /** A new session: first state, no symptoms. */
    constructor ()
      ensures state == Initial && symptoms == []
    {
      state := Initial;
      symptoms := [];
    }
  }

  /** The condition names of `rules`, in table order. */
  function ConditionNames(rules: seq<Rule>): (r: seq<string>)
    ensures |r| == |rules|
    ensures forall i :: 0 <= i < |rules| ==> r[i] == rules[i].condition
  {
    if rules == [] then [] else ConditionNames(rules[..|rules| - 1]) + [rules[|rules| - 1].condition]
  }

  class MedicalExpertSystem {
    const kb: KnowledgeBase

    constructor ()
      ensures fresh(kb) && kb.Valid() && kb.rules == BuiltInRules
    {
      kb := new KnowledgeBase();
    }

    /** `extract_symptoms`: the vocabulary is the sorted symptom list of the
        knowledge base. */
    method ExtractSymptoms(text: string) returns (detected: seq<string>)
      ensures detected == Extracted(SortedSeq(kb.allSymptoms), SymptomVariations, text)
    {
      var allSymptoms := kb.GetAllSymptoms();
      detected := ScanVocabulary(allSymptoms, text);
      detected := ScanSynonyms(SymptomVariations, text, detected);
    }

    /** `process_input`: updates the session as `Step` says and returns the
        reply. */
    method ProcessInput(input: string, session: Session) returns (reply: Reply)
      modifies session
      ensures Outcome(session.state, session.symptoms, reply) ==
        Step(kb.rules, SortedSeq(kb.allSymptoms), old(session.state), old(session.symptoms), input)
    {
      var lowered := Strip(Lower(input));
      if session.state == Initial || ContainsAny(lowered, GreetingKeywords) {
        session.state := CollectingSymptoms;
        return Greeting;
      }
      if session.state == CollectingSymptoms {
        var extracted := ExtractSymptoms(lowered);
        if |extracted| > 0 {
          var i := 0;
          while i < |extracted|
            invariant 0 <= i <= |extracted|
            invariant session.state == old(session.state)
            invariant session.symptoms == Merge(old(session.symptoms), extracted[..i])
          {
            assert extracted[..i + 1][..i] == extracted[..i];
            if extracted[i] !in session.symptoms {
              session.symptoms := session.symptoms + [extracted[i]];
            }
            i := i + 1;
          }
          assert extracted[..i] == extracted;
          var diagnoses := Diagnose(kb.rules, session.symptoms);
          if |diagnoses| > 0 {
            session.state := DiagnosisComplete;
            return Diagnosed(diagnoses);
          }
          return NeedMoreSymptoms;
        }
        return NoSymptomRecognised;
      }
      // The session is now in DiagnosisComplete: the three states are all
      // there are, so the closing "rephrase" reply cannot be reached.
      if ContainsAny(lowered, RestartWords) {
        session.symptoms := [];
        session.state := CollectingSymptoms;
        return FreshStart;
      }
      return Help;
    }

    /** `get_all_conditions` */
    function GetAllConditions(): (r: seq<string>)
      reads this, kb
      ensures |r| == |kb.rules|
      ensures forall i :: 0 <= i < |r| ==> r[i] == kb.rules[i].condition
    {
      ConditionNames(kb.rules)
    }
  }
}
