# Medical expert system: a Dafny model of the diagnostic core

This project models the rule-based core of a small healthcare chat assistant.
The user describes symptoms in free text. The assistant picks out the known
symptoms and scores every condition in its knowledge base against them. It
then reports the best-scoring conditions.

The model covers these parts of the backend:

- **Text** (`text.dfy`): ASCII lower-casing, `strip`, the substring test
  behind Python's `in`, and the regular-expression word boundary `\b`.
- **Ordering** (`ordering.dfy`): lexicographic string order, and the sorted
  sequence of a set, which specifies `sorted(...)`.
- **Knowledge** (`knowledge_base.dfy`):
  - the built-in table of sixteen diagnostic rules;
  - the `KnowledgeBase` class, whose `all_symptoms` set is kept equal to the
    union of its rules' symptoms;
  - condition lookup, rule addition and the symptom-to-condition index.
- **Inference** (`inference_engine.dfy`):
  - the match score: a required-symptom gate, matched and missing lists, and a
    confidence made of a match ratio, a bonus capped at 100 and a penalty
    floored at 0;
  - ranking: positive scores only, a stable sort by descending confidence,
    and the first five;
  - the not-found branch and the score of `explain_diagnosis`;
  - generic forward chaining, proved to compute the least closed fact set.
- **Expert** (`expert_system.dfy`):
  - symptom extraction: a whole-phrase match against the sorted vocabulary,
    then a synonym table;
  - the three-state conversation machine of `process_input`, on a `Session`
    object. `Expert.Step` lower-cases and strips the input, then hands it to
    `Expert.Respond`; the step lemmas are stated on `Respond`, for any
    prepared text;
  - the condition list.

  The greeting keywords are tested as substrings (backend/expert_system.py:11,
  :19), so "hi" also matches inside symptom words. It occurs inside "chills",
  the rule symptom "difficulty breathing" (backend/knowledge_base.py:101) and
  the variations "breathing difficulty" and "shivering"
  (backend/expert_system.py:103, :110). A message naming any of these gets the
  greeting in every state, so after the first turn it never reaches extraction.
  `Scenarios.ChillsGreets` proves this for "chills".
- **Users** (`user_database.dfy`): the user table as an in-memory map. It covers
  account creation with unique names and unique e-mail addresses, password
  checks, and the medical history.
- **Scenarios** (`scenarios.dfy`): worked cases over the built-in table. They
  check the scores and the gating for concrete symptom lists. They also check
  the full ranking of the sixteen built-in rules for a runny nose with
  sneezing.

## Model

| member | source | states |
|---|---|---|
| Text.LowerChar | backend/inference_engine.py:16 | upper-case ASCII letters move 32 code points down to lower case; every other character is unchanged |
| Text.Lower | backend/inference_engine.py:16 | lower-casing keeps the length of the string |
| Text.LowerAt | backend/inference_engine.py:16 | character i of the lower-cased string is character i lower-cased |
| Text.LowerAll | backend/inference_engine.py:16 | the lower-cased list has as many entries as the input |
| Text.LowerAllAt | backend/inference_engine.py:16 | entry i of the lower-cased list is entry i lower-cased |
| Text.LowerOfLowerCase | backend/knowledge_base.py:14-127 | a string without upper-case letters is unchanged by lower-casing |
| Text.LowerAllOfLowerCase | backend/knowledge_base.py:14-127 | a list of such strings is unchanged by lower-casing |
| Text.LowerIdempotent | backend/expert_system.py:16 | lower-casing twice is the same as lower-casing once |
| Text.StripLeft | backend/expert_system.py:16 | the result is a suffix of the input; everything removed is whitespace; the result does not start with whitespace |
| Text.StripRight | backend/expert_system.py:16 | the result is a prefix of the input; everything removed is whitespace; the result does not end with whitespace |
| Text.Strip | backend/expert_system.py:16 | the stripped text neither starts nor ends with whitespace |
| Text.ContainsTransitive | backend/expert_system.py:19 | a word found inside a part of the input is found in the input |
| Text.WholePhraseAtNeighbours | backend/expert_system.py:89-90 | for a phrase that begins and ends with a word character, `\b…\b` matches exactly where the characters around the occurrence are non-word characters or string ends |
| Text.WholePhraseInContains | backend/expert_system.py:89-90 | every whole-phrase match is a substring occurrence |
| Text.BlankStripsToEmpty | backend/expert_system.py:16 | a message made only of whitespace is empty after lower-casing and stripping |
| Text.EmptyContainsOnlyEmpty | backend/expert_system.py:19 | the empty text contains no non-empty word |
| Text.EmptyHasNoWholePhrase | backend/expert_system.py:89-90 | the empty text holds no whole-phrase match of a non-empty phrase |
| Ordering.LexLessIrreflexive | backend/knowledge_base.py:136 | no string sorts before itself |
| Ordering.LexLessAsymmetric | backend/knowledge_base.py:136 | two strings never sort before each other |
| Ordering.LexLessTransitive | backend/knowledge_base.py:136 | string order is transitive |
| Ordering.LexLessTotal | backend/knowledge_base.py:136 | of two distinct strings, one sorts first |
| Ordering.LeastExists | backend/knowledge_base.py:136 | a non-empty set of strings has a least element |
| Ordering.SortedSeq | backend/knowledge_base.py:136 | the sorted list of a set is strictly increasing, holds exactly the set's elements, and is as long as the set |
| Ordering.StrictlySortedDistinct | backend/knowledge_base.py:136 | a strictly sorted list has no repeated entries |
| Ordering.StrictlySortedUnique | backend/knowledge_base.py:136 | two strictly sorted lists with the same elements are equal, so the sorted list of a set is unique |
| Knowledge.SetOf | backend/knowledge_base.py:132 | the set of a list holds exactly the list's entries |
| Knowledge.SymptomUnion | backend/knowledge_base.py:130-132 | the set `all_symptoms` collects from the rules; every rule's symptoms are among it (the converse is `SymptomUnionMembership`) |
| Knowledge.SymptomUnionMembership | backend/knowledge_base.py:130-132 | a symptom is in the collected set iff some rule lists it |
| Knowledge.SymptomUnionAppend | backend/knowledge_base.py:151-152 | adding a rule adds exactly its symptoms to the collected set |
| Knowledge.ConditionInfo | backend/knowledge_base.py:142-147 | the lookup gives nothing iff no condition name equals the query ignoring case; otherwise it gives the first rule whose name does |
| Knowledge.ConditionInfoUnique | backend/knowledge_base.py:142-147 | in a table whose names differ ignoring case, any spelling of a rule's name looks up exactly that rule |
| Knowledge.ConditionsWith | backend/knowledge_base.py:154-160 | `get_conditions_by_symptom` as a function: the names of the rules that list the symptom ignoring case, at most one per rule |
| Knowledge.ConditionsWithMembership | backend/knowledge_base.py:154-160 | a condition is returned iff a rule with that name lists the symptom, ignoring case |
| Knowledge.CollectSymptoms | backend/knowledge_base.py:130-132 | the loop collects exactly the union of the rules' symptoms |
| Knowledge.KnowledgeBase.constructor | backend/knowledge_base.py:4-132 | the base holds the built-in table, and its symptom set is the union of the rules' symptoms |
| Knowledge.KnowledgeBase.GetAllSymptoms | backend/knowledge_base.py:134-136 | the result is strictly sorted, holds exactly the known symptoms, and is the sorted list of that set |
| Knowledge.KnowledgeBase.AddRule | backend/knowledge_base.py:149-152 | the rule is appended, its symptoms are added to the set, and the set stays equal to the union of all rules' symptoms |
| Knowledge.KnowledgeBase.GetConditionsBySymptom | backend/knowledge_base.py:154-160 | the loop returns the conditions of the rules that list the symptom, in rule order |
| Knowledge.BuiltInWellFormed | backend/knowledge_base.py:14-127 | every built-in rule lists symptoms, and each of its required symptoms is one of them |
| Knowledge.BuiltInNamesMatch | backend/knowledge_base.py:14-127 | the built-in rules carry the sixteen listed condition names, in table order |
| Knowledge.BuiltInNameKeys | backend/knowledge_base.py:14-127 | every built-in name starts with a capital letter, and no two share both length and first letter |
| Knowledge.KeysSeparateLower | backend/knowledge_base.py:142-147 | names that start with capitals and differ in length or first letter stay different once lower-cased |
| Knowledge.BuiltInNamesDistinctLowered | backend/knowledge_base.py:142-147 | no two built-in names are equal once lower-cased |
| Knowledge.BuiltInDistinctConditions | backend/knowledge_base.py:142-147 | no two built-in condition names are equal ignoring case, so the case-insensitive lookup of `get_condition_info` and `explain_diagnosis` is unambiguous on the built-in table (with `ConditionInfoUnique`) |
| Inference.Confidence | backend/inference_engine.py:67-81 | the coverage percentage with the capped bonus and the floored penalty is never negative |
| Inference.Score | backend/inference_engine.py:41-90 | `calculate_match_score` as a function of the lower-cased report and the rule; its confidence is never negative (gate, lists and bounds are the lemmas below) |
| Inference.CalculateMatchScore | backend/inference_engine.py:41-90 | the loops compute the reference score: gate, matched list, confidence and missing list |
| Inference.ScoreRequiredGate | backend/inference_engine.py:50-58 | a missing required symptom gives confidence 0, no matches, and every rule symptom as missing |
| Inference.ScoreEmptyRule | backend/inference_engine.py:67-70 | a rule without symptoms scores 0 |
| Inference.MatchedAll | backend/inference_engine.py:61-64 | when every reported symptom belongs to the rule, all of them are matched, in order |
| Inference.MissingNoneReported | backend/inference_engine.py:84 | when no rule symptom was reported, all of them are missing |
| Inference.ScoreAllMatched | backend/inference_engine.py:41-90 | when the rule has symptoms, every required symptom is reported and every reported symptom belongs to the rule, nothing counts as extra, and the confidence is the ratio, plus the bonus if the rule has required symptoms |
| Inference.MatchedMultiset | backend/inference_engine.py:61-64 | a symptom occurs among the matched as often as it was reported if the rule lists it, and not at all otherwise |
| Inference.MissingMultiset | backend/inference_engine.py:84 | a rule symptom is missing exactly when it was not reported, with its multiplicity in the rule |
| Inference.ScoreMatchedMissing | backend/inference_engine.py:59-84 | past the gate, a rule symptom is either matched or missing, never both |
| Inference.MatchedSubsequence | backend/inference_engine.py:61-64 | the matched symptoms are drawn from both lists, no more than were reported, and without repeats when the report has none |
| Inference.DistinctSubsetLength | backend/inference_engine.py:67-70 | a list without repeats, drawn from another list, is no longer than it |
| Inference.RatioBounds | backend/inference_engine.py:68 | the coverage percentage of at most all the rule's symptoms lies between 0 and 100 |
| Inference.ConfidenceBounds | backend/inference_engine.py:67-81 | the bonus cap and the penalty floor keep such a percentage between 0 and 100 |
| Inference.ScoreBounds | backend/inference_engine.py:67-81 | for a report without repeats, the confidence stays between 0 and 100 |
| Inference.LowerCaseReportBounds | backend/inference_engine.py:16 | `diagnose` lower-cases the report before scoring, so the bound holds when the report has no repeats and is already lower case |
| Inference.RepeatedSymptomAboveHundred | backend/inference_engine.py:67-81 | only the bonus branch caps the confidence at 100, so a symptom reported twice against a one-symptom rule without required symptoms scores 200 |
| Inference.ConfidenceWithoutMatches | backend/inference_engine.py:67-81 | with no match and no bonus the confidence is not positive |
| Inference.PositiveScoreMatches | backend/inference_engine.py:59-79 | for a rule whose required symptoms are among its symptoms, a positive confidence implies at least one matched symptom |
| Inference.Entries | backend/inference_engine.py:21-33 | the loop produces one entry per rule |
| Inference.EntriesAt | backend/inference_engine.py:21-33 | entry i carries the name, description, recommendations and score of rule i |
| Inference.Positive | backend/inference_engine.py:27-33 | the `confidence > 0` filter keeps a sub-list of the entries, in order |
| Inference.PositiveMembership | backend/inference_engine.py:27-33 | an entry is kept iff its confidence is positive |
| Inference.CandidatesMembership | backend/inference_engine.py:21-33 | a candidate is exactly a rule's entry with positive confidence |
| Inference.EntriesAppend | backend/inference_engine.py:21-33 | scoring two tables one after the other gives the entries of their concatenation |
| Inference.PositiveAppend | backend/inference_engine.py:27-33 | the positive filter distributes over concatenation |
| Inference.CandidatesAppend | backend/inference_engine.py:21-33 | splitting the rule table splits the candidate list the same way |
| Inference.CandidatesNone | backend/inference_engine.py:21-33 | a table in which no rule scores above 0 has no candidates |
| Inference.PositiveOne | backend/inference_engine.py:27-33 | a single positive entry is kept |
| Inference.CandidatesOne | backend/inference_engine.py:21-33 | a single rule that scores above 0 is its own only candidate |
| Inference.PositiveTwo | backend/inference_engine.py:27-33 | two positive entries are both kept, in order |
| Inference.InsertDesc | backend/inference_engine.py:36 | inserting one entry into the sorted list lengthens it by one |
| Inference.SortDesc | backend/inference_engine.py:36 | `diagnoses.sort(key=confidence, reverse=True)` as a function; it keeps the length (ordering, permutation and stability are `SortDescProperties`) |
| Inference.InsertDescMultiset | backend/inference_engine.py:36 | inserting keeps every entry |
| Inference.InsertDescSorted | backend/inference_engine.py:36 | inserting into a descending list keeps it descending |
| Inference.InsertDescStable | backend/inference_engine.py:36 | inserting keeps the order among entries of equal confidence |
| Inference.WithConfidenceAppend | backend/inference_engine.py:36 | selecting one confidence distributes over concatenation |
| Inference.WithConfidenceSingle | backend/inference_engine.py:36 | a single entry is selected iff it has that confidence |
| Inference.SortDescProperties | backend/inference_engine.py:36 | the sort gives a descending permutation of its input, and entries of equal confidence keep their relative order, as `list.sort` guarantees |
| Inference.WithConfidencePrefix | backend/inference_engine.py:39 | the first k entries of equal confidence, in order, are a prefix of all of them |
| Inference.Top5 | backend/inference_engine.py:39 | `[:5]`: a prefix of the sorted list, of length five when there are at least five and the whole list otherwise |
| Inference.Diagnoses | backend/inference_engine.py:7-39 | `diagnose` as a function: an empty report gives nothing, and never more than five diagnoses nor more than one per rule |
| Inference.Diagnose | backend/inference_engine.py:7-39 | the method returns the reference ranking of the rules for the reported symptoms |
| Inference.DiagnosesProperties | backend/inference_engine.py:7-39 | no symptoms give no diagnoses; at most five come back; they are descending; each has positive confidence and is a rule's entry; ties keep rule order |
| Inference.DiagnosesKeepPositive | backend/inference_engine.py:21-39 | for a non-empty report, the ranking holds min(5, number of positive candidates) entries, so it is non-empty iff some rule scores above 0 |
| Inference.DiagnosesAreTop | backend/inference_engine.py:36-39 | a positive candidate left off the list scores no higher than any listed diagnosis |
| Inference.RankTwo | backend/inference_engine.py:36-39 | two positive entries are ordered by confidence, and the first stays first on a tie |
| Inference.EntriesTwo | backend/inference_engine.py:21-33 | two rules give their two entries in rule order |
| Inference.TwoRuleRanking | backend/inference_engine.py:7-39 | of two rules that both score, the higher comes first, and the earlier rule comes first on a tie |
| Inference.ExplainDiagnosis | backend/inference_engine.py:114-124 | "not found" iff no condition name matches ignoring case; otherwise the explanation uses the looked-up rule and the score of the lower-cased symptoms |
| Inference.FireKeepsBelow | backend/inference_engine.py:103-110 | firing a rule never adds a fact outside the least closure |
| Inference.FireProgress | backend/inference_engine.py:107-110 | each new conclusion shrinks what can still be added, so the loop ends |
| Inference.ForwardChain | backend/inference_engine.py:92-112 | the result is the least fact set that holds the facts and is closed under the rules, and it only adds conclusions |
| Inference.ClosureMonotone | backend/inference_engine.py:92-112 | more facts never infer less |
| Inference.ClosureIdempotent | backend/inference_engine.py:92-112 | chaining from the result adds nothing |
| Expert.VocabularyMatches | backend/expert_system.py:87-91 | the first pass of `extract_symptoms`: the vocabulary names found as whole phrases, in vocabulary order, at most one per name |
| Expert.VocabularyMatchesMembership | backend/expert_system.py:87-91 | a vocabulary symptom is detected iff its lower-cased name occurs in the text as a whole phrase |
| Expert.VocabularyMatchesNoDup | backend/expert_system.py:87-91 | a vocabulary without repeats gives detections without repeats |
| Expert.SynonymPass | backend/expert_system.py:115-119 | the synonym loop of `extract_symptoms`: it adds at most one symptom per table entry |
| Expert.SynonymPassExtends | backend/expert_system.py:115-119 | the synonym pass only appends to what was already detected |
| Expert.SynonymPassNoDup | backend/expert_system.py:115-119 | the synonym pass adds no symptom twice |
| Expert.SynonymPassMembership | backend/expert_system.py:115-119 | after the pass, a symptom is present iff it was present before or one of its variations occurs in the text |
| Expert.Extracted | backend/expert_system.py:81-121 | `extract_symptoms` as a function of the vocabulary, the table and the text; it yields at most one symptom per vocabulary name and per table entry |
| Expert.ExtractedProperties | backend/expert_system.py:81-121 | the extracted list has no repeats and starts with the vocabulary matches; a symptom is extracted iff one of the two passes finds it; each is a known symptom or a synonym key |
| Expert.SortedNoDup | backend/expert_system.py:84 | the sorted vocabulary has no repeats |
| Expert.ScanVocabulary | backend/expert_system.py:87-91 | the loop computes the vocabulary matches |
| Expert.ScanSynonyms | backend/expert_system.py:115-119 | the nested loops with their early exit compute the synonym pass |
| Expert.Merge | backend/expert_system.py:32-34 | appending each extracted symptom that is not yet in the session; the result grows by at most the extracted count |
| Expert.MergeExtends | backend/expert_system.py:32-34 | merging only appends to the session's symptoms |
| Expert.MergeMembership | backend/expert_system.py:32-34 | after merging, a symptom is present iff it was in the session or was extracted |
| Expert.MergeNoDup | backend/expert_system.py:32-34 | merging keeps the session's symptoms free of repeats |
| Expert.MergePresent | backend/expert_system.py:32-34 | merging symptoms that are all present already changes nothing |
| Expert.MergeIdempotent | backend/expert_system.py:32-34 | merging the same extraction twice is merging it once |
| Expert.Step | backend/expert_system.py:14-79 | `process_input` as a function of the state, the symptoms and the raw message; no step returns to the initial state |
| Expert.Respond | backend/expert_system.py:18-79 | the same step on the lower-cased, stripped message; no step returns to the initial state |
| Expert.StepGreeting | backend/expert_system.py:16-24 | in the initial state, or on a greeting keyword, the reply is the greeting; the state becomes collecting, and the symptoms stay |
| Expert.EmptyInputExtractsNothing | backend/expert_system.py:87-119 | with no empty variation, empty text extracts nothing, whatever the vocabulary holds: `\b…\b` never matches in empty text, but an empty variation would, since `"" in ""` holds |
| Expert.SymptomVariationsNonEmpty | backend/expert_system.py:94-113 | no variation in the synonym table is empty |
| Expert.BlankInputChangesNothing | backend/expert_system.py:14-59 | while collecting, an empty or all-whitespace message recognises nothing, whatever the vocabulary holds, and leaves the state and the symptoms unchanged |
| Expert.CollectingCompletesIffSomeRuleScores | backend/expert_system.py:27-49 | while collecting, a message in which no greeting keyword occurs, even inside a word, and which names a symptom completes the session iff some rule scores above 0 for the merged, lower-cased symptoms |
| Expert.StepCollecting | backend/expert_system.py:27-59 | while collecting, and when no greeting keyword occurs in the message, even inside a word: nothing recognised means "no symptom" with the state kept; otherwise symptoms are merged, and either diagnoses complete the session or the system asks for more |
| Expert.StepComplete | backend/expert_system.py:62-74 | after a diagnosis, and when no greeting keyword occurs in the message, even inside a word: a restart word clears the symptoms and starts collecting; anything else gives help and keeps the state |
| Expert.StepKeepsInvariant | backend/expert_system.py:14-79 | every step keeps these facts: the symptoms have no repeats, each is a known symptom or a synonym key, and a completed session has diagnoses |
| Expert.Session.constructor | backend/app.py:26-30 | a new session starts in the initial state with no symptoms |
| Expert.ConditionNames | backend/expert_system.py:154-156 | one name per rule, in rule order |
| Expert.MedicalExpertSystem.constructor | backend/expert_system.py:8-12 | the system owns a fresh knowledge base with the built-in table |
| Expert.MedicalExpertSystem.ExtractSymptoms | backend/expert_system.py:81-121 | the method returns the reference extraction over the sorted vocabulary and the synonym table |
| Expert.MedicalExpertSystem.ProcessInput | backend/expert_system.py:14-79 | the reply and the session's new state and symptoms are the reference step from the old state |
| Expert.MedicalExpertSystem.GetAllConditions | backend/expert_system.py:154-156 | the condition names of the knowledge base's rules, in order |
| Users.OrElse | backend/user_database.py:64-69 | a present field gives its value; an absent one gives the default |
| Users.EntryOf | backend/user_database.py:63-68 | the history entry is stamped with the given time; each field of the diagnosis data is copied when present and defaults to empty otherwise |
| Users.InsertKeepsEmailsUnique | backend/user_database.py:31-42 | adding an account with a new name and an unused address keeps addresses unique |
| Users.HistoryChangeKeepsEmails | backend/user_database.py:58-72 | changing only a history keeps addresses unique, and the other way round |
| Users.UserDatabase.constructor | backend/user_database.py:8-16 | the table starts as the loaded data |
| Users.UserDatabase.CreateUser | backend/user_database.py:27-42 | a taken name is refused first, then a used address; otherwise the account is added with an empty history, and it can then log in; addresses stay unique |
| Users.UserDatabase.Authenticate | backend/user_database.py:44-52 | "not found" iff there is no such user; success iff the user exists and the password matches |
| Users.UserDatabase.GetUser | backend/user_database.py:54-56 | a record is returned iff the user exists, and it is that user's record |
| Users.UserDatabase.AddDiagnosisToHistory | backend/user_database.py:58-72 | succeeds iff the user exists; appends exactly one entry, with defaults for absent fields, and changes nothing else |
| Users.UserDatabase.GetMedicalHistory | backend/user_database.py:74-79 | an unknown user has an empty history; a known user has their stored one |
| Users.UserDatabase.ClearHistory | backend/user_database.py:81-87 | succeeds iff the user exists; afterwards the history is empty and nothing else has changed |
| Scenarios.CoveredScore | backend/inference_engine.py:41-90 | when a rule covers the report, the score is the ratio plus the bonus, with the unreported rule symptoms missing |
| Scenarios.PairCovered | backend/inference_engine.py:50-64 | a rule whose first two symptoms are the two reported, and which requires only those, covers the report in either order |
| Scenarios.CommonColdSymptomsLowerCase | backend/knowledge_base.py:17 | the Common Cold symptom names are already lower case |
| Scenarios.CommonColdRequiredLowerCase | backend/knowledge_base.py:18 | the Common Cold required symptom is already lower case |
| Scenarios.AllergicRhinitisSymptomsLowerCase | backend/knowledge_base.py:80 | the Allergic Rhinitis symptom names are already lower case |
| Scenarios.AllergicRhinitisRequiredLowerCase | backend/knowledge_base.py:81 | the Allergic Rhinitis required symptoms are already lower case |
| Scenarios.InfluenzaRequiredLowerCase | backend/knowledge_base.py:25 | the Influenza required symptoms are already lower case |
| Scenarios.ReportedLowerCase | backend/inference_engine.py:16 | the reported runny nose and sneezing are left unchanged by lower-casing |
| Scenarios.CommonColdCovers | backend/knowledge_base.py:15-20 | Common Cold lists runny nose and sneezing among its six symptoms and requires only runny nose |
| Scenarios.AllergicRhinitisCovers | backend/knowledge_base.py:78-83 | Allergic Rhinitis lists and requires both runny nose and sneezing among its five symptoms |
| Scenarios.CommonColdMissing | backend/knowledge_base.py:17 | the four other Common Cold symptoms are missing |
| Scenarios.AllergicRhinitisMissing | backend/knowledge_base.py:80 | the three other Allergic Rhinitis symptoms are missing |
| Scenarios.TwoOfSixWithBonus | backend/inference_engine.py:67-81 | two matches of six, with the bonus, give 130/3 percent |
| Scenarios.TwoOfFiveWithBonus | backend/inference_engine.py:67-81 | two matches of five, with the bonus, give 50 percent |
| Scenarios.CommonColdScore | backend/inference_engine.py:41-90 | runny nose and sneezing score 43.33… for Common Cold |
| Scenarios.AllergicRhinitisScore | backend/inference_engine.py:41-90 | runny nose and sneezing score 50 for Allergic Rhinitis |
| Scenarios.InfluenzaGated | backend/inference_engine.py:50-58 | cough, fever and headache, without body ache, score 0 for Influenza, with nothing matched |
| Scenarios.GatedOutScoresZero | backend/inference_engine.py:50-58 | a rule whose first required symptom is lower case and was not reported scores 0 |
| Scenarios.AllGatedOut | backend/inference_engine.py:21-33 | a table of such rules has no candidates |
| Scenarios.BetweenGatedOutFirstHalf | backend/knowledge_base.py:22-49 | Influenza, COVID-19, Migraine and Gastroenteritis each require a symptom other than runny nose and sneezing |
| Scenarios.BetweenGatedOutSecondHalf | backend/knowledge_base.py:50-77 | so do Pneumonia, Bronchitis, Strep Throat and Sinusitis |
| Scenarios.AfterGatedOutFirstHalf | backend/knowledge_base.py:85-105 | so do Tension Headache, Urinary Tract Infection and Asthma Attack |
| Scenarios.AfterGatedOutSecondHalf | backend/knowledge_base.py:106-126 | so do Food Poisoning, Dehydration and Anxiety Disorder |
| Scenarios.BuiltInSplit | backend/knowledge_base.py:14-127 | the built-in table is Common Cold, eight rules, Allergic Rhinitis, then six more rules |
| Scenarios.TwoAmongGated | backend/inference_engine.py:21-33 | two scoring rules with only gated-out rules around them are the only candidates, in table order |
| Scenarios.ColdReportCandidates | backend/inference_engine.py:21-33 | over the built-in table, runny nose with sneezing leaves exactly Common Cold and Allergic Rhinitis as candidates |
| Scenarios.RankTwoCandidates | backend/inference_engine.py:36-39 | with exactly two positive candidates, the higher comes first, and table order decides a tie |
| Scenarios.ColdAndAllergyRanking | backend/inference_engine.py:7-39 | over all sixteen built-in rules, runny nose with sneezing gives exactly two diagnoses: Allergic Rhinitis first, then Common Cold |
| Scenarios.HiInChills | backend/expert_system.py:11 | the greeting keyword "hi" occurs inside "chills" |
| Scenarios.ChillsGreets | backend/expert_system.py:11-24 | any message that contains "chills" gets the greeting in every state, because "hi" is tested as a substring |

## Left out

- Confidence is an exact rational. The two-decimal `round` and floating-point error are not modelled.
- Lower-casing, `strip` and the word class of `\b` are ASCII-only. Unicode case mapping and Unicode whitespace are not modelled.
- The regular-expression engine is not modelled. `\b` + escaped phrase + `\b` is stated directly as an occurrence with word boundaries on both sides.
- `list.sort` and `sorted` are library sorts. They are modelled by their guarantees: a stable descending insertion order, and the unique strictly increasing list of a set.
- `format_diagnoses`, the explanation text and the chat messages are pure text formatting. Replies are the datatype `Reply`, and `explain_diagnosis` returns the rule and the score it would print.
- The final fallback reply of `process_input` (backend/expert_system.py:76-79) cannot be reached: a state is always one of the three values.
- The `symptom_keywords` list (backend/expert_system.py:12) is never read, so it is not modelled.
- `MedicalExpertSystem.get_all_symptoms` only delegates to `KnowledgeBase.get_all_symptoms`, which is modelled.
- `KnowledgeBase.GetRules` only returns the rules field; it carries no contract.
- `get_condition_info` on the knowledge base (backend/knowledge_base.py:142-147) is `Knowledge.ConditionInfo` applied to the rules field. `Inference.ExplainDiagnosis` calls it that way.
- Extraction is split into two methods, `Expert.ScanVocabulary` and `Expert.ScanSynonyms`, which `ExtractSymptoms` calls in sequence.
- The user file is not modelled: loading, saving with JSON, and `db_path`. The constructor takes the table read from the file, and a save is a no-op in the model.
- Users.UserDatabase.constructor: a missing or unreadable file is modelled only as the caller passing an empty table.
- The clock is not modelled. `datetime.now().isoformat()` is a `now` parameter.
- Passwords are compared as stored, in plain text, just as the source does. No hashing is modelled.
- Stored records with missing fields (the `.get` defaults used when reading) are not modelled. Every stored `User` has all its fields.
- backend/app.py is not modelled: the HTTP routes, the session dictionary, the message history and the session ids. Only the shape of a new session is.
- The frontend is not part of this model.
- Inference.ScoreBounds: the upper bound of 100 is proved only for reports without repeated symptoms. The source does not remove repeats, and `Inference.RepeatedSymptomAboveHundred` shows a repeat scoring 200. `Expert.StepKeepsInvariant` shows the session never repeats a symptom. But `diagnose` lower-cases first, so the bound reaches the chat flow only when every vocabulary name and synonym key is lower case (`Inference.LowerCaseReportBounds`). That holds of the built-in table but is not proved; two names that differ only in case, added with `add_rule`, would both be extracted and become a repeat.
- The built-in table lists "loss of appetite" only as a synonym key, never as a rule symptom. This fact is not proved.

