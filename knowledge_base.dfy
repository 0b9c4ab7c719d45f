/** The medical knowledge base: an ordered table of diagnostic rules and the
    set of every symptom any rule mentions. */
module Knowledge {
  import opened Text
  import opened Ordering

  datatype Option<T> = None | Some(value: T)

  /** One diagnostic rule.  A rule without `required_symptoms` has `[]` there,
      as `rule.get('required_symptoms', [])` reads it. */
  datatype Rule = Rule(
    condition: string,
    symptoms: seq<string>,
    requiredSymptoms: seq<string>,
    description: string,
    recommendations: string)

  /** The elements of a list, as a set. */
  function SetOf(s: seq<string>): (r: set<string>)
    ensures forall x :: x in r <==> x in s
  {
    set x | x in s
  }

  /** Every required symptom of the rule is one of its symptoms. */
  predicate WellFormed(r: Rule)
  {
    forall s :: s in r.requiredSymptoms ==> s in r.symptoms
  }

  /** The union of the symptom lists of `rules`, built up rule by rule as the
      constructor and `add_rule` do. */
  function SymptomUnion(rules: seq<Rule>): (r: set<string>)
    ensures forall i :: 0 <= i < |rules| ==> SetOf(rules[i].symptoms) <= r
  {
    if rules == [] then {}
    else SymptomUnion(rules[..|rules| - 1]) + SetOf(rules[|rules| - 1].symptoms)
  }

  /** `all_symptoms` holds exactly the symptoms that occur in some rule. */
  lemma {:induction false} SymptomUnionMembership(rules: seq<Rule>, x: string)
    ensures x in SymptomUnion(rules) <==> exists i :: 0 <= i < |rules| && x in rules[i].symptoms
  {
    if rules != [] {
      var n := |rules| - 1;
      SymptomUnionMembership(rules[..n], x);
      if x in SymptomUnion(rules[..n]) {
        var i :| 0 <= i < n && x in rules[..n][i].symptoms;
        assert rules[i] == rules[..n][i];
      }
      if exists i :: 0 <= i < |rules| && x in rules[i].symptoms {
        var i :| 0 <= i < |rules| && x in rules[i].symptoms;
        if i < n { assert rules[..n][i] == rules[i]; }
      }
    }
  }

  lemma SymptomUnionAppend(rules: seq<Rule>, r: Rule)
    ensures SymptomUnion(rules + [r]) == SymptomUnion(rules) + SetOf(r.symptoms)
  {
    assert (rules + [r])[..|rules|] == rules;
  }

  /** `get_condition_info`: the first rule whose condition name equals
      `name` case-insensitively, or `None`. */
  function ConditionInfo(rules: seq<Rule>, name: string): (r: Option<Rule>)
    ensures r.None? <==> forall i :: 0 <= i < |rules| ==> Lower(rules[i].condition) != Lower(name)
    ensures r.Some? ==>
      exists i :: 0 <= i < |rules| && rules[i] == r.value
        && Lower(rules[i].condition) == Lower(name)
        && forall j :: 0 <= j < i ==> Lower(rules[j].condition) != Lower(name)
  {
    if rules == [] then None
    else if Lower(rules[0].condition) == Lower(name) then Some(rules[0])
    else
      var r := ConditionInfo(rules[1..], name);
      assert forall i :: 1 <= i < |rules| ==> rules[i] == rules[1..][i - 1];
      r
  }

  /** In a table whose names are distinct ignoring case, any spelling of rule
      i's name finds rule i. */
  lemma ConditionInfoUnique(rules: seq<Rule>, i: int, name: string)
    requires 0 <= i < |rules|
    requires forall j, k :: 0 <= j < k < |rules| ==> Lower(rules[j].condition) != Lower(rules[k].condition)
    requires Lower(name) == Lower(rules[i].condition)
    ensures ConditionInfo(rules, name) == Some(rules[i])
  {
  }

  /** `symptom.lower() in [s.lower() for s in rule['symptoms']]` */
  predicate Mentions(r: Rule, symptom: string)
  {
    Lower(symptom) in LowerAll(r.symptoms)
  }

  /** The condition names, in rule order, of the rules whose symptom list
      contains `symptom` case-insensitively. */
  function ConditionsWith(rules: seq<Rule>, symptom: string): (r: seq<string>)
    ensures |r| <= |rules|
  {
    if rules == [] then []
    else
      var last := rules[|rules| - 1];
      ConditionsWith(rules[..|rules| - 1], symptom)
        + (if Mentions(last, symptom) then [last.condition] else [])
  }

  /** A condition is listed exactly when some rule of that name mentions the
      symptom. */
  lemma {:induction false} ConditionsWithMembership(rules: seq<Rule>, symptom: string, c: string)
    ensures c in ConditionsWith(rules, symptom) <==>
      exists i :: 0 <= i < |rules| && rules[i].condition == c && Mentions(rules[i], symptom)
  {
    if rules != [] {
      var n := |rules| - 1;
      var front := rules[..n];
      var tail := if Mentions(rules[n], symptom) then [rules[n].condition] else [];
      assert ConditionsWith(rules, symptom) == ConditionsWith(front, symptom) + tail;
      ConditionsWithMembership(front, symptom, c);
      if c in ConditionsWith(rules, symptom) {
        if c in ConditionsWith(front, symptom) {
          var i :| 0 <= i < n && front[i].condition == c && Mentions(front[i], symptom);
          assert rules[i] == front[i];
        } else {
          assert c in tail;
          assert rules[n].condition == c && Mentions(rules[n], symptom);
        }
      }
      if exists i :: 0 <= i < |rules| && rules[i].condition == c && Mentions(rules[i], symptom) {
        var i :| 0 <= i < |rules| && rules[i].condition == c && Mentions(rules[i], symptom);
        if i < n {
          assert front[i] == rules[i];
          assert c in ConditionsWith(front, symptom);
        } else {
          assert c in tail;
        }
      }
    }
  }

  /** The loop of the constructor that fills `all_symptoms` from the rules. */
  method CollectSymptoms(table: seq<Rule>) returns (symptoms: set<string>)
    ensures symptoms == SymptomUnion(table)
  {
    symptoms := {};
    var i := 0;
    while i < |table|
      invariant 0 <= i <= |table|
      invariant symptoms == SymptomUnion(table[..i])
    {
      assert table[..i + 1][..i] == table[..i];
      symptoms := symptoms + SetOf(table[i].symptoms);
      i := i + 1;
    }
    assert table[..i] == table;
  }

  class KnowledgeBase {
    var rules: seq<Rule>
    var allSymptoms: set<string>

    /** `all_symptoms` is kept equal to the union of the rules' symptoms. */
    ghost predicate Valid()
      reads this
    {
      allSymptoms == SymptomUnion(rules)
    }

    /** Loads the built-in table and collects its symptoms rule by rule. */
    constructor ()
      ensures Valid()
      ensures rules == BuiltInRules
    {
      var symptoms := CollectSymptoms(BuiltInRules);
      rules := BuiltInRules;
      allSymptoms := symptoms;
    }

    function GetRules(): seq<Rule>
      reads this
    {
      rules
    }

    /** `get_all_symptoms`: `sorted(list(self.all_symptoms))`, produced by
        taking the least remaining symptom until none is left. */
    method GetAllSymptoms() returns (r: seq<string>)
      ensures StrictlySorted(r)
      ensures forall x :: x in r <==> x in allSymptoms
      ensures r == SortedSeq(allSymptoms)
    {
      var rest := allSymptoms;
      r := [];
      while rest != {}
        invariant StrictlySorted(r)
        invariant forall x :: x in allSymptoms <==> x in r || x in rest
        invariant forall i, x :: 0 <= i < |r| && x in rest ==> LexLess(r[i], x)
        decreases |rest|
      {
        LeastExists(rest);
        var m :| IsLeast(m, rest);
        forall i, x | 0 <= i < |r| && x in rest - {m} ensures LexLess(r[i], x) {
          LexLessTransitive(r[i], m, x);
        }
        r := r + [m];
        rest := rest - {m};
      }
      StrictlySortedUnique(r, SortedSeq(allSymptoms));
    }

    /** `add_rule`: appends the rule and adds its symptoms to `all_symptoms`. */
    method AddRule(rule: Rule)
      modifies this
      ensures rules == old(rules) + [rule]
      ensures allSymptoms == old(allSymptoms) + SetOf(rule.symptoms)
      ensures old(Valid()) ==> Valid()
    {
      SymptomUnionAppend(rules, rule);
      rules := rules + [rule];
      allSymptoms := allSymptoms + SetOf(rule.symptoms);
    }

    /** `get_conditions_by_symptom` */
    method GetConditionsBySymptom(symptom: string) returns (conditions: seq<string>)
      ensures conditions == ConditionsWith(rules, symptom)
    {
      conditions := [];
      var i := 0;
      while i < |rules|
        invariant 0 <= i <= |rules|
        invariant conditions == ConditionsWith(rules[..i], symptom)
      {
        assert rules[..i + 1][..i] == rules[..i];
        if Mentions(rules[i], symptom) {
          conditions := conditions + [rules[i].condition];
        }
        i := i + 1;
      }
      assert rules[..i] == rules;
    }
  }

  /** The sixteen rules the knowledge base starts with, in table order. */
  const BuiltInRules: seq<Rule> := [
    CommonCold,
    Influenza,
    Covid19,
    Migraine,
    Gastroenteritis,
    Pneumonia,
    Bronchitis,
    StrepThroat,
    Sinusitis,
    AllergicRhinitis,
    TensionHeadache,
    UrinaryTractInfection,
    AsthmaAttack,
    FoodPoisoning,
    Dehydration,
    AnxietyDisorder
  ]

  // Rules 1 to 16 of the built-in table.

  const CommonCold: Rule := Rule("Common Cold",
      ["runny nose", "sneezing", "sore throat", "cough", "mild fever", "fatigue"],
      ["runny nose"],
      "A viral infection of the upper respiratory tract",
      "Rest, drink plenty of fluids, use over-the-counter cold medications. Usually resolves in 7-10 days.")

  const Influenza: Rule := Rule("Influenza (Flu)",
      ["fever", "cough", "sore throat", "body ache", "headache", "fatigue", "chills"],
      ["fever", "body ache"],
      "A viral infection affecting the respiratory system",
      "Rest, stay hydrated, antiviral medications may help if started early. Seek medical attention if symptoms worsen.")

  const Covid19: Rule := Rule("COVID-19",
      ["fever", "cough", "fatigue", "loss of taste", "loss of smell", "shortness of breath", "body ache", "headache", "sore throat"],
      ["fever", "cough"],
      "Respiratory illness caused by SARS-CoV-2 virus",
      "Self-isolate, get tested, rest, monitor oxygen levels. Seek immediate medical care if breathing becomes difficult.")

  const Migraine: Rule := Rule("Migraine",
      ["severe headache", "nausea", "sensitivity to light", "sensitivity to sound", "vomiting", "dizziness"],
      ["severe headache"],
      "Intense headache often accompanied by nausea and sensitivity",
      "Rest in a dark, quiet room. Take prescribed migraine medication. Consult a neurologist for persistent migraines.")

  const Gastroenteritis: Rule := Rule("Gastroenteritis (Stomach Flu)",
      ["nausea", "vomiting", "diarrhea", "abdominal pain", "fever", "headache", "fatigue"],
      ["diarrhea"],
      "Inflammation of the digestive tract",
      "Stay hydrated with oral rehydration solutions, rest, eat bland foods. Seek medical care if dehydration occurs.")

  const Pneumonia: Rule := Rule("Pneumonia",
      ["cough", "fever", "shortness of breath", "chest pain", "fatigue", "chills", "confusion"],
      ["cough", "fever", "shortness of breath"],
      "Infection that inflames air sacs in the lungs",
      "Seek immediate medical attention. Requires antibiotics or antiviral medications. May need hospitalization.")

  const Bronchitis: Rule := Rule("Bronchitis",
      ["persistent cough", "mucus production", "fatigue", "shortness of breath", "mild fever", "chest discomfort"],
      ["persistent cough"],
      "Inflammation of the bronchial tubes",
      "Rest, drink fluids, use a humidifier. See a doctor if symptoms persist beyond 3 weeks or worsen.")

  const StrepThroat: Rule := Rule("Strep Throat",
      ["severe sore throat", "fever", "swollen lymph nodes", "difficulty swallowing", "headache", "rash"],
      ["severe sore throat", "fever"],
      "Bacterial infection of the throat",
      "Requires antibiotics. See a doctor for proper diagnosis and treatment to prevent complications.")

  const Sinusitis: Rule := Rule("Sinusitis",
      ["facial pain", "nasal congestion", "runny nose", "headache", "cough", "fever", "fatigue"],
      ["facial pain", "nasal congestion"],
      "Inflammation or infection of the sinuses",
      "Use saline nasal spray, apply warm compresses. See a doctor if symptoms persist beyond 10 days.")

  const AllergicRhinitis: Rule := Rule("Allergic Rhinitis",
      ["sneezing", "runny nose", "itchy eyes", "nasal congestion", "fatigue"],
      ["sneezing", "runny nose"],
      "Allergic reaction affecting the nose and eyes",
      "Avoid allergens, use antihistamines, consider allergy testing. See an allergist for persistent symptoms.")

  const TensionHeadache: Rule := Rule("Tension Headache",
      ["headache", "pressure around forehead", "neck pain", "fatigue", "difficulty concentrating"],
      ["headache"],
      "Most common type of headache caused by muscle tension",
      "Rest, stress management, over-the-counter pain relievers. Practice good posture.")

  const UrinaryTractInfection: Rule := Rule("Urinary Tract Infection (UTI)",
      ["burning urination", "frequent urination", "abdominal pain", "cloudy urine", "fever", "pelvic pain"],
      ["burning urination", "frequent urination"],
      "Bacterial infection of the urinary system",
      "Drink plenty of water, see a doctor for antibiotics. Don't delay treatment to prevent kidney infection.")

  const AsthmaAttack: Rule := Rule("Asthma Attack",
      ["shortness of breath", "wheezing", "cough", "chest tightness", "difficulty breathing"],
      ["shortness of breath", "wheezing"],
      "Narrowing of airways causing breathing difficulty",
      "Use rescue inhaler immediately. Seek emergency care if symptoms don't improve or worsen.")

  const FoodPoisoning: Rule := Rule("Food Poisoning",
      ["nausea", "vomiting", "diarrhea", "abdominal pain", "fever", "weakness"],
      ["nausea", "diarrhea"],
      "Illness from consuming contaminated food",
      "Stay hydrated, rest. Seek medical care if symptoms are severe or persistent, or if blood in stool.")

  const Dehydration: Rule := Rule("Dehydration",
      ["dizziness", "fatigue", "dry mouth", "decreased urination", "headache", "confusion"],
      ["dizziness", "dry mouth"],
      "Excessive loss of body fluids",
      "Drink water or oral rehydration solutions. Seek medical care if severe symptoms persist.")

  const AnxietyDisorder: Rule := Rule("Anxiety Disorder",
      ["rapid heartbeat", "sweating", "trembling", "shortness of breath", "dizziness", "nausea", "fear"],
      ["rapid heartbeat", "fear"],
      "Mental health condition characterized by excessive worry",
      "Practice relaxation techniques, consider therapy. Consult a mental health professional for proper treatment.")

  /** In the built-in table every rule lists symptoms, and its required
      symptoms are among them. */
  lemma BuiltInWellFormed()
    ensures forall i :: 0 <= i < |BuiltInRules| ==> BuiltInRules[i].symptoms != [] && WellFormed(BuiltInRules[i])
  {
  }

  /** The condition names of the built-in table, in table order. */
  const BuiltInNames: seq<string> := [
    "Common Cold", "Influenza (Flu)", "COVID-19", "Migraine",
    "Gastroenteritis (Stomach Flu)", "Pneumonia", "Bronchitis", "Strep Throat",
    "Sinusitis", "Allergic Rhinitis", "Tension Headache", "Urinary Tract Infection (UTI)",
    "Asthma Attack", "Food Poisoning", "Dehydration", "Anxiety Disorder"]

  lemma BuiltInNamesMatch()
    ensures |BuiltInNames| == |BuiltInRules|
    ensures forall i :: 0 <= i < |BuiltInRules| ==> BuiltInRules[i].condition == BuiltInNames[i]
  {
  }

  /** Every built-in name starts with a capital letter, and no two names have
      both the same length and the same first letter. */
  lemma BuiltInNameKeys()
    ensures forall i :: 0 <= i < |BuiltInNames| ==>
      BuiltInNames[i] != [] && 'A' <= BuiltInNames[i][0] <= 'Z'
    ensures forall i, j :: 0 <= i < j < |BuiltInNames| ==>
      |BuiltInNames[i]| != |BuiltInNames[j]| || BuiltInNames[i][0] != BuiltInNames[j][0]
  {
  }

  /** No two built-in names are equal once lower-cased. */
  lemma BuiltInNamesDistinctLowered()
    ensures forall i, j :: 0 <= i < j < |BuiltInNames| ==> Lower(BuiltInNames[i]) != Lower(BuiltInNames[j])
  {
    BuiltInNameKeys();
    forall i, j | 0 <= i < j < |BuiltInNames|
      ensures Lower(BuiltInNames[i]) != Lower(BuiltInNames[j])
    {
      KeysSeparateLower(BuiltInNames[i], BuiltInNames[j]);
    }
  }

  /** Two names that start with capital letters and differ in length or in
      their first letter stay different once lower-cased. */
  lemma KeysSeparateLower(a: string, b: string)
    requires a != [] && b != [] && 'A' <= a[0] <= 'Z' && 'A' <= b[0] <= 'Z'
    requires |a| != |b| || a[0] != b[0]
    ensures Lower(a) != Lower(b)
  {
    LowerAt(a, 0);
    LowerAt(b, 0);
  }

  /** In the built-in table no two condition names are equal ignoring case,
      the way `get_condition_info` compares them. */
  lemma BuiltInDistinctConditions()
    ensures forall i, j :: 0 <= i < j < |BuiltInRules| ==>
      Lower(BuiltInRules[i].condition) != Lower(BuiltInRules[j].condition)
  {
    BuiltInNamesMatch();
    BuiltInNamesDistinctLowered();
  }
}
