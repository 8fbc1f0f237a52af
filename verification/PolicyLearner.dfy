/** The reference rule learner and the decision lists it produces (`cathedral_thin/verified_policy.py`).

    A rule's canonical JSON, which breaks ties in the order of rules, is a parameter. */
module PolicyLearner {
  import opened Prelude
  import opened Decimals
  import opened Amounts
  import opened Texts

  const MAX_EXAMPLES := 4096
  const MAX_FEATURES := 64
  const MAX_LABELS := 64
  const MAX_RULES := 1024
  const MAX_CONDITIONS := 64

  type Label = string

  /** Values of different types never compare equal. */
  datatype Value = Text(text: string) | Flag(flag: bool) | Number(number: int)

  type Features = map<string, Value>

  datatype Example = Example(id: string, features: Features, target: Label)

  datatype Condition = Condition(feature: string, equals: Value)

  datatype Candidate = Candidate(conditions: seq<Condition>, decision: Label, support: seq<string>)

  datatype Rule = Rule(id: string, body: Candidate)

  datatype Policy = Policy(rules: seq<Rule>, defaultLabel: Label)

  datatype Task = Task(
    featureNames: seq<string>, labels: seq<Label>, rareLabels: seq<Label>, examples: seq<Example>,
    qualityFloor: real, rareFloor: real, maxTerms: nat)

  predicate ValidExamples(examples: seq<Example>, featureNames: seq<string>, labels: seq<Label>, minimum: nat) {
    && minimum <= |examples| <= MAX_EXAMPLES
    && (forall i :: 0 <= i < |examples| ==>
          examples[i].features.Keys == Names(featureNames) && examples[i].target in labels)
    && Ascending(ExampleIds(examples))
  }

  function Names(names: seq<string>): set<string> {
    set i | 0 <= i < |names| :: names[i]
  }

  function ExampleIds(examples: seq<Example>): seq<string> {
    seq(|examples|, i requires 0 <= i < |examples| => examples[i].id)
  }

  predicate ValidTask(t: Task) {
    && 1 <= |t.featureNames| <= MAX_FEATURES && Ascending(t.featureNames)
    && 2 <= |t.labels| <= MAX_LABELS && Ascending(t.labels)
    && t.rareLabels != [] && Ascending(t.rareLabels) && (forall l :: l in t.rareLabels ==> l in t.labels)
    && ValidExamples(t.examples, t.featureNames, t.labels, 2)
    && 0.0 <= t.qualityFloor <= 1.0 && 0.0 <= t.rareFloor <= 1.0 && t.maxTerms > 0
  }

  // ---------------------------------------------------------------------------------------------
  // Decision lists.

  predicate ConditionMatches(c: Condition, features: Features) {
    c.feature in features && features[c.feature] == c.equals
  }

  predicate Matches(conditions: seq<Condition>, features: Features) {
    forall c :: c in conditions ==> ConditionMatches(c, features)
  }

  /** The decision of the first rule that matches. */
  function Decide(rules: seq<Rule>, defaultLabel: Label, features: Features): Label {
    if rules == [] then defaultLabel
    else if Matches(rules[0].body.conditions, features) then rules[0].body.decision
    else Decide(rules[1..], defaultLabel, features)
  }

  function Predict(p: Policy, features: Features): Label {
    Decide(p.rules, p.defaultLabel, features)
  }

  predicate Right(p: Policy, e: Example) {
    Predict(p, e.features) == e.target
  }

  /** What a submitted rule must look like. */
  predicate ValidRule(r: Rule, t: Task) {
    && 1 <= |r.body.conditions| <= MAX_CONDITIONS
    && (forall i :: 0 <= i < |r.body.conditions| ==> r.body.conditions[i].feature in t.featureNames)
    && FeaturesAscend(r.body.conditions)
    && r.body.decision in t.labels
    && |r.body.support| <= MAX_EXAMPLES && Ascending(r.body.support)
  }

  predicate FeaturesAscend(conditions: seq<Condition>) {
    forall i, j :: 0 <= i < j < |conditions| ==> Before(conditions[i].feature, conditions[j].feature)
  }

  predicate ValidRules(rules: seq<Rule>, t: Task) {
    && |rules| <= MAX_RULES
    && (forall i :: 0 <= i < |rules| ==> ValidRule(rules[i], t))
    && forall i, j :: 0 <= i < j < |rules| ==> rules[i].id != rules[j].id
  }

  // ---------------------------------------------------------------------------------------------
  // Generalising one example.

  function AllConditions(e: Example, names: seq<string>): seq<Condition>
    requires Names(names) <= e.features.Keys
  {
    seq(|names|, i requires 0 <= i < |names| =>
          assert names[i] in Names(names); Condition(names[i], e.features[names[i]]))
  }

  function Without(conditions: seq<Condition>, feature: string): seq<Condition> {
    if conditions == [] then []
    else
      var front, last := Without(conditions[..|conditions| - 1], feature), conditions[|conditions| - 1];
      if last.feature != feature then front + [last] else front
  }

  /** Some example matches, and all that do have the label. */
  predicate Separates(conditions: seq<Condition>, target: Label, examples: seq<Example>) {
    && (exists i :: 0 <= i < |examples| && Matches(conditions, examples[i].features))
    && forall i :: 0 <= i < |examples| && Matches(conditions, examples[i].features) ==> examples[i].target == target
  }

  /** The conditions after the first `k` features have been tried for removal. */
  function Generalize(e: Example, examples: seq<Example>, names: seq<string>, k: nat): seq<Condition>
    requires Names(names) <= e.features.Keys && k <= |names|
  {
    if k == 0 then AllConditions(e, names)
    else
      var conditions := Generalize(e, examples, names, k - 1);
      var trial := Without(conditions, names[k - 1]);
      if trial != [] && Separates(trial, e.target, examples) then trial else conditions
  }

  function Supporting(examples: seq<Example>, conditions: seq<Condition>, target: Label): seq<string> {
    if examples == [] then []
    else
      var front, last := Supporting(examples[..|examples| - 1], conditions, target), examples[|examples| - 1];
      if last.target == target && Matches(conditions, last.features) then front + [last.id] else front
  }

  function CandidateOf(e: Example, examples: seq<Example>, names: seq<string>): Candidate
    requires Names(names) <= e.features.Keys
  {
    var conditions := Generalize(e, examples, names, |names|);
    Candidate(conditions, e.target, Supporting(examples, conditions, e.target))
  }

  method GeneralizeExample(e: Example, examples: seq<Example>, names: seq<string>) returns (c: Candidate)
    requires Names(names) <= e.features.Keys
    ensures c == CandidateOf(e, examples, names)
  {
    var conditions := AllConditions(e, names);
    for k := 0 to |names|
      invariant conditions == Generalize(e, examples, names, k)
    {
      var trial := Without(conditions, names[k]);
      if trial != [] && Separates(trial, e.target, examples) {
        conditions := trial;
      }
    }
    c := Candidate(conditions, e.target, Supporting(examples, conditions, e.target));
  }

  lemma {:induction false} WithoutMembers(conditions: seq<Condition>, feature: string)
    ensures forall c :: c in Without(conditions, feature) <==> c in conditions && c.feature != feature
  {
    if conditions != [] {
      WithoutMembers(conditions[..|conditions| - 1], feature);
      assert conditions == conditions[..|conditions| - 1] + [conditions[|conditions| - 1]];
    }
  }

  lemma {:induction false} WithoutAscends(conditions: seq<Condition>, feature: string)
    requires FeaturesAscend(conditions)
    ensures FeaturesAscend(Without(conditions, feature)) && |Without(conditions, feature)| <= |conditions|
  {
    if conditions != [] {
      var front, last := conditions[..|conditions| - 1], conditions[|conditions| - 1];
      WithoutAscends(front, feature);
      WithoutMembers(front, feature);
      forall i | 0 <= i < |Without(front, feature)|
        ensures Before(Without(front, feature)[i].feature, last.feature)
      {
        var c := Without(front, feature)[i];
        assert c in front;
        var k :| 0 <= k < |front| && front[k] == c;
        assert conditions[k] == c;
      }
    }
  }

  /** The conditions stay the example's own, in order, and never run out. */
  lemma {:induction false} GeneralizeShape(e: Example, examples: seq<Example>, names: seq<string>, k: nat)
    requires e.features.Keys == Names(names) && names != [] && Ascending(names) && k <= |names|
    ensures var cs := Generalize(e, examples, names, k);
            && 1 <= |cs| <= |names| && FeaturesAscend(cs) && Matches(cs, e.features)
            && forall c :: c in cs ==> c.feature in names
  {
    if k > 0 {
      GeneralizeShape(e, examples, names, k - 1);
      WithoutAscends(Generalize(e, examples, names, k - 1), names[k - 1]);
      WithoutMembers(Generalize(e, examples, names, k - 1), names[k - 1]);
    }
  }

  lemma {:induction false} GeneralizeShrinks(e: Example, examples: seq<Example>, names: seq<string>, k: nat, m: nat)
    requires Names(names) <= e.features.Keys && k <= m <= |names|
    ensures forall c :: c in Generalize(e, examples, names, m) ==> c in Generalize(e, examples, names, k)
    decreases m
  {
    if k < m {
      GeneralizeShrinks(e, examples, names, k, m - 1);
      WithoutMembers(Generalize(e, examples, names, m - 1), names[m - 1]);
    }
  }

  /** Dropping any one of two or more conditions matches some example of another label. */
  predicate Irreducible(conditions: seq<Condition>, target: Label, examples: seq<Example>) {
    |conditions| >= 2 ==>
      forall c :: c in conditions ==>
        exists i ::
          0 <= i < |examples| && Matches(Without(conditions, c.feature), examples[i].features)
          && examples[i].target != target
  }

  lemma FewerMatchMore(fewer: seq<Condition>, more: seq<Condition>, features: Features)
    requires Matches(more, features) && forall c :: c in fewer ==> c in more
    ensures Matches(fewer, features)
  {
  }

  lemma KeptAtItsStep(e: Example, examples: seq<Example>, names: seq<string>, k: nat, c: Condition)
    requires Names(names) <= e.features.Keys && k < |names| && c.feature == names[k]
    requires c in Generalize(e, examples, names, k + 1)
    ensures var trial := Without(Generalize(e, examples, names, k), names[k]);
            trial == [] || !Separates(trial, e.target, examples)
  {
    WithoutMembers(Generalize(e, examples, names, k), names[k]);
  }

  lemma MixedBy(conditions: seq<Condition>, target: Label, examples: seq<Example>, e: Example) returns (i: nat)
    requires e in examples && Matches(conditions, e.features) && !Separates(conditions, target, examples)
    ensures i < |examples| && Matches(conditions, examples[i].features) && examples[i].target != target
  {
    var own :| 0 <= own < |examples| && examples[own] == e;
    assert Matches(conditions, examples[own].features);
    i :| 0 <= i < |examples| && Matches(conditions, examples[i].features) && examples[i].target != target;
  }

  lemma WithoutShrinks(fewer: seq<Condition>, more: seq<Condition>, feature: string)
    requires forall c :: c in fewer ==> c in more
    ensures forall c :: c in Without(fewer, feature) ==> c in Without(more, feature)
    ensures forall c :: c in Without(more, feature) ==> c in more
    ensures (exists d :: d in fewer && d.feature != feature) ==> Without(more, feature) != []
  {
    WithoutMembers(fewer, feature);
    WithoutMembers(more, feature);
    if exists d :: d in fewer && d.feature != feature {
      var d :| d in fewer && d.feature != feature;
      assert d in Without(more, feature);
    }
  }

  /** A condition that was kept was kept for a reason, which still holds at the end. */
  lemma KeptForAReason(e: Example, examples: seq<Example>, names: seq<string>, c: Condition) returns (i: nat)
    requires e.features.Keys == Names(names) && Ascending(names) && names != [] && e in examples
    requires c in Generalize(e, examples, names, |names|) && |Generalize(e, examples, names, |names|)| >= 2
    ensures i < |examples| && examples[i].target != e.target
    ensures Matches(Without(Generalize(e, examples, names, |names|), c.feature), examples[i].features)
  {
    var final := Generalize(e, examples, names, |names|);
    GeneralizeShape(e, examples, names, |names|);
    OtherCondition(final, c);
    var k :| 0 <= k < |names| && names[k] == c.feature;
    var conditions := Generalize(e, examples, names, k);
    GeneralizeShrinks(e, examples, names, k, |names|);
    WithoutShrinks(final, conditions, c.feature);
    i := MixedAtItsStep(e, examples, names, k, c);
    FewerMatchMore(Without(final, c.feature), Without(conditions, c.feature), examples[i].features);
  }

  /** Where a condition was tried and kept, leaving it out would have let another label in. */
  lemma MixedAtItsStep(e: Example, examples: seq<Example>, names: seq<string>, k: nat, c: Condition) returns (i: nat)
    requires e.features.Keys == Names(names) && Ascending(names) && e in examples
    requires k < |names| && names[k] == c.feature
    requires c in Generalize(e, examples, names, |names|)
    requires Without(Generalize(e, examples, names, k), c.feature) != []
    ensures i < |examples| && examples[i].target != e.target
    ensures Matches(Without(Generalize(e, examples, names, k), c.feature), examples[i].features)
  {
    var conditions := Generalize(e, examples, names, k);
    GeneralizeShrinks(e, examples, names, k + 1, |names|);
    KeptAtItsStep(e, examples, names, k, c);
    GeneralizeShape(e, examples, names, k);
    WithoutMembers(conditions, c.feature);
    FewerMatchMore(Without(conditions, c.feature), conditions, e.features);
    i := MixedBy(Without(conditions, c.feature), e.target, examples, e);
  }

  lemma OtherCondition(conditions: seq<Condition>, c: Condition)
    requires FeaturesAscend(conditions) && |conditions| >= 2
    ensures exists d :: d in conditions && d.feature != c.feature
  {
    BeforeIsStrict(c.feature);
    assert Before(conditions[0].feature, conditions[1].feature);
    assert conditions[0] in conditions && conditions[1] in conditions;
  }

  /** In all cases the one greedy pass leaves each rule irreducible. */
  lemma OnePassIsIrreducible(e: Example, examples: seq<Example>, names: seq<string>)
    requires e.features.Keys == Names(names) && Ascending(names) && names != [] && e in examples
    ensures Irreducible(CandidateOf(e, examples, names).conditions, e.target, examples)
  {
    var conditions := CandidateOf(e, examples, names).conditions;
    if |conditions| >= 2 {
      forall c | c in conditions
        ensures exists i :: 0 <= i < |examples| && Matches(Without(conditions, c.feature), examples[i].features)
                            && examples[i].target != e.target
      {
        var i := KeptForAReason(e, examples, names, c);
      }
    }
  }

  // ---------------------------------------------------------------------------------------------
  // Consistent examples.

  /** No two examples share their features and differ in their label. */
  predicate Consistent(examples: seq<Example>) {
    forall i, j :: 0 <= i < |examples| && 0 <= j < |examples| && examples[i].features == examples[j].features ==>
      examples[i].target == examples[j].target
  }

  lemma AllConditionsPinFeatures(e: Example, names: seq<string>, features: Features)
    requires e.features.Keys == features.Keys == Names(names) && Matches(AllConditions(e, names), features)
    ensures features == e.features
  {
    forall f | f in features
      ensures features[f] == e.features[f]
    {
      var i :| 0 <= i < |names| && names[i] == f;
      assert AllConditions(e, names)[i] == Condition(f, e.features[f]);
      assert ConditionMatches(AllConditions(e, names)[i], features);
    }
  }

  predicate SameFeatureNames(examples: seq<Example>, names: seq<string>) {
    forall i :: 0 <= i < |examples| ==> examples[i].features.Keys == Names(names)
  }

  lemma {:induction false} ConsistentStaysPure(e: Example, examples: seq<Example>, names: seq<string>, k: nat)
    requires SameFeatureNames(examples, names) && names != [] && Ascending(names) && e in examples
             && Consistent(examples)
    requires e.features.Keys == Names(names) && k <= |names|
    ensures Separates(Generalize(e, examples, names, k), e.target, examples)
  {
    var own :| 0 <= own < |examples| && examples[own] == e;
    if k == 0 {
      GeneralizeShape(e, examples, names, 0);
      assert Matches(AllConditions(e, names), examples[own].features);
      forall i | 0 <= i < |examples| && Matches(AllConditions(e, names), examples[i].features)
        ensures examples[i].target == e.target
      {
        AllConditionsPinFeatures(e, names, examples[i].features);
      }
    } else {
      ConsistentStaysPure(e, examples, names, k - 1);
    }
  }

  // ---------------------------------------------------------------------------------------------
  // The whole policy.

  /** Candidates in order of first appearance; a repeated one replaces its equal. */
  function Candidates(examples: seq<Example>, names: seq<string>, k: nat): seq<Candidate>
    requires SameFeatureNames(examples, names) && k <= |examples|
  {
    if k == 0 then []
    else
      var front, c := Candidates(examples, names, k - 1), CandidateOf(examples[k - 1], examples, names);
      if c in front then front else front + [c]
  }

  type Canonical = Candidate -> string

  /** Rare decisions first, then shorter rules, then the canonical text. */
  predicate Precedes(a: Candidate, b: Candidate, rare: seq<Label>, text: Canonical) {
    var (x, y) := (if a.decision in rare then 0 else 1, if b.decision in rare then 0 else 1);
    x < y || (x == y && (|a.conditions| < |b.conditions|
                         || (|a.conditions| == |b.conditions| && Before(text(a), text(b)))))
  }

  function Insert(sorted: seq<Candidate>, c: Candidate, rare: seq<Label>, text: Canonical): seq<Candidate> {
    if sorted != [] && Precedes(c, sorted[|sorted| - 1], rare, text)
    then Insert(sorted[..|sorted| - 1], c, rare, text) + [sorted[|sorted| - 1]]
    else sorted + [c]
  }

  function Sorted(candidates: seq<Candidate>, rare: seq<Label>, text: Canonical): seq<Candidate> {
    if candidates == [] then []
    else Insert(Sorted(candidates[..|candidates| - 1], rare, text), candidates[|candidates| - 1], rare, text)
  }

  /** `rule-` and at least four digits; there are never more than 4096 candidates. */
  function RuleId(index: nat): string {
    "rule-" + Pad(index, 4)
  }

  function Numbered(candidates: seq<Candidate>): seq<Rule> {
    seq(|candidates|, i requires 0 <= i < |candidates| => Rule(RuleId(i + 1), candidates[i]))
  }

  function CountOf(examples: seq<Example>, target: Label): nat {
    if examples == [] then 0
    else CountOf(examples[..|examples| - 1], target) + if examples[|examples| - 1].target == target then 1 else 0
  }

  /** The most frequent label, the first of them on a tie. */
  function DefaultLabel(labels: seq<Label>, examples: seq<Example>): Label
    requires labels != []
  {
    if |labels| == 1 then labels[0]
    else
      var front, last := DefaultLabel(labels[..|labels| - 1], examples), labels[|labels| - 1];
      if CountOf(examples, last) > CountOf(examples, front)
         || (CountOf(examples, last) == CountOf(examples, front) && Before(last, front))
      then last else front
  }

  function RulesOf(t: Task, text: Canonical): seq<Rule>
    requires ValidTask(t)
  {
    Numbered(Sorted(Candidates(t.examples, t.featureNames, |t.examples|), t.rareLabels, text))
  }

  /** `None` where validation of the artifact refuses it. */
  function Induced(t: Task, text: Canonical): Option<Policy>
    requires ValidTask(t)
  {
    if ValidRules(RulesOf(t, text), t) then Some(Policy(RulesOf(t, text), DefaultLabel(t.labels, t.examples))) else None
  }

  method FindCandidates(examples: seq<Example>, names: seq<string>) returns (candidates: seq<Candidate>)
    requires SameFeatureNames(examples, names)
    ensures candidates == Candidates(examples, names, |examples|)
  {
    candidates := [];
    for k := 0 to |examples|
      invariant candidates == Candidates(examples, names, k)
    {
      var c := GeneralizeExample(examples[k], examples, names);
      if c !in candidates {
        candidates := candidates + [c];
      }
    }
  }

  method InducePolicy(t: Task, text: Canonical) returns (p: Option<Policy>)
    requires ValidTask(t)
    ensures p == Induced(t, text)
  {
    var candidates := FindCandidates(t.examples, t.featureNames);
    var rules := Numbered(Sorted(candidates, t.rareLabels, text));
    if !ValidRules(rules, t) {
      return None;
    }
    return Some(Policy(rules, DefaultLabel(t.labels, t.examples)));
  }

  // ---------------------------------------------------------------------------------------------
  // Sorting.

  lemma {:induction false} InsertMembers(sorted: seq<Candidate>, c: Candidate, rare: seq<Label>, text: Canonical)
    ensures multiset(Insert(sorted, c, rare, text)) == multiset(sorted) + multiset{c}
  {
    if sorted != [] && Precedes(c, sorted[|sorted| - 1], rare, text) {
      InsertMembers(sorted[..|sorted| - 1], c, rare, text);
      assert sorted == sorted[..|sorted| - 1] + [sorted[|sorted| - 1]];
    }
  }

  lemma LastMember<T>(s: seq<T>)
    requires s != []
    ensures multiset(s) == multiset(s[..|s| - 1]) + multiset{s[|s| - 1]}
  {
    assert s == s[..|s| - 1] + [s[|s| - 1]];
  }

  lemma {:induction false} SortedMembers(candidates: seq<Candidate>, rare: seq<Label>, text: Canonical)
    ensures multiset(Sorted(candidates, rare, text)) == multiset(candidates)
  {
    if candidates != [] {
      var front, last := candidates[..|candidates| - 1], candidates[|candidates| - 1];
      SortedMembers(front, rare, text);
      InsertMembers(Sorted(front, rare, text), last, rare, text);
      LastMember(candidates);
    }
  }

  predicate InOrder(s: seq<Candidate>, rare: seq<Label>, text: Canonical) {
    forall i, j :: 0 <= i < j < |s| ==> !Precedes(s[j], s[i], rare, text)
  }

  lemma NotAfterIsTransitive(a: Candidate, b: Candidate, c: Candidate, rare: seq<Label>, text: Canonical)
    requires !Precedes(b, a, rare, text) && !Precedes(c, b, rare, text)
    ensures !Precedes(c, a, rare, text)
  {
    var (x, y, z) := (text(a), text(b), text(c));
    BeforeIsTotal(x, y);
    BeforeIsTotal(y, z);
    BeforeIsTotal(x, z);
    BeforeIsStrict(x);
    if Before(x, y) && Before(y, z) {
      BeforeIsTransitive(x, y, z);
    }
    if Before(z, x) && Before(x, z) {
      BeforeIsTransitive(x, z, x);
    }
  }

  lemma PrecedesIsAsymmetric(a: Candidate, b: Candidate, rare: seq<Label>, text: Canonical)
    requires Precedes(a, b, rare, text)
    ensures !Precedes(b, a, rare, text)
  {
    BeforeIsStrict(text(a));
    if Before(text(a), text(b)) && Before(text(b), text(a)) {
      BeforeIsTransitive(text(a), text(b), text(a));
    }
  }

  lemma {:induction false} InsertKeepsOrder(sorted: seq<Candidate>, c: Candidate, rare: seq<Label>, text: Canonical)
    requires InOrder(sorted, rare, text)
    ensures InOrder(Insert(sorted, c, rare, text), rare, text)
  {
    if sorted != [] {
      var front, last := sorted[..|sorted| - 1], sorted[|sorted| - 1];
      if Precedes(c, last, rare, text) {
        InsertKeepsOrder(front, c, rare, text);
        InsertMembers(front, c, rare, text);
        var before := Insert(front, c, rare, text);
        PrecedesIsAsymmetric(c, last, rare, text);
        forall i | 0 <= i < |before|
          ensures !Precedes(last, before[i], rare, text)
        {
          assert before[i] in multiset(before);
          assert before[i] == c || before[i] in front;
        }
      } else {
        forall i | 0 <= i < |sorted|
          ensures !Precedes(c, sorted[i], rare, text)
        {
          if i < |sorted| - 1 {
            NotAfterIsTransitive(sorted[i], last, c, rare, text);
          }
        }
      }
    }
  }

  /** The rules are the distinct candidates: rare decisions first, then shorter, then by text. */
  lemma {:induction false} SortedInOrder(candidates: seq<Candidate>, rare: seq<Label>, text: Canonical)
    ensures InOrder(Sorted(candidates, rare, text), rare, text)
  {
    if candidates != [] {
      var front := candidates[..|candidates| - 1];
      SortedInOrder(front, rare, text);
      InsertKeepsOrder(Sorted(front, rare, text), candidates[|candidates| - 1], rare, text);
    }
  }

  // ---------------------------------------------------------------------------------------------
  // What the candidates are.

  lemma {:induction false} CandidateFrom(examples: seq<Example>, names: seq<string>, k: nat, c: Candidate)
      returns (i: nat)
    requires SameFeatureNames(examples, names) && k <= |examples| && c in Candidates(examples, names, k)
    ensures i < k && c == CandidateOf(examples[i], examples, names)
  {
    if c == CandidateOf(examples[k - 1], examples, names) {
      i := k - 1;
    } else {
      i := CandidateFrom(examples, names, k - 1, c);
    }
  }

  lemma {:induction false} CandidateListed(examples: seq<Example>, names: seq<string>, k: nat, i: nat)
    requires SameFeatureNames(examples, names) && i < k <= |examples|
    ensures CandidateOf(examples[i], examples, names) in Candidates(examples, names, k)
  {
    CandidatesGrow(examples, names, k);
    if i < k - 1 {
      CandidateListed(examples, names, k - 1, i);
    }
  }

  lemma CandidatesGrow(examples: seq<Example>, names: seq<string>, k: nat)
    requires SameFeatureNames(examples, names) && 0 < k <= |examples|
    ensures CandidateOf(examples[k - 1], examples, names) in Candidates(examples, names, k)
    ensures forall c :: c in Candidates(examples, names, k - 1) ==> c in Candidates(examples, names, k)
  {
    var front, c := Candidates(examples, names, k - 1), CandidateOf(examples[k - 1], examples, names);
    assert c in front + [c];
  }

  lemma {:induction false} CandidatesCount(examples: seq<Example>, names: seq<string>, k: nat)
    requires SameFeatureNames(examples, names) && k <= |examples|
    ensures |Candidates(examples, names, k)| <= k
  {
    if k > 0 {
      CandidatesCount(examples, names, k - 1);
    }
  }

  lemma SortedMember(candidates: seq<Candidate>, rare: seq<Label>, text: Canonical, c: Candidate)
    ensures c in Sorted(candidates, rare, text) <==> c in candidates
  {
    SortedMembers(candidates, rare, text);
    assert c in multiset(Sorted(candidates, rare, text)) <==> c in multiset(candidates);
  }

  /** Every rule is the generalisation of some example. */
  lemma RuleFrom(t: Task, text: Canonical, r: Rule) returns (i: nat)
    requires ValidTask(t) && r in RulesOf(t, text)
    ensures i < |t.examples| && r.body == CandidateOf(t.examples[i], t.examples, t.featureNames)
  {
    var candidates := Candidates(t.examples, t.featureNames, |t.examples|);
    var k :| 0 <= k < |RulesOf(t, text)| && RulesOf(t, text)[k] == r;
    SortedMember(candidates, t.rareLabels, text, r.body);
    i := CandidateFrom(t.examples, t.featureNames, |t.examples|, r.body);
  }

  /** Every example has its rule. */
  lemma RuleFor(t: Task, text: Canonical, i: nat) returns (r: Rule)
    requires ValidTask(t) && i < |t.examples|
    ensures r in RulesOf(t, text) && r.body == CandidateOf(t.examples[i], t.examples, t.featureNames)
  {
    var c := CandidateOf(t.examples[i], t.examples, t.featureNames);
    var candidates := Candidates(t.examples, t.featureNames, |t.examples|);
    CandidateListed(t.examples, t.featureNames, |t.examples|, i);
    SortedMember(candidates, t.rareLabels, text, c);
    var sorted := Sorted(candidates, t.rareLabels, text);
    var k :| 0 <= k < |sorted| && sorted[k] == c;
    r := RulesOf(t, text)[k];
  }

  /** Consistent or not, no rule of the induced list has a condition to spare. */
  lemma InducedRulesAreIrreducible(t: Task, text: Canonical, r: Rule)
    requires ValidTask(t) && r in RulesOf(t, text)
    ensures Irreducible(r.body.conditions, r.body.decision, t.examples)
  {
    var i := RuleFrom(t, text, r);
    OnePassIsIrreducible(t.examples[i], t.examples, t.featureNames);
  }

  // ---------------------------------------------------------------------------------------------
  // What the policy predicts.

  lemma {:induction false} DecideByPureRules(rules: seq<Rule>, defaultLabel: Label, e: Example)
    requires forall r :: r in rules && Matches(r.body.conditions, e.features) ==> r.body.decision == e.target
    requires exists r :: r in rules && Matches(r.body.conditions, e.features)
    ensures Decide(rules, defaultLabel, e.features) == e.target
  {
    if !Matches(rules[0].body.conditions, e.features) {
      assert rules == [rules[0]] + rules[1..];
      DecideByPureRules(rules[1..], defaultLabel, e);
    } else {
      assert rules[0] in rules;
    }
  }

  predicate AllRight(rules: seq<Rule>, defaultLabel: Label, examples: seq<Example>) {
    forall i :: 0 <= i < |examples| ==> Decide(rules, defaultLabel, examples[i].features) == examples[i].target
  }

  lemma RuleIsPure(t: Task, text: Canonical, r: Rule, e: Example)
    requires ValidTask(t) && r in RulesOf(t, text) && Consistent(t.examples)
    requires e in t.examples && Matches(r.body.conditions, e.features)
    ensures r.body.decision == e.target
  {
    var k := RuleFrom(t, text, r);
    ConsistentStaysPure(t.examples[k], t.examples, t.featureNames, |t.featureNames|);
  }

  lemma OwnRuleMatches(t: Task, text: Canonical, i: nat) returns (r: Rule)
    requires ValidTask(t) && i < |t.examples|
    ensures r in RulesOf(t, text) && Matches(r.body.conditions, t.examples[i].features)
  {
    r := RuleFor(t, text, i);
    GeneralizeShape(t.examples[i], t.examples, t.featureNames, |t.featureNames|);
  }

  lemma PureRulesAreRight(t: Task, text: Canonical, rules: seq<Rule>, i: nat, defaultLabel: Label)
    requires ValidTask(t) && multiset(rules) == multiset(RulesOf(t, text))
    requires Consistent(t.examples) && i < |t.examples|
    ensures Decide(rules, defaultLabel, t.examples[i].features) == t.examples[i].target
  {
    var e, induced := t.examples[i], RulesOf(t, text);
    SameMembers(rules, induced);
    forall r | r in rules && Matches(r.body.conditions, e.features)
      ensures r.body.decision == e.target
    {
      RuleIsPure(t, text, r, e);
    }
    var own := OwnRuleMatches(t, text, i);
    DecideByPureRules(rules, defaultLabel, e);
  }

  /** The induced rules, in whatever order, get every public example right exactly when no two examples
      share features and differ in label. */
  lemma RightExactlyWhenConsistent(t: Task, text: Canonical, rules: seq<Rule>)
    requires ValidTask(t) && Induced(t, text).Some? && multiset(rules) == multiset(Induced(t, text).value.rules)
    ensures AllRight(rules, Induced(t, text).value.defaultLabel, t.examples) <==> Consistent(t.examples)
  {
    var p := Induced(t, text).value;
    if Consistent(t.examples) {
      forall i | 0 <= i < |t.examples|
        ensures Decide(rules, p.defaultLabel, t.examples[i].features) == t.examples[i].target
      {
        PureRulesAreRight(t, text, rules, i, p.defaultLabel);
      }
    }
  }

  // ---------------------------------------------------------------------------------------------
  // What the policy looks like.

  lemma {:induction false} SupportingIds(examples: seq<Example>, conditions: seq<Condition>, target: Label)
    ensures |Supporting(examples, conditions, target)| <= |examples|
    ensures forall id :: id in Supporting(examples, conditions, target) <==>
              exists i ::
                0 <= i < |examples| && examples[i].id == id && examples[i].target == target
                && Matches(conditions, examples[i].features)
    ensures Ascending(ExampleIds(examples)) ==> Ascending(Supporting(examples, conditions, target))
  {
    if examples != [] {
      var front, last := examples[..|examples| - 1], examples[|examples| - 1];
      SupportingIds(front, conditions, target);
      var before := Supporting(front, conditions, target);
      if Ascending(ExampleIds(examples)) {
        FrontAscends(examples);
        forall j | 0 <= j < |before|
          ensures Before(before[j], last.id)
        {
          assert before[j] in before;
          var i :| 0 <= i < |front| && front[i].id == before[j];
          assert ExampleIds(examples)[i] == before[j] && ExampleIds(examples)[|examples| - 1] == last.id;
        }
      }
    }
  }

  lemma FrontAscends(examples: seq<Example>)
    requires examples != [] && Ascending(ExampleIds(examples))
    ensures Ascending(ExampleIds(examples[..|examples| - 1]))
  {
    assert ExampleIds(examples[..|examples| - 1]) == ExampleIds(examples)[..|examples| - 1];
  }

  lemma RuleIdsDiffer(i: nat, j: nat)
    requires i < j <= MAX_EXAMPLES
    ensures RuleId(i) != RuleId(j)
  {
    assert Pow10(4) == 10000 && Pow10(0) == 1;
    ReadPadded(i, 4, 4);
    ReadPadded(j, 4, 4);
    assert RuleId(i)[5..] == Pad(i, 4) && RuleId(j)[5..] == Pad(j, 4);
  }

  lemma CandidateIsValid(t: Task, i: nat, id: string)
    requires ValidTask(t) && i < |t.examples|
    ensures ValidRule(Rule(id, CandidateOf(t.examples[i], t.examples, t.featureNames)), t)
  {
    var e := t.examples[i];
    var conditions := CandidateOf(e, t.examples, t.featureNames).conditions;
    GeneralizeShape(e, t.examples, t.featureNames, |t.featureNames|);
    SupportingIds(t.examples, conditions, e.target);
    assert forall k :: 0 <= k < |conditions| ==> conditions[k] in conditions;
  }

  lemma RulesAreValid(t: Task, text: Canonical, k: nat)
    requires ValidTask(t) && k < |RulesOf(t, text)|
    ensures ValidRule(RulesOf(t, text)[k], t)
  {
    var r := RulesOf(t, text)[k];
    var i := RuleFrom(t, text, r);
    CandidateIsValid(t, i, r.id);
  }

  lemma SameLength<T>(a: seq<T>, b: seq<T>)
    requires multiset(a) == multiset(b)
    ensures |a| == |b|
  {
    assert |multiset(a)| == |a| && |multiset(b)| == |b|;
  }

  lemma RulesCount(t: Task, text: Canonical)
    requires ValidTask(t)
    ensures |RulesOf(t, text)| == |Candidates(t.examples, t.featureNames, |t.examples|)| <= |t.examples| <= MAX_EXAMPLES
  {
    CandidatesCount(t.examples, t.featureNames, |t.examples|);
    var candidates := Candidates(t.examples, t.featureNames, |t.examples|);
    SortedMembers(candidates, t.rareLabels, text);
    SameLength(Sorted(candidates, t.rareLabels, text), candidates);
  }

  lemma NumbersDiffer(candidates: seq<Candidate>)
    requires |candidates| <= MAX_EXAMPLES
    ensures forall i, j :: 0 <= i < j < |candidates| ==> Numbered(candidates)[i].id != Numbered(candidates)[j].id
  {
    forall i, j | 0 <= i < j < |candidates|
      ensures Numbered(candidates)[i].id != Numbered(candidates)[j].id
    {
      RuleIdsDiffer(i + 1, j + 1);
    }
  }

  /** The reference learner fails only when it finds more than 1024 distinct rules. */
  lemma InducedUnlessTooManyRules(t: Task, text: Canonical)
    requires ValidTask(t)
    ensures Induced(t, text).Some? <==> |Candidates(t.examples, t.featureNames, |t.examples|)| <= MAX_RULES
  {
    var rules := RulesOf(t, text);
    RulesCount(t, text);
    forall k | 0 <= k < |rules|
      ensures ValidRule(rules[k], t)
    {
      RulesAreValid(t, text, k);
    }
    NumbersDiffer(Sorted(Candidates(t.examples, t.featureNames, |t.examples|), t.rareLabels, text));
  }

  /** No label is more frequent than the default one, and an equally frequent one does not sort before it. */
  lemma {:induction false} DefaultIsMostFrequent(labels: seq<Label>, examples: seq<Example>)
    requires labels != []
    ensures DefaultLabel(labels, examples) in labels
    ensures forall l :: l in labels ==>
              var d := DefaultLabel(labels, examples);
              CountOf(examples, l) < CountOf(examples, d)
              || (CountOf(examples, l) == CountOf(examples, d) && !Before(l, d))
  {
    if |labels| == 1 {
      BeforeIsStrict(labels[0]);
    } else {
      var front, last := labels[..|labels| - 1], labels[|labels| - 1];
      DefaultIsMostFrequent(front, examples);
      assert labels == front + [last];
      var f := DefaultLabel(front, examples);
      BeforeIsStrict(last);
      forall l | l in front
        ensures Before(last, f) && Before(l, last) ==> Before(l, f)
      {
        if Before(last, f) && Before(l, last) {
          BeforeIsTransitive(l, last, f);
        }
      }
    }
  }

  // ---------------------------------------------------------------------------------------------
  // Decision lists, by index.

  /** Every condition names a feature that has just the value asked for. */
  predicate Fires(conditions: seq<Condition>, features: Features) {
    forall k :: 0 <= k < |conditions| ==>
      conditions[k].feature in features && features[conditions[k].feature] == conditions[k].equals
  }

  lemma FiresExactly(conditions: seq<Condition>, features: Features)
    ensures Matches(conditions, features) <==> Fires(conditions, features)
  {
    if Matches(conditions, features) {
      forall k | 0 <= k < |conditions|
        ensures conditions[k].feature in features && features[conditions[k].feature] == conditions[k].equals
      {
        assert ConditionMatches(conditions[k], features);
      }
    }
  }

  lemma {:induction false} DecidesFirst(rules: seq<Rule>, defaultLabel: Label, features: Features, i: nat)
    requires i <= |rules| && (i < |rules| ==> Fires(rules[i].body.conditions, features))
    requires forall j :: 0 <= j < i ==> !Fires(rules[j].body.conditions, features)
    ensures Decide(rules, defaultLabel, features) == if i < |rules| then rules[i].body.decision else defaultLabel
  {
    if rules != [] {
      FiresExactly(rules[0].body.conditions, features);
      if i > 0 {
        DecidesFirst(rules[1..], defaultLabel, features, i - 1);
      }
    }
  }

  /** The prediction is the decision of the rule that fires with none firing before it, and the default label when
      none fires. */
  lemma FirstMatchDecides(p: Policy, features: Features)
    ensures forall i ::
              0 <= i < |p.rules| && Fires(p.rules[i].body.conditions, features)
              && (forall j :: 0 <= j < i ==> !Fires(p.rules[j].body.conditions, features)) ==>
                Predict(p, features) == p.rules[i].body.decision
    ensures (forall i :: 0 <= i < |p.rules| ==> !Fires(p.rules[i].body.conditions, features)) ==>
              Predict(p, features) == p.defaultLabel
  {
    forall i | 0 <= i < |p.rules| && Fires(p.rules[i].body.conditions, features)
               && forall j :: 0 <= j < i ==> !Fires(p.rules[j].body.conditions, features)
      ensures Predict(p, features) == p.rules[i].body.decision
    {
      DecidesFirst(p.rules, p.defaultLabel, features, i);
    }
    if forall i :: 0 <= i < |p.rules| ==> !Fires(p.rules[i].body.conditions, features) {
      DecidesFirst(p.rules, p.defaultLabel, features, |p.rules|);
    }
  }

  /** Whatever stands behind a rule that fires changes no prediction. */
  lemma {:induction false} BehindAMatch(front: seq<Rule>, some: seq<Rule>, other: seq<Rule>, a: Label, b: Label,
                                        features: Features)
    requires exists i :: 0 <= i < |front| && Fires(front[i].body.conditions, features)
    ensures Predict(Policy(front + some, a), features) == Predict(Policy(front + other, b), features)
  {
    FiresExactly(front[0].body.conditions, features);
    if !Fires(front[0].body.conditions, features) {
      assert (front + some)[1..] == front[1..] + some && (front + other)[1..] == front[1..] + other;
      var i :| 0 <= i < |front| && Fires(front[i].body.conditions, features);
      assert front[1..][i - 1] == front[i];
      BehindAMatch(front[1..], some, other, a, b, features);
    }
  }

  // ---------------------------------------------------------------------------------------------
  // The greedy pass, feature by feature.

  function Own(e: Example, name: string): Condition
    requires name in e.features
  {
    Condition(name, e.features[name])
  }

  predicate Keeps(e: Example, examples: seq<Example>, names: seq<string>, k: nat, j: int)
    requires Names(names) <= e.features.Keys && k <= |names| && 0 <= j < |names|
  {
    assert names[j] in Names(names);
    Own(e, names[j]) in Generalize(e, examples, names, k)
  }

  lemma NamesDiffer(names: seq<string>, i: nat, j: nat)
    requires Ascending(names) && i < |names| && j < |names| && i != j
    ensures names[i] != names[j]
  {
    if names[i] == names[j] {
      AscendingAreDistinct(names, i, j);
    }
  }

  /** Only its own step can drop a feature. */
  lemma {:induction false} OnlyOwnStepDrops(e: Example, examples: seq<Example>, names: seq<string>, k: nat, j: nat)
    requires e.features.Keys == Names(names) && Ascending(names) && k <= |names| && j < |names|
    ensures k <= j ==> Keeps(e, examples, names, k, j)
    ensures k > j ==> (Keeps(e, examples, names, k, j) <==> Keeps(e, examples, names, j + 1, j))
  {
    if k == 0 {
      assert names[j] in Names(names);
      assert AllConditions(e, names)[j] == Own(e, names[j]);
    } else if k != j + 1 {
      OnlyOwnStepDrops(e, examples, names, k - 1, j);
      WithoutMembers(Generalize(e, examples, names, k - 1), names[k - 1]);
      NamesDiffer(names, k - 1, j);
    }
  }

  /** The conditions are always the example's own. */
  lemma {:induction false} ConditionsAreOwn(e: Example, examples: seq<Example>, names: seq<string>, k: nat,
                                            c: Condition)
      returns (j: nat)
    requires e.features.Keys == Names(names) && k <= |names| && c in Generalize(e, examples, names, k)
    ensures j < |names| && names[j] == c.feature && c == Own(e, names[j])
  {
    if k == 0 {
      j :| 0 <= j < |names| && AllConditions(e, names)[j] == c;
      assert names[j] in Names(names);
    } else {
      WithoutMembers(Generalize(e, examples, names, k - 1), names[k - 1]);
      j := ConditionsAreOwn(e, examples, names, k - 1, c);
    }
  }

  predicate Agree(e: Example, other: Example, name: string) {
    name in e.features && name in other.features && other.features[name] == e.features[name]
  }

  /** Other than in feature `k`, the two agree wherever the final rule looks before it and everywhere behind it. */
  predicate AgreeBut(e: Example, other: Example, examples: seq<Example>, names: seq<string>, k: nat)
    requires Names(names) <= e.features.Keys
  {
    forall j :: 0 <= j < |names| && j != k && (j < k ==> Keeps(e, examples, names, |names|, j)) ==>
      Agree(e, other, names[j])
  }

  lemma TrialMembers(e: Example, examples: seq<Example>, names: seq<string>, k: nat, j: nat)
    requires e.features.Keys == Names(names) && Ascending(names) && k < |names| && j < |names|
    ensures var trial := Without(Generalize(e, examples, names, k), names[k]);
            names[j] in e.features
            && (Own(e, names[j]) in trial <==> j != k && (j < k ==> Keeps(e, examples, names, |names|, j)))
  {
    assert names[j] in Names(names);
    WithoutMembers(Generalize(e, examples, names, k), names[k]);
    OnlyOwnStepDrops(e, examples, names, k, j);
    OnlyOwnStepDrops(e, examples, names, |names|, j);
    if j != k {
      NamesDiffer(names, j, k);
    }
  }

  lemma TrialMatchesExactly(e: Example, other: Example, examples: seq<Example>, names: seq<string>, k: nat)
    requires e.features.Keys == Names(names) && Ascending(names) && k < |names|
    ensures var trial := Without(Generalize(e, examples, names, k), names[k]);
            Matches(trial, other.features) <==> AgreeBut(e, other, examples, names, k)
  {
    var trial := Without(Generalize(e, examples, names, k), names[k]);
    if Matches(trial, other.features) {
      forall j | 0 <= j < |names| && j != k && (j < k ==> Keeps(e, examples, names, |names|, j))
        ensures Agree(e, other, names[j])
      {
        TrialMembers(e, examples, names, k, j);
        assert ConditionMatches(Own(e, names[j]), other.features);
      }
    }
    if AgreeBut(e, other, examples, names, k) {
      forall c | c in trial
        ensures ConditionMatches(c, other.features)
      {
        WithoutMembers(Generalize(e, examples, names, k), names[k]);
        var j := ConditionsAreOwn(e, examples, names, k, c);
        TrialMembers(e, examples, names, k, j);
        assert Agree(e, other, names[j]);
      }
    }
  }

  lemma TrialEmptyExactly(e: Example, examples: seq<Example>, names: seq<string>, k: nat)
    requires e.features.Keys == Names(names) && Ascending(names) && k < |names|
    ensures var trial := Without(Generalize(e, examples, names, k), names[k]);
            trial == [] <==> k == |names| - 1 && forall j :: 0 <= j < k ==> !Keeps(e, examples, names, |names|, j)
  {
    var trial := Without(Generalize(e, examples, names, k), names[k]);
    forall j | 0 <= j < |names|
      ensures names[j] in e.features
      ensures Own(e, names[j]) in trial <==> j != k && (j < k ==> Keeps(e, examples, names, |names|, j))
    {
      TrialMembers(e, examples, names, k, j);
    }
    if trial != [] {
      WithoutMembers(Generalize(e, examples, names, k), names[k]);
      assert trial[0] in trial;
      var j := ConditionsAreOwn(e, examples, names, k, trial[0]);
    }
  }

  /** The features are tried in order, and one is kept exactly when no other is left to ask for, or some example of
      another label agrees with this one in every feature kept before it and every feature behind it. */
  lemma KeptExactly(e: Example, examples: seq<Example>, names: seq<string>, k: nat)
    requires e.features.Keys == Names(names) && Ascending(names) && k < |names| && e in examples
    ensures Keeps(e, examples, names, |names|, k) <==>
              || (k == |names| - 1 && forall j :: 0 <= j < k ==> !Keeps(e, examples, names, |names|, j))
              || (exists i :: 0 <= i < |examples| && examples[i].target != e.target
                              && AgreeBut(e, examples[i], examples, names, k))
  {
    var conditions := Generalize(e, examples, names, k);
    var trial := Without(conditions, names[k]);
    forall i | 0 <= i < |examples|
      ensures Matches(trial, examples[i].features) <==> AgreeBut(e, examples[i], examples, names, k)
    {
      TrialMatchesExactly(e, examples[i], examples, names, k);
    }
    TrialEmptyExactly(e, examples, names, k);
    assert AgreeBut(e, e, examples, names, k) by {
      assert forall j :: 0 <= j < |names| ==> names[j] in Names(names);
    }
    var own :| 0 <= own < |examples| && examples[own] == e;
    assert Matches(trial, examples[own].features);
    OnlyOwnStepDrops(e, examples, names, k, k);
    OnlyOwnStepDrops(e, examples, names, |names|, k);
    WithoutMembers(conditions, names[k]);
  }

  // ---------------------------------------------------------------------------------------------
  // The order, numbers and members of the rules, and the counts behind the default label.

  /** Rules for rare labels come first; among equals the shorter, and then the one with the earlier text. */
  lemma OrderedByRarityLengthText(candidates: seq<Candidate>, rare: seq<Label>, text: Canonical, i: nat, j: nat)
    requires i < j < |candidates|
    ensures |Sorted(candidates, rare, text)| == |candidates|
    ensures var (a, b) := (Sorted(candidates, rare, text)[i], Sorted(candidates, rare, text)[j]);
            && (b.decision in rare ==> a.decision in rare)
            && ((a.decision in rare <==> b.decision in rare) ==> |a.conditions| <= |b.conditions|)
            && ((a.decision in rare <==> b.decision in rare) && |a.conditions| == |b.conditions| ==>
                  text(a) == text(b) || Before(text(a), text(b)))
  {
    SortedMembers(candidates, rare, text);
    SameLength(Sorted(candidates, rare, text), candidates);
    SortedInOrder(candidates, rare, text);
    var (a, b) := (Sorted(candidates, rare, text)[i], Sorted(candidates, rare, text)[j]);
    BeforeIsTotal(text(a), text(b));
  }

  lemma {:induction false} CandidatesDiffer(examples: seq<Example>, names: seq<string>, k: nat)
    requires SameFeatureNames(examples, names) && k <= |examples|
    ensures NoRepeats(Candidates(examples, names, k))
  {
    if k > 0 {
      CandidatesDiffer(examples, names, k - 1);
    }
  }

  predicate IsGeneralised(examples: seq<Example>, names: seq<string>, c: Candidate)
    requires SameFeatureNames(examples, names)
  {
    exists i :: 0 <= i < |examples| && c == CandidateOf(examples[i], examples, names)
  }

  predicate HasBody(rules: seq<Rule>, c: Candidate) {
    exists k :: 0 <= k < |rules| && rules[k].body == c
  }

  lemma CandidatesExactly(examples: seq<Example>, names: seq<string>, c: Candidate)
    requires SameFeatureNames(examples, names)
    ensures c in Candidates(examples, names, |examples|) <==> IsGeneralised(examples, names, c)
  {
    if c in Candidates(examples, names, |examples|) {
      var i := CandidateFrom(examples, names, |examples|, c);
    }
    if exists i :: 0 <= i < |examples| && c == CandidateOf(examples[i], examples, names) {
      var i :| 0 <= i < |examples| && c == CandidateOf(examples[i], examples, names);
      CandidateListed(examples, names, |examples|, i);
    }
  }

  /** The bodies of the rules are just the generalised examples. */
  lemma RulesAreTheCandidates(t: Task, text: Canonical, c: Candidate)
    requires ValidTask(t)
    ensures HasBody(RulesOf(t, text), c) <==> IsGeneralised(t.examples, t.featureNames, c)
  {
    var candidates := Candidates(t.examples, t.featureNames, |t.examples|);
    CandidatesExactly(t.examples, t.featureNames, c);
    SortedMember(candidates, t.rareLabels, text, c);
    NumberedBodies(Sorted(candidates, t.rareLabels, text), c);
  }

  lemma NumberedBodies(candidates: seq<Candidate>, c: Candidate)
    ensures HasBody(Numbered(candidates), c) <==> c in candidates
  {
    forall k | 0 <= k < |candidates|
      ensures Numbered(candidates)[k].body == candidates[k]
    {
      NumberedAt(candidates, k);
    }
    if c in candidates {
      var k :| 0 <= k < |candidates| && candidates[k] == c;
      assert Numbered(candidates)[k].body == c;
    }
  }

  lemma NumberedAt(candidates: seq<Candidate>, k: nat)
    requires k < |candidates|
    ensures Numbered(candidates)[k] == Rule(RuleId(k + 1), candidates[k])
  {
  }

  /** No rule is listed twice, and they are numbered from one. */
  lemma RulesDiffer(t: Task, text: Canonical, k: nat, j: nat)
    requires ValidTask(t) && k < |RulesOf(t, text)| && j < |RulesOf(t, text)|
    ensures k != j ==> RulesOf(t, text)[k].body != RulesOf(t, text)[j].body
    ensures RulesOf(t, text)[k].id == RuleId(k + 1)
  {
    NumberedAt(Sorted(Candidates(t.examples, t.featureNames, |t.examples|), t.rareLabels, text), k);
    var candidates := Candidates(t.examples, t.featureNames, |t.examples|);
    CandidatesDiffer(t.examples, t.featureNames, |t.examples|);
    SortedMembers(candidates, t.rareLabels, text);
    DistinctBySame(candidates, Sorted(candidates, t.rareLabels, text));
  }

  lemma DistinctBySame<T>(a: seq<T>, b: seq<T>)
    requires NoRepeats(a) && multiset(a) == multiset(b)
    ensures NoRepeats(b)
  {
    forall i, j | 0 <= i < j < |b|
      ensures b[i] != b[j]
    {
      if b[i] == b[j] {
        assert b == b[..i] + [b[i]] + b[i + 1..j] + [b[j]] + b[j + 1..];
        assert multiset(b)[b[i]] >= 2;
        OnceOnly(a, b[i]);
      }
    }
  }

  lemma {:induction false} OnceOnly<T>(a: seq<T>, x: T)
    requires NoRepeats(a)
    ensures multiset(a)[x] <= 1
  {
    if a != [] {
      var front, last := a[..|a| - 1], a[|a| - 1];
      LastMember(a);
      OnceOnly(front, x);
      assert last !in front;
      assert multiset(front)[last] == 0;
    }
  }

  /** `rule-0001` and so on. */
  lemma RuleIdDigits(n: nat)
    requires n <= MAX_EXAMPLES
    ensures RuleId(n) == "rule-" + [Digit(n / 1000), Digit(n / 100 % 10), Digit(n / 10 % 10), Digit(n % 10)]
  {
    assert Pow10(0) == 1 && Pow10(1) == 10 && Pow10(2) == 100 && Pow10(3) == 1000;
    PadShowsDigits(n, 4, 0);
    PadShowsDigits(n, 4, 1);
    PadShowsDigits(n, 4, 2);
    PadShowsDigits(n, 4, 3);
    assert n / 1000 % 10 == n / 1000;
    assert Pad(n, 4) == [Digit(n / 1000), Digit(n / 100 % 10), Digit(n / 10 % 10), Digit(n % 10)];
  }

  function Having(examples: seq<Example>, target: Label): set<int> {
    set i | 0 <= i < |examples| && examples[i].target == target
  }

  lemma {:induction false} CountIsCount(examples: seq<Example>, target: Label)
    ensures CountOf(examples, target) == |Having(examples, target)|
  {
    if examples == [] {
      assert Having(examples, target) == {};
    } else {
      var n := |examples| - 1;
      var front := examples[..n];
      CountIsCount(front, target);
      assert Having(examples, target)
          == Having(front, target) + if examples[n].target == target then {n} else {};
    }
  }
}
