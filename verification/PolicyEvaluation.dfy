/** Scoring a decision list on the hidden suite, and replaying a signed evaluation
    (`cathedral_thin/verified_policy.py`). Scores are exact; the twelve-digit rendering is not modelled. */
module PolicyEvaluation {
  import opened Prelude
  import opened PolicyLearner
  import opened Sums
  import opened Texts

  /** `None` where the suite is refused. The commitment and form of the suite are taken as checked. */
  predicate ValidSuite(cases: seq<Example>, t: Task) {
    && ValidExamples(cases, t.featureNames, t.labels, |t.labels|)
    && forall l :: l in t.labels ==> CountOf(cases, l) > 0
  }

  datatype Outcome = Outcome(id: string, predicted: Label, correct: bool)

  datatype Execution = NoReceipt | Receipt(requestId: Digest, receiptId: Digest, attested: bool,
                                           verifier: Option<Digest>)

  datatype Metrics = Metrics(balanced: real, rare: real, faithfulness: real, compactness: real, signature: real,
                             attested: real)

  datatype Evaluation = Evaluation(
    evaluatedAt: int, caseCount: nat, rareCaseCount: nat, results: seq<Outcome>, metrics: Metrics, execution: Execution)

  // ---------------------------------------------------------------------------------------------
  // Counting.

  function RightOf(p: Policy, cases: seq<Example>, target: Label): nat {
    if cases == [] then 0
    else
      var last := cases[|cases| - 1];
      RightOf(p, cases[..|cases| - 1], target) + if last.target == target && Right(p, last) then 1 else 0
  }

  function Results(p: Policy, cases: seq<Example>): seq<Outcome> {
    if cases == [] then []
    else
      var last := cases[|cases| - 1];
      Results(p, cases[..|cases| - 1]) + [Outcome(last.id, Predict(p, last.features), Right(p, last))]
  }

  function Recall(p: Policy, cases: seq<Example>, target: Label): real
    requires CountOf(cases, target) > 0
  {
    Over(RightOf(p, cases, target) as real, CountOf(cases, target) as real)
  }

  function RecallSum(p: Policy, cases: seq<Example>, labels: seq<Label>): real
    requires forall l :: l in labels ==> CountOf(cases, l) > 0
  {
    if labels == [] then 0.0
    else RecallSum(p, cases, labels[..|labels| - 1]) + Recall(p, cases, labels[|labels| - 1])
  }

  /** The mean recall over some labels. */
  function MeanRecall(p: Policy, cases: seq<Example>, labels: seq<Label>): real
    requires labels != [] && forall l :: l in labels ==> CountOf(cases, l) > 0
  {
    Over(RecallSum(p, cases, labels), |labels| as real)
  }

  function CaseSum(cases: seq<Example>, labels: seq<Label>): nat {
    if labels == [] then 0 else CaseSum(cases, labels[..|labels| - 1]) + CountOf(cases, labels[|labels| - 1])
  }

  function TermCount(rules: seq<Rule>): nat {
    if rules == [] then 0 else TermCount(rules[..|rules| - 1]) + 1 + |rules[|rules| - 1].body.conditions|
  }

  function Compactness(p: Policy, maxTerms: nat): real
    requires maxTerms > 0
  {
    Over((if TermCount(p.rules) < maxTerms then maxTerms - TermCount(p.rules) else 0) as real, maxTerms as real)
  }

  // ---------------------------------------------------------------------------------------------
  // Evidence.

  function Find(examples: seq<Example>, id: string): Option<Example> {
    if examples == [] then None
    else if examples[|examples| - 1].id == id then Some(examples[|examples| - 1])
    else Find(examples[..|examples| - 1], id)
  }

  predicate Supports(examples: seq<Example>, r: Rule, id: string) {
    var row := Find(examples, id);
    row.Some? && row.value.target == r.body.decision && Matches(r.body.conditions, row.value.features)
  }

  predicate WellSupported(examples: seq<Example>, r: Rule) {
    r.body.support != [] && forall id :: id in r.body.support ==> Supports(examples, r, id)
  }

  function SupportedCount(examples: seq<Example>, rules: seq<Rule>): (n: nat)
    ensures n <= |rules|
  {
    if rules == [] then 0
    else SupportedCount(examples, rules[..|rules| - 1]) + if WellSupported(examples, rules[|rules| - 1]) then 1 else 0
  }

  function Faithfulness(examples: seq<Example>, p: Policy): real {
    if p.rules == [] then 0.0 else Over(SupportedCount(examples, p.rules) as real, |p.rules| as real)
  }

  // ---------------------------------------------------------------------------------------------
  // The evaluation.

  function Floored(m: Metrics, t: Task): Metrics {
    if m.balanced < t.qualityFloor || m.rare < t.rareFloor then m.(rare := 0.0, faithfulness := 0.0, compactness := 0.0)
    else m
  }

  function Attested(e: Execution): bool {
    e.Receipt? && e.attested
  }

  function Scored(t: Task, p: Policy, cases: seq<Example>, e: Execution): Metrics
    requires ValidTask(t) && ValidSuite(cases, t)
  {
    Floored(Metrics(MeanRecall(p, cases, t.labels), MeanRecall(p, cases, t.rareLabels), Faithfulness(t.examples, p),
                    Compactness(p, t.maxTerms), 1.0, if Attested(e) then 1.0 else 0.0), t)
  }

  function Evaluate(t: Task, p: Policy, cases: seq<Example>, evaluatedAt: int, e: Execution): Option<Evaluation>
    requires ValidTask(t)
  {
    if !ValidSuite(cases, t) then None
    else Some(Evaluation(evaluatedAt, |cases|, CaseSum(cases, t.rareLabels), Results(p, cases), Scored(t, p, cases, e),
                         e))
  }

  method CountCases(p: Policy, cases: seq<Example>, labels: seq<Label>)
      returns (results: seq<Outcome>, correctByLabel: map<Label, nat>, totalByLabel: map<Label, nat>)
    requires forall i :: 0 <= i < |cases| ==> cases[i].target in labels
    ensures results == Results(p, cases)
    ensures forall l :: l in labels ==> l in totalByLabel && totalByLabel[l] == CountOf(cases, l)
    ensures forall l :: l in labels ==> l in correctByLabel && correctByLabel[l] == RightOf(p, cases, l)
  {
    results := [];
    correctByLabel, totalByLabel := map l | l in labels :: 0, map l | l in labels :: 0;
    for i := 0 to |cases|
      invariant forall l :: l in labels ==> l in totalByLabel && totalByLabel[l] == CountOf(cases[..i], l)
      invariant forall l :: l in labels ==> l in correctByLabel && correctByLabel[l] == RightOf(p, cases[..i], l)
      invariant results == Results(p, cases[..i])
    {
      assert cases[..i + 1][..i] == cases[..i];
      var row := cases[i];
      var predicted := Predict(p, row.features);
      var correct := predicted == row.target;
      totalByLabel := totalByLabel[row.target := totalByLabel[row.target] + 1];
      correctByLabel := correctByLabel[row.target := correctByLabel[row.target] + if correct then 1 else 0];
      results := results + [Outcome(row.id, predicted, correct)];
    }
    assert cases[..|cases|] == cases;
  }

  method EvaluatePolicy(t: Task, p: Policy, cases: seq<Example>, evaluatedAt: int, e: Execution)
      returns (r: Option<Evaluation>)
    requires ValidTask(t)
    ensures r == Evaluate(t, p, cases, evaluatedAt, e)
  {
    if !ValidSuite(cases, t) {
      return None;
    }
    var results, correctByLabel, totalByLabel := CountCases(p, cases, t.labels);
    var balanced := MeanOf(p, cases, t.labels, correctByLabel, totalByLabel);
    var rare := MeanOf(p, cases, t.rareLabels, correctByLabel, totalByLabel);
    var rareCases := SumCases(cases, t.rareLabels, totalByLabel);
    var faithfulness := EvidenceFaithfulness(t.examples, p);
    var metrics := Metrics(balanced, rare, faithfulness, Compactness(p, t.maxTerms), 1.0,
                           if Attested(e) then 1.0 else 0.0);
    return Some(Evaluation(evaluatedAt, |cases|, rareCases, results, Floored(metrics, t), e));
  }

  method MeanOf(ghost p: Policy, ghost cases: seq<Example>, labels: seq<Label>, correct: map<Label, nat>,
                total: map<Label, nat>)
      returns (mean: real)
    requires labels != [] && forall l :: l in labels ==> CountOf(cases, l) > 0
    requires forall l :: l in labels ==> l in correct && l in total
    requires forall l :: l in labels ==> total[l] == CountOf(cases, l) && correct[l] == RightOf(p, cases, l)
    ensures mean == MeanRecall(p, cases, labels)
  {
    var sum := 0.0;
    for i := 0 to |labels|
      invariant sum == RecallSum(p, cases, labels[..i])
    {
      assert labels[..i + 1][..i] == labels[..i];
      sum := sum + Over(correct[labels[i]] as real, total[labels[i]] as real);
    }
    assert labels[..|labels|] == labels;
    return Over(sum, |labels| as real);
  }

  method SumCases(ghost cases: seq<Example>, labels: seq<Label>, total: map<Label, nat>) returns (sum: nat)
    requires forall l :: l in labels ==> l in total && total[l] == CountOf(cases, l)
    ensures sum == CaseSum(cases, labels)
  {
    sum := 0;
    for i := 0 to |labels|
      invariant sum == CaseSum(cases, labels[..i])
    {
      assert labels[..i + 1][..i] == labels[..i];
      sum := sum + total[labels[i]];
    }
    assert labels[..|labels|] == labels;
  }

  method EvidenceFaithfulness(examples: seq<Example>, p: Policy) returns (r: real)
    ensures r == Faithfulness(examples, p)
  {
    if p.rules == [] {
      return 0.0;
    }
    var valid := 0;
    for i := 0 to |p.rules|
      invariant valid == SupportedCount(examples, p.rules[..i])
    {
      assert p.rules[..i + 1][..i] == p.rules[..i];
      if WellSupported(examples, p.rules[i]) {
        valid := valid + 1;
      }
    }
    assert p.rules[..|p.rules|] == p.rules;
    return Over(valid as real, |p.rules| as real);
  }

  // ---------------------------------------------------------------------------------------------
  // Scores.

  lemma {:induction false} RightWithinCount(p: Policy, cases: seq<Example>, target: Label)
    ensures RightOf(p, cases, target) <= CountOf(cases, target)
    ensures RightOf(p, cases, target) == CountOf(cases, target)
            <==> forall i :: 0 <= i < |cases| && cases[i].target == target ==> Right(p, cases[i])
  {
    if cases != [] {
      var front := cases[..|cases| - 1];
      RightWithinCount(p, front, target);
      assert forall i :: 0 <= i < |front| ==> front[i] == cases[i];
    }
  }

  predicate AllRightOf(p: Policy, cases: seq<Example>, target: Label) {
    forall i :: 0 <= i < |cases| && cases[i].target == target ==> Right(p, cases[i])
  }

  lemma RecallInUnit(p: Policy, cases: seq<Example>, target: Label)
    requires CountOf(cases, target) > 0
    ensures 0.0 <= Recall(p, cases, target) <= 1.0
    ensures Recall(p, cases, target) == 1.0 <==> AllRightOf(p, cases, target)
  {
    RightWithinCount(p, cases, target);
    var n, d := RightOf(p, cases, target) as real, CountOf(cases, target) as real;
    OverPositive(n, d);
    OverTimes(n, d);
    OverItself(d);
    TimesOne(d);
  }

  lemma {:induction false} RecallSumBounds(p: Policy, cases: seq<Example>, labels: seq<Label>)
    requires forall l :: l in labels ==> CountOf(cases, l) > 0
    ensures 0.0 <= RecallSum(p, cases, labels) <= |labels| as real
    ensures RecallSum(p, cases, labels) == |labels| as real <==> forall l :: l in labels ==> AllRightOf(p, cases, l)
  {
    if labels != [] {
      var front, last := labels[..|labels| - 1], labels[|labels| - 1];
      assert labels == front + [last];
      RecallSumBounds(p, cases, front);
      RecallInUnit(p, cases, last);
    }
  }

  /** A mean recall lies between 0 and 1, and is 1 exactly when every case of the labels is right. */
  lemma MeanRecallInUnit(p: Policy, cases: seq<Example>, labels: seq<Label>)
    requires labels != [] && forall l :: l in labels ==> CountOf(cases, l) > 0
    ensures 0.0 <= MeanRecall(p, cases, labels) <= 1.0
    ensures MeanRecall(p, cases, labels) == 1.0 <==> forall l :: l in labels ==> AllRightOf(p, cases, l)
  {
    RecallSumBounds(p, cases, labels);
    var s, n := RecallSum(p, cases, labels), |labels| as real;
    OverPositive(s, n);
    OverTimes(s, n);
    OverItself(n);
    TimesOne(n);
  }

  /** Balanced accuracy is 1 exactly when every hidden case is right. */
  lemma PerfectExactlyWhenAllRight(t: Task, p: Policy, cases: seq<Example>)
    requires ValidTask(t) && ValidSuite(cases, t)
    ensures MeanRecall(p, cases, t.labels) == 1.0 <==> forall i :: 0 <= i < |cases| ==> Right(p, cases[i])
  {
    MeanRecallInUnit(p, cases, t.labels);
    if forall l :: l in t.labels ==> AllRightOf(p, cases, l) {
      forall i | 0 <= i < |cases|
        ensures Right(p, cases[i])
      {
        assert AllRightOf(p, cases, cases[i].target);
      }
    }
  }

  lemma {:induction false} DefaultOnly(p: Policy, cases: seq<Example>, target: Label)
    requires p.rules == []
    ensures RightOf(p, cases, target) == if target == p.defaultLabel then CountOf(cases, target) else 0
  {
    if cases != [] {
      DefaultOnly(p, cases[..|cases| - 1], target);
    }
  }

  lemma {:induction false} DefaultRecalls(p: Policy, cases: seq<Example>, labels: seq<Label>)
    requires p.rules == [] && Ascending(labels) && forall l :: l in labels ==> CountOf(cases, l) > 0
    ensures RecallSum(p, cases, labels) == if p.defaultLabel in labels then 1.0 else 0.0
  {
    if labels != [] {
      var front, last := labels[..|labels| - 1], labels[|labels| - 1];
      assert labels == front + [last];
      DefaultRecalls(p, cases, front);
      DefaultOnly(p, cases, last);
      OverItself(CountOf(cases, last) as real);
      LastIsNew(labels);
    }
  }

  /** A policy without rules has balanced accuracy 1 over the number of labels, whatever the mix of cases. */
  lemma RuleFreeBalancedAccuracy(t: Task, p: Policy, cases: seq<Example>)
    requires ValidTask(t) && ValidSuite(cases, t) && p.rules == [] && p.defaultLabel in t.labels
    ensures MeanRecall(p, cases, t.labels) == Over(1.0, |t.labels| as real) <= 0.5
  {
    DefaultRecalls(p, cases, t.labels);
    Halves(|t.labels|);
  }

  lemma Halves(n: nat)
    requires n >= 2
    ensures Over(1.0, n as real) <= 0.5
  {
  }

  predicate InUnit(x: real) {
    0.0 <= x <= 1.0
  }

  predicate MetricsInUnit(m: Metrics) {
    InUnit(m.balanced) && InUnit(m.rare) && InUnit(m.faithfulness) && InUnit(m.compactness) && InUnit(m.signature)
    && InUnit(m.attested)
  }

  lemma ScoresInUnit(t: Task, p: Policy, cases: seq<Example>, e: Execution)
    requires ValidTask(t) && ValidSuite(cases, t)
    ensures MetricsInUnit(Scored(t, p, cases, e))
  {
    MeanRecallInUnit(p, cases, t.labels);
    MeanRecallInUnit(p, cases, t.rareLabels);
    OverPositive((if TermCount(p.rules) < t.maxTerms then t.maxTerms - TermCount(p.rules) else 0) as real,
                 t.maxTerms as real);
    if p.rules != [] {
      OverPositive(SupportedCount(t.examples, p.rules) as real, |p.rules| as real);
    }
  }

  /** A policy below either floor earns nothing but its balanced accuracy; above both it keeps what it has. */
  lemma FloorsZeroTheRest(t: Task, p: Policy, cases: seq<Example>, e: Execution)
    requires ValidTask(t) && ValidSuite(cases, t)
    ensures var m := Scored(t, p, cases, e);
            var (balanced, rare) := (MeanRecall(p, cases, t.labels), MeanRecall(p, cases, t.rareLabels));
            && m.balanced == balanced && m.signature == 1.0
            && m.attested == (if e.Receipt? && e.attested then 1.0 else 0.0)
            && if balanced < t.qualityFloor || rare < t.rareFloor
               then m.rare == m.faithfulness == m.compactness == 0.0
               else m.rare == rare && m.faithfulness == Faithfulness(t.examples, p)
                    && m.compactness == Compactness(p, t.maxTerms)
  {
  }

  // ---------------------------------------------------------------------------------------------
  // The reference learner's evidence.

  lemma {:induction false} FindById(examples: seq<Example>, i: nat)
    requires Ascending(ExampleIds(examples)) && i < |examples|
    ensures Find(examples, examples[i].id) == Some(examples[i])
  {
    var n := |examples| - 1;
    if i < n {
      if examples[n].id == examples[i].id {
        AscendingAreDistinct(ExampleIds(examples), i, n);
      }
      FrontAscends(examples);
      FindById(examples[..n], i);
    }
  }

  lemma CandidateIsSupported(t: Task, i: nat, id: string)
    requires ValidTask(t) && i < |t.examples|
    ensures WellSupported(t.examples, Rule(id, CandidateOf(t.examples[i], t.examples, t.featureNames)))
  {
    var c := CandidateOf(t.examples[i], t.examples, t.featureNames);
    SupportingIds(t.examples, c.conditions, c.decision);
    GeneralizeShape(t.examples[i], t.examples, t.featureNames, |t.featureNames|);
    assert t.examples[i].id in c.support;
    forall id | id in c.support
      ensures Supports(t.examples, Rule("", c), id)
    {
      var k :| 0 <= k < |t.examples| && t.examples[k].id == id && t.examples[k].target == c.decision
               && Matches(c.conditions, t.examples[k].features);
      FindById(t.examples, k);
    }
    assert forall s :: s in c.support ==> Supports(t.examples, Rule("", c), s) && Supports(t.examples, Rule(id, c), s);
  }

  lemma {:induction false} AllSupported(examples: seq<Example>, rules: seq<Rule>)
    requires forall r :: r in rules ==> WellSupported(examples, r)
    ensures SupportedCount(examples, rules) == |rules|
  {
    if rules != [] {
      assert rules[|rules| - 1] in rules;
      AllSupported(examples, rules[..|rules| - 1]);
    }
  }

  /** The reference learner's rules are all fully supported, consistent examples or not. */
  lemma InducedIsFaithful(t: Task, text: Canonical)
    requires ValidTask(t) && Induced(t, text).Some?
    ensures Faithfulness(t.examples, Induced(t, text).value) == 1.0
  {
    var rules := RulesOf(t, text);
    forall r | r in rules
      ensures WellSupported(t.examples, r)
    {
      var i := RuleFrom(t, text, r);
      CandidateIsSupported(t, i, r.id);
    }
    var first := RuleFor(t, text, 0);
    AllSupported(t.examples, rules);
    OverItself(|rules| as real);
  }

  // ---------------------------------------------------------------------------------------------
  // Replay.

  datatype Signed = Signed(evaluation: Evaluation, id: Digest)

  type EvaluationHash = Evaluation -> Digest

  predicate ValidBody(v: Evaluation) {
    v.caseCount > 0 && v.rareCaseCount > 0 && MetricsInUnit(v.metrics)
  }

  /** `None` where signing refuses the document. */
  function Sign(v: Evaluation, hash: EvaluationHash): Option<Signed> {
    if !ValidBody(v) then None else Some(Signed(v, hash(v)))
  }

  /** A signed evaluation is accepted when its id is right and evaluating again gives the same document. */
  function VerifyEvaluation(s: Signed, t: Task, p: Policy, cases: seq<Example>, receipt: Execution,
                            hash: EvaluationHash): bool
    requires ValidTask(t)
  {
    ValidBody(s.evaluation) && s.id == hash(s.evaluation)
    && Evaluate(t, p, cases, s.evaluation.evaluatedAt, receipt) == Some(s.evaluation)
  }

  lemma {:induction false} CasesCounted(cases: seq<Example>, labels: seq<Label>)
    requires labels != [] && forall l :: l in labels ==> CountOf(cases, l) > 0
    ensures CaseSum(cases, labels) > 0
  {
    if |labels| > 1 {
      CasesCounted(cases, labels[..|labels| - 1]);
    }
  }

  /** Whatever the evaluator produces can be signed, with every metric between 0 and 1, and replay accepts
      exactly that document under its own id. */
  lemma ReplayAcceptsExactlyTheEvaluation(t: Task, p: Policy, cases: seq<Example>, at: int, receipt: Execution,
                                          hash: EvaluationHash, s: Signed)
    requires ValidTask(t) && ValidSuite(cases, t)
    ensures var v := Evaluate(t, p, cases, at, receipt).value;
            && MetricsInUnit(v.metrics) && Sign(v, hash) == Some(Signed(v, hash(v)))
            && (s.evaluation.evaluatedAt == at ==>
                  (VerifyEvaluation(s, t, p, cases, receipt, hash) <==> Sign(v, hash) == Some(s)))
  {
    ScoresInUnit(t, p, cases, receipt);
    CasesCounted(cases, t.rareLabels);
    assert |cases| > 0;
  }

  // ---------------------------------------------------------------------------------------------
  // What the counts and scores count.

  /** The cases of a label that the policy gets right. */
  function RightCases(p: Policy, cases: seq<Example>, target: Label): set<int> {
    set i | 0 <= i < |cases| && cases[i].target == target && Predict(p, cases[i].features) == target
  }

  lemma {:induction false} RightIsCount(p: Policy, cases: seq<Example>, target: Label)
    ensures RightOf(p, cases, target) == |RightCases(p, cases, target)|
  {
    if cases == [] {
      assert RightCases(p, cases, target) == {};
    } else {
      var n := |cases| - 1;
      var front := cases[..n];
      RightIsCount(p, front, target);
      assert RightCases(p, cases, target)
          == RightCases(p, front, target)
             + if cases[n].target == target && Predict(p, cases[n].features) == target then {n} else {};
    }
  }

  /** One result a case, in order: its id, the prediction, and whether that is its label. */
  lemma {:induction false} ResultsAreCases(p: Policy, cases: seq<Example>)
    ensures |Results(p, cases)| == |cases|
    ensures forall i :: 0 <= i < |cases| ==>
              var predicted := Predict(p, cases[i].features);
              Results(p, cases)[i] == Outcome(cases[i].id, predicted, predicted == cases[i].target)
  {
    if cases != [] {
      ResultsAreCases(p, cases[..|cases| - 1]);
    }
  }

  /** The recall of a label is the share of its cases that are right. */
  lemma RecallIsShare(p: Policy, cases: seq<Example>, target: Label)
    requires CountOf(cases, target) > 0
    ensures Recall(p, cases, target) * |Having(cases, target)| as real == |RightCases(p, cases, target)| as real
  {
    RightIsCount(p, cases, target);
    CountIsCount(cases, target);
    OverUndone(RightOf(p, cases, target) as real, CountOf(cases, target) as real);
  }

  lemma OverUndone(a: real, t: real)
    requires t != 0.0
    ensures Over(a, t) * t == a
  {
  }

  /** The recalls of some labels. */
  function Recalls(p: Policy, cases: seq<Example>, labels: seq<Label>): map<Label, real>
    requires forall l :: l in labels ==> CountOf(cases, l) > 0
  {
    map l | l in labels :: Recall(p, cases, l)
  }

  lemma LastIsNew(labels: seq<Label>)
    requires labels != [] && Ascending(labels)
    ensures labels[|labels| - 1] !in labels[..|labels| - 1] && Ascending(labels[..|labels| - 1])
  {
    var front, last := labels[..|labels| - 1], labels[|labels| - 1];
    if last in front {
      var i :| 0 <= i < |front| && labels[i] == last;
      AscendingAreDistinct(labels, i, |labels| - 1);
    }
  }

  function Members(labels: seq<Label>): set<Label> {
    set l | l in labels
  }

  lemma {:induction false} SumOfRecalls(labels: seq<Label>, recalls: map<Label, real>)
    requires Ascending(labels) && forall l :: l in labels ==> l in recalls
    ensures Total(labels, recalls) == SumOf(Members(labels), recalls)
  {
    if labels != [] {
      var front, last := labels[..|labels| - 1], labels[|labels| - 1];
      assert labels == front + [last];
      LastIsNew(labels);
      SumOfRecalls(front, recalls);
      assert Members(labels) == Members(front) + {last};
      SumAdd(Members(front), recalls, last);
    }
  }

  function Total(labels: seq<Label>, recalls: map<Label, real>): real
    requires forall l :: l in labels ==> l in recalls
  {
    if labels == [] then 0.0 else Total(labels[..|labels| - 1], recalls) + recalls[labels[|labels| - 1]]
  }

  lemma {:induction false} RecallSumIsTotal(p: Policy, cases: seq<Example>, labels: seq<Label>,
                                           recalls: map<Label, real>)
    requires forall l :: l in labels ==> CountOf(cases, l) > 0 && l in recalls && recalls[l] == Recall(p, cases, l)
    ensures RecallSum(p, cases, labels) == Total(labels, recalls)
  {
    if labels != [] {
      RecallSumIsTotal(p, cases, labels[..|labels| - 1], recalls);
    }
  }

  lemma MeanTimes(p: Policy, cases: seq<Example>, labels: seq<Label>, n: real)
    requires labels != [] && n == |labels| as real && forall l :: l in labels ==> CountOf(cases, l) > 0
    ensures MeanRecall(p, cases, labels) * n == RecallSum(p, cases, labels)
  {
    OverUndone(RecallSum(p, cases, labels), n);
  }

  /** A mean recall, times the number of labels, is the sum of their recalls, every label counting the same. */
  lemma MeanRecallIsMean(p: Policy, cases: seq<Example>, labels: seq<Label>, n: real)
    requires labels != [] && Ascending(labels) && forall l :: l in labels ==> CountOf(cases, l) > 0
    requires n == |labels| as real
    ensures Recalls(p, cases, labels).Keys == Members(labels)
    ensures MeanRecall(p, cases, labels) * n == SumOf(Members(labels), Recalls(p, cases, labels))
  {
    var recalls := Recalls(p, cases, labels);
    RecallSumIsTotal(p, cases, labels, recalls);
    SumOfRecalls(labels, recalls);
    MeanTimes(p, cases, labels, n);
  }

  /** The cases with one of some labels. */
  function CasesOf(cases: seq<Example>, labels: seq<Label>): set<int> {
    set i | 0 <= i < |cases| && cases[i].target in labels
  }

  lemma {:induction false} CaseSumIsCount(cases: seq<Example>, labels: seq<Label>)
    requires Ascending(labels)
    ensures CaseSum(cases, labels) == |CasesOf(cases, labels)|
  {
    if labels == [] {
      assert CasesOf(cases, labels) == {};
    } else {
      var front, last := labels[..|labels| - 1], labels[|labels| - 1];
      assert labels == front + [last];
      CaseSumIsCount(cases, front);
      CountIsCount(cases, last);
      LastIsNew(labels);
      assert CasesOf(cases, labels) == CasesOf(cases, front) + Having(cases, last);
      assert CasesOf(cases, front) !! Having(cases, last);
    }
  }

  /** What each rule costs: one term for itself and one for every condition. */
  function Terms(rules: seq<Rule>): map<int, real> {
    map i | 0 <= i < |rules| :: 1.0 + |rules[i].body.conditions| as real
  }

  lemma {:induction false} TermsAdd(rules: seq<Rule>)
    ensures TermCount(rules) as real == SumOf(Terms(rules).Keys, Terms(rules))
  {
    if rules != [] {
      var n := |rules| - 1;
      var front := rules[..n];
      TermsAdd(front);
      assert Terms(rules).Keys == Terms(front).Keys + {n};
      SumAgree(Terms(front).Keys, Terms(front), Terms(rules));
      SumAdd(Terms(front).Keys, Terms(rules), n);
    }
  }

  /** Compactness is the share of the allowed terms that is left, and nothing when none is. */
  lemma CompactnessIsShareLeft(p: Policy, maxTerms: nat, n: real)
    requires maxTerms > 0 && n == maxTerms as real
    ensures var left := n - SumOf(Terms(p.rules).Keys, Terms(p.rules));
            Compactness(p, maxTerms) * n == if left >= 0.0 then left else 0.0
  {
    TermsAdd(p.rules);
    OverUndone((if TermCount(p.rules) < maxTerms then maxTerms - TermCount(p.rules) else 0) as real, n);
  }

  lemma {:induction false} FindExactly(examples: seq<Example>, id: string)
    requires Ascending(ExampleIds(examples))
    ensures Find(examples, id).Some? <==> exists i :: 0 <= i < |examples| && examples[i].id == id
    ensures forall i :: 0 <= i < |examples| && examples[i].id == id ==> Find(examples, id) == Some(examples[i])
  {
    forall i | 0 <= i < |examples| && examples[i].id == id
      ensures Find(examples, id) == Some(examples[i])
    {
      FindById(examples, i);
    }
    if Find(examples, id).Some? {
      FoundIsListed(examples, id);
    }
  }

  lemma {:induction false} FoundIsListed(examples: seq<Example>, id: string)
    requires Find(examples, id).Some?
    ensures exists i :: 0 <= i < |examples| && examples[i].id == id
  {
    var n := |examples| - 1;
    if examples[n].id != id {
      FoundIsListed(examples[..n], id);
      var i :| 0 <= i < n && examples[..n][i].id == id;
      assert examples[i].id == id;
    }
  }

  /** Example `id` is listed, has the label the rule decides for, and fires it. */
  predicate Backs(examples: seq<Example>, r: Rule, id: string) {
    exists i :: 0 <= i < |examples| && examples[i].id == id && examples[i].target == r.body.decision
                && Fires(r.body.conditions, examples[i].features)
  }

  /** A rule counts as supported exactly when it names support and every example it names backs it. */
  lemma SupportedExactly(examples: seq<Example>, r: Rule)
    requires Ascending(ExampleIds(examples))
    ensures WellSupported(examples, r) <==>
              |r.body.support| > 0 && forall k :: 0 <= k < |r.body.support| ==> Backs(examples, r, r.body.support[k])
  {
    forall id
      ensures Supports(examples, r, id) <==> Backs(examples, r, id)
    {
      SupportsExactly(examples, r, id);
    }
    if forall k :: 0 <= k < |r.body.support| ==> Backs(examples, r, r.body.support[k]) {
      forall id | id in r.body.support
        ensures Backs(examples, r, id)
      {
        var k :| 0 <= k < |r.body.support| && r.body.support[k] == id;
      }
    }
  }

  lemma SupportsExactly(examples: seq<Example>, r: Rule, id: string)
    requires Ascending(ExampleIds(examples))
    ensures Supports(examples, r, id) <==> Backs(examples, r, id)
  {
    FindExactly(examples, id);
    forall i | 0 <= i < |examples|
      ensures Matches(r.body.conditions, examples[i].features) <==> Fires(r.body.conditions, examples[i].features)
    {
      FiresExactly(r.body.conditions, examples[i].features);
    }
  }

  function SupportedRules(examples: seq<Example>, rules: seq<Rule>): set<int> {
    set i | 0 <= i < |rules| && WellSupported(examples, rules[i])
  }

  lemma {:induction false} SupportedIsCount(examples: seq<Example>, rules: seq<Rule>)
    ensures SupportedCount(examples, rules) == |SupportedRules(examples, rules)|
  {
    if rules == [] {
      assert SupportedRules(examples, rules) == {};
    } else {
      var n := |rules| - 1;
      SupportedIsCount(examples, rules[..n]);
      assert SupportedRules(examples, rules)
          == SupportedRules(examples, rules[..n]) + if WellSupported(examples, rules[n]) then {n} else {};
    }
  }

  /** Faithfulness is the share of the rules that are supported, and nothing without rules. */
  lemma FaithfulnessIsShare(examples: seq<Example>, p: Policy)
    ensures p.rules == [] ==> Faithfulness(examples, p) == 0.0
    ensures Faithfulness(examples, p) * |p.rules| as real == |SupportedRules(examples, p.rules)| as real
  {
    SupportedIsCount(examples, p.rules);
    if p.rules != [] {
      OverUndone(SupportedCount(examples, p.rules) as real, |p.rules| as real);
    }
  }

  /** A suite is scored exactly when it has between as many cases as there are labels and 4096, in order of distinct
      ids, each with exactly the named features and one of the labels, and every label occurs. */
  lemma EvaluatedExactly(t: Task, p: Policy, cases: seq<Example>, at: int, e: Execution)
    requires ValidTask(t)
    ensures var r := Evaluate(t, p, cases, at, e);
            && (r.Some? <==>
                && |t.labels| <= |cases| <= 4096
                && (forall i :: 0 <= i < |cases| ==>
                      && (forall f :: f in cases[i].features <==> f in t.featureNames)
                      && cases[i].target in t.labels)
                && (forall i, j :: 0 <= i < j < |cases| ==> Before(cases[i].id, cases[j].id))
                && (forall l :: l in t.labels ==> exists i :: 0 <= i < |cases| && cases[i].target == l))
            && (r.Some? ==>
                  && r.value.evaluatedAt == at && r.value.execution == e
                  && r.value.caseCount == |cases| && r.value.rareCaseCount == |CasesOf(cases, t.rareLabels)|
                  && r.value.results == Results(p, cases) && r.value.metrics == Scored(t, p, cases, e))
  {
    SuiteExactly(t, cases);
    CaseSumIsCount(cases, t.rareLabels);
  }

  lemma SuiteExactly(t: Task, cases: seq<Example>)
    ensures ValidSuite(cases, t) <==>
              && |t.labels| <= |cases| <= 4096
              && (forall i :: 0 <= i < |cases| ==>
                    && (forall f :: f in cases[i].features <==> f in t.featureNames)
                    && cases[i].target in t.labels)
              && (forall i, j :: 0 <= i < j < |cases| ==> Before(cases[i].id, cases[j].id))
              && (forall l :: l in t.labels ==> exists i :: 0 <= i < |cases| && cases[i].target == l)
  {
    forall l
      ensures CountOf(cases, l) > 0 <==> exists i :: 0 <= i < |cases| && cases[i].target == l
    {
      CountIsCount(cases, l);
      if i :| 0 <= i < |cases| && cases[i].target == l {
        assert i in Having(cases, l);
      }
      if CountOf(cases, l) > 0 {
        var i :| i in Having(cases, l);
      }
    }
    forall i | 0 <= i < |cases|
      ensures cases[i].features.Keys == Names(t.featureNames) <==>
                forall f :: f in cases[i].features <==> f in t.featureNames
    {
      KeysAreNames(cases[i].features, t.featureNames);
    }
    assert forall i :: 0 <= i < |cases| ==> ExampleIds(cases)[i] == cases[i].id;
  }

  lemma KeysAreNames(features: Features, names: seq<string>)
    ensures features.Keys == Names(names) <==> forall f :: f in features <==> f in names
  {
    forall f
      ensures f in names <==> f in Names(names)
    {
      if f in names {
        var i :| 0 <= i < |names| && names[i] == f;
        assert names[i] in Names(names);
      }
    }
    if forall f :: f in features <==> f in names {
      assert features.Keys == Names(names);
    }
  }
}
