/** How a class's report or the local round becomes a decision, and what the composed weights are in terms
    of the scores behind them (`cathedral_thin/score_classes.py`). Arithmetic is exact. */
module ClassDecisions {
  import opened Prelude
  import opened Sums
  import opened Collapse
  import opened Composition

  // ---------------------------------------------------------------------------------------------
  // Assigned scores.

  datatype Assignment = Assignment(
    metric: Option<string>, binary: bool, cap: Option<real>, requiredReasons: set<string>, requiredKinds: set<string>,
    requireEvidence: bool)

  datatype ScoreEntry = ScoreEntry(
    miner: Hotkey, metrics: map<string, real>, asserted: Option<real>, reasons: set<string>, evidence: seq<string>)

  datatype DecisionError =
    | LacksScore | NegativeAssigned | LacksEvidence | LacksReasons | LacksKinds | NoPositiveScore | Collapsing

  function Value(e: ScoreEntry, a: Assignment): Option<real> {
    match a.metric
    case Some(m) => if m in e.metrics then Some(e.metrics[m]) else None
    case None => e.asserted
  }

  /** The assigned metric or the asserted score, capped, and then made 0 or 1 if the transform is binary. */
  function AssignmentScore(e: ScoreEntry, a: Assignment): Result<real, DecisionError> {
    match Value(e, a)
    case None => Err(LacksScore)
    case Some(v) =>
      var capped := if a.cap.Some? && a.cap.value < v then a.cap.value else v;
      var score := if !a.binary then capped else if capped > 0.0 then 1.0 else 0.0;
      if score < 0.0 then Err(NegativeAssigned) else Ok(score)
  }

  function Kinds(e: ScoreEntry): set<string> {
    set i | 0 <= i < |e.evidence| :: e.evidence[i]
  }

  /** What a positive score must come with. */
  predicate Qualified(e: ScoreEntry, a: Assignment) {
    (a.requireEvidence ==> e.evidence != []) && a.requiredReasons <= e.reasons && a.requiredKinds <= Kinds(e)
  }

  predicate EntryAccepted(e: ScoreEntry, a: Assignment) {
    var score := AssignmentScore(e, a);
    score.Ok? && (score.value > 0.0 ==> Qualified(e, a))
  }

  predicate AllEntriesAccepted(entries: seq<ScoreEntry>, a: Assignment) {
    forall i :: 0 <= i < |entries| ==> EntryAccepted(entries[i], a)
  }

  /** The raw scores of the entries whose miner is in the metagraph. */
  function RawScores(entries: seq<ScoreEntry>, a: Assignment, coldkeyOf: map<Hotkey, Coldkey>): Scores
    requires AllEntriesAccepted(entries, a)
  {
    if entries == [] then map[]
    else
      var front, e := RawScores(entries[..|entries| - 1], a, coldkeyOf), entries[|entries| - 1];
      assert EntryAccepted(e, a);
      if e.miner !in coldkeyOf then front else front[e.miner := AssignmentScore(e, a).value]
  }

  method ExternalClassDecision(id: ClassId, a: Assignment, entries: seq<ScoreEntry>, coldkeyOf: map<Hotkey, Coldkey>)
      returns (r: Result<Decision, DecisionError>)
    ensures r.Ok? <==> AllEntriesAccepted(entries, a) && CollapseAccepts(RawScores(entries, a, coldkeyOf), coldkeyOf)
                       && Positive(RawScores(entries, a, coldkeyOf)) != {}
    ensures r.Ok? ==> r.value == Decision(id, External, Weights(RawScores(entries, a, coldkeyOf), coldkeyOf))
    ensures r == Err(NoPositiveScore) <==>
              AllEntriesAccepted(entries, a) && CollapseAccepts(RawScores(entries, a, coldkeyOf), coldkeyOf)
              && Positive(RawScores(entries, a, coldkeyOf)) == {}
  {
    var rawScores: Scores := map[];
    for i := 0 to |entries|
      invariant AllEntriesAccepted(entries[..i], a) && rawScores == RawScores(entries[..i], a, coldkeyOf)
    {
      assert entries[..i + 1][..i] == entries[..i];
      var e := entries[i];
      var score := AssignmentScore(e, a);
      if score.Err? {
        return Err(score.error);
      }
      if score.value > 0.0 && a.requireEvidence && e.evidence == [] {
        return Err(LacksEvidence);
      }
      if score.value > 0.0 && !(a.requiredReasons <= e.reasons) {
        return Err(LacksReasons);
      }
      if score.value > 0.0 && !(a.requiredKinds <= Kinds(e)) {
        return Err(LacksKinds);
      }
      if e.miner !in coldkeyOf {
        continue;
      }
      rawScores := rawScores[e.miner := score.value];
    }
    assert entries[..|entries|] == entries;
    var normalized := ColdkeyCollapsedWeights(rawScores, coldkeyOf);
    if normalized.Err? {
      return Err(Collapsing);
    }
    WeightsSumToOne(rawScores, coldkeyOf);
    if normalized.value == map[] {
      assert Positive(rawScores) == {};
      return Err(NoPositiveScore);
    }
    return Ok(Decision(id, External, normalized.value));
  }

  method LocalClassDecision(id: ClassId, scores: Scores, coldkeyOf: map<Hotkey, Coldkey>)
      returns (r: Result<Decision, DecisionError>)
    ensures r.Ok? <==> CollapseAccepts(scores, coldkeyOf)
    ensures r.Ok? ==> r.value == Decision(id, LocalSat, Weights(scores, coldkeyOf))
  {
    var normalized := ColdkeyCollapsedWeights(scores, coldkeyOf);
    if normalized.Err? {
      return Err(Collapsing);
    }
    return Ok(Decision(id, LocalSat, normalized.value));
  }

  /** Accepted entries always collapse when every coldkey has a name. */
  lemma {:induction false} RawScoresCollapse(entries: seq<ScoreEntry>, a: Assignment, coldkeyOf: map<Hotkey, Coldkey>)
    requires AllEntriesAccepted(entries, a) && forall h :: h in coldkeyOf ==> coldkeyOf[h] != ""
    ensures CollapseAccepts(RawScores(entries, a, coldkeyOf), coldkeyOf)
  {
    if entries != [] {
      RawScoresCollapse(entries[..|entries| - 1], a, coldkeyOf);
      assert EntryAccepted(entries[|entries| - 1], a);
    }
  }

  predicate DistinctMiners(entries: seq<ScoreEntry>) {
    forall i, j :: 0 <= i < j < |entries| ==> entries[i].miner != entries[j].miner
  }

  /** A verified report lists each miner once. A class then pays exactly the listed members whose assigned
      value, capped, is positive, and each of them brought the evidence and reasons the class asks for. */
  lemma {:induction false} OnlyQualifiedScores(entries: seq<ScoreEntry>, a: Assignment,
                                               coldkeyOf: map<Hotkey, Coldkey>, h: Hotkey)
    requires AllEntriesAccepted(entries, a) && DistinctMiners(entries)
    ensures h in Positive(RawScores(entries, a, coldkeyOf)) <==>
              h in coldkeyOf
              && exists i :: 0 <= i < |entries| && entries[i].miner == h && AssignmentScore(entries[i], a).value > 0.0
                             && Qualified(entries[i], a)
    ensures forall i :: 0 <= i < |entries| && entries[i].miner == h && h in coldkeyOf ==>
              h in RawScores(entries, a, coldkeyOf)
              && RawScores(entries, a, coldkeyOf)[h] == AssignmentScore(entries[i], a).value
    ensures (forall i :: 0 <= i < |entries| ==> entries[i].miner != h) ==> h !in RawScores(entries, a, coldkeyOf)
  {
    if entries != [] {
      var front, e := entries[..|entries| - 1], entries[|entries| - 1];
      OnlyQualifiedScores(front, a, coldkeyOf, h);
      assert entries == front + [e];
      assert EntryAccepted(e, a);
      assert forall i :: 0 <= i < |front| ==> entries[i] == front[i];
    }
  }

  /** The assigned value is the named metric, or the asserted score when none is named. */
  lemma AssignedValueIs(e: ScoreEntry, a: Assignment)
    ensures a.metric.Some? && a.metric.value in e.metrics ==> Value(e, a) == Some(e.metrics[a.metric.value])
    ensures a.metric.Some? && a.metric.value !in e.metrics ==> Value(e, a) == None
    ensures a.metric.None? ==> Value(e, a) == e.asserted
    ensures AssignmentScore(e, a) == Err(LacksScore) <==> Value(e, a).None?
    ensures a.cap.Some? && a.cap.value > 0.0 ==>
              (AssignmentScore(e, a) == Err(NegativeAssigned) <==>
                 Value(e, a).Some? && Value(e, a).value < 0.0 && !a.binary)
  {
  }

  /** A positive score is accepted exactly with some evidence where that is asked for, and with every reason and kind
      of evidence asked for; a score of zero needs none. */
  lemma AcceptedExactly(e: ScoreEntry, a: Assignment)
    ensures EntryAccepted(e, a) <==>
              && AssignmentScore(e, a).Ok?
              && (AssignmentScore(e, a).value > 0.0 ==>
                    && (a.requireEvidence ==> |e.evidence| > 0)
                    && (forall reason :: reason in a.requiredReasons ==> reason in e.reasons)
                    && forall kind :: kind in a.requiredKinds ==>
                         exists i :: 0 <= i < |e.evidence| && e.evidence[i] == kind)
  {
  }

  /** A cap bounds the score, and a binary transform leaves only whether there is one. */
  lemma AssignedScoreBounds(e: ScoreEntry, a: Assignment)
    requires AssignmentScore(e, a).Ok? && (a.cap.Some? ==> a.cap.value > 0.0)
    ensures var s := AssignmentScore(e, a).value;
            && s >= 0.0
            && (a.binary ==> (s == 1.0 || s == 0.0) && (s == 1.0 <==> Value(e, a).value > 0.0))
            && (!a.binary && a.cap.Some? ==> s <= a.cap.value)
            && (!a.binary && (a.cap.None? || Value(e, a).value <= a.cap.value) ==> s == Value(e, a).value)
  {
  }

  // ---------------------------------------------------------------------------------------------
  // Decisions built this way compose.

  /** The decision on some scores, whatever class they come from. */
  ghost predicate BuiltFrom(d: Decision, scores: Scores, coldkeyOf: map<Hotkey, Coldkey>) {
    CollapseAccepts(scores, coldkeyOf) && d.weights == Weights(scores, coldkeyOf)
  }

  ghost predicate AllBuilt(byId: map<ClassId, Decision>, scoresOf: map<ClassId, Scores>,
                           coldkeyOf: map<Hotkey, Coldkey>)
  {
    scoresOf.Keys == byId.Keys && forall id :: id in byId ==> BuiltFrom(byId[id], scoresOf[id], coldkeyOf)
  }

  lemma BuiltIsNormalized(d: Decision, scores: Scores, coldkeyOf: map<Hotkey, Coldkey>)
    requires BuiltFrom(d, scores, coldkeyOf)
    ensures ClassTotal(d) == 1.0 && d.weights.Keys == Positive(scores)
    ensures forall h :: h in d.weights ==> d.weights[h] > 0.0
  {
    WeightsSumToOne(scores, coldkeyOf);
    if Positive(scores) == {} {
      assert d.weights == map[];
    }
  }

  /** Built decisions of the right kinds are always accepted, unless the burn destination has earned
      something or a class is empty without one. */
  lemma BuiltDecisionsAreAccepted(p: Policy, byId: map<ClassId, Decision>, scoresOf: map<ClassId, Scores>,
                                  coldkeyOf: map<Hotkey, Coldkey>)
    requires Covers(byId, p.classes) && AllBuilt(byId, scoresOf, coldkeyOf)
    requires forall i :: 0 <= i < |p.classes| ==> byId[p.classes[i].id].kind == p.classes[i].kind
    ensures ExactlyNormalized(byId) && WeightsNonNegative(byId)
    ensures AllAccepted(p.classes, byId, p.burn) <==>
              forall i :: 0 <= i < |p.classes| ==>
                var scores := scoresOf[p.classes[i].id];
                if p.burn.Some? then p.burn.value !in Positive(scores) else Positive(scores) != {}
  {
    forall id | id in byId
      ensures ClassTotal(byId[id]) == 1.0 && byId[id].weights.Keys == Positive(scoresOf[id])
      ensures byId[id].weights == map[] <==> Positive(scoresOf[id]) == {}
      ensures forall h :: h in byId[id].weights ==> byId[id].weights[h] > 0.0
    {
      BuiltIsNormalized(byId[id], scoresOf[id], coldkeyOf);
    }
    assert p.burn.Some? || p.burn.None?;
  }

  // ---------------------------------------------------------------------------------------------
  // What a coldkey receives in the end.

  ghost function HotkeysOf(coldkeyOf: map<Hotkey, Coldkey>, c: Coldkey): set<Hotkey> {
    set h | h in coldkeyOf && coldkeyOf[h] == c
  }

  /** A class's pay to a coldkey per unit of allocation. */
  ghost function ClassShare(scores: Scores, coldkeyOf: map<Hotkey, Coldkey>, c: Coldkey): real
    requires Attributed(scores, coldkeyOf)
  {
    if c in Coldkeys(scores, coldkeyOf) then Share(scores, coldkeyOf, c) else 0.0
  }

  /** A coldkey's pay over all classes, the burn destination's aside: each class's allocation times the
      coldkey's best score over the sum of all coldkeys' best scores in that class. */
  ghost function Earned(classes: seq<ClassPolicy>, scoresOf: map<ClassId, Scores>, coldkeyOf: map<Hotkey, Coldkey>,
                        c: Coldkey): real
    requires forall i :: 0 <= i < |classes| ==>
               classes[i].id in scoresOf && Attributed(scoresOf[classes[i].id], coldkeyOf)
  {
    if classes == [] then 0.0
    else
      var last := classes[|classes| - 1];
      Earned(classes[..|classes| - 1], scoresOf, coldkeyOf, c)
      + Times(last.allocation, ClassShare(scoresOf[last.id], coldkeyOf, c))
  }

  ghost function OwedTo(keys: set<Hotkey>, classes: seq<ClassPolicy>, byId: map<ClassId, Decision>,
                        burn: Option<Hotkey>): Scores
    requires Covers(byId, classes)
  {
    map h | h in keys :: Owed(classes, byId, burn, h)
  }

  /** An amount that goes to the burn destination, if it is one of some hotkeys. */
  function Burnt(burn: Option<Hotkey>, keys: set<Hotkey>, amount: real): real {
    if burn.Some? && burn.value in keys then amount else 0.0
  }

  lemma EmptyClassPays(c: ClassPolicy, d: Decision, burn: Option<Hotkey>, part: Scores)
    requires d.weights == map[] && forall h :: h in part ==> part[h] == Contribution(c, d, burn, h)
    ensures SumOf(part.Keys, part) == Burnt(burn, part.Keys, c.allocation)
  {
    if burn.Some? && burn.value in part {
      SumRemove(part.Keys, part, burn.value);
      SumZero(part.Keys - {burn.value}, part);
    } else {
      SumZero(part.Keys, part);
    }
  }

  lemma FullClassPays(c: ClassPolicy, d: Decision, scores: Scores, coldkeyOf: map<Hotkey, Coldkey>,
                      burn: Option<Hotkey>, coldkey: Coldkey, part: Scores)
    requires BuiltFrom(d, scores, coldkeyOf) && part.Keys == HotkeysOf(coldkeyOf, coldkey) && d.weights != map[]
    requires forall h :: h in part ==> part[h] == Contribution(c, d, burn, h)
    ensures SumOf(part.Keys, part) == Times(c.allocation, ClassShare(scores, coldkeyOf, coldkey))
  {
    var keys, group := part.Keys, Group(scores, coldkeyOf, coldkey);
    BuiltIsNormalized(d, scores, coldkeyOf);
    assert keys - group + group == keys by {
      assert group <= keys;
    }
    SumZero(keys - group, part);
    SumUnion(keys - group, group, part);
    if coldkey in Coldkeys(scores, coldkeyOf) {
      ColdkeyTotal(scores, coldkeyOf, coldkey);
      SumScale(group, d.weights, part, c.allocation);
    } else {
      assert group == {};
      TimesZero(c.allocation);
    }
  }

  lemma ClassPaysColdkey(c: ClassPolicy, d: Decision, scores: Scores, coldkeyOf: map<Hotkey, Coldkey>,
                         burn: Option<Hotkey>, coldkey: Coldkey, part: Scores)
    requires BuiltFrom(d, scores, coldkeyOf) && part.Keys == HotkeysOf(coldkeyOf, coldkey)
    requires forall h :: h in part ==> part[h] == Contribution(c, d, burn, h)
    ensures SumOf(part.Keys, part) ==
            Times(c.allocation, ClassShare(scores, coldkeyOf, coldkey))
            + if d.weights == map[] then Burnt(burn, part.Keys, c.allocation) else 0.0
  {
    BuiltIsNormalized(d, scores, coldkeyOf);
    if d.weights == map[] {
      EmptyClassPays(c, d, burn, part);
      assert Coldkeys(scores, coldkeyOf) == {};
      TimesZero(c.allocation);
    } else {
      FullClassPays(c, d, scores, coldkeyOf, burn, coldkey, part);
    }
  }

  lemma {:induction false} ColdkeyIsOwedItsShares(classes: seq<ClassPolicy>, byId: map<ClassId, Decision>,
                                                 scoresOf: map<ClassId, Scores>, coldkeyOf: map<Hotkey, Coldkey>,
                                                 burn: Option<Hotkey>, coldkey: Coldkey)
    requires Covers(byId, classes) && AllBuilt(byId, scoresOf, coldkeyOf)
    ensures var keys := HotkeysOf(coldkeyOf, coldkey);
            SumOf(keys, OwedTo(keys, classes, byId, burn))
            == Earned(classes, scoresOf, coldkeyOf, coldkey) + Burnt(burn, keys, EmptyAllocation(classes, byId))
  {
    var keys := HotkeysOf(coldkeyOf, coldkey);
    var all := OwedTo(keys, classes, byId, burn);
    if classes == [] {
      SumZero(keys, all);
    } else {
      var front, c := classes[..|classes| - 1], classes[|classes| - 1];
      ColdkeyIsOwedItsShares(front, byId, scoresOf, coldkeyOf, burn, coldkey);
      var part := map h | h in keys :: Contribution(c, byId[c.id], burn, h);
      ClassPaysColdkey(c, byId[c.id], scoresOf[c.id], coldkeyOf, burn, coldkey, part);
      SumOfSums(keys, OwedTo(keys, front, byId, burn), part, all);
    }
  }

  /** The composed weights of a coldkey's hotkeys add up to its shares of the classes' allocations, and to
      the allocations of the empty classes besides if the burn destination is one of them. */
  lemma ComposedPaysShares(p: Policy, byId: map<ClassId, Decision>, scoresOf: map<ClassId, Scores>,
                           coldkeyOf: map<Hotkey, Coldkey>, coldkey: Coldkey)
    requires ValidPolicy(p) && Covers(byId, p.classes) && AllBuilt(byId, scoresOf, coldkeyOf)
    requires AllAccepted(p.classes, byId, p.burn) && ExactlyNormalized(byId) && WeightsNonNegative(byId)
    ensures var (paid, keys) := (Composed(p, byId), HotkeysOf(coldkeyOf, coldkey));
            SumOf(keys * paid.Keys, paid)
            == Earned(p.classes, scoresOf, coldkeyOf, coldkey) + Burnt(p.burn, keys, EmptyAllocation(p.classes, byId))
  {
    var keys, paid := HotkeysOf(coldkeyOf, coldkey), Composed(p, byId);
    var owed := OwedTo(keys, p.classes, byId, p.burn);
    ColdkeyIsOwedItsShares(p.classes, byId, scoresOf, coldkeyOf, p.burn, coldkey);
    forall h | h in keys
      ensures h in paid ==> paid[h] == owed[h]
      ensures h !in paid ==> owed[h] == 0.0
    {
      ExactShares(p, byId, h);
      OwedNonNegative(p.classes, byId, p.burn, h);
      if h !in AllPayees(p.classes, byId, p.burn) {
        OwedOutsidePayees(p.classes, byId, p.burn, h);
      }
    }
    SumZero(keys - paid.Keys, owed);
    SumUnion(keys - paid.Keys, keys * paid.Keys, owed);
    assert keys - paid.Keys + keys * paid.Keys == keys;
    SumAgree(keys * paid.Keys, owed, paid);
  }

  lemma {:induction false} SameEmptyAllocation(classes: seq<ClassPolicy>, byId: map<ClassId, Decision>,
                                              scoresOf: map<ClassId, Scores>, larger: map<ClassId, Decision>,
                                              moreOf: map<ClassId, Scores>, coldkeyOf: map<Hotkey, Coldkey>)
    requires Covers(byId, classes) && Covers(larger, classes)
    requires AllBuilt(byId, scoresOf, coldkeyOf) && AllBuilt(larger, moreOf, coldkeyOf)
    requires forall i :: 0 <= i < |classes| ==> AddsNoBetter(scoresOf[classes[i].id], moreOf[classes[i].id], coldkeyOf)
    ensures EmptyAllocation(classes, larger) == EmptyAllocation(classes, byId)
  {
    if classes != [] {
      var c := classes[|classes| - 1];
      SameEmptyAllocation(classes[..|classes| - 1], byId, scoresOf, larger, moreOf, coldkeyOf);
      SameEmptiness(byId[c.id], scoresOf[c.id], larger[c.id], moreOf[c.id], coldkeyOf);
    }
  }

  lemma SameEmptiness(d: Decision, scores: Scores, larger: Decision, more: Scores, coldkeyOf: map<Hotkey, Coldkey>)
    requires BuiltFrom(d, scores, coldkeyOf) && BuiltFrom(larger, more, coldkeyOf)
             && AddsNoBetter(scores, more, coldkeyOf)
    ensures larger.weights == map[] <==> d.weights == map[]
  {
    SameColdkeys(scores, more, coldkeyOf);
    EmptyByColdkeys(d, scores, coldkeyOf);
    EmptyByColdkeys(larger, more, coldkeyOf);
  }

  lemma EmptyByColdkeys(d: Decision, scores: Scores, coldkeyOf: map<Hotkey, Coldkey>)
    requires BuiltFrom(d, scores, coldkeyOf)
    ensures d.weights == map[] <==> Coldkeys(scores, coldkeyOf) == {}
  {
    BuiltIsNormalized(d, scores, coldkeyOf);
    if Positive(scores) != {} {
      var h :| h in Positive(scores);
      assert h in d.weights && coldkeyOf[h] in Coldkeys(scores, coldkeyOf);
    }
  }

  lemma {:induction false} ExtraHotkeysEarnNothing(classes: seq<ClassPolicy>, scoresOf: map<ClassId, Scores>,
                                                   moreOf: map<ClassId, Scores>, coldkeyOf: map<Hotkey, Coldkey>,
                                                   c: Coldkey)
    requires forall i :: 0 <= i < |classes| ==>
               classes[i].id in scoresOf && classes[i].id in moreOf
               && AddsNoBetter(scoresOf[classes[i].id], moreOf[classes[i].id], coldkeyOf)
               && Attributed(scoresOf[classes[i].id], coldkeyOf) && Attributed(moreOf[classes[i].id], coldkeyOf)
    ensures Earned(classes, moreOf, coldkeyOf, c) == Earned(classes, scoresOf, coldkeyOf, c)
  {
    if classes != [] {
      var last := classes[|classes| - 1];
      ExtraHotkeysEarnNothing(classes[..|classes| - 1], scoresOf, moreOf, coldkeyOf, c);
      SameColdkeys(scoresOf[last.id], moreOf[last.id], coldkeyOf);
    }
  }

  /** From scores to composed weights: registering hotkeys that do not beat what their coldkey already has,
      in any classes at once, leaves every coldkey's final total as it was. */
  lemma SplittingIsWorthless(p: Policy, byId: map<ClassId, Decision>, scoresOf: map<ClassId, Scores>,
                             larger: map<ClassId, Decision>, moreOf: map<ClassId, Scores>,
                             coldkeyOf: map<Hotkey, Coldkey>, coldkey: Coldkey)
    requires ValidPolicy(p) && Covers(byId, p.classes) && Covers(larger, p.classes)
    requires AllBuilt(byId, scoresOf, coldkeyOf) && AllBuilt(larger, moreOf, coldkeyOf)
    requires forall i :: 0 <= i < |p.classes| ==>
               byId[p.classes[i].id].kind == larger[p.classes[i].id].kind == p.classes[i].kind
    requires AllAccepted(p.classes, byId, p.burn) && AllAccepted(p.classes, larger, p.burn)
    requires forall i :: 0 <= i < |p.classes| ==>
               AddsNoBetter(scoresOf[p.classes[i].id], moreOf[p.classes[i].id], coldkeyOf)
    ensures var (before, after) := (Composed(p, byId), Composed(p, larger));
            SumOf(HotkeysOf(coldkeyOf, coldkey) * after.Keys, after)
            == SumOf(HotkeysOf(coldkeyOf, coldkey) * before.Keys, before)
  {
    BuiltDecisionsAreAccepted(p, byId, scoresOf, coldkeyOf);
    BuiltDecisionsAreAccepted(p, larger, moreOf, coldkeyOf);
    ComposedPaysShares(p, byId, scoresOf, coldkeyOf, coldkey);
    ComposedPaysShares(p, larger, moreOf, coldkeyOf, coldkey);
    ExtraHotkeysEarnNothing(p.classes, scoresOf, moreOf, coldkeyOf, coldkey);
    SameEmptyAllocation(p.classes, byId, scoresOf, larger, moreOf, coldkeyOf);
  }
}
