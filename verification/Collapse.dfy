/** From observations to one class's weights, after `cathedral_thin/core.py`: the moving average, the
    current-work gate and the collapse of all hotkeys under one coldkey. Arithmetic is exact. */
module Collapse {
  import opened Prelude
  import opened Sums

  type Scores = map<Hotkey, real>

  datatype ScoreError = BadAlpha | NegativeInput | NegativeScore | MissingColdkey

  function Get(m: Scores, h: Hotkey): real {
    if h in m then m[h] else 0.0
  }

  predicate NonNegative(m: Scores) {
    forall h :: h in m ==> m[h] >= 0.0
  }

  // ---------------------------------------------------------------------------------------------
  // Moving average and gate.

  function Blend(before: real, latest: real, alpha: real): real {
    Times(1.0 - alpha, before) + Times(alpha, latest)
  }

  function Ema(previous: Scores, observed: Scores, current: set<Hotkey>, alpha: real): Scores {
    map h | h in current :: Blend(Get(previous, h), Get(observed, h), alpha)
  }

  predicate EmaAccepts(previous: Scores, observed: Scores, current: set<Hotkey>, alpha: real) {
    0.0 < alpha <= 1.0 && forall h :: h in current ==> Get(previous, h) >= 0.0 && Get(observed, h) >= 0.0
  }

  /** The loop over current hotkeys; the order is left open and does not matter. */
  method UpdateEma(previous: Scores, observed: Scores, current: set<Hotkey>, alpha: real)
      returns (r: Result<Scores, ScoreError>)
    ensures r == Err(BadAlpha) <==> !(0.0 < alpha <= 1.0)
    ensures EmaAccepts(previous, observed, current, alpha) ==> r == Ok(Ema(previous, observed, current, alpha))
    ensures r.Ok? <==>
              0.0 < alpha <= 1.0 && forall h :: h in current ==>
                (h in previous ==> previous[h] >= 0.0) && (h in observed ==> observed[h] >= 0.0)
    ensures r.Ok? ==>
              r.value.Keys == current
              && forall h :: h in current ==>
                   r.value[h] == (1.0 - alpha) * (if h in previous then previous[h] else 0.0)
                                 + alpha * (if h in observed then observed[h] else 0.0)
  {
    if !(0.0 < alpha <= 1.0) {
      return Err(BadAlpha);
    }
    var out: Scores := map[];
    var todo := current;
    while todo != {}
      invariant todo <= current && out.Keys == current - todo
      invariant forall h :: h in out ==> Get(previous, h) >= 0.0 && Get(observed, h) >= 0.0
      invariant forall h :: h in out ==> out[h] == Ema(previous, observed, current, alpha)[h]
      decreases todo
    {
      var h :| h in todo;
      var before, latest := Get(previous, h), Get(observed, h);
      if before < 0.0 || latest < 0.0 {
        return Err(NegativeInput);
      }
      out := out[h := Times(1.0 - alpha, before) + Times(alpha, latest)];
      todo := todo - {h};
    }
    assert out == Ema(previous, observed, current, alpha);
    forall h | h in current
      ensures out[h] == (1.0 - alpha) * (if h in previous then previous[h] else 0.0)
                        + alpha * (if h in observed then observed[h] else 0.0)
    {
      BlendIs(Get(previous, h), Get(observed, h), alpha);
    }
    return Ok(out);
  }

  lemma BlendIs(before: real, latest: real, alpha: real)
    ensures Blend(before, latest, alpha) == (1.0 - alpha) * before + alpha * latest
  {
  }

  function Gated(ema: Scores, observed: Scores): Scores {
    map h | h in ema :: if Get(observed, h) > 0.0 then ema[h] else 0.0
  }

  predicate GateAccepts(ema: Scores, observed: Scores) {
    forall h :: h in ema ==> ema[h] >= 0.0 && Get(observed, h) >= 0.0
  }

  method GateByCurrentVerification(ema: Scores, observed: Scores) returns (r: Result<Scores, ScoreError>)
    ensures GateAccepts(ema, observed) ==> r == Ok(Gated(ema, observed))
    ensures r.Ok? <==> forall h :: h in ema ==> ema[h] >= 0.0 && (h in observed ==> observed[h] >= 0.0)
    ensures r.Ok? ==>
              r.value.Keys == ema.Keys
              && forall h :: h in ema ==> r.value[h] == if h in observed && observed[h] > 0.0 then ema[h] else 0.0
  {
    var out: Scores := map[];
    var todo := ema.Keys;
    while todo != {}
      invariant todo <= ema.Keys && out.Keys == ema.Keys - todo
      invariant forall h :: h in out ==> ema[h] >= 0.0 && Get(observed, h) >= 0.0
      invariant forall h :: h in out ==> out[h] == if Get(observed, h) > 0.0 then ema[h] else 0.0
      decreases todo
    {
      var h :| h in todo;
      if ema[h] < 0.0 || Get(observed, h) < 0.0 {
        return Err(NegativeScore);
      }
      out := out[h := if Get(observed, h) > 0.0 then ema[h] else 0.0];
      todo := todo - {h};
    }
    assert out == Gated(ema, observed);
    return Ok(out);
  }

  /** When everyone was observed to work, gating after averaging changes no average. */
  lemma GateKeepsAverages(previous: Scores, observed: Scores, current: set<Hotkey>, alpha: real)
    requires EmaAccepts(previous, observed, current, alpha)
    requires forall h :: h in current ==> h in observed && observed[h] > 0.0
    ensures var ema := Ema(previous, observed, current, alpha); Gated(ema, observed) == ema && ema.Keys == current
  {
  }

  /** The average stays between the old value and the new one and never loses a positive observation. */
  lemma BlendBetween(before: real, latest: real, alpha: real)
    requires before >= 0.0 && latest >= 0.0 && 0.0 < alpha <= 1.0
    ensures var e := Blend(before, latest, alpha);
            (before <= e <= latest || latest <= e <= before) && (latest > 0.0 ==> e > 0.0)
  {
    var low, high := if before < latest then before else latest, if before < latest then latest else before;
    TimesNonNegative(alpha, high - low);
    TimesNonNegative(1.0 - alpha, high - low);
    Distribute(alpha, high, low);
    Distribute(1.0 - alpha, high, low);
    TimesNonNegative(1.0 - alpha, before);
    TimesNonNegative(alpha, latest);
    Complementary(alpha, before);
    Complementary(alpha, latest);
  }

  lemma Complementary(alpha: real, x: real)
    ensures Times(1.0 - alpha, x) == x - Times(alpha, x)
  {
  }

  /** History alone earns nothing: a gated score is positive exactly for currently verified work. */
  lemma PaidOnlyForCurrentWork(previous: Scores, observed: Scores, current: set<Hotkey>, alpha: real, h: Hotkey)
    requires EmaAccepts(previous, observed, current, alpha) && h in current
    ensures GateAccepts(Ema(previous, observed, current, alpha), observed)
    ensures Gated(Ema(previous, observed, current, alpha), observed)[h] > 0.0 <==> Get(observed, h) > 0.0
  {
    var ema := Ema(previous, observed, current, alpha);
    forall g | g in ema
      ensures ema[g] >= 0.0
    {
      BlendBetween(Get(previous, g), Get(observed, g), alpha);
    }
    BlendBetween(Get(previous, h), Get(observed, h), alpha);
  }

  // ---------------------------------------------------------------------------------------------
  // What the collapse means.

  ghost function Positive(scores: Scores): set<Hotkey> {
    set h | h in scores && scores[h] > 0.0
  }

  predicate Attributed(scores: Scores, coldkeyOf: map<Hotkey, Coldkey>) {
    forall h :: h in scores ==> h in coldkeyOf && coldkeyOf[h] != ""
  }

  predicate CollapseAccepts(scores: Scores, coldkeyOf: map<Hotkey, Coldkey>) {
    NonNegative(scores) && Attributed(scores, coldkeyOf)
  }

  /** The positively scored hotkeys of one coldkey. */
  ghost function Group(scores: Scores, coldkeyOf: map<Hotkey, Coldkey>, c: Coldkey): set<Hotkey>
    requires Attributed(scores, coldkeyOf)
  {
    Fiber(Positive(scores), coldkeyOf, c)
  }

  ghost function Coldkeys(scores: Scores, coldkeyOf: map<Hotkey, Coldkey>): set<Coldkey>
    requires Attributed(scores, coldkeyOf)
  {
    Image(Positive(scores), coldkeyOf)
  }

  /** Each coldkey's budget is its best hotkey's score. */
  ghost function Budgets(scores: Scores, coldkeyOf: map<Hotkey, Coldkey>): map<Coldkey, real>
    requires Attributed(scores, coldkeyOf)
  {
    map c | c in Coldkeys(scores, coldkeyOf) :: MaxOf(Group(scores, coldkeyOf, c), scores)
  }

  ghost function TotalBudget(scores: Scores, coldkeyOf: map<Hotkey, Coldkey>): real
    requires Attributed(scores, coldkeyOf)
  {
    SumOf(Coldkeys(scores, coldkeyOf), Budgets(scores, coldkeyOf))
  }

  ghost function Share(scores: Scores, coldkeyOf: map<Hotkey, Coldkey>, c: Coldkey): real
    requires Attributed(scores, coldkeyOf) && c in Coldkeys(scores, coldkeyOf)
  {
    if TotalBudget(scores, coldkeyOf) == 0.0 then 0.0
    else Over(Budgets(scores, coldkeyOf)[c], TotalBudget(scores, coldkeyOf))
  }

  ghost function GroupTotal(scores: Scores, coldkeyOf: map<Hotkey, Coldkey>, c: Coldkey): real
    requires Attributed(scores, coldkeyOf)
  {
    SumOf(Group(scores, coldkeyOf, c), scores)
  }

  ghost function WeightOf(scores: Scores, coldkeyOf: map<Hotkey, Coldkey>, h: Hotkey): real
    requires Attributed(scores, coldkeyOf) && h in Positive(scores)
  {
    var c := coldkeyOf[h];
    if GroupTotal(scores, coldkeyOf, c) == 0.0 then 0.0
    else Over(Times(Share(scores, coldkeyOf, c), scores[h]), GroupTotal(scores, coldkeyOf, c))
  }

  ghost function Weights(scores: Scores, coldkeyOf: map<Hotkey, Coldkey>): Scores
    requires Attributed(scores, coldkeyOf)
  {
    map h | h in Positive(scores) :: WeightOf(scores, coldkeyOf, h)
  }

  lemma BudgetPositive(scores: Scores, coldkeyOf: map<Hotkey, Coldkey>, c: Coldkey)
    requires CollapseAccepts(scores, coldkeyOf) && c in Coldkeys(scores, coldkeyOf)
    ensures Budgets(scores, coldkeyOf)[c] > 0.0
    ensures GroupTotal(scores, coldkeyOf, c) > 0.0
    ensures Group(scores, coldkeyOf, c) != {}
  {
    var h :| h in Positive(scores) && coldkeyOf[h] == c;
    assert h in Group(scores, coldkeyOf, c);
    MaxOfIsLargest(Group(scores, coldkeyOf, c), scores);
    SumPositive(Group(scores, coldkeyOf, c), scores);
  }

  lemma TotalPositive(scores: Scores, coldkeyOf: map<Hotkey, Coldkey>)
    requires CollapseAccepts(scores, coldkeyOf)
    ensures TotalBudget(scores, coldkeyOf) >= 0.0
    ensures Positive(scores) != {} <==> TotalBudget(scores, coldkeyOf) > 0.0
  {
    forall c | c in Coldkeys(scores, coldkeyOf)
      ensures Budgets(scores, coldkeyOf)[c] > 0.0
    {
      BudgetPositive(scores, coldkeyOf, c);
    }
    SumPositive(Coldkeys(scores, coldkeyOf), Budgets(scores, coldkeyOf));
    if Positive(scores) == {} {
      assert Coldkeys(scores, coldkeyOf) == {};
    } else {
      var h :| h in Positive(scores);
      assert coldkeyOf[h] in Coldkeys(scores, coldkeyOf);
    }
  }

  /** A coldkey's total weight is its best hotkey's score over the sum of all coldkeys' best scores. */
  lemma ColdkeyTotal(scores: Scores, coldkeyOf: map<Hotkey, Coldkey>, c: Coldkey)
    requires CollapseAccepts(scores, coldkeyOf) && c in Coldkeys(scores, coldkeyOf)
    ensures SumOf(Group(scores, coldkeyOf, c), Weights(scores, coldkeyOf)) == Share(scores, coldkeyOf, c)
    ensures Times(Share(scores, coldkeyOf, c), TotalBudget(scores, coldkeyOf)) == Budgets(scores, coldkeyOf)[c]
    ensures Share(scores, coldkeyOf, c) > 0.0
  {
    BudgetPositive(scores, coldkeyOf, c);
    TotalPositive(scores, coldkeyOf);
    var g, t, share := Group(scores, coldkeyOf, c), GroupTotal(scores, coldkeyOf, c), Share(scores, coldkeyOf, c);
    OverTimes(Budgets(scores, coldkeyOf)[c], TotalBudget(scores, coldkeyOf));
    OverPositive(Budgets(scores, coldkeyOf)[c], TotalBudget(scores, coldkeyOf));
    SpreadSum(g, scores, Weights(scores, coldkeyOf), share, t);
  }

  /** Sharing an amount in proportion to scores shares out exactly that amount. */
  lemma SpreadSum(g: set<Hotkey>, scores: Scores, w: Scores, share: real, t: real)
    requires g <= scores.Keys && g <= w.Keys && t == SumOf(g, scores) && t > 0.0
    requires forall h :: h in g ==> w[h] == Over(Times(share, scores[h]), t)
    ensures SumOf(g, w) == share
  {
    forall h | h in g
      ensures w[h] == Times(Over(share, t), scores[h])
    {
      TimesOver(share, scores[h], t);
    }
    SumScale(g, scores, w, Over(share, t));
    OverTimes(share, t);
  }

  /** The weights are positive exactly on positive scores and sum to 1. */
  lemma WeightsSumToOne(scores: Scores, coldkeyOf: map<Hotkey, Coldkey>)
    requires CollapseAccepts(scores, coldkeyOf)
    ensures Weights(scores, coldkeyOf).Keys == Positive(scores)
    ensures forall h :: h in Weights(scores, coldkeyOf) ==> Weights(scores, coldkeyOf)[h] > 0.0
    ensures Positive(scores) != {} ==> SumOf(Positive(scores), Weights(scores, coldkeyOf)) == 1.0
  {
    var w, cs := Weights(scores, coldkeyOf), Coldkeys(scores, coldkeyOf);
    TotalPositive(scores, coldkeyOf);
    forall h | h in w
      ensures w[h] > 0.0
    {
      var c := coldkeyOf[h];
      BudgetPositive(scores, coldkeyOf, c);
      ColdkeyTotal(scores, coldkeyOf, c);
      TimesNonNegative(Share(scores, coldkeyOf, c), scores[h]);
      OverPositive(Times(Share(scores, coldkeyOf, c), scores[h]), GroupTotal(scores, coldkeyOf, c));
    }
    if Positive(scores) != {} {
      var totals := map c | c in cs :: Share(scores, coldkeyOf, c);
      forall c | c in cs
        ensures totals[c] == SumOf(Fiber(Positive(scores), coldkeyOf, c), w)
      {
        ColdkeyTotal(scores, coldkeyOf, c);
      }
      SumByGroups(Positive(scores), w, coldkeyOf, totals);
      var total := TotalBudget(scores, coldkeyOf);
      forall c | c in cs
        ensures totals[c] == Times(Over(1.0, total), Budgets(scores, coldkeyOf)[c])
      {
        OverAsTimes(Budgets(scores, coldkeyOf)[c], total);
      }
      SumScale(cs, Budgets(scores, coldkeyOf), totals, Over(1.0, total));
      OverTimes(1.0, total);
    }
  }

  /** A coldkey's budget is the best score among its hotkeys. */
  lemma BudgetIsBest(scores: Scores, coldkeyOf: map<Hotkey, Coldkey>, h: Hotkey)
    requires CollapseAccepts(scores, coldkeyOf) && h in scores && scores[h] > 0.0
    ensures var c := coldkeyOf[h];
            && c in Budgets(scores, coldkeyOf) && scores[h] <= Budgets(scores, coldkeyOf)[c]
            && exists g :: g in scores && coldkeyOf[g] == c && scores[g] == Budgets(scores, coldkeyOf)[c]
  {
    var c := coldkeyOf[h];
    assert h in Positive(scores) && c in Coldkeys(scores, coldkeyOf) && h in Group(scores, coldkeyOf, c);
    BudgetPositive(scores, coldkeyOf, c);
    MaxOfIsLargest(Group(scores, coldkeyOf, c), scores);
    var g :| g in Group(scores, coldkeyOf, c) && scores[g] == Budgets(scores, coldkeyOf)[c];
    assert g in scores && coldkeyOf[g] == c;
  }

  /** Within a coldkey the weights are in proportion to the scores. */
  lemma WeightsAreProportional(scores: Scores, coldkeyOf: map<Hotkey, Coldkey>, g: Hotkey, h: Hotkey)
    requires CollapseAccepts(scores, coldkeyOf) && g in Positive(scores) && h in Positive(scores)
    requires coldkeyOf[g] == coldkeyOf[h]
    ensures Weights(scores, coldkeyOf)[g] * scores[h] == Weights(scores, coldkeyOf)[h] * scores[g]
  {
    var c := coldkeyOf[g];
    assert c in Coldkeys(scores, coldkeyOf);
    BudgetPositive(scores, coldkeyOf, c);
    var (share, total) := (Share(scores, coldkeyOf, c), GroupTotal(scores, coldkeyOf, c));
    TimesOver(share, scores[g], total);
    TimesOver(share, scores[h], total);
    Proportional(Over(share, total), scores[g], scores[h]);
  }

  lemma Proportional(c: real, x: real, y: real)
    ensures Times(c, x) * y == Times(c, y) * x
  {
  }

  // ---------------------------------------------------------------------------------------------
  // More hotkeys under a coldkey change nothing for anyone else.

  /** `more` adds hotkeys to `scores`, none of them better than the best their coldkey already has. */
  ghost predicate AddsNoBetter(scores: Scores, more: Scores, coldkeyOf: map<Hotkey, Coldkey>) {
    && CollapseAccepts(more, coldkeyOf)
    && (forall h :: h in scores ==> h in more && more[h] == scores[h])
    && (forall h :: h in more && h !in scores && more[h] > 0.0 ==>
          exists best :: best in scores && coldkeyOf[best] == coldkeyOf[h] && scores[best] >= more[h])
  }

  lemma SameColdkeys(scores: Scores, more: Scores, coldkeyOf: map<Hotkey, Coldkey>)
    requires AddsNoBetter(scores, more, coldkeyOf)
    ensures CollapseAccepts(scores, coldkeyOf)
    ensures Coldkeys(scores, coldkeyOf) == Coldkeys(more, coldkeyOf)
    ensures Budgets(scores, coldkeyOf) == Budgets(more, coldkeyOf)
  {
    forall c
      ensures c in Coldkeys(scores, coldkeyOf) <==> c in Coldkeys(more, coldkeyOf)
    {
      if c in Coldkeys(scores, coldkeyOf) {
        var h :| h in Positive(scores) && coldkeyOf[h] == c;
        assert h in Positive(more);
      }
      if c in Coldkeys(more, coldkeyOf) {
        var h :| h in Positive(more) && coldkeyOf[h] == c;
        var best := if h in scores then h else
          var b :| b in scores && coldkeyOf[b] == coldkeyOf[h] && scores[b] >= more[h]; b;
        assert best in Positive(scores);
      }
    }
    forall c | c in Coldkeys(scores, coldkeyOf)
      ensures Budgets(scores, coldkeyOf)[c] == Budgets(more, coldkeyOf)[c]
    {
      SameBudget(scores, more, coldkeyOf, c);
    }
  }

  lemma SameBudget(scores: Scores, more: Scores, coldkeyOf: map<Hotkey, Coldkey>, c: Coldkey)
    requires AddsNoBetter(scores, more, coldkeyOf) && Attributed(scores, coldkeyOf)
    requires NonNegative(scores) && c in Coldkeys(scores, coldkeyOf)
    ensures MaxOf(Group(more, coldkeyOf, c), more) == MaxOf(Group(scores, coldkeyOf, c), scores)
  {
    var small, big := Group(scores, coldkeyOf, c), Group(more, coldkeyOf, c);
    var b := MaxOf(small, scores);
    MaxOfIsLargest(small, scores);
    BudgetPositive(scores, coldkeyOf, c);
    var top :| top in small && scores[top] == b;
    assert top in big && more[top] == b;
    forall h | h in big
      ensures more[h] <= b
    {
      if h in scores {
        assert h in small;
      } else {
        var best :| best in scores && coldkeyOf[best] == coldkeyOf[h] && scores[best] >= more[h];
        assert best in small;
      }
    }
    MaxOfUnique(big, more, b);
  }

  /** Splitting work over extra hotkeys is worthless: every coldkey's total, and every hotkey weight of
      the coldkeys that added none, is exactly what it was. */
  lemma ExtraHotkeysChangeNothing(scores: Scores, more: Scores, coldkeyOf: map<Hotkey, Coldkey>, c: Coldkey)
    requires AddsNoBetter(scores, more, coldkeyOf)
    ensures CollapseAccepts(scores, coldkeyOf)
    ensures Coldkeys(scores, coldkeyOf) == Coldkeys(more, coldkeyOf)
    ensures c in Coldkeys(scores, coldkeyOf) ==>
              SumOf(Group(more, coldkeyOf, c), Weights(more, coldkeyOf))
              == SumOf(Group(scores, coldkeyOf, c), Weights(scores, coldkeyOf))
    ensures Group(scores, coldkeyOf, c) == Group(more, coldkeyOf, c) ==>
              forall h :: h in Group(scores, coldkeyOf, c) ==>
                Weights(more, coldkeyOf)[h] == Weights(scores, coldkeyOf)[h]
  {
    SameColdkeys(scores, more, coldkeyOf);
    if c in Coldkeys(scores, coldkeyOf) {
      ColdkeyTotal(scores, coldkeyOf, c);
      ColdkeyTotal(more, coldkeyOf, c);
    }
    if Group(scores, coldkeyOf, c) == Group(more, coldkeyOf, c) {
      SumAgree(Group(scores, coldkeyOf, c), scores, more);
    }
  }

  // ---------------------------------------------------------------------------------------------
  // The loops of `coldkey_collapsed_weights`.

  method Largest(members: set<Hotkey>, scores: Scores) returns (best: real)
    requires members <= scores.Keys && forall h :: h in members ==> scores[h] > 0.0
    ensures best == MaxOf(members, scores)
  {
    best := 0.0;
    var todo := members;
    while todo != {}
      invariant todo <= members
      invariant best >= 0.0 && forall h :: h in members - todo ==> scores[h] <= best
      invariant best > 0.0 ==> exists h :: h in members && scores[h] == best
      decreases todo
    {
      var h :| h in todo;
      if scores[h] > best {
        best := scores[h];
      }
      todo := todo - {h};
    }
    MaxOfUnique(members, scores, best);
  }

  method SumValues<K(==)>(keys: set<K>, w: map<K, real>) returns (total: real)
    requires keys <= w.Keys
    ensures total == SumOf(keys, w)
  {
    total := 0.0;
    var todo := keys;
    while todo != {}
      invariant todo <= keys && total + SumOf(todo, w) == SumOf(keys, w)
      decreases todo
    {
      var k :| k in todo;
      SumRemove(todo, w, k);
      total := total + w[k];
      todo := todo - {k};
    }
  }

  ghost function Members(scores: Scores, coldkeyOf: map<Hotkey, Coldkey>, seen: set<Hotkey>, c: Coldkey): set<Hotkey>
    requires seen <= scores.Keys
  {
    set h | h in seen && scores[h] > 0.0 && h in coldkeyOf && coldkeyOf[h] == c
  }

  /** The groups collected from the hotkeys seen so far. */
  ghost predicate Grouped(groups: map<Coldkey, set<Hotkey>>, scores: Scores, coldkeyOf: map<Hotkey, Coldkey>,
                          seen: set<Hotkey>)
    requires seen <= scores.Keys
  {
    && (forall c :: c in groups ==> groups[c] != {} && groups[c] == Members(scores, coldkeyOf, seen, c))
    && (forall h :: h in seen && scores[h] > 0.0 ==> h in coldkeyOf && coldkeyOf[h] in groups)
  }

  lemma GroupedStep(groups: map<Coldkey, set<Hotkey>>, scores: Scores, coldkeyOf: map<Hotkey, Coldkey>,
                    seen: set<Hotkey>, h: Hotkey)
    requires seen <= scores.Keys && Grouped(groups, scores, coldkeyOf, seen)
    requires h in scores && h !in seen && h in coldkeyOf
    ensures var c := coldkeyOf[h];
            var joined := if scores[h] > 0.0 then groups[c := (if c in groups then groups[c] else {}) + {h}]
                          else groups;
            Grouped(joined, scores, coldkeyOf, seen + {h})
  {
    var c := coldkeyOf[h];
    var joined := if scores[h] > 0.0 then groups[c := (if c in groups then groups[c] else {}) + {h}] else groups;
    forall d | d in joined
      ensures joined[d] == Members(scores, coldkeyOf, seen + {h}, d)
    {
      if d !in groups {
        assert Members(scores, coldkeyOf, seen, d) == {};
      }
    }
  }

  lemma GroupedAll(groups: map<Coldkey, set<Hotkey>>, scores: Scores, coldkeyOf: map<Hotkey, Coldkey>)
    requires CollapseAccepts(scores, coldkeyOf) && Grouped(groups, scores, coldkeyOf, scores.Keys)
    ensures groups.Keys == Coldkeys(scores, coldkeyOf)
    ensures forall c :: c in groups ==> groups[c] == Group(scores, coldkeyOf, c)
  {
    forall c
      ensures c in groups <==> c in Coldkeys(scores, coldkeyOf)
      ensures c in groups ==> groups[c] == Group(scores, coldkeyOf, c)
    {
      if c in groups {
        var h :| h in groups[c];
        assert h in Positive(scores) && coldkeyOf[h] == c;
      }
      if c in Coldkeys(scores, coldkeyOf) {
        var h :| h in Positive(scores) && coldkeyOf[h] == c;
        assert h in scores.Keys;
      }
    }
  }

  /** The source's collapse, final renormalisation included: in exact arithmetic that last step divides
      by 1. */
  method ColdkeyCollapsedWeights(scores: Scores, coldkeyOf: map<Hotkey, Coldkey>)
      returns (r: Result<Scores, ScoreError>)
    ensures r.Ok? <==> CollapseAccepts(scores, coldkeyOf)
    ensures r.Ok? ==> r.value == Weights(scores, coldkeyOf)
    ensures r == Err(NegativeScore) ==> !NonNegative(scores)
    ensures r == Err(MissingColdkey) ==> !Attributed(scores, coldkeyOf)
  {
    var groups: map<Coldkey, set<Hotkey>> := map[];
    var todo := scores.Keys;
    while todo != {}
      invariant todo <= scores.Keys
      invariant forall h :: h in scores.Keys - todo ==> scores[h] >= 0.0 && h in coldkeyOf && coldkeyOf[h] != ""
      invariant Grouped(groups, scores, coldkeyOf, scores.Keys - todo)
      decreases todo
    {
      var h :| h in todo;
      if scores[h] < 0.0 {
        return Err(NegativeScore);
      }
      if h !in coldkeyOf || coldkeyOf[h] == "" {
        return Err(MissingColdkey);
      }
      GroupedStep(groups, scores, coldkeyOf, scores.Keys - todo, h);
      assert scores.Keys - todo + {h} == scores.Keys - (todo - {h});
      if scores[h] > 0.0 {
        var c := coldkeyOf[h];
        groups := groups[c := (if c in groups then groups[c] else {}) + {h}];
      }
      todo := todo - {h};
    }
    assert scores.Keys - {} == scores.Keys;
    GroupedAll(groups, scores, coldkeyOf);
    r := ShareOut(scores, coldkeyOf, groups);
  }

  method ShareOut(scores: Scores, coldkeyOf: map<Hotkey, Coldkey>, groups: map<Coldkey, set<Hotkey>>)
      returns (r: Result<Scores, ScoreError>)
    requires CollapseAccepts(scores, coldkeyOf) && groups.Keys == Coldkeys(scores, coldkeyOf)
    requires forall c :: c in groups ==> groups[c] == Group(scores, coldkeyOf, c)
    ensures r == Ok(Weights(scores, coldkeyOf))
  {
    var budgets: map<Coldkey, real> := map[];
    var todo := groups.Keys;
    while todo != {}
      invariant todo <= groups.Keys && budgets.Keys == groups.Keys - todo
      invariant forall c :: c in budgets ==> budgets[c] == MaxOf(groups[c], scores)
      decreases todo
    {
      var c :| c in todo;
      assert groups[c] == Group(scores, coldkeyOf, c);
      var best := Largest(groups[c], scores);
      budgets := budgets[c := best];
      todo := todo - {c};
    }
    assert budgets == Budgets(scores, coldkeyOf);
    var totalBudget := SumValues(budgets.Keys, budgets);
    assert budgets.Keys == Coldkeys(scores, coldkeyOf);
    assert totalBudget == TotalBudget(scores, coldkeyOf);
    TotalPositive(scores, coldkeyOf);
    WeightsSumToOne(scores, coldkeyOf);
    if totalBudget <= 0.0 {
      assert Positive(scores) == {};
      assert map[] == Weights(scores, coldkeyOf);
      return Ok(map[]);
    }
    var out := SpreadBudgets(scores, coldkeyOf, groups, budgets, totalBudget);
    var norm := SumValues(out.Keys, out);
    assert norm == 1.0;
    if norm <= 0.0 {
      return Ok(map[]);
    }
    forall h | h in out
      ensures Over(out[h], norm) == out[h]
    {
      OverTimes(out[h], norm);
      TimesOne(Over(out[h], norm));
    }
    var normalized := map h | h in out :: Over(out[h], norm);
    assert normalized == out;
    return Ok(normalized);
  }

  method SpreadBudgets(scores: Scores, coldkeyOf: map<Hotkey, Coldkey>, groups: map<Coldkey, set<Hotkey>>,
                       budgets: map<Coldkey, real>, totalBudget: real) returns (out: Scores)
    requires CollapseAccepts(scores, coldkeyOf) && groups.Keys == Coldkeys(scores, coldkeyOf)
    requires forall c :: c in groups ==> groups[c] == Group(scores, coldkeyOf, c)
    requires budgets == Budgets(scores, coldkeyOf) && totalBudget == TotalBudget(scores, coldkeyOf) && totalBudget > 0.0
    ensures out == Weights(scores, coldkeyOf)
  {
    out := map[];
    var todo := groups.Keys;
    while todo != {}
      invariant todo <= groups.Keys
      invariant forall h :: h in out <==> h in Positive(scores) && coldkeyOf[h] in groups.Keys - todo
      invariant forall h :: h in out ==> out[h] == WeightOf(scores, coldkeyOf, h)
      decreases todo
    {
      var c :| c in todo;
      BudgetPositive(scores, coldkeyOf, c);
      var groupTotal := SumValues(groups[c], scores);
      var budget := Over(budgets[c], totalBudget);
      var spread := map h | h in groups[c] :: Over(Times(budget, scores[h]), groupTotal);
      assert forall h :: h in spread ==> spread[h] == WeightOf(scores, coldkeyOf, h);
      out := out + spread;
      todo := todo - {c};
    }
    assert out.Keys == Positive(scores);
  }
}
