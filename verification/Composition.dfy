/** From class weights to the submitted vector: the composition of score classes with a burn
    destination (`cathedral_thin/score_classes.py`) and the mapping of hotkeys to UIDs
    (`cathedral_thin/validator.py`). Arithmetic is exact. */
module Composition {
  import opened Prelude
  import opened Sums
  import opened Collapse
  import opened Metagraphs

  datatype Kind = LocalSat | External

  datatype ClassPolicy = ClassPolicy(id: ClassId, kind: Kind, allocation: real)

  datatype Policy = Policy(classes: seq<ClassPolicy>, burn: Option<Hotkey>)

  datatype Decision = Decision(id: ClassId, kind: Kind, weights: Scores)

  datatype ComposeError = NotCovered | KindMismatch | NotNormalized | BurnEarns | NotConserved

  const TOLERANCE := 0.000_000_001

  predicate Near(x: real) {
    -TOLERANCE <= x - 1.0 <= TOLERANCE
  }

  function Allocated(classes: seq<ClassPolicy>): real {
    if classes == [] then 0.0 else Allocated(classes[..|classes| - 1]) + classes[|classes| - 1].allocation
  }

  /** What loading a policy guarantees: distinct ids, positive allocations that sum exactly to 1. */
  predicate ValidPolicy(p: Policy) {
    && p.classes != []
    && (forall i :: 0 <= i < |p.classes| ==> p.classes[i].allocation > 0.0)
    && (forall i, j :: 0 <= i < j < |p.classes| ==> p.classes[i].id != p.classes[j].id)
    && Allocated(p.classes) == 1.0
  }

  // ---------------------------------------------------------------------------------------------
  // What a hotkey is owed.

  predicate Covers(byId: map<ClassId, Decision>, classes: seq<ClassPolicy>) {
    forall i :: 0 <= i < |classes| ==> classes[i].id in byId
  }

  /** What one class contributes to one hotkey. An empty class gives all it has to the burn hotkey. */
  function Contribution(c: ClassPolicy, d: Decision, burn: Option<Hotkey>, h: Hotkey): real {
    if d.weights == map[] then (if burn == Some(h) then c.allocation else 0.0)
    else if h in d.weights then Times(c.allocation, d.weights[h])
    else 0.0
  }

  function Owed(classes: seq<ClassPolicy>, byId: map<ClassId, Decision>, burn: Option<Hotkey>, h: Hotkey): real
    requires Covers(byId, classes)
  {
    if classes == [] then 0.0
    else
      var front, c := classes[..|classes| - 1], classes[|classes| - 1];
      Owed(front, byId, burn, h) + Contribution(c, byId[c.id], burn, h)
  }

  /** The hotkeys a class pays. */
  function Payees(d: Decision, burn: Option<Hotkey>): set<Hotkey> {
    if d.weights == map[] then (if burn.Some? then {burn.value} else {}) else d.weights.Keys
  }

  function AllPayees(classes: seq<ClassPolicy>, byId: map<ClassId, Decision>, burn: Option<Hotkey>): set<Hotkey>
    requires Covers(byId, classes)
  {
    if classes == [] then {}
    else AllPayees(classes[..|classes| - 1], byId, burn) + Payees(byId[classes[|classes| - 1].id], burn)
  }

  function Final(classes: seq<ClassPolicy>, byId: map<ClassId, Decision>, burn: Option<Hotkey>): Scores
    requires Covers(byId, classes)
  {
    map h | h in AllPayees(classes, byId, burn) :: Owed(classes, byId, burn, h)
  }

  /** The total a class hands out per unit of allocation: 1 when it burns. */
  ghost function ClassTotal(d: Decision): real {
    if d.weights == map[] then 1.0 else SumOf(d.weights.Keys, d.weights)
  }

  ghost function Handed(classes: seq<ClassPolicy>, byId: map<ClassId, Decision>): real
    requires Covers(byId, classes)
  {
    if classes == [] then 0.0
    else
      var front, c := classes[..|classes| - 1], classes[|classes| - 1];
      Handed(front, byId) + Times(c.allocation, ClassTotal(byId[c.id]))
  }

  /** The tests that each class passes inside the loop. */
  ghost predicate ClassAccepted(c: ClassPolicy, d: Decision, burn: Option<Hotkey>) {
    && d.kind == c.kind
    && (d.weights == map[] ==> burn.Some?)
    && (d.weights != map[] ==> Near(ClassTotal(d)) && (burn.Some? ==> burn.value !in d.weights))
  }

  ghost predicate AllAccepted(classes: seq<ClassPolicy>, byId: map<ClassId, Decision>, burn: Option<Hotkey>)
    requires Covers(byId, classes)
  {
    forall i :: 0 <= i < |classes| ==> ClassAccepted(classes[i], byId[classes[i].id], burn)
  }

  lemma OneClassSum(c: ClassPolicy, d: Decision, burn: Option<Hotkey>, keys: set<Hotkey>, part: Scores)
    requires ClassAccepted(c, d, burn) && Payees(d, burn) <= keys && part.Keys == keys
    requires forall h :: h in keys ==> part[h] == Contribution(c, d, burn, h)
    ensures SumOf(keys, part) == Times(c.allocation, ClassTotal(d))
  {
    var paid := Payees(d, burn);
    SumUnion(keys - paid, paid, part);
    assert keys - paid + paid == keys;
    SumZero(keys - paid, part);
    if d.weights == map[] {
      SumRemove(paid, part, burn.value);
      assert paid - {burn.value} == {};
      TimesOne(c.allocation);
    } else {
      SumScale(paid, d.weights, part, c.allocation);
    }
  }

  lemma {:induction false} SumOfSums(keys: set<Hotkey>, a: Scores, b: Scores, both: Scores)
    requires keys <= a.Keys && keys <= b.Keys && keys <= both.Keys
    requires forall h :: h in keys ==> both[h] == a[h] + b[h]
    ensures SumOf(keys, both) == SumOf(keys, a) + SumOf(keys, b)
    decreases |keys|
  {
    if keys != {} {
      var h :| h in keys;
      SumRemove(keys, a, h);
      SumRemove(keys, b, h);
      SumRemove(keys, both, h);
      SumOfSums(keys - {h}, a, b, both);
    }
  }

  lemma {:induction false} OwedOutsidePayees(classes: seq<ClassPolicy>, byId: map<ClassId, Decision>,
                                             burn: Option<Hotkey>, h: Hotkey)
    requires Covers(byId, classes) && h !in AllPayees(classes, byId, burn)
    ensures Owed(classes, byId, burn, h) == 0.0
  {
    if classes != [] {
      OwedOutsidePayees(classes[..|classes| - 1], byId, burn, h);
    }
  }

  /** Everything handed out by the classes is owed to someone, and nothing else is. */
  lemma {:induction false} OwedIsHanded(classes: seq<ClassPolicy>, byId: map<ClassId, Decision>, burn: Option<Hotkey>)
    requires Covers(byId, classes) && AllAccepted(classes, byId, burn)
    ensures SumOf(Final(classes, byId, burn).Keys, Final(classes, byId, burn)) == Handed(classes, byId)
  {
    var all := Final(classes, byId, burn);
    if classes != [] {
      var front, c := classes[..|classes| - 1], classes[|classes| - 1];
      var d := byId[c.id];
      var keys, before := all.Keys, Final(front, byId, burn);
      OwedIsHanded(front, byId, burn);
      var wide := map h | h in keys :: Owed(front, byId, burn, h);
      var part := map h | h in keys :: Contribution(c, d, burn, h);
      SumOfSums(keys, wide, part, all);
      OneClassSum(c, d, burn, keys, part);
      forall h | h in keys - before.Keys
        ensures wide[h] == 0.0
      {
        OwedOutsidePayees(front, byId, burn, h);
      }
      SumZero(keys - before.Keys, wide);
      SumUnion(keys - before.Keys, before.Keys, wide);
      assert keys - before.Keys + before.Keys == keys;
      SumAgree(before.Keys, before, wide);
    }
  }

  lemma NearScaled(a: real, t: real)
    requires a > 0.0 && Near(t)
    ensures a - Times(a, TOLERANCE) <= Times(a, t) <= a + Times(a, TOLERANCE)
  {
    TimesNonNegative(a, t - 1.0 + TOLERANCE);
    TimesNonNegative(a, 1.0 + TOLERANCE - t);
    Distribute(a, t - 1.0, 0.0 - TOLERANCE);
    Distribute(a, t, 1.0);
    Distribute(a, 1.0 - t, 0.0 - TOLERANCE);
    Distribute(a, 1.0, t);
    Distribute(a, 0.0, TOLERANCE);
    TimesOne(a);
    TimesZero(a);
  }

  lemma {:induction false} HandedNearAllocated(classes: seq<ClassPolicy>, byId: map<ClassId, Decision>,
                                               burn: Option<Hotkey>)
    requires Covers(byId, classes) && AllAccepted(classes, byId, burn)
    requires forall i :: 0 <= i < |classes| ==> classes[i].allocation > 0.0
    ensures var a := Allocated(classes);
            a - Times(a, TOLERANCE) <= Handed(classes, byId) <= a + Times(a, TOLERANCE)
  {
    if classes == [] {
      TimesZero(TOLERANCE);
    } else {
      var front, c := classes[..|classes| - 1], classes[|classes| - 1];
      HandedNearAllocated(front, byId, burn);
      NearScaled(c.allocation, ClassTotal(byId[c.id]));
      TimesCommutes(Allocated(classes), TOLERANCE);
      TimesCommutes(Allocated(front), TOLERANCE);
      TimesCommutes(c.allocation, TOLERANCE);
      Distribute(TOLERANCE, Allocated(front), c.allocation);
    }
  }

  /** The conservation check at the end of the source's composition can never fail. */
  lemma ConservationNeverFails(p: Policy, byId: map<ClassId, Decision>)
    requires ValidPolicy(p) && Covers(byId, p.classes) && AllAccepted(p.classes, byId, p.burn)
    ensures var f := Final(p.classes, byId, p.burn); Near(SumOf(f.Keys, f))
  {
    OwedIsHanded(p.classes, byId, p.burn);
    HandedNearAllocated(p.classes, byId, p.burn);
    TimesOne(TOLERANCE);
  }

  // ---------------------------------------------------------------------------------------------
  // The composition.

  function ById(decisions: seq<Decision>): map<ClassId, Decision> {
    if decisions == [] then map[]
    else ById(decisions[..|decisions| - 1])[decisions[|decisions| - 1].id := decisions[|decisions| - 1]]
  }

  predicate MatchesPolicy(p: Policy, decisions: seq<Decision>) {
    var byId := ById(decisions);
    |byId| == |decisions| && byId.Keys == set i | 0 <= i < |p.classes| :: p.classes[i].id
  }

  predicate NothingEarned(decisions: seq<Decision>) {
    forall i :: 0 <= i < |decisions| ==> decisions[i].weights == map[]
  }

  /** The composed weights: what is owed, as a share of everything owed, zeros dropped. */
  ghost function Composed(p: Policy, byId: map<ClassId, Decision>): Scores
    requires Covers(byId, p.classes)
  {
    var f := Final(p.classes, byId, p.burn);
    var total := SumOf(f.Keys, f);
    map h | h in f && f[h] > 0.0 :: if total == 0.0 then 0.0 else Over(f[h], total)
  }

  lemma CoversPolicy(p: Policy, decisions: seq<Decision>)
    requires MatchesPolicy(p, decisions)
    ensures Covers(ById(decisions), p.classes)
  {
    forall i | 0 <= i < |p.classes|
      ensures p.classes[i].id in ById(decisions)
    {
      assert p.classes[i].id in set k | 0 <= k < |p.classes| :: p.classes[k].id;
    }
  }

  /** Composition accepts exactly the decisions that cover the policy, match its kinds and are
      normalised, with empty classes allowed only when there is a burn destination, which earns
      nothing itself; an entirely empty round without a burn destination gives no weights. */
  method ComposeClassDecisions(p: Policy, decisions: seq<Decision>) returns (r: Result<Scores, ComposeError>)
    requires ValidPolicy(p)
    ensures r == Err(NotCovered) <==> !MatchesPolicy(p, decisions)
    ensures r != Err(NotConserved)
    ensures MatchesPolicy(p, decisions) && p.burn.None? && NothingEarned(decisions) ==> r == Ok(map[])
    ensures MatchesPolicy(p, decisions) && !(p.burn.None? && NothingEarned(decisions)) ==>
              Covers(ById(decisions), p.classes)
              && (r.Ok? <==> AllAccepted(p.classes, ById(decisions), p.burn))
              && (r.Ok? ==> r.value == Composed(p, ById(decisions)))
  {
    var byId := ById(decisions);
    if |byId| != |decisions| || byId.Keys != set i | 0 <= i < |p.classes| :: p.classes[i].id {
      return Err(NotCovered);
    }
    CoversPolicy(p, decisions);
    if p.burn.None? && decisions != [] && NothingEarned(decisions) {
      return Ok(map[]);
    }
    assert decisions != [] by {
      assert p.classes[0].id in byId;
    }
    var added := AddClasses(p.classes, byId, p.burn);
    if added.Err? {
      return added;
    }
    var final := added.value;
    var total := SumValues(final.Keys, final);
    ConservationNeverFails(p, byId);
    if !Near(total) {
      return Err(NotConserved);
    }
    return Ok(map h | h in final && final[h] > 0.0 :: Over(final[h], total));
  }

  method AddClasses(classes: seq<ClassPolicy>, byId: map<ClassId, Decision>, burn: Option<Hotkey>)
      returns (r: Result<Scores, ComposeError>)
    requires Covers(byId, classes)
    ensures r.Ok? <==> AllAccepted(classes, byId, burn)
    ensures r.Ok? ==> r.value == Final(classes, byId, burn)
    ensures r.Err? ==> r.error in {KindMismatch, NotNormalized, BurnEarns}
  {
    var final: Scores := map[];
    for k := 0 to |classes|
      invariant forall i :: 0 <= i < k ==> ClassAccepted(classes[i], byId[classes[i].id], burn)
      invariant final == Final(classes[..k], byId, burn)
    {
      var c := classes[k];
      assert classes[..k + 1] == classes[..k] + [c];
      ghost var before := final;
      var added := AddClass(final, c, byId[c.id], burn);
      if added.Err? {
        return added;
      }
      final := added.value;
      FinalStep(classes[..k], c, byId, burn, before, final);
    }
    assert classes[..|classes|] == classes;
    return Ok(final);
  }

  /** One turn of the composition loop. */
  method AddClass(start: Scores, c: ClassPolicy, d: Decision, burn: Option<Hotkey>)
      returns (r: Result<Scores, ComposeError>)
    ensures r.Ok? <==> ClassAccepted(c, d, burn)
    ensures r.Ok? ==>
              r.value.Keys == start.Keys + Payees(d, burn)
              && forall h :: h in r.value ==> r.value[h] == Get(start, h) + Contribution(c, d, burn, h)
    ensures r.Err? ==> r.error in {KindMismatch, NotNormalized, BurnEarns}
  {
    if d.kind != c.kind {
      return Err(KindMismatch);
    }
    if d.weights == map[] {
      if burn.None? {
        return Err(NotNormalized);
      }
      return Ok(start[burn.value := Get(start, burn.value) + c.allocation]);
    }
    var classTotal := SumValues(d.weights.Keys, d.weights);
    if !Near(classTotal) {
      return Err(NotNormalized);
    }
    if burn.Some? && burn.value in d.weights {
      return Err(BurnEarns);
    }
    var final := AddWeights(start, c, d);
    return Ok(final);
  }

  method AddWeights(start: Scores, c: ClassPolicy, d: Decision) returns (final: Scores)
    ensures final.Keys == start.Keys + d.weights.Keys
    ensures forall h :: h in final ==>
              final[h] == Get(start, h) + if h in d.weights then Times(c.allocation, d.weights[h]) else 0.0
  {
    final := start;
    var todo := d.weights.Keys;
    while todo != {}
      invariant todo <= d.weights.Keys
      invariant final.Keys == start.Keys + (d.weights.Keys - todo)
      invariant forall h :: h in final ==>
                  final[h] == Get(start, h) + if h in d.weights && h !in todo then Times(c.allocation, d.weights[h])
                                              else 0.0
      decreases todo
    {
      var h :| h in todo;
      final := final[h := Get(final, h) + Times(c.allocation, d.weights[h])];
      todo := todo - {h};
    }
  }

  lemma FinalStep(front: seq<ClassPolicy>, c: ClassPolicy, byId: map<ClassId, Decision>, burn: Option<Hotkey>,
                  before: Scores, after: Scores)
    requires Covers(byId, front + [c]) && Covers(byId, front) && c.id in byId
    requires before == Final(front, byId, burn)
    requires after.Keys == before.Keys + Payees(byId[c.id], burn)
    requires forall h :: h in after ==> after[h] == Get(before, h) + Contribution(c, byId[c.id], burn, h)
    ensures after == Final(front + [c], byId, burn)
  {
    var classes := front + [c];
    assert classes[..|classes| - 1] == front;
    forall h | h in after
      ensures after[h] == Owed(classes, byId, burn, h)
    {
      if h !in before {
        OwedOutsidePayees(front, byId, burn, h);
      }
    }
  }

  // ---------------------------------------------------------------------------------------------
  // What the composition promises.

  predicate WeightsNonNegative(byId: map<ClassId, Decision>) {
    forall id, h :: id in byId && h in byId[id].weights ==> byId[id].weights[h] >= 0.0
  }

  lemma {:induction false} OwedNonNegative(classes: seq<ClassPolicy>, byId: map<ClassId, Decision>,
                                           burn: Option<Hotkey>, h: Hotkey)
    requires Covers(byId, classes) && WeightsNonNegative(byId)
    requires forall i :: 0 <= i < |classes| ==> classes[i].allocation > 0.0
    ensures Owed(classes, byId, burn, h) >= 0.0
  {
    if classes != [] {
      var c := classes[|classes| - 1];
      OwedNonNegative(classes[..|classes| - 1], byId, burn, h);
      if h in byId[c.id].weights {
        TimesNonNegative(c.allocation, byId[c.id].weights[h]);
      }
    }
  }

  lemma ShareSum(s: set<Hotkey>, f: Scores, shares: Scores, total: real)
    requires s <= f.Keys && s <= shares.Keys && total != 0.0 && total == SumOf(s, f)
    requires forall h :: h in s ==> shares[h] == Over(f[h], total)
    ensures SumOf(s, shares) == 1.0
  {
    forall h | h in s
      ensures shares[h] == Times(Over(1.0, total), f[h])
    {
      OverAsTimes(f[h], total);
    }
    SumScale(s, f, shares, Over(1.0, total));
    OverTimes(1.0, total);
  }

  /** The composed weights sum to 1. */
  lemma ComposedSumsToOne(p: Policy, byId: map<ClassId, Decision>)
    requires ValidPolicy(p) && Covers(byId, p.classes) && AllAccepted(p.classes, byId, p.burn)
             && WeightsNonNegative(byId)
    ensures SumOf(Composed(p, byId).Keys, Composed(p, byId)) == 1.0
    ensures forall h :: h in Composed(p, byId) ==> Composed(p, byId)[h] > 0.0
  {
    var f := Final(p.classes, byId, p.burn);
    var total, r := SumOf(f.Keys, f), Composed(p, byId);
    ConservationNeverFails(p, byId);
    forall h | h in f.Keys - r.Keys
      ensures f[h] == 0.0
    {
      OwedNonNegative(p.classes, byId, p.burn, h);
    }
    SumZero(f.Keys - r.Keys, f);
    SumUnion(f.Keys - r.Keys, r.Keys, f);
    assert f.Keys - r.Keys + r.Keys == f.Keys;
    ShareSum(r.Keys, f, r, total);
    forall h | h in r
      ensures r[h] > 0.0
    {
      OverPositive(f[h], total);
    }
  }

  function EmptyAllocation(classes: seq<ClassPolicy>, byId: map<ClassId, Decision>): real
    requires Covers(byId, classes)
  {
    if classes == [] then 0.0
    else
      var c := classes[|classes| - 1];
      EmptyAllocation(classes[..|classes| - 1], byId) + if byId[c.id].weights == map[] then c.allocation else 0.0
  }

  ghost predicate ExactlyNormalized(byId: map<ClassId, Decision>) {
    forall id :: id in byId ==> ClassTotal(byId[id]) == 1.0
  }

  lemma {:induction false} HandedExactly(classes: seq<ClassPolicy>, byId: map<ClassId, Decision>)
    requires Covers(byId, classes) && ExactlyNormalized(byId)
    ensures Handed(classes, byId) == Allocated(classes)
  {
    if classes != [] {
      HandedExactly(classes[..|classes| - 1], byId);
      TimesOne(classes[|classes| - 1].allocation);
    }
  }

  lemma {:induction false} BurnIsOwedEmpties(classes: seq<ClassPolicy>, byId: map<ClassId, Decision>, burn: Hotkey)
    requires Covers(byId, classes) && AllAccepted(classes, byId, Some(burn))
    ensures Owed(classes, byId, Some(burn), burn) == EmptyAllocation(classes, byId)
  {
    if classes != [] {
      BurnIsOwedEmpties(classes[..|classes| - 1], byId, burn);
    }
  }

  /** What is owed goes up, class by class, by the allocation times the weight, or by the whole allocation of a class
      that is empty for the burn destination. */
  lemma OwedGrows(classes: seq<ClassPolicy>, c: ClassPolicy, byId: map<ClassId, Decision>, burn: Option<Hotkey>,
                  h: Hotkey)
    requires Covers(byId, classes + [c]) && Covers(byId, classes) && c.id in byId
    ensures Owed([], byId, burn, h) == 0.0
    ensures Owed(classes + [c], byId, burn, h) == Owed(classes, byId, burn, h) +
              if byId[c.id].weights == map[] then (if burn == Some(h) then c.allocation else 0.0)
              else if h in byId[c.id].weights then c.allocation * byId[c.id].weights[h]
              else 0.0
  {
    assert (classes + [c])[..|classes|] == classes;
  }

  predicate Decides(decisions: seq<Decision>, id: ClassId) {
    exists i :: 0 <= i < |decisions| && decisions[i].id == id
  }

  predicate DecidedOnce(decisions: seq<Decision>) {
    forall i, j :: 0 <= i < j < |decisions| ==> decisions[i].id != decisions[j].id
  }

  lemma {:induction false} KeysOfById(decisions: seq<Decision>, id: ClassId)
    ensures id in ById(decisions) <==> Decides(decisions, id)
  {
    if decisions != [] {
      var n := |decisions| - 1;
      KeysOfById(decisions[..n], id);
      if Decides(decisions[..n], id) {
        var i :| 0 <= i < n && decisions[..n][i].id == id;
        assert decisions[i].id == id;
      }
      if Decides(decisions, id) && decisions[n].id != id {
        var i :| 0 <= i < |decisions| && decisions[i].id == id;
        assert decisions[..n][i].id == id;
      }
    }
  }

  lemma OnceInFront(decisions: seq<Decision>)
    requires decisions != []
    ensures var n := |decisions| - 1;
            DecidedOnce(decisions) <==> DecidedOnce(decisions[..n]) && !Decides(decisions[..n], decisions[n].id)
  {
    var n := |decisions| - 1;
    var front := decisions[..n];
    assert forall i :: 0 <= i < n ==> front[i] == decisions[i];
    if DecidedOnce(front) && !Decides(front, decisions[n].id) {
      forall i, j | 0 <= i < j < |decisions|
        ensures decisions[i].id != decisions[j].id
      {
        assert front[i].id != decisions[n].id;
        assert j < n ==> front[i].id != front[j].id;
      }
    }
  }

  lemma {:induction false} SizeOfById(decisions: seq<Decision>)
    ensures |ById(decisions)| <= |decisions|
    ensures |ById(decisions)| == |decisions| <==> DecidedOnce(decisions)
  {
    if decisions != [] {
      var n := |decisions| - 1;
      SizeOfById(decisions[..n]);
      KeysOfById(decisions[..n], decisions[n].id);
      OneMoreKey(ById(decisions[..n]), decisions[n].id, decisions[n]);
      OnceInFront(decisions);
    }
  }

  lemma OneMoreKey<K, V>(m: map<K, V>, k: K, v: V)
    ensures |m[k := v]| == if k in m then |m| else |m| + 1
  {
    assert m[k := v].Keys == m.Keys + {k};
    assert |m[k := v]| == |m[k := v].Keys| && |m| == |m.Keys|;
  }

  /** The decisions cover the policy exactly when no class is decided twice, every class of the policy is decided,
      and no other. */
  lemma CoveredExactly(p: Policy, decisions: seq<Decision>)
    ensures MatchesPolicy(p, decisions) <==>
              && DecidedOnce(decisions)
              && forall id :: Decides(decisions, id) <==> HasClass(p, id)
  {
    SizeOfById(decisions);
    var ids := set i | 0 <= i < |p.classes| :: p.classes[i].id;
    forall id
      ensures id in ById(decisions) <==> Decides(decisions, id)
      ensures id in ids <==> HasClass(p, id)
    {
      KeysOfById(decisions, id);
      if HasClass(p, id) {
        var i :| 0 <= i < |p.classes| && p.classes[i].id == id;
        assert p.classes[i].id in ids;
      }
    }
    if forall id :: Decides(decisions, id) <==> HasClass(p, id) {
      assert ById(decisions).Keys == ids;
    }
  }

  predicate HasClass(p: Policy, id: ClassId) {
    exists k :: 0 <= k < |p.classes| && p.classes[k].id == id
  }

  /** Each class is paid by its own decision. */
  lemma {:induction false} DecisionOfItsClass(decisions: seq<Decision>, i: nat)
    requires DecidedOnce(decisions) && i < |decisions|
    ensures decisions[i].id in ById(decisions) && ById(decisions)[decisions[i].id] == decisions[i]
  {
    var n := |decisions| - 1;
    OnceInFront(decisions);
    if i < n {
      DecisionOfItsClass(decisions[..n], i);
      assert decisions[i].id != decisions[n].id;
    }
  }

  /** Each class's decision must be of its kind; an empty one needs a burn destination; any other must add up to one
      within a billionth and pay the burn destination nothing. */
  lemma DecisionAcceptedExactly(c: ClassPolicy, d: Decision, burn: Option<Hotkey>)
    ensures ClassAccepted(c, d, burn) <==>
              && d.kind == c.kind
              && (if d.weights == map[] then burn.Some?
                  else
                    && -0.000_000_001 <= SumOf(d.weights.Keys, d.weights) - 1.0 <= 0.000_000_001
                    && forall h :: h in d.weights ==> burn != Some(h))
  {
  }

  predicate IsPaid(d: Decision, burn: Option<Hotkey>, h: Hotkey) {
    if d.weights == map[] then burn == Some(h) else h in d.weights
  }

  lemma {:induction false} PayeesExactly(classes: seq<ClassPolicy>, byId: map<ClassId, Decision>, burn: Option<Hotkey>,
                                         h: Hotkey)
    requires Covers(byId, classes)
    ensures h in AllPayees(classes, byId, burn) <==>
              exists i :: 0 <= i < |classes| && IsPaid(byId[classes[i].id], burn, h)
    ensures h !in AllPayees(classes, byId, burn) ==> Owed(classes, byId, burn, h) == 0.0
  {
    if classes != [] {
      var n := |classes| - 1;
      PayeesExactly(classes[..n], byId, burn, h);
      assert forall i :: 0 <= i < n ==> classes[..n][i] == classes[i];
    }
  }

  /** Composed are just those who are owed something. */
  lemma ComposedExactly(p: Policy, byId: map<ClassId, Decision>, h: Hotkey)
    requires ValidPolicy(p) && Covers(byId, p.classes) && AllAccepted(p.classes, byId, p.burn)
    ensures h in Composed(p, byId) <==> Owed(p.classes, byId, p.burn, h) > 0.0
  {
    PayeesExactly(p.classes, byId, p.burn, h);
  }

  /** Each weight `q` is what is owed, `a`, over the total owed. */
  lemma ComposedIsOwedOverTotal(p: Policy, byId: map<ClassId, Decision>, owed: Scores, h: Hotkey, q: real, a: real,
                                total: real)
    requires ValidPolicy(p) && Covers(byId, p.classes) && AllAccepted(p.classes, byId, p.burn)
    requires owed.Keys == AllPayees(p.classes, byId, p.burn) && total == SumOf(owed.Keys, owed)
    requires forall g :: g in owed ==> owed[g] == Owed(p.classes, byId, p.burn, g)
    requires h in Composed(p, byId) && q == Composed(p, byId)[h] && a == Owed(p.classes, byId, p.burn, h)
    ensures q * total == a
  {
    assert Final(p.classes, byId, p.burn) == owed;
    ConservationNeverFails(p, byId);
    DividedBack(q, a, total);
  }

  lemma DividedBack(q: real, a: real, t: real)
    requires t != 0.0 && q == Over(a, t)
    ensures q * t == a
  {
  }

  /** With exactly normalised classes everyone gets exactly what is owed, and the burn destination gets
      exactly the allocations of the empty classes. */
  lemma ExactShares(p: Policy, byId: map<ClassId, Decision>, h: Hotkey)
    requires ValidPolicy(p) && Covers(byId, p.classes) && AllAccepted(p.classes, byId, p.burn)
    requires ExactlyNormalized(byId)
    ensures h in Composed(p, byId) ==> Composed(p, byId)[h] == Owed(p.classes, byId, p.burn, h)
    ensures p.burn == Some(h) ==>
              Owed(p.classes, byId, p.burn, h) == EmptyAllocation(p.classes, byId)
              && (h in Composed(p, byId) <==> EmptyAllocation(p.classes, byId) > 0.0)
  {
    var f := Final(p.classes, byId, p.burn);
    OwedIsHanded(p.classes, byId, p.burn);
    HandedExactly(p.classes, byId);
    if h in Composed(p, byId) {
      OverTimes(f[h], 1.0);
      TimesOne(Over(f[h], 1.0));
    }
    if p.burn == Some(h) {
      BurnIsOwedEmpties(p.classes, byId, h);
      if h !in f {
        OwedOutsidePayees(p.classes, byId, p.burn, h);
      }
    }
  }

  // ---------------------------------------------------------------------------------------------
  // Mapping to UIDs.

  datatype VectorError = NegativeWeight

  function UidOf(peers: seq<Peer>): map<Hotkey, int> {
    if peers == [] then map[]
    else UidOf(peers[..|peers| - 1])[peers[|peers| - 1].hotkey := peers[|peers| - 1].uid]
  }

  lemma {:induction false} UidOfLists(peers: seq<Peer>)
    requires DistinctPeers(peers)
    ensures forall i :: 0 <= i < |peers| ==>
              peers[i].hotkey in UidOf(peers) && UidOf(peers)[peers[i].hotkey] == peers[i].uid
    ensures forall h :: h in UidOf(peers) ==>
              exists i :: 0 <= i < |peers| && peers[i].hotkey == h && peers[i].uid == UidOf(peers)[h]
    ensures forall g, h :: g in UidOf(peers) && h in UidOf(peers) && UidOf(peers)[g] == UidOf(peers)[h] ==> g == h
  {
    if peers != [] {
      UidOfLists(peers[..|peers| - 1]);
    }
  }

  /** The positively weighted hotkeys that are in the metagraph. */
  ghost function Present(weights: Scores, peers: seq<Peer>): set<Hotkey> {
    set h | h in weights && h in UidOf(peers) && weights[h] > 0.0
  }

  datatype Entry = Entry(uid: int, weight: real)

  predicate SortedByUid(s: seq<Entry>) {
    forall i, j :: 0 <= i < j < |s| ==> s[i].uid < s[j].uid
  }

  /** Where a new entry goes among entries sorted by UID. */
  function Place(s: seq<Entry>, uid: int): (k: nat)
    ensures k <= |s|
    ensures forall i :: 0 <= i < k ==> s[i].uid < uid
    ensures k < |s| ==> uid <= s[k].uid
  {
    if s == [] || uid <= s[0].uid then 0 else 1 + Place(s[1..], uid)
  }

  function InsertAt<T>(s: seq<T>, k: nat, x: T): seq<T>
    requires k <= |s|
  {
    s[..k] + [x] + s[k..]
  }

  lemma InsertedSorted(s: seq<Entry>, e: Entry)
    requires SortedByUid(s) && forall i :: 0 <= i < |s| ==> s[i].uid != e.uid
    ensures SortedByUid(InsertAt(s, Place(s, e.uid), e))
  {
    var k := Place(s, e.uid);
    var longer := InsertAt(s, k, e);
    forall i, j | 0 <= i < j < |longer|
      ensures longer[i].uid < longer[j].uid
    {
      InsertedIndex(s, k, e, i);
      InsertedIndex(s, k, e, j);
      if i == k {
        assert e.uid <= s[k].uid <= s[j - 1].uid;
      }
    }
  }

  lemma InsertedIndex<T>(s: seq<T>, k: nat, x: T, i: nat)
    requires k <= |s| && i <= |s|
    ensures InsertAt(s, k, x)[i] == if i < k then s[i] else if i == k then x else s[i - 1]
  {
  }

  function SumEntries(s: seq<Entry>): real {
    if s == [] then 0.0 else SumEntries(s[..|s| - 1]) + s[|s| - 1].weight
  }

  lemma {:induction false} SumEntriesConcat(a: seq<Entry>, b: seq<Entry>)
    ensures SumEntries(a + b) == SumEntries(a) + SumEntries(b)
    decreases |b|
  {
    if b == [] {
      assert a + b == a;
    } else {
      SumEntriesConcat(a, b[..|b| - 1]);
      assert (a + b)[..|a + b| - 1] == a + b[..|b| - 1];
    }
  }

  lemma InsertedSum(s: seq<Entry>, k: nat, e: Entry)
    requires k <= |s|
    ensures SumEntries(InsertAt(s, k, e)) == SumEntries(s) + e.weight
  {
    SumEntriesConcat(s[..k] + [e], s[k..]);
    SumEntriesConcat(s[..k], [e]);
    SumEntriesConcat(s[..k], s[k..]);
    assert s == s[..k] + s[k..];
    assert [e][..0] == [];
    assert SumEntries([e]) == e.weight;
  }

  /** A vector that pays each of a set of hotkeys, and no one else, on its own UID. `owners` lists the
      hotkeys in the vector's order. */
  ghost predicate Pays(entries: seq<Entry>, owners: seq<Hotkey>, amounts: Scores, who: set<Hotkey>,
                       uidOf: map<Hotkey, int>)
  {
    && SortedByUid(entries) && |owners| == |entries|
    && (forall i :: 0 <= i < |owners| ==>
          owners[i] in who && owners[i] in uidOf && owners[i] in amounts
          && entries[i] == Entry(uidOf[owners[i]], amounts[owners[i]]))
    && (forall h :: h in who ==> h in owners)
  }

  /** The submitted weights: the present hotkeys' weights as shares of their sum. */
  ghost function Shares(weights: Scores, peers: seq<Peer>): Scores {
    var who := Present(weights, peers);
    map h | h in who :: if SumOf(who, weights) == 0.0 then 0.0 else Over(weights[h], SumOf(who, weights))
  }

  function Divided(pairs: seq<Entry>, total: real): seq<Entry>
    requires total != 0.0
  {
    seq(|pairs|, i requires 0 <= i < |pairs| => Entry(pairs[i].uid, Over(pairs[i].weight, total)))
  }

  ghost function DividedScores(weights: Scores, who: set<Hotkey>, total: real): Scores
    requires total != 0.0 && who <= weights.Keys
  {
    map h | h in who :: Over(weights[h], total)
  }

  lemma DividedPays(pairs: seq<Entry>, owners: seq<Hotkey>, weights: Scores, who: set<Hotkey>, uidOf: map<Hotkey, int>,
                    total: real)
    requires Pays(pairs, owners, weights, who, uidOf) && total != 0.0 && who <= weights.Keys
    ensures Pays(Divided(pairs, total), owners, DividedScores(weights, who, total), who, uidOf)
  {
  }

  method UidVector(weights: Scores, peers: seq<Peer>)
      returns (r: Result<seq<Entry>, VectorError>, ghost owners: seq<Hotkey>)
    requires DistinctPeers(peers)
    ensures r.Err? <==> exists h :: h in weights && h in UidOf(peers) && weights[h] < 0.0
    ensures r.Ok? ==> Pays(r.value, owners, Shares(weights, peers), Present(weights, peers), UidOf(peers))
    ensures r.Ok? ==> forall i, j :: 0 <= i < j < |r.value| ==> r.value[i].uid < r.value[j].uid
  {
    UidOfLists(peers);
    var collected;
    collected, owners := CollectPairs(weights, UidOf(peers), Present(weights, peers));
    if collected.Err? {
      return collected, [];
    }
    var pairs := collected.value;
    if pairs == [] {
      assert forall h :: h in Present(weights, peers) ==> h in owners;
      return Ok([]), [];
    }
    var total := SumEntries(pairs);
    assert owners[0] in Present(weights, peers);
    SumPositive(Present(weights, peers), weights);
    DividedPays(pairs, owners, weights, Present(weights, peers), UidOf(peers), total);
    return Ok(Divided(pairs, total)), owners;
  }

  method CollectPairs(weights: Scores, uidOf: map<Hotkey, int>, ghost who: set<Hotkey>)
      returns (r: Result<seq<Entry>, VectorError>, ghost owners: seq<Hotkey>)
    requires forall g, h :: g in uidOf && h in uidOf && uidOf[g] == uidOf[h] ==> g == h
    requires who == set h | h in weights && h in uidOf && weights[h] > 0.0
    ensures r.Err? <==> exists h :: h in weights && h in uidOf && weights[h] < 0.0
    ensures r.Ok? ==> Pays(r.value, owners, weights, who, uidOf) && SumEntries(r.value) == SumOf(who, weights)
  {
    var pairs: seq<Entry> := [];
    owners := [];
    var todo := weights.Keys;
    while todo != {}
      invariant todo <= weights.Keys
      invariant forall h :: h in weights && h !in todo && h in uidOf ==> weights[h] >= 0.0
      invariant Pays(pairs, owners, weights, who - todo, uidOf)
      invariant SumEntries(pairs) == SumOf(who - todo, weights)
      decreases todo
    {
      var h :| h in todo;
      if h in uidOf && weights[h] < 0.0 {
        return Err(NegativeWeight), [];
      }
      if h in uidOf && weights[h] > 0.0 {
        pairs, owners := AddPair(pairs, owners, weights, uidOf, who - todo, h);
        assert who - (todo - {h}) == who - todo + {h};
      } else {
        assert who - (todo - {h}) == who - todo;
      }
      todo := todo - {h};
    }
    assert who - {} == who;
    return Ok(pairs), owners;
  }

  method AddPair(pairs: seq<Entry>, ghost owners: seq<Hotkey>, weights: Scores, uidOf: map<Hotkey, int>,
                 ghost paid: set<Hotkey>, h: Hotkey) returns (longer: seq<Entry>, ghost more: seq<Hotkey>)
    requires paid <= weights.Keys && Pays(pairs, owners, weights, paid, uidOf)
    requires h in weights && h in uidOf && h !in paid && forall g :: g in uidOf && uidOf[g] == uidOf[h] ==> g == h
    ensures Pays(longer, more, weights, paid + {h}, uidOf)
    ensures SumEntries(pairs) == SumOf(paid, weights) ==> SumEntries(longer) == SumOf(paid + {h}, weights)
  {
    var e := Entry(uidOf[h], weights[h]);
    var k := Place(pairs, e.uid);
    PaysOneMore(pairs, owners, weights, paid, uidOf, h);
    SumAdd(paid, weights, h);
    InsertedSum(pairs, k, e);
    longer := InsertAt(pairs, k, e);
    more := InsertAt(owners, k, h);
  }

  lemma PaysOneMore(pairs: seq<Entry>, owners: seq<Hotkey>, weights: Scores, paid: set<Hotkey>,
                    uidOf: map<Hotkey, int>, h: Hotkey)
    requires Pays(pairs, owners, weights, paid, uidOf) && h in weights && h in uidOf && h !in paid
    requires forall g :: g in uidOf && uidOf[g] == uidOf[h] ==> g == h
    ensures var k := Place(pairs, uidOf[h]);
            Pays(InsertAt(pairs, k, Entry(uidOf[h], weights[h])), InsertAt(owners, k, h), weights, paid + {h}, uidOf)
  {
    var k, e := Place(pairs, uidOf[h]), Entry(uidOf[h], weights[h]);
    PaidElsewhere(pairs, owners, weights, paid, uidOf, h);
    InsertedSorted(pairs, e);
    InsertedMembers(owners, k, h);
    var longer, more := InsertAt(pairs, k, e), InsertAt(owners, k, h);
    forall i | 0 <= i < |more|
      ensures more[i] in paid + {h} && longer[i] == Entry(uidOf[more[i]], weights[more[i]])
    {
      InsertedIndex(owners, k, h, i);
      InsertedIndex(pairs, k, e, i);
    }
  }

  lemma PaidElsewhere(pairs: seq<Entry>, owners: seq<Hotkey>, weights: Scores, paid: set<Hotkey>,
                      uidOf: map<Hotkey, int>, h: Hotkey)
    requires Pays(pairs, owners, weights, paid, uidOf) && h in uidOf && h !in paid
    requires forall g :: g in uidOf && uidOf[g] == uidOf[h] ==> g == h
    ensures forall i :: 0 <= i < |pairs| ==> pairs[i].uid != uidOf[h]
  {
    forall i | 0 <= i < |pairs|
      ensures pairs[i].uid != uidOf[h]
    {
      assert owners[i] in paid;
    }
  }

  lemma InsertedMembers<T>(s: seq<T>, k: nat, x: T)
    requires k <= |s|
    ensures forall g :: g in InsertAt(s, k, x) <==> g in s || g == x
  {
    assert s == s[..k] + s[k..];
  }

  /** Mapping to UIDs keeps the ratios of the weights: `x` and `y` are the shares of the weights `a` and `b`. */
  lemma SharesKeepRatios(weights: Scores, peers: seq<Peer>, g: Hotkey, h: Hotkey, x: real, y: real, a: real, b: real)
    requires DistinctPeers(peers) && g in Present(weights, peers) && h in Present(weights, peers)
    requires x == Shares(weights, peers)[g] && y == Shares(weights, peers)[h] && a == weights[g] && b == weights[h]
    ensures x * b == y * a
  {
    var total := SumOf(Present(weights, peers), weights);
    SumPositive(Present(weights, peers), weights);
    SameDivisor(x, y, a, b, total);
  }

  lemma SameDivisor(x: real, y: real, a: real, b: real, total: real)
    requires total > 0.0 && x == Over(a, total) && y == Over(b, total)
    ensures x * b == y * a
  {
    OverAsTimes(a, total);
    OverAsTimes(b, total);
    Proportional(Over(1.0, total), a, b);
  }

  /** Mapping to UIDs keeps every share exactly when no weighted hotkey is missing from the metagraph:
      each present hotkey then submits its composed weight, and otherwise strictly more. */
  lemma SharesKeptExactlyWhenAllPresent(weights: Scores, peers: seq<Peer>, h: Hotkey)
    requires DistinctPeers(peers) && h in Present(weights, peers)
    requires (forall g :: g in weights ==> weights[g] > 0.0) && SumOf(weights.Keys, weights) == 1.0
    ensures SumOf(Present(weights, peers), Shares(weights, peers)) == 1.0
    ensures Shares(weights, peers)[h] >= weights[h]
    ensures Shares(weights, peers)[h] == weights[h] <==> weights.Keys == Present(weights, peers)
  {
    var who := Present(weights, peers);
    var missing := weights.Keys - who;
    SumUnion(missing, who, weights);
    assert missing + who == weights.Keys;
    SumPositive(missing, weights);
    SumPositive(who, weights);
    var total := SumOf(who, weights);
    ShareSum(who, weights, Shares(weights, peers), total);
    SmallerDivisorLargerShare(weights[h], total);
    assert weights.Keys == who <==> missing == {};
  }

  lemma SmallerDivisorLargerShare(w: real, total: real)
    requires w > 0.0 && 0.0 < total <= 1.0
    ensures Over(w, total) >= w
    ensures Over(w, total) == w <==> total == 1.0
  {
    var q := Over(w, total);
    OverTimes(w, total);
    OverPositive(w, total);
    TimesNonNegative(q, 1.0 - total);
    Distribute(q, 1.0, total);
    TimesOne(q);
  }
}
