/** Aggregation of a bundle's receipts per miner (`cathedral_thin/ml_receipts.py`). Work is counted in units
    of 10 to the power -12, so that sums are exact. */
module Aggregation {
  import opened Prelude
  import opened Decimals
  import opened Amounts
  import opened Receipts
  import opened Sums

  /** The source keeps the ids and digests in sorted lists; of distinct values a set says the same. */
  datatype Row = Row(
    work: nat, requests: nat, inputTokens: nat, outputTokens: nat, receipts: set<Digest>, models: set<Digest>,
    images: set<Digest>, runners: set<Digest>)

  datatype Total = Total(work: string, row: Row)

  datatype AggregateError = Duplicate | ExceedsFormat

  const EMPTY_ROW := Row(0, 0, 0, 0, {}, {}, {}, {})

  function AddTo(row: Row, r: Receipt): Row {
    var f := r.facts;
    Row(row.work + f.work, row.requests + 1, row.inputTokens + f.inputTokens, row.outputTokens + f.outputTokens,
        row.receipts + {r.id}, row.models + {f.model}, row.images + {f.image}, row.runners + {f.runner})
  }

  predicate Counts(r: Receipt, miner: Hotkey) {
    r.facts.attested && r.facts.request.miner == miner
  }

  function RowFor(receipts: seq<Receipt>, miner: Hotkey): Row {
    if receipts == [] then EMPTY_ROW
    else
      var front, last := RowFor(receipts[..|receipts| - 1], miner), receipts[|receipts| - 1];
      if Counts(last, miner) then AddTo(front, last) else front
  }

  function Miners(receipts: seq<Receipt>): set<Hotkey> {
    set i | 0 <= i < |receipts| && receipts[i].facts.attested :: receipts[i].facts.request.miner
  }

  function Rows(receipts: seq<Receipt>): map<Hotkey, Row> {
    map m | m in Miners(receipts) :: RowFor(receipts, m)
  }

  function Finish(row: Row): Option<Total> {
    var work := CanonicalDecimal(row.work);
    if work.None? then None else Some(Total(work.value, row))
  }

  predicate AllFinish(rows: map<Hotkey, Row>) {
    forall m :: m in rows ==> Finish(rows[m]).Some?
  }

  function Finished(rows: map<Hotkey, Row>): map<Hotkey, Total>
    requires AllFinish(rows)
  {
    map m | m in rows :: Finish(rows[m]).value
  }

  function Totals(rows: map<Hotkey, Row>): Result<map<Hotkey, Total>, AggregateError> {
    if AllFinish(rows) then Ok(Finished(rows)) else Err(ExceedsFormat)
  }

  function Aggregate(receipts: seq<Receipt>): Result<map<Hotkey, Total>, AggregateError> {
    if !NoIdTwice(receipts) then Err(Duplicate) else Totals(Rows(receipts))
  }

  function Ids(receipts: seq<Receipt>): set<Digest> {
    set i | 0 <= i < |receipts| :: receipts[i].id
  }

  method AggregateReceipts(receipts: seq<Receipt>) returns (r: Result<map<Hotkey, Total>, AggregateError>)
    ensures r == Aggregate(receipts)
  {
    var rows: map<Hotkey, Row> := map[];
    var seenReceipts: set<Digest>, seenRequests: set<Digest> := {}, {};
    for i := 0 to |receipts|
      invariant seenReceipts == Ids(receipts[..i]) && seenRequests == RequestIds(receipts[..i])
      invariant NoIdTwice(receipts[..i])
      invariant rows == Rows(receipts[..i])
    {
      var receipt := receipts[i];
      assert receipts[..i + 1] == receipts[..i] + [receipt];
      if receipt.id in seenReceipts || receipt.facts.requestId in seenRequests {
        RepeatedId(receipts, i);
        return Err(Duplicate);
      }
      StillNoIdTwice(receipts[..i], receipt);
      seenReceipts := seenReceipts + {receipt.id};
      seenRequests := seenRequests + {receipt.facts.requestId};
      OneMoreRow(receipts[..i], receipt);
      if !receipt.facts.attested {
        continue;
      }
      var miner := receipt.facts.request.miner;
      var row := if miner in rows then rows[miner] else EMPTY_ROW;
      rows := rows[miner := AddTo(row, receipt)];
    }
    assert receipts[..|receipts|] == receipts;
    r := RenderTotals(rows);
  }

  method RenderTotals(rows: map<Hotkey, Row>) returns (r: Result<map<Hotkey, Total>, AggregateError>)
    ensures r == Totals(rows)
  {
    var left, totals: map<Hotkey, Total> := rows.Keys, map[];
    while left != {}
      invariant left <= rows.Keys && totals.Keys == rows.Keys - left
      invariant forall m :: m in totals ==> Finish(rows[m]) == Some(totals[m])
      decreases |left|
    {
      var m :| m in left;
      var finished := Finish(rows[m]);
      if finished.None? {
        assert !AllFinish(rows);
        return Err(ExceedsFormat);
      }
      totals := totals[m := finished.value];
      left := left - {m};
    }
    TotalsAre(rows, totals);
    return Ok(totals);
  }

  lemma TotalsAre(rows: map<Hotkey, Row>, totals: map<Hotkey, Total>)
    requires totals.Keys == rows.Keys && forall m :: m in totals ==> Finish(rows[m]) == Some(totals[m])
    ensures Totals(rows) == Ok(totals)
  {
    assert totals == Finished(rows);
  }

  lemma RepeatedId(receipts: seq<Receipt>, i: nat)
    requires i < |receipts|
    requires receipts[i].id in Ids(receipts[..i]) || receipts[i].facts.requestId in RequestIds(receipts[..i])
    ensures !NoIdTwice(receipts)
  {
    if receipts[i].id in Ids(receipts[..i]) {
      var k :| 0 <= k < i && receipts[..i][k].id == receipts[i].id;
      assert receipts[k].id == receipts[i].id;
    } else {
      var k :| 0 <= k < i && receipts[..i][k].facts.requestId == receipts[i].facts.requestId;
      assert receipts[k].facts.requestId == receipts[i].facts.requestId;
    }
  }

  lemma StillNoIdTwice(front: seq<Receipt>, r: Receipt)
    requires NoIdTwice(front) && r.id !in Ids(front) && r.facts.requestId !in RequestIds(front)
    ensures NoIdTwice(front + [r])
    ensures Ids(front + [r]) == Ids(front) + {r.id}
            && RequestIds(front + [r]) == RequestIds(front) + {r.facts.requestId}
  {
    OneMoreRequest(front, r);
    OneMoreId(front, r);
    forall i | 0 <= i < |front|
      ensures front[i].id != r.id && front[i].facts.requestId != r.facts.requestId
    {
      assert front[i].id in Ids(front) && front[i].facts.requestId in RequestIds(front);
    }
  }

  lemma OneMoreId(front: seq<Receipt>, r: Receipt)
    ensures Ids(front + [r]) == Ids(front) + {r.id}
  {
    var more := front + [r];
    assert more[|front|] == r;
    forall id | id in Ids(front)
      ensures id in Ids(more)
    {
      var i :| 0 <= i < |front| && front[i].id == id;
      assert more[i].id == id;
    }
  }

  lemma {:induction false} NoRowWithoutMiner(receipts: seq<Receipt>, miner: Hotkey)
    requires miner !in Miners(receipts)
    ensures RowFor(receipts, miner) == EMPTY_ROW
  {
    if receipts != [] {
      var front, last := receipts[..|receipts| - 1], receipts[|receipts| - 1];
      MinersOfMore(front, last);
      assert receipts == front + [last];
      NoRowWithoutMiner(front, miner);
    }
  }

  lemma MinersOfMore(front: seq<Receipt>, r: Receipt)
    ensures Miners(front + [r]) == Miners(front) + if r.facts.attested then {r.facts.request.miner} else {}
  {
    var more := front + [r];
    assert more[|front|] == r;
    assert forall i :: 0 <= i < |front| ==> more[i] == front[i];
    forall m | m in Miners(front)
      ensures m in Miners(more)
    {
      var i :| 0 <= i < |front| && front[i].facts.attested && front[i].facts.request.miner == m;
      assert more[i].facts.request.miner == m;
    }
  }

  lemma OneMoreRow(front: seq<Receipt>, r: Receipt)
    ensures Rows(front + [r]) ==
            if !r.facts.attested then Rows(front)
            else
              var m := r.facts.request.miner;
              Rows(front)[m := AddTo(if m in Rows(front) then Rows(front)[m] else EMPTY_ROW, r)]
  {
    MinersOfMore(front, r);
    assert (front + [r])[..|front|] == front;
    if r.facts.attested && r.facts.request.miner !in Miners(front) {
      NoRowWithoutMiner(front, r.facts.request.miner);
    }
  }

  // ---------------------------------------------------------------------------------------------
  // Order does not matter.

  lemma {:induction false} RowForMoves(front: seq<Receipt>, r: Receipt, back: seq<Receipt>, miner: Hotkey)
    ensures RowFor(front + [r] + back, miner) == RowFor(front + back + [r], miner)
    decreases |back|
  {
    if back == [] {
      assert front + [r] + back == front + back + [r];
    } else {
      var rest, last := back[..|back| - 1], back[|back| - 1];
      RowForMoves(front, r, rest, miner);
      RowForMore(front + [r] + rest, last, miner);
      assert front + [r] + back == front + [r] + rest + [last];
      RowForMore(front + rest, r, miner);
      RowForMore(front + rest, last, miner);
      RowForMore(front + rest + [last], r, miner);
      assert front + back == front + rest + [last];
    }
  }

  lemma RowForMore(front: seq<Receipt>, r: Receipt, miner: Hotkey)
    ensures RowFor(front + [r], miner) == if Counts(r, miner) then AddTo(RowFor(front, miner), r)
                                          else RowFor(front, miner)
  {
    assert (front + [r])[..|front|] == front;
  }

  lemma TakeOut<T>(front: seq<T>, r: T, b: seq<T>) returns (x: seq<T>, y: seq<T>)
    requires multiset(front + [r]) == multiset(b)
    ensures b == x + [r] + y && multiset(front) == multiset(x + y)
  {
    assert r in multiset(front + [r]);
    var i :| 0 <= i < |b| && b[i] == r;
    x, y := b[..i], b[i + 1..];
    assert b == x + [r] + y;
    Drop(front, r, x, y);
  }

  lemma Drop<T>(front: seq<T>, r: T, x: seq<T>, y: seq<T>)
    requires multiset(front + [r]) == multiset(x + [r] + y)
    ensures multiset(front) == multiset(x + y)
  {
    assert multiset(front + [r]) == multiset(front) + multiset{r};
    assert multiset(x + [r] + y) == multiset(x + y) + multiset{r};
    assert multiset(front) + multiset{r} - multiset{r} == multiset(front);
    assert multiset(x + y) + multiset{r} - multiset{r} == multiset(x + y);
  }

  lemma {:induction false} RowForPermuted(a: seq<Receipt>, b: seq<Receipt>, miner: Hotkey)
    requires multiset(a) == multiset(b)
    ensures RowFor(a, miner) == RowFor(b, miner)
    decreases |a|
  {
    if a == [] {
      assert |multiset(b)| == 0;
    } else {
      var front, r := a[..|a| - 1], a[|a| - 1];
      assert a == front + [r];
      var x, y := TakeOut(front, r, b);
      RowForPermuted(front, x + y, miner);
      RowForMoves(x, r, y, miner);
      RowForMore(front, r, miner);
      RowForMore(x + y, r, miner);
    }
  }

  lemma MinersByMembers(a: seq<Receipt>, b: seq<Receipt>)
    requires forall r :: r in a ==> r in b
    ensures Miners(a) <= Miners(b)
  {
    forall m | m in Miners(a)
      ensures m in Miners(b)
    {
      var i :| 0 <= i < |a| && a[i].facts.attested && a[i].facts.request.miner == m;
      assert a[i] in b;
    }
  }

  lemma {:induction false} DistinctByMultiset(a: seq<Receipt>, b: seq<Receipt>)
    requires multiset(a) == multiset(b) && NoIdTwice(a)
    ensures NoIdTwice(b)
    decreases |a|
  {
    SameMembers(a, b);
    forall i, j | 0 <= i < j < |b|
      ensures b[i].id != b[j].id && b[i].facts.requestId != b[j].facts.requestId
    {
      assert b[i] in a && b[j] in a;
      if b[i] == b[j] {
        TwiceInMultiset(b, i, j);
        OnceInMultiset(a, b[i]);
      }
    }
  }

  lemma TwiceInMultiset(b: seq<Receipt>, i: nat, j: nat)
    requires i < j < |b| && b[i] == b[j]
    ensures multiset(b)[b[i]] >= 2
  {
    assert b == b[..i] + [b[i]] + b[i + 1..j] + [b[j]] + b[j + 1..];
  }

  lemma OnceInMultiset(a: seq<Receipt>, r: Receipt)
    requires NoIdTwice(a)
    ensures multiset(a)[r] <= 1
  {
    if r in a {
      var i :| 0 <= i < |a| && a[i] == r;
      assert a == a[..i] + [r] + a[i + 1..];
      assert forall k :: 0 <= k < i ==> a[k] != r;
      assert forall k :: i < k < |a| ==> a[k] != r;
      assert r !in a[..i] && r !in a[i + 1..];
      assert multiset(a) == multiset(a[..i]) + multiset{r} + multiset(a[i + 1..]);
    }
  }

  /** The aggregate depends only on which receipts there are. */
  lemma OrderIsIrrelevant(a: seq<Receipt>, b: seq<Receipt>)
    requires multiset(a) == multiset(b)
    ensures Aggregate(a) == Aggregate(b)
  {
    if NoIdTwice(a) {
      DistinctByMultiset(a, b);
    }
    if NoIdTwice(b) {
      DistinctByMultiset(b, a);
    }
    SameMembers(a, b);
    MinersByMembers(a, b);
    MinersByMembers(b, a);
    assert Rows(a) == Rows(b) by {
      forall m | m in Miners(a)
        ensures RowFor(a, m) == RowFor(b, m)
      {
        RowForPermuted(a, b, m);
      }
    }
  }

  // ---------------------------------------------------------------------------------------------
  // Totals are conserved and fit the format.

  /** What a counter gains from the attested receipts among some. */
  function Gained(receipts: seq<Receipt>, gain: Receipt -> nat): nat {
    if receipts == [] then 0
    else
      var front, last := Gained(receipts[..|receipts| - 1], gain), receipts[|receipts| - 1];
      if last.facts.attested then front + gain(last) else front
  }

  function Column(rows: map<Hotkey, Row>, counter: Row -> nat): map<Hotkey, real> {
    map m | m in rows :: counter(rows[m]) as real
  }

  ghost predicate IsCounter(counter: Row -> nat, gain: Receipt -> nat) {
    counter(EMPTY_ROW) == 0 && forall row, r :: counter(AddTo(row, r)) == counter(row) + gain(r)
  }

  /** Over all miners, every counter adds up to exactly what the attested receipts bring to it. */
  lemma {:induction false} CountersAreConserved(receipts: seq<Receipt>, counter: Row -> nat, gain: Receipt -> nat)
    requires IsCounter(counter, gain)
    ensures SumOf(Miners(receipts), Column(Rows(receipts), counter)) == Gained(receipts, gain) as real
  {
    var now := Column(Rows(receipts), counter);
    if receipts == [] {
      assert Miners(receipts) == {};
    } else {
      var front, r := receipts[..|receipts| - 1], receipts[|receipts| - 1];
      assert receipts == front + [r];
      CountersAreConserved(front, counter, gain);
      OneMoreRow(front, r);
      MinersOfMore(front, r);
      if r.facts.attested {
        ColumnGains(front, r, counter, gain);
      } else {
        assert Miners(receipts) == Miners(front);
      }
    }
  }

  lemma ColumnGains(front: seq<Receipt>, r: Receipt, counter: Row -> nat, gain: Receipt -> nat)
    requires IsCounter(counter, gain) && r.facts.attested
    ensures SumOf(Miners(front + [r]), Column(Rows(front + [r]), counter))
            == SumOf(Miners(front), Column(Rows(front), counter)) + gain(r) as real
  {
    var m, s := r.facts.request.miner, Miners(front);
    var before, now := Column(Rows(front), counter), Column(Rows(front + [r]), counter);
    OneMoreRow(front, r);
    MinersOfMore(front, r);
    SumRemove(Miners(front + [r]), now, m);
    assert Miners(front + [r]) - {m} == s - {m};
    SumAgree(s - {m}, before, now);
    if m in s {
      SumRemove(s, before, m);
      assert now[m] == before[m] + gain(r) as real;
    } else {
      assert s - {m} == s;
      assert now[m] == gain(r) as real;
    }
  }

  function Work(row: Row): nat {
    row.work
  }

  function WorkOf(r: Receipt): nat {
    r.facts.work
  }

  /** For the verified work units in particular. */
  lemma WorkIsConserved(receipts: seq<Receipt>)
    ensures SumOf(Miners(receipts), Column(Rows(receipts), Work)) == Gained(receipts, WorkOf) as real
  {
    CountersAreConserved(receipts, Work, WorkOf);
  }

  lemma {:induction false} WorkIsBounded(receipts: seq<Receipt>, miner: Hotkey, limit: nat)
    requires forall i :: 0 <= i < |receipts| ==> receipts[i].facts.work <= limit
    ensures RowFor(receipts, miner).work <= |receipts| * limit
  {
    if receipts != [] {
      WorkIsBounded(receipts[..|receipts| - 1], miner, limit);
      assert |receipts| * limit == (|receipts| - 1) * limit + limit;
    }
  }

  lemma LimitFits(n: nat, places: nat)
    requires n <= MAX_BUNDLE_RECEIPTS && places == 24
    ensures n * Pow10(places) < Pow10(MAX_WHOLE_DIGITS + PLACES)
  {
    PowAdds(4, places);
    PowGrows(places + 4, MAX_WHOLE_DIGITS + PLACES);
    assert Pow10(4) == 10000;
    Scale(n, 10000, Pow10(places));
  }

  lemma Scale(n: nat, m: nat, p: nat)
    requires n <= m
    ensures n * p <= m * p
  {
  }

  /** Aggregating a verified bundle never fails, and every total reads back as the exact sum. */
  lemma VerifiedBundleAggregates(b: Bundle, s: Setting, checkpoint: Option<Checkpoint>)
    requires Verify(b, s, checkpoint).Ok?
    ensures var receipts := Verify(b, s, checkpoint).value.receipts;
            && Aggregate(receipts).Ok? && Aggregate(receipts).value.Keys == Miners(receipts)
            && forall m :: m in Miners(receipts) ==>
                 var total := Aggregate(receipts).value[m];
                 total.row == RowFor(receipts, m) && ReadAmount(total.work) == Some(RowFor(receipts, m).work)
  {
    var receipts := Verify(b, s, checkpoint).value.receipts;
    VerifiedIsAdmissible(b, s, checkpoint);
    forall m | m in Miners(receipts)
      ensures Finish(RowFor(receipts, m)).Some?
      ensures ReadAmount(Finish(RowFor(receipts, m)).value.work) == Some(RowFor(receipts, m).work)
    {
      TotalFits(receipts, m);
    }
  }

  lemma TotalFits(receipts: seq<Receipt>, miner: Hotkey)
    requires |receipts| <= MAX_BUNDLE_RECEIPTS
             && forall i :: 0 <= i < |receipts| ==> receipts[i].facts.work <= MaxWork()
    ensures var total := Finish(RowFor(receipts, miner));
            total.Some? && total.value.row == RowFor(receipts, miner)
            && ReadAmount(total.value.work) == Some(RowFor(receipts, miner).work)
  {
    WorkIsBounded(receipts, miner, MaxWork());
    LimitFits(|receipts|, 24);
    CanonicalRoundTrip(RowFor(receipts, miner).work);
  }

  // ---------------------------------------------------------------------------------------------
  // A row is its receipts.

  /** The places of a miner's attested receipts. */
  function Mine(receipts: seq<Receipt>, miner: Hotkey): set<int> {
    set i | 0 <= i < |receipts| && receipts[i].facts.attested && receipts[i].facts.request.miner == miner
  }

  function Gains(receipts: seq<Receipt>, miner: Hotkey, gain: Receipt -> nat): map<int, real> {
    map i | i in Mine(receipts, miner) :: gain(receipts[i]) as real
  }

  lemma MineOfMore(front: seq<Receipt>, r: Receipt, miner: Hotkey)
    ensures Mine(front + [r], miner)
            == Mine(front, miner) + if r.facts.attested && r.facts.request.miner == miner then {|front|} else {}
    ensures |front| !in Mine(front, miner)
  {
    assert (front + [r])[|front|] == r;
    assert forall i :: 0 <= i < |front| ==> (front + [r])[i] == front[i];
  }

  lemma {:induction false} CounterIsSum(receipts: seq<Receipt>, miner: Hotkey, counter: Row -> nat,
                                        gain: Receipt -> nat)
    requires IsCounter(counter, gain)
    ensures counter(RowFor(receipts, miner)) as real == SumOf(Mine(receipts, miner), Gains(receipts, miner, gain))
  {
    if receipts == [] {
      assert Mine(receipts, miner) == {};
    } else {
      var front, r := receipts[..|receipts| - 1], receipts[|receipts| - 1];
      assert receipts == front + [r];
      CounterIsSum(front, miner, counter, gain);
      MineOfMore(front, r, miner);
      var before, now := Gains(front, miner, gain), Gains(receipts, miner, gain);
      assert forall i :: i in Mine(front, miner) ==> receipts[i] == front[i];
      SumAgree(Mine(front, miner), before, now);
      if Counts(r, miner) {
        SumAdd(Mine(front, miner), now, |front|);
      } else {
        assert Mine(receipts, miner) == Mine(front, miner);
      }
    }
  }

  ghost predicate IsCollection(collection: Row -> set<Digest>, item: Receipt -> Digest) {
    collection(EMPTY_ROW) == {} && forall row, r :: collection(AddTo(row, r)) == collection(row) + {item(r)}
  }

  lemma {:induction false} CollectedExactly(receipts: seq<Receipt>, miner: Hotkey, collection: Row -> set<Digest>,
                                           item: Receipt -> Digest, d: Digest)
    requires IsCollection(collection, item)
    ensures d in collection(RowFor(receipts, miner)) <==>
              exists i :: i in Mine(receipts, miner) && item(receipts[i]) == d
  {
    if receipts != [] {
      var front, r := receipts[..|receipts| - 1], receipts[|receipts| - 1];
      assert receipts == front + [r];
      CollectedExactly(front, miner, collection, item, d);
      MineOfMore(front, r, miner);
      assert forall i :: i in Mine(front, miner) ==> receipts[i] == front[i];
      if Counts(r, miner) {
        assert |front| in Mine(receipts, miner) && receipts[|front|] == r;
      }
    }
  }

  lemma {:induction false} RequestsAreCounted(receipts: seq<Receipt>, miner: Hotkey)
    ensures RowFor(receipts, miner).requests == |Mine(receipts, miner)|
  {
    if receipts != [] {
      var front, r := receipts[..|receipts| - 1], receipts[|receipts| - 1];
      assert receipts == front + [r];
      RequestsAreCounted(front, miner);
      MineOfMore(front, r, miner);
    }
  }

  function InputIn(row: Row): nat {
    row.inputTokens
  }

  function InputOf(r: Receipt): nat {
    r.facts.inputTokens
  }

  function OutputIn(row: Row): nat {
    row.outputTokens
  }

  function OutputOf(r: Receipt): nat {
    r.facts.outputTokens
  }

  /** A miner's row counts its attested receipts, and adds up their work and tokens. */
  lemma RowCounts(receipts: seq<Receipt>, miner: Hotkey)
    ensures var (row, mine) := (RowFor(receipts, miner), Mine(receipts, miner));
            && row.requests == |mine|
            && row.work as real == SumOf(mine, map i | i in mine :: receipts[i].facts.work as real)
            && row.inputTokens as real == SumOf(mine, map i | i in mine :: receipts[i].facts.inputTokens as real)
            && row.outputTokens as real == SumOf(mine, map i | i in mine :: receipts[i].facts.outputTokens as real)
  {
    RequestsAreCounted(receipts, miner);
    WorkAdds(receipts, miner);
    InputAdds(receipts, miner);
    OutputAdds(receipts, miner);
  }

  lemma WorkAdds(receipts: seq<Receipt>, miner: Hotkey)
    ensures var mine := Mine(receipts, miner);
            RowFor(receipts, miner).work as real == SumOf(mine, map i | i in mine :: receipts[i].facts.work as real)
  {
    var mine := Mine(receipts, miner);
    CounterIsSum(receipts, miner, Work, WorkOf);
    assert Gains(receipts, miner, WorkOf) == map i | i in mine :: receipts[i].facts.work as real;
  }

  lemma InputAdds(receipts: seq<Receipt>, miner: Hotkey)
    ensures var mine := Mine(receipts, miner);
            RowFor(receipts, miner).inputTokens as real
            == SumOf(mine, map i | i in mine :: receipts[i].facts.inputTokens as real)
  {
    var mine := Mine(receipts, miner);
    CounterIsSum(receipts, miner, InputIn, InputOf);
    assert Gains(receipts, miner, InputOf) == map i | i in mine :: receipts[i].facts.inputTokens as real;
  }

  lemma OutputAdds(receipts: seq<Receipt>, miner: Hotkey)
    ensures var mine := Mine(receipts, miner);
            RowFor(receipts, miner).outputTokens as real
            == SumOf(mine, map i | i in mine :: receipts[i].facts.outputTokens as real)
  {
    var mine := Mine(receipts, miner);
    CounterIsSum(receipts, miner, OutputIn, OutputOf);
    assert Gains(receipts, miner, OutputOf) == map i | i in mine :: receipts[i].facts.outputTokens as real;
  }

  /** It lists just their ids, models, images and runners. */
  lemma RowLists(receipts: seq<Receipt>, miner: Hotkey, d: Digest)
    ensures var (row, mine) := (RowFor(receipts, miner), Mine(receipts, miner));
            && (d in row.receipts <==> exists i :: i in mine && receipts[i].id == d)
            && (d in row.models <==> exists i :: i in mine && receipts[i].facts.model == d)
            && (d in row.images <==> exists i :: i in mine && receipts[i].facts.image == d)
            && (d in row.runners <==> exists i :: i in mine && receipts[i].facts.runner == d)
  {
    CollectedExactly(receipts, miner, (row: Row) => row.receipts, (r: Receipt) => r.id, d);
    CollectedExactly(receipts, miner, (row: Row) => row.models, (r: Receipt) => r.facts.model, d);
    CollectedExactly(receipts, miner, (row: Row) => row.images, (r: Receipt) => r.facts.image, d);
    CollectedExactly(receipts, miner, (row: Row) => row.runners, (r: Receipt) => r.facts.runner, d);
  }

  /** Aggregation refuses a repeated receipt or request, and a total that the format has no room for; otherwise
      every miner with an attested receipt, and nobody else, has its row, with its work as a decimal. */
  lemma AggregatedExactly(receipts: seq<Receipt>, digits: nat)
    requires digits == 42
    ensures var r := Aggregate(receipts);
            var repeated := exists i, j ::
              0 <= i < j < |receipts|
              && (receipts[i].id == receipts[j].id || receipts[i].facts.requestId == receipts[j].facts.requestId);
            && (r == Err(Duplicate) <==> repeated)
            && (r == Err(ExceedsFormat) <==>
                  !repeated && exists m :: Mine(receipts, m) != {} && RowFor(receipts, m).work >= Pow10(digits))
            && (r.Ok? ==>
                  && (forall m :: m in r.value <==> Mine(receipts, m) != {})
                  && forall m :: m in r.value ==>
                       r.value[m].row == RowFor(receipts, m)
                       && ReadAmount(r.value[m].work) == Some(RowFor(receipts, m).work))
  {
    FinishedExactly(receipts, digits);
    forall m
      ensures m in Miners(receipts) <==> Mine(receipts, m) != {}
    {
      MinersHaveReceipts(receipts, m);
    }
  }

  lemma FinishedExactly(receipts: seq<Receipt>, digits: nat)
    requires digits == MAX_WHOLE_DIGITS + PLACES
    ensures var r := Totals(Rows(receipts));
            && (r.Err? ==> r.error == ExceedsFormat)
            && (r.Err? <==> exists m :: m in Miners(receipts) && RowFor(receipts, m).work >= Pow10(digits))
            && (r.Ok? ==>
                  && r.value.Keys == Miners(receipts)
                  && forall m :: m in r.value ==>
                       r.value[m].row == RowFor(receipts, m)
                       && ReadAmount(r.value[m].work) == Some(RowFor(receipts, m).work))
  {
    forall m | m in Miners(receipts)
      ensures var total := Finish(RowFor(receipts, m));
              && (total.Some? <==> RowFor(receipts, m).work < Pow10(digits))
              && (total.Some? ==> total.value.row == RowFor(receipts, m)
                                  && ReadAmount(total.value.work) == Some(RowFor(receipts, m).work))
    {
      CanonicalFits(RowFor(receipts, m).work, digits);
    }
    if !AllFinish(Rows(receipts)) {
      var m :| m in Rows(receipts) && Finish(Rows(receipts)[m]).None?;
      assert m in Miners(receipts) && RowFor(receipts, m).work >= Pow10(digits);
    } else {
      forall m | m in Miners(receipts)
        ensures RowFor(receipts, m).work < Pow10(digits)
      {
        assert Finish(Rows(receipts)[m]).Some?;
      }
    }
  }

  lemma MinersHaveReceipts(receipts: seq<Receipt>, m: Hotkey)
    ensures m in Miners(receipts) <==> Mine(receipts, m) != {}
  {
    if Mine(receipts, m) != {} {
      var i :| i in Mine(receipts, m);
      assert receipts[i].facts.request.miner in Miners(receipts);
    }
    if m in Miners(receipts) {
      var i :| 0 <= i < |receipts| && receipts[i].facts.attested && receipts[i].facts.request.miner == m;
      assert i in Mine(receipts, m);
    }
  }
}
