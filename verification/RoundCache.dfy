/** The miner's response cache (`cathedral_thin/miner.py`): an ordered dictionary from caller and round to a
    response, or to nothing while the round is being solved, that keeps the most recently touched keys.

    The cache's lock makes each call one step; calls of concurrent requests interleave arbitrarily. */
module RoundCaches {
  import opened Prelude

  datatype Key = Key(caller: Hotkey, round: int)

  datatype Response = Response(challengeId: string, formula: Digest, assignment: string, solver: string, error: string)

  /** `None` marks a round in progress. */
  type Entries = map<Key, Option<Response>>

  datatype Cache = Cache(order: seq<Key>, held: Entries)

  datatype Op = Reserve(key: Key, formula: Digest) | Complete(key: Key, response: Response)

  /** Only `Reserved` starts a solver. */
  datatype Answer = Reserved | Repeated(response: Response) | InProgress | OtherFormula | Stored

  // ---------------------------------------------------------------------------------------------
  // One call.

  function Remove(s: seq<Key>, k: Key): seq<Key> {
    if s == [] then []
    else
      var front, last := Remove(s[..|s| - 1], k), s[|s| - 1];
      if last == k then front else front + [last]
  }

  function LastN(s: seq<Key>, n: nat): seq<Key> {
    if |s| <= n then s else s[|s| - n..]
  }

  function Only(held: Entries, keys: seq<Key>): Entries {
    map k | k in held && k in keys :: held[k]
  }

  function Evict(c: Cache, n: nat): Cache {
    Cache(LastN(c.order, n), Only(c.held, LastN(c.order, n)))
  }

  function Put(c: Cache, key: Key, value: Option<Response>, n: nat): Cache {
    Evict(Cache(Remove(c.order, key) + [key], c.held[key := value]), n)
  }

  function Step(c: Cache, op: Op, n: nat): (Cache, Answer) {
    match op
    case Reserve(k, formula) =>
      if k in c.held then
        (c.(order := Remove(c.order, k) + [k]),
         match c.held[k]
         case None => InProgress
         case Some(r) => if r.formula != formula then OtherFormula else Repeated(r))
      else (Put(c, k, None, n), Reserved)
    case Complete(k, r) => (Put(c, k, Some(r), n), Stored)
  }

  function Elements(s: seq<Key>): set<Key> {
    set x | x in s
  }

  predicate Valid(c: Cache, n: nat) {
    Listed(c) && |c.order| <= n
  }

  class RoundCache {
    const capacity: nat
    var order: seq<Key>
    var held: Entries

    constructor (capacity: nat)
      requires capacity > 0
      ensures this.capacity == capacity && Contents() == Cache([], map[]) && Valid(Contents(), capacity)
    {
      this.capacity := capacity;
      order, held := [], map[];
    }

    function Contents(): Cache
      reads this
    {
      Cache(order, held)
    }

    method ReserveRound(key: Key, formula: Digest) returns (r: Answer)
      requires Valid(Contents(), capacity) && capacity > 0
      modifies this
      ensures (Contents(), r) == Step(old(Contents()), Reserve(key, formula), capacity) && Valid(Contents(), capacity)
    {
      StepIsValid(Contents(), Reserve(key, formula), capacity);
      if key in held {
        var cached := held[key];
        order := Remove(order, key) + [key];
        if cached.None? {
          return InProgress;
        }
        if cached.value.formula != formula {
          return OtherFormula;
        }
        return Repeated(cached.value);
      }
      RemoveAbsent(order, key);
      order, held := order + [key], held[key := None];
      PopOldest();
      return Reserved;
    }

    method CompleteRound(key: Key, response: Response)
      requires Valid(Contents(), capacity) && capacity > 0
      modifies this
      ensures Contents() == Step(old(Contents()), Complete(key, response), capacity).0 && Valid(Contents(), capacity)
    {
      StepIsValid(Contents(), Complete(key, response), capacity);
      RemoveElements(order, key);
      RemoveDistinct(order, key);
      held := held[key := Some(response)];
      order := Remove(order, key) + [key];
      PopOldest();
    }

    method PopOldest()
      requires Listed(Contents())
      modifies this
      ensures Contents() == Evict(old(Contents()), capacity)
    {
      while |order| > capacity
        invariant Listed(Contents()) && Evict(Contents(), capacity) == Evict(old(Contents()), capacity)
      {
        PopOne(Contents(), capacity);
        held := map k | k in held && k != order[0] :: held[k];
        order := order[1..];
      }
      AllKept(Contents(), capacity);
    }
  }

  predicate Listed(c: Cache) {
    NoRepeats(c.order) && Elements(c.order) == c.held.Keys
  }

  function Popped(c: Cache): Cache
    requires c.order != []
  {
    Cache(c.order[1..], map k | k in c.held && k != c.order[0] :: c.held[k])
  }

  lemma DropFirst(s: seq<Key>, n: nat)
    requires NoRepeats(s) && |s| > n
    ensures NoRepeats(s[1..]) && LastN(s[1..], n) == LastN(s, n)
    ensures Elements(s[1..]) == Elements(s) - {s[0]}
    ensures s[0] !in LastN(s, n)
  {
    assert s == [s[0]] + s[1..];
    assert s[0] !in s[1..];
    LastNWithin(s[1..], n);
  }

  lemma LastNWithin(s: seq<Key>, n: nat)
    ensures forall x :: x in LastN(s, n) ==> x in s
  {
  }

  lemma PopOne(c: Cache, n: nat)
    requires Listed(c) && |c.order| > n
    ensures Listed(Popped(c)) && Evict(Popped(c), n) == Evict(c, n)
  {
    DropFirst(c.order, n);
    OnlyWithout(c.held, LastN(c.order, n), c.order[0]);
  }

  lemma OnlyWithout(held: Entries, keys: seq<Key>, first: Key)
    requires first !in keys
    ensures Only(map k | k in held && k != first :: held[k], keys) == Only(held, keys)
  {
  }

  lemma AllKept(c: Cache, n: nat)
    requires Listed(c) && |c.order| <= n
    ensures Evict(c, n) == c
  {
    assert forall k :: k in c.held ==> k in c.order;
    assert Evict(c, n).held == c.held;
  }

  // ---------------------------------------------------------------------------------------------
  // Removing.

  lemma {:induction false} RemoveMembers(s: seq<Key>, k: Key)
    ensures forall x :: x in Remove(s, k) <==> x in s && x != k
  {
    if s != [] {
      RemoveMembers(s[..|s| - 1], k);
      assert s == s[..|s| - 1] + [s[|s| - 1]];
    }
  }

  lemma RemoveElements(s: seq<Key>, k: Key)
    ensures Elements(Remove(s, k)) == Elements(s) - {k}
    ensures Elements(Remove(s, k) + [k]) == Elements(s) + {k}
  {
    RemoveMembers(s, k);
    forall x: Key
      ensures x in Elements(Remove(s, k)) <==> x in Elements(s) - {k}
      ensures x in Elements(Remove(s, k) + [k]) <==> x in Elements(s) + {k}
    {
      assert x in Remove(s, k) <==> x in s && x != k;
    }
  }

  lemma {:induction false} RemoveAbsent(s: seq<Key>, k: Key)
    requires k !in s
    ensures Remove(s, k) == s
  {
    if s != [] {
      assert s[|s| - 1] in s;
      RemoveAbsent(s[..|s| - 1], k);
    }
  }

  lemma {:induction false} RemoveDistinct(s: seq<Key>, k: Key)
    requires NoRepeats(s)
    ensures NoRepeats(Remove(s, k)) && NoRepeats(Remove(s, k) + [k])
    ensures |Remove(s, k)| == if k in s then |s| - 1 else |s|
  {
    RemoveMembers(s, k);
    if s != [] {
      var front, last := s[..|s| - 1], s[|s| - 1];
      RemoveDistinct(front, k);
      RemoveMembers(front, k);
      assert last !in front;
      assert k in s <==> k in front || k == last;
    }
    assert k !in Remove(s, k);
  }

  lemma {:induction false} RemoveConcat(a: seq<Key>, b: seq<Key>, k: Key)
    ensures Remove(a + b, k) == Remove(a, k) + Remove(b, k)
    decreases |b|
  {
    if b == [] {
      assert a + b == a;
    } else {
      assert (a + b)[..|a + b| - 1] == a + b[..|b| - 1];
      RemoveConcat(a, b[..|b| - 1], k);
    }
  }

  lemma PutIsValid(c: Cache, key: Key, value: Option<Response>, n: nat)
    requires Valid(c, n) && n > 0
    ensures Valid(Put(c, key, value, n), n)
  {
    var order := Remove(c.order, key) + [key];
    RemoveDistinct(c.order, key);
    RemoveMembers(c.order, key);
    var after := Put(c, key, value, n);
    forall k
      ensures k in LastN(order, n) <==> k in after.held
    {
      if k in LastN(order, n) {
        assert k in order;
      }
    }
  }

  lemma StepIsValid(c: Cache, op: Op, n: nat)
    requires Valid(c, n) && n > 0
    ensures Valid(Step(c, op, n).0, n)
  {
    if op.Reserve? && op.key in c.held {
      RemoveDistinct(c.order, op.key);
      RemoveElements(c.order, op.key);
    } else {
      PutIsValid(c, op.key, if op.Reserve? then None else Some(op.response), n);
    }
  }

  // ---------------------------------------------------------------------------------------------
  // Recency.

  /** The keys ever touched, least recent first. */
  function Recency(history: seq<Key>): seq<Key> {
    if history == [] then []
    else Remove(Recency(history[..|history| - 1]), history[|history| - 1]) + [history[|history| - 1]]
  }

  /** The keys touched since `k` was last touched. */
  function Since(history: seq<Key>, k: Key): set<Key> {
    if history == [] || history[|history| - 1] == k then {}
    else Since(history[..|history| - 1], k) + {history[|history| - 1]}
  }

  function KeysOf(ops: seq<Op>): seq<Key> {
    seq(|ops|, i requires 0 <= i < |ops| => ops[i].key)
  }

  function After(ops: seq<Op>, n: nat): Cache {
    if ops == [] then Cache([], map[]) else Step(After(ops[..|ops| - 1], n), ops[|ops| - 1], n).0
  }

  /** What call `i` of a run is answered. */
  function AnswerOf(ops: seq<Op>, i: nat, n: nat): Answer
    requires i < |ops|
  {
    Step(After(ops[..i], n), ops[i], n).1
  }

  lemma {:induction false} RecencyDistinct(history: seq<Key>)
    ensures NoRepeats(Recency(history))
    ensures forall k :: k in Recency(history) <==> k in history
  {
    if history != [] {
      var front, last := history[..|history| - 1], history[|history| - 1];
      RecencyDistinct(front);
      RemoveDistinct(Recency(front), last);
      RemoveMembers(Recency(front), last);
      assert history == front + [last];
    }
  }

  lemma {:induction false} RunIsValid(ops: seq<Op>, n: nat)
    requires n > 0
    ensures Valid(After(ops, n), n)
  {
    if ops != [] {
      RunIsValid(ops[..|ops| - 1], n);
      StepIsValid(After(ops[..|ops| - 1], n), ops[|ops| - 1], n);
    }
  }

  lemma LastOfConcat(a: seq<Key>, b: seq<Key>, n: nat)
    ensures |b| >= n ==> LastN(a + b, n) == LastN(b, n)
    ensures |b| < n && |a + b| >= n ==> LastN(a + b, n) == a[|a| + |b| - n..] + b
  {
  }

  lemma TruncateHeld(early: seq<Key>, latest: seq<Key>, k: Key, n: nat)
    requires NoRepeats(early + latest) && |latest| == n > 0 && k in latest
    ensures LastN(Remove(early + latest, k) + [k], n) == Remove(latest, k) + [k]
  {
    DistinctTail(early, latest);
    RemoveDistinct(latest, k);
    RemoveConcat(early, latest, k);
    NotBoth(early, latest, k);
    RemoveAbsent(early, k);
    LastOfConcat(early, Remove(latest, k) + [k], n);
    assert early + Remove(latest, k) + [k] == early + (Remove(latest, k) + [k]);
  }

  lemma NotBoth(early: seq<Key>, latest: seq<Key>, k: Key)
    requires NoRepeats(early + latest) && k in latest
    ensures k !in early
  {
    var i :| 0 <= i < |latest| && latest[i] == k;
    assert (early + latest)[|early| + i] == k;
    forall j | 0 <= j < |early|
      ensures early[j] != k
    {
      assert (early + latest)[j] == early[j];
    }
  }

  lemma TruncateOther(early: seq<Key>, latest: seq<Key>, k: Key, n: nat)
    requires |latest| == n > 0 && k !in latest
    ensures LastN(Remove(early + latest, k) + [k], n) == LastN(latest + [k], n)
  {
    RemoveConcat(early, latest, k);
    RemoveAbsent(latest, k);
    LastOfConcat(Remove(early, k), latest + [k], n);
    assert Remove(early, k) + latest + [k] == Remove(early, k) + (latest + [k]);
  }

  /** Forgetting old keys early does not change which the latest are. */
  lemma TruncateEarly(s: seq<Key>, k: Key, n: nat)
    requires NoRepeats(s) && n > 0
    ensures LastN(Remove(s, k) + [k], n) == LastN(Remove(LastN(s, n), k) + [k], n)
  {
    if |s| > n {
      var early, latest := s[..|s| - n], s[|s| - n..];
      assert s == early + latest;
      if k in latest {
        TruncateHeld(early, latest, k, n);
        DistinctTail(early, latest);
        RemoveDistinct(latest, k);
      } else {
        TruncateOther(early, latest, k, n);
        RemoveAbsent(latest, k);
      }
    }
  }

  lemma StepOrder(c: Cache, op: Op, n: nat)
    requires Valid(c, n) && n > 0
    ensures Step(c, op, n).0.order == LastN(Remove(c.order, op.key) + [op.key], n)
  {
    RemoveDistinct(c.order, op.key);
    assert op.key in c.held <==> op.key in Elements(c.order);
  }

  /** The cache holds exactly the last `n` distinct keys of the calls so far, and never more. */
  lemma KeysAreTheMostRecent(ops: seq<Op>, n: nat)
    requires n > 0
    ensures After(ops, n).order == LastN(Recency(KeysOf(ops)), n)
    ensures |After(ops, n).order| == |After(ops, n).held| <= n
  {
    OrderIsRecency(ops, n);
    RunIsValid(ops, n);
    DistinctSize(After(ops, n).order);
  }

  lemma OrderStep(c: Cache, recency: seq<Key>, op: Op, n: nat)
    requires Valid(c, n) && n > 0 && NoRepeats(recency) && c.order == LastN(recency, n)
    ensures Step(c, op, n).0.order == LastN(Remove(recency, op.key) + [op.key], n)
  {
    StepOrder(c, op, n);
    TruncateEarly(recency, op.key, n);
  }

  lemma {:induction false} OrderIsRecency(ops: seq<Op>, n: nat)
    requires n > 0
    ensures After(ops, n).order == LastN(Recency(KeysOf(ops)), n)
  {
    if ops != [] {
      var front, last := ops[..|ops| - 1], ops[|ops| - 1];
      assert ops == front + [last];
      OrderIsRecency(front, n);
      OneMoreCall(front, last, n);
    }
  }

  lemma OneMoreCall(front: seq<Op>, last: Op, n: nat)
    requires n > 0 && After(front, n).order == LastN(Recency(KeysOf(front)), n)
    ensures After(front + [last], n).order == LastN(Recency(KeysOf(front + [last])), n)
  {
    RunIsValid(front, n);
    RecencyDistinct(KeysOf(front));
    OrderStep(After(front, n), Recency(KeysOf(front)), last, n);
    OneMoreKey(front, last);
    assert (front + [last])[..|front|] == front;
  }

  lemma OneMoreKey(ops: seq<Op>, op: Op)
    ensures Recency(KeysOf(ops + [op])) == Remove(Recency(KeysOf(ops)), op.key) + [op.key]
  {
    var history := KeysOf(ops + [op]);
    assert history[..|history| - 1] == KeysOf(ops);
  }

  lemma {:induction false} DistinctSize(s: seq<Key>)
    requires NoRepeats(s)
    ensures |Elements(s)| == |s|
  {
    if s != [] {
      var front, last := s[..|s| - 1], s[|s| - 1];
      DistinctSize(front);
      assert s == front + [last];
      assert last !in front;
      assert Elements(s) == Elements(front) + {last};
    }
  }

  lemma MovedBehind(a: seq<Key>, k: Key, b: seq<Key>, last: Key)
    requires last != k
    ensures Remove(a + [k] + b, last) + [last] == Remove(a, last) + [k] + (Remove(b, last) + [last])
    ensures Elements(Remove(b, last) + [last]) == Elements(b) + {last}
  {
    RemoveConcat(a + [k], b, last);
    RemoveConcat(a, [k], last);
    assert [k][..0] == [] && Remove([k], last) == [k];
    RemoveElements(b, last);
  }

  /** Behind a key stand exactly the keys touched since. */
  lemma {:induction false} BehindAreSince(history: seq<Key>, k: Key) returns (ahead: seq<Key>, behind: seq<Key>)
    requires k in history
    ensures Recency(history) == ahead + [k] + behind && Elements(behind) == Since(history, k)
  {
    var front, last := history[..|history| - 1], history[|history| - 1];
    assert history == front + [last];
    if last == k {
      ahead, behind := Remove(Recency(front), k), [];
    } else {
      var a, b := BehindAreSince(front, k);
      MovedBehind(a, k, b, last);
      ahead, behind := Remove(a, last), Remove(b, last) + [last];
    }
  }

  /** A key is held exactly when it was touched and fewer than `n` distinct others have been touched since. */
  lemma HeldUntilEnoughOthers(ops: seq<Op>, k: Key, n: nat)
    requires n > 0
    ensures k in After(ops, n).held <==> k in KeysOf(ops) && |Since(KeysOf(ops), k)| < n
  {
    var history := KeysOf(ops);
    var recency := Recency(history);
    KeysAreTheMostRecent(ops, n);
    RunIsValid(ops, n);
    RecencyDistinct(history);
    assert k in After(ops, n).held <==> k in Elements(LastN(recency, n));
    LastNWithin(recency, n);
    if k in history {
      var ahead, behind := BehindAreSince(history, k);
      PlaceInLastN(ahead, k, behind, n);
      DistinctTail(ahead + [k], behind);
      DistinctSize(behind);
    }
  }

  lemma DistinctTail(ahead: seq<Key>, behind: seq<Key>)
    requires NoRepeats(ahead + behind)
    ensures NoRepeats(behind)
  {
    forall i, j | 0 <= i < j < |behind|
      ensures behind[i] != behind[j]
    {
      assert (ahead + behind)[|ahead| + i] == behind[i] && (ahead + behind)[|ahead| + j] == behind[j];
    }
  }

  lemma PlaceInLastN(ahead: seq<Key>, k: Key, behind: seq<Key>, n: nat)
    requires NoRepeats(ahead + [k] + behind)
    ensures k in LastN(ahead + [k] + behind, n) <==> |behind| < n
  {
    var s := ahead + [k] + behind;
    var latest := LastN(s, n);
    if |behind| < n {
      assert latest[|latest| - 1 - |behind|] == k;
    } else {
      LastOfConcat(ahead + [k], behind, n);
      LastNWithin(behind, n);
      if k in behind {
        NotBoth(ahead + [k], behind, k);
      }
    }
  }

  // ---------------------------------------------------------------------------------------------
  // Runs.

  /** The keys of calls `i` up to `j`. */
  function Touched(ops: seq<Op>, i: nat, j: nat): set<Key>
    requires i <= j <= |ops|
  {
    Elements(KeysOf(ops[i..j]))
  }

  lemma {:induction false} SinceWithinTouched(ops: seq<Op>, i: nat, j: nat)
    requires i < j <= |ops|
    ensures ops[i].key in KeysOf(ops[..j])
    ensures Since(KeysOf(ops[..j]), ops[i].key) <= Touched(ops, i + 1, j) - {ops[i].key}
    decreases j
  {
    var k := ops[i].key;
    assert KeysOf(ops[..j])[i] == k;
    assert KeysOf(ops[..j])[..j - 1] == KeysOf(ops[..j - 1]);
    assert KeysOf(ops[..j])[j - 1] == ops[j - 1].key;
    if i < j - 1 {
      SinceWithinTouched(ops, i, j - 1);
      assert KeysOf(ops[i + 1..j]) == KeysOf(ops[i + 1..j - 1]) + [ops[j - 1].key];
    }
  }

  lemma SubsetSize(a: set<Key>, b: set<Key>)
    requires a <= b
    ensures |a| <= |b|
  {
    assert b == a + (b - a);
    assert |b| == |a| + |b - a|;
  }

  /** Two solver starts for one caller and round have at least `n` other keys touched in between. */
  lemma SecondStartNeedsEviction(ops: seq<Op>, i: nat, j: nat, n: nat)
    requires n > 0 && i < j < |ops| && ops[i].key == ops[j].key
    requires ops[j].Reserve? && AnswerOf(ops, j, n) == Reserved
    ensures |Touched(ops, i + 1, j) - {ops[i].key}| >= n
  {
    HeldUntilEnoughOthers(ops[..j], ops[i].key, n);
    SinceWithinTouched(ops, i, j);
    SubsetSize(Since(KeysOf(ops[..j]), ops[i].key), Touched(ops, i + 1, j) - {ops[i].key});
  }

  /** Few enough other keys touched between calls `i` and `j` for the key of `i` to stay. */
  predicate StaysUntil(ops: seq<Op>, i: nat, j: nat, n: nat)
    requires i < j <= |ops|
  {
    |Touched(ops, i + 1, j) - {ops[i].key}| < n
  }

  lemma TouchedGrows(ops: seq<Op>, i: nat, m: nat, j: nat)
    requires i <= m <= j <= |ops|
    ensures Touched(ops, i, m) <= Touched(ops, i, j)
  {
    assert KeysOf(ops[i..j]) == KeysOf(ops[i..m]) + KeysOf(ops[m..j]);
  }

  lemma StaysShorter(ops: seq<Op>, i: nat, m: nat, j: nat, n: nat)
    requires i < m <= j <= |ops| && StaysUntil(ops, i, j, n)
    ensures StaysUntil(ops, i, m, n)
  {
    TouchedGrows(ops, i + 1, m, j);
    SubsetSize(Touched(ops, i + 1, m) - {ops[i].key}, Touched(ops, i + 1, j) - {ops[i].key});
  }

  lemma StaysHeld(ops: seq<Op>, i: nat, m: nat, j: nat, n: nat)
    requires n > 0 && i < m <= j <= |ops| && StaysUntil(ops, i, j, n)
    ensures ops[i].key in After(ops[..m], n).held
  {
    StaysShorter(ops, i, m, j, n);
    SinceWithinTouched(ops, i, m);
    SubsetSize(Since(KeysOf(ops[..m]), ops[i].key), Touched(ops, i + 1, m) - {ops[i].key});
    HeldUntilEnoughOthers(ops[..m], ops[i].key, n);
  }

  predicate NoCompletion(ops: seq<Op>, i: nat, j: nat, k: Key)
    requires i <= j <= |ops|
  {
    forall m :: i <= m < j && ops[m].key == k ==> ops[m].Reserve?
  }

  lemma SameValue(c: Cache, next: Cache, op: Op, k: Key, n: nat)
    requires next == Step(c, op, n).0 && k in c.held && k in next.held && (op.key == k ==> op.Reserve?)
    ensures next.held[k] == c.held[k]
  {
  }

  /** What the cache holds for a key after the first `j` calls. */
  function ValueAt(ops: seq<Op>, j: nat, k: Key, n: nat): Option<Option<Response>>
    requires j <= |ops|
  {
    var held := After(ops[..j], n).held;
    if k in held then Some(held[k]) else None
  }

  lemma ValueStep(ops: seq<Op>, j: nat, k: Key, n: nat)
    requires 0 < j <= |ops| && ValueAt(ops, j - 1, k, n).Some? && ValueAt(ops, j, k, n).Some?
    requires ops[j - 1].key == k ==> ops[j - 1].Reserve?
    ensures ValueAt(ops, j, k, n) == ValueAt(ops, j - 1, k, n)
  {
    LastStep(ops, j, n);
    SameValue(After(ops[..j - 1], n), After(ops[..j], n), ops[j - 1], k, n);
  }

  lemma {:induction false} ValueStays(ops: seq<Op>, i: nat, j: nat, n: nat)
    requires n > 0 && i < j <= |ops| && StaysUntil(ops, i, j, n) && NoCompletion(ops, i + 1, j, ops[i].key)
    ensures ValueAt(ops, j, ops[i].key, n).Some? && ValueAt(ops, j, ops[i].key, n) == ValueAt(ops, i + 1, ops[i].key, n)
    decreases j
  {
    if i + 1 == j {
      StaysHeld(ops, i, j, j, n);
    } else {
      StaysShorter(ops, i, j - 1, j, n);
      ValueStays(ops, i, j - 1, n);
      ValueStaysOnce(ops, i, j, n);
    }
  }

  lemma ValueStaysOnce(ops: seq<Op>, i: nat, j: nat, n: nat)
    requires n > 0 && i + 1 < j <= |ops| && StaysUntil(ops, i, j, n) && NoCompletion(ops, i + 1, j, ops[i].key)
    requires ValueAt(ops, j - 1, ops[i].key, n).Some?
    ensures ValueAt(ops, j, ops[i].key, n) == ValueAt(ops, j - 1, ops[i].key, n)
  {
    StaysHeld(ops, i, j, j, n);
    ValueStep(ops, j, ops[i].key, n);
  }

  lemma LastStep(ops: seq<Op>, j: nat, n: nat)
    requires 0 < j <= |ops|
    ensures After(ops[..j], n) == Step(After(ops[..j - 1], n), ops[j - 1], n).0
  {
    assert ops[..j][..j - 1] == ops[..j - 1];
  }

  /** While a completed round stays, a repeat with the same formula gets the stored response verbatim and a
      repeat with another formula is refused. */
  lemma RepeatGetsStoredResponse(ops: seq<Op>, i: nat, j: nat, n: nat)
    requires n > 0 && i < j < |ops| && ops[i].Complete? && ops[j].Reserve? && ops[i].key == ops[j].key
    requires StaysUntil(ops, i, j, n) && NoCompletion(ops, i + 1, j, ops[i].key)
    ensures AnswerOf(ops, j, n) == if ops[i].response.formula == ops[j].formula then Repeated(ops[i].response)
                                   else OtherFormula
  {
    ValueStays(ops, i, j, n);
    assert ops[..i + 1][..i] == ops[..i];
  }

  /** While a round being solved stays, any further request for it is refused. */
  lemma NoSecondStartWhileSolving(ops: seq<Op>, i: nat, j: nat, n: nat)
    requires n > 0 && i < j < |ops| && ops[i].Reserve? && AnswerOf(ops, i, n) == Reserved && ops[j].Reserve?
             && ops[i].key == ops[j].key
    requires StaysUntil(ops, i, j, n) && NoCompletion(ops, i + 1, j, ops[i].key)
    ensures AnswerOf(ops, j, n) == InProgress
  {
    ValueStays(ops, i, j, n);
    assert ops[..i + 1][..i] == ops[..i];
  }

  /** A solver is started exactly for a key never touched, or with at least `n` distinct others since. */
  lemma ReservedExactlyWhenForgotten(ops: seq<Op>, i: nat, n: nat)
    requires n > 0 && i < |ops| && ops[i].Reserve?
    ensures AnswerOf(ops, i, n) == Reserved <==>
              ops[i].key !in KeysOf(ops[..i]) || |Since(KeysOf(ops[..i]), ops[i].key)| >= n
  {
    HeldUntilEnoughOthers(ops[..i], ops[i].key, n);
  }

  /** So a solver still at work does not keep its key: with room for one key, a call for another round is
      enough for a second solver of the first, still unfinished, round. */
  lemma EvictionForgetsReservation(a: Key, b: Key, formula: Digest)
    requires a != b
    ensures var ops := [Reserve(a, formula), Reserve(b, formula), Reserve(a, formula)];
            AnswerOf(ops, 0, 1) == Reserved && AnswerOf(ops, 2, 1) == Reserved
  {
    var ops := [Reserve(a, formula), Reserve(b, formula), Reserve(a, formula)];
    assert ops[..0] == [] && ops[..1][..0] == [] && ops[..2][..1] == ops[..1];
    HeldUntilEnoughOthers(ops[..2], a, 1);
    assert KeysOf(ops[..2]) == [a, b] && [a, b][..1] == [a];
    assert Since([a, b], a) == {b};
  }
}
