/** Inference receipt bundles (`cathedral_thin/ml_receipts.py`): the chain of bundles a checkpoint accepts,
    the admission of receipts into a bundle, and their aggregation per miner.

    The request hash is a parameter. The checks of a receipt's form, signature and attestation are taken as
    done; a receipt that fails them has no facts. Times are whole microseconds. */
module Receipts {
  import opened Prelude
  import opened Decimals
  import opened Texts

  const MAX_BUNDLE_RECEIPTS := 4096
  const SECOND := 1_000_000

  /** The largest work of one receipt, in units of 10 to the power -12. */
  function MaxWork(): nat {
    Pow10(24)
  }

  // ---------------------------------------------------------------------------------------------
  // Documents.

  /** What a request id is taken over, the network aside. */
  datatype Request = Request(epoch: nat, validator: Hotkey, miner: Hotkey, nonce: seq<Byte>, input: Digest,
                             parameters: Digest)

  type RequestHash = Request -> Digest

  datatype Facts = Facts(
    request: Request, requestId: Digest, completedAt: int, attested: bool, work: nat, inputTokens: nat,
    outputTokens: nat,
    model: Digest, image: Digest, runner: Digest)

  datatype Entry = Entry(id: Digest, facts: Option<Facts>)

  datatype Receipt = Receipt(id: Digest, facts: Facts)

  datatype Bundle = Bundle(
    epoch: nat, id: Digest, previous: Option<Digest>, generatedAt: int, validUntil: int, firstBlock: nat,
    lastBlock: nat,
    entries: seq<Entry>)

  datatype Checkpoint = Checkpoint(epoch: nat, id: Digest, generatedAt: int)

  /** The policy and the moment a bundle is verified under. */
  datatype Setting = Setting(hash: RequestHash, block: nat, maxBlockSpan: nat, now: int, maxFuture: nat, maxAge: nat)

  datatype BundleError =
    | OutsideBlockWindow | BadBlockWindow | StaleOrFuture | Expired
    | RolledBack | Equivocated | SkippedEpoch | NotLinked | TimeDidNotAdvance
    | BadReceiptCount | UnsortedReceipts | NothingAdmitted

  datatype Reason =
    | Unverified | TooMuchWork | WrongRequestId | OtherEpoch | CompletedLate | AlreadyEligible | RequestReused

  // ---------------------------------------------------------------------------------------------
  // The chain.

  function CheckWindow(b: Bundle, s: Setting): Option<BundleError> {
    if b.firstBlock > s.block || s.block >= b.lastBlock then Some(OutsideBlockWindow)
    else if b.lastBlock <= b.firstBlock || b.lastBlock - b.firstBlock > s.maxBlockSpan then Some(BadBlockWindow)
    else if s.now - b.generatedAt < -(s.maxFuture * SECOND) || s.now - b.generatedAt > s.maxAge * SECOND
           then Some(StaleOrFuture)
    else if !(b.generatedAt < b.validUntil) || s.now >= b.validUntil then Some(Expired)
    else None
  }

  /** The checkpoint a bundle leads to; the bundle of the accepted epoch may be verified again. */
  function EnforceChain(b: Bundle, checkpoint: Option<Checkpoint>): Result<Checkpoint, BundleError> {
    match checkpoint
    case None => Ok(Checkpoint(b.epoch, b.id, b.generatedAt))
    case Some(c) =>
      if b.epoch < c.epoch then Err(RolledBack)
      else if b.epoch == c.epoch then (if b.id != c.id then Err(Equivocated) else Ok(c))
      else if b.epoch > c.epoch + 1 then Err(SkippedEpoch)
      else if b.previous != Some(c.id) then Err(NotLinked)
      else if b.generatedAt <= c.generatedAt then Err(TimeDidNotAdvance)
      else Ok(Checkpoint(b.epoch, b.id, b.generatedAt))
  }

  // ---------------------------------------------------------------------------------------------
  // Admission.

  predicate SortedUnique(entries: seq<Entry>) {
    forall i :: 0 <= i < |entries| - 1 ==> Before(entries[i].id, entries[i + 1].id)
  }

  /** Receipts completed at or before this time belonged to an earlier epoch. */
  function Cutoff(b: Bundle, checkpoint: Option<Checkpoint>): Option<int> {
    if checkpoint.Some? && b.epoch != checkpoint.value.epoch then Some(checkpoint.value.generatedAt) else None
  }

  function Judge(e: Entry, b: Bundle, cutoff: Option<int>, s: Setting, seen: set<Digest>): Result<Facts, Reason> {
    if e.facts.None? then Err(Unverified)
    else
      var f := e.facts.value;
      if f.work > MaxWork() then Err(TooMuchWork)
      else if f.requestId != s.hash(f.request) then Err(WrongRequestId)
      else if f.request.epoch != b.epoch then Err(OtherEpoch)
      else if f.completedAt > b.generatedAt then Err(CompletedLate)
      else if cutoff.Some? && f.completedAt <= cutoff.value then Err(AlreadyEligible)
      else if f.requestId in seen then Err(RequestReused)
      else Ok(f)
  }

  datatype Sorting = Sorting(verified: seq<Receipt>, rejected: seq<(Digest, Reason)>)

  function RequestIds(receipts: seq<Receipt>): set<Digest> {
    set i | 0 <= i < |receipts| :: receipts[i].facts.requestId
  }

  function Sort(entries: seq<Entry>, b: Bundle, cutoff: Option<int>, s: Setting): Sorting {
    if entries == [] then Sorting([], [])
    else
      var front, e := Sort(entries[..|entries| - 1], b, cutoff, s), entries[|entries| - 1];
      match Judge(e, b, cutoff, s, RequestIds(front.verified))
      case Ok(f) => front.(verified := front.verified + [Receipt(e.id, f)])
      case Err(reason) => front.(rejected := front.rejected + [(e.id, reason)])
  }

  datatype Verified = Verified(receipts: seq<Receipt>, rejections: seq<(Digest, Reason)>, accepted: Checkpoint)

  function Verify(b: Bundle, s: Setting, checkpoint: Option<Checkpoint>): Result<Verified, BundleError> {
    match CheckWindow(b, s)
    case Some(e) => Err(e)
    case None =>
      match EnforceChain(b, checkpoint)
      case Err(e) => Err(e)
      case Ok(accepted) =>
        if !(1 <= |b.entries| <= MAX_BUNDLE_RECEIPTS) then Err(BadReceiptCount)
        else if !SortedUnique(b.entries) then Err(UnsortedReceipts)
        else
          var sorted := Sort(b.entries, b, Cutoff(b, checkpoint), s);
          if sorted.verified == [] then Err(NothingAdmitted)
          else Ok(Verified(sorted.verified, sorted.rejected, accepted))
  }

  method VerifyBundle(b: Bundle, s: Setting, checkpoint: Option<Checkpoint>) returns (r: Result<Verified, BundleError>)
    ensures r == Verify(b, s, checkpoint)
  {
    var window := CheckWindow(b, s);
    if window.Some? {
      return Err(window.value);
    }
    var accepted := EnforceChain(b, checkpoint);
    if accepted.Err? {
      return Err(accepted.error);
    }
    if !(1 <= |b.entries| <= MAX_BUNDLE_RECEIPTS) {
      return Err(BadReceiptCount);
    }
    if !SortedUnique(b.entries) {
      return Err(UnsortedReceipts);
    }
    var cutoff := Cutoff(b, checkpoint);
    var verified: seq<Receipt>, rejected: seq<(Digest, Reason)> := [], [];
    var seenRequests: set<Digest> := {};
    for i := 0 to |b.entries|
      invariant Sorting(verified, rejected) == Sort(b.entries[..i], b, cutoff, s)
      invariant seenRequests == RequestIds(verified)
    {
      assert b.entries[..i + 1][..i] == b.entries[..i];
      var e := b.entries[i];
      var judged := Judge(e, b, cutoff, s, seenRequests);
      if judged.Err? {
        rejected := rejected + [(e.id, judged.error)];
        continue;
      }
      OneMoreRequest(verified, Receipt(e.id, judged.value));
      seenRequests := seenRequests + {judged.value.requestId};
      verified := verified + [Receipt(e.id, judged.value)];
    }
    assert b.entries[..|b.entries|] == b.entries;
    if verified == [] {
      return Err(NothingAdmitted);
    }
    return Ok(Verified(verified, rejected, accepted.value));
  }

  lemma OneMoreRequest(receipts: seq<Receipt>, r: Receipt)
    ensures RequestIds(receipts + [r]) == RequestIds(receipts) + {r.facts.requestId}
  {
    var more := receipts + [r];
    assert more[|receipts|] == r;
    forall id | id in RequestIds(receipts)
      ensures id in RequestIds(more)
    {
      var i :| 0 <= i < |receipts| && receipts[i].facts.requestId == id;
      assert more[i].facts.requestId == id;
    }
  }

  // ---------------------------------------------------------------------------------------------
  // What is admitted.

  lemma {:induction false} SortedIsAscending(entries: seq<Entry>, i: nat, j: nat)
    requires SortedUnique(entries) && i < j < |entries|
    ensures Before(entries[i].id, entries[j].id) && entries[i].id != entries[j].id
  {
    if i + 1 < j {
      SortedIsAscending(entries, i, j - 1);
      BeforeIsTransitive(entries[i].id, entries[j - 1].id, entries[j].id);
    }
    BeforeIsStrict(entries[i].id);
  }

  /** Everything promised of a receipt admitted into a bundle. */
  predicate Admissible(r: Receipt, b: Bundle, cutoff: Option<int>, s: Setting) {
    && r.facts.work <= MaxWork() && r.facts.requestId == s.hash(r.facts.request) && r.facts.request.epoch == b.epoch
    && r.facts.completedAt <= b.generatedAt && (cutoff.Some? ==> cutoff.value < r.facts.completedAt)
  }

  predicate NoIdTwice(receipts: seq<Receipt>) {
    forall i, j :: 0 <= i < j < |receipts| ==>
      receipts[i].id != receipts[j].id && receipts[i].facts.requestId != receipts[j].facts.requestId
  }

  predicate FromEntries(receipts: seq<Receipt>, entries: seq<Entry>) {
    forall i :: 0 <= i < |receipts| ==> Entry(receipts[i].id, Some(receipts[i].facts)) in entries
  }

  predicate AllAdmissible(receipts: seq<Receipt>, b: Bundle, cutoff: Option<int>, s: Setting) {
    forall i :: 0 <= i < |receipts| ==> Admissible(receipts[i], b, cutoff, s)
  }

  predicate IsNew(r: Receipt, receipts: seq<Receipt>) {
    forall i :: 0 <= i < |receipts| ==> receipts[i].id != r.id && receipts[i].facts.requestId != r.facts.requestId
  }

  lemma Admit(receipts: seq<Receipt>, entries: seq<Entry>, r: Receipt, b: Bundle, cutoff: Option<int>, s: Setting)
    requires FromEntries(receipts, entries) && NoIdTwice(receipts) && AllAdmissible(receipts, b, cutoff, s)
    requires IsNew(r, receipts) && Admissible(r, b, cutoff, s)
    ensures var (more, longer) := (receipts + [r], entries + [Entry(r.id, Some(r.facts))]);
            FromEntries(more, longer) && NoIdTwice(more) && AllAdmissible(more, b, cutoff, s)
  {
    MoreEntries(receipts, entries, Entry(r.id, Some(r.facts)));
  }

  lemma MoreEntries(receipts: seq<Receipt>, entries: seq<Entry>, e: Entry)
    requires FromEntries(receipts, entries)
    ensures FromEntries(receipts, entries + [e])
  {
  }

  lemma IsNewAmong(receipts: seq<Receipt>, entries: seq<Entry>, e: Entry)
    requires e.facts.Some? && SortedUnique(entries + [e]) && FromEntries(receipts, entries)
    requires e.facts.value.requestId !in RequestIds(receipts)
    ensures IsNew(Receipt(e.id, e.facts.value), receipts)
  {
    forall i | 0 <= i < |receipts|
      ensures receipts[i].id != e.id && receipts[i].facts.requestId != e.facts.value.requestId
    {
      var k :| 0 <= k < |entries| && entries[k] == Entry(receipts[i].id, Some(receipts[i].facts));
      SortedIsAscending(entries + [e], k, |entries|);
      assert receipts[i].facts.requestId in RequestIds(receipts);
    }
  }

  lemma {:induction false} SortAdmits(entries: seq<Entry>, b: Bundle, cutoff: Option<int>, s: Setting)
    requires SortedUnique(entries)
    ensures var v := Sort(entries, b, cutoff, s).verified;
            FromEntries(v, entries) && NoIdTwice(v) && AllAdmissible(v, b, cutoff, s)
    ensures |Sort(entries, b, cutoff, s).verified| + |Sort(entries, b, cutoff, s).rejected| == |entries|
  {
    if entries != [] {
      var front, e := entries[..|entries| - 1], entries[|entries| - 1];
      SortAdmits(front, b, cutoff, s);
      var v := Sort(front, b, cutoff, s).verified;
      assert entries == front + [e];
      MoreEntries(v, front, e);
      if Judge(e, b, cutoff, s, RequestIds(v)).Ok? {
        IsNewAmong(v, front, e);
        Admit(v, front, Receipt(e.id, e.facts.value), b, cutoff, s);
      }
    }
  }

  /** A verified bundle has at least one receipt; each is in the bundle, made for its epoch and bound to its
      request, and completed no later than the bundle and, if the bundle was not the accepted one already, later
      than the bundle accepted before. No receipt or request occurs twice, and every other entry is listed as
      rejected. */
  lemma VerifiedIsAdmissible(b: Bundle, s: Setting, checkpoint: Option<Checkpoint>)
    requires Verify(b, s, checkpoint).Ok?
    ensures var v := Verify(b, s, checkpoint).value;
            && 1 <= |v.receipts| <= MAX_BUNDLE_RECEIPTS && |v.receipts| + |v.rejections| == |b.entries|
            && FromEntries(v.receipts, b.entries) && NoIdTwice(v.receipts)
            && AllAdmissible(v.receipts, b, Cutoff(b, checkpoint), s)
  {
    SortAdmits(b.entries, b, Cutoff(b, checkpoint), s);
  }

  /** An entry that passes every check but the one on requests used before. */
  predicate Sound(e: Entry, b: Bundle, cutoff: Option<int>, s: Setting) {
    && e.facts.Some?
    && var f := e.facts.value;
    && f.work <= Pow10(24) && f.requestId == s.hash(f.request) && f.request.epoch == b.epoch
    && f.completedAt <= b.generatedAt && (cutoff.Some? ==> f.completedAt > cutoff.value)
  }

  predicate AdmittedIn(receipts: seq<Receipt>, e: Entry) {
    e.facts.Some? && Receipt(e.id, e.facts.value) in receipts
  }

  /** An earlier entry with the same request was admitted. */
  predicate Repeats(receipts: seq<Receipt>, entries: seq<Entry>, k: int)
    requires 0 <= k < |entries| && entries[k].facts.Some?
  {
    exists j :: 0 <= j < k && AdmittedIn(receipts, entries[j])
                && entries[j].facts.value.requestId == entries[k].facts.value.requestId
  }

  predicate AdmitsRight(receipts: seq<Receipt>, entries: seq<Entry>, b: Bundle, cutoff: Option<int>, s: Setting,
                        k: int)
    requires 0 <= k < |entries|
  {
    AdmittedIn(receipts, entries[k]) <==> Sound(entries[k], b, cutoff, s) && !Repeats(receipts, entries, k)
  }

  /** What an entry that is not admitted is refused for. */
  predicate RefusedFor(e: Entry, b: Bundle, cutoff: Option<int>, s: Setting, reason: Reason) {
    if e.facts.None? then reason == Unverified
    else
      var f := e.facts.value;
      var linked := f.work <= Pow10(24) && f.requestId == s.hash(f.request);
      match reason
      case Unverified => false
      case TooMuchWork => f.work > Pow10(24)
      case WrongRequestId => f.work <= Pow10(24) && f.requestId != s.hash(f.request)
      case OtherEpoch => linked && f.request.epoch != b.epoch
      case CompletedLate => linked && f.request.epoch == b.epoch && f.completedAt > b.generatedAt
      case AlreadyEligible =>
        linked && f.request.epoch == b.epoch && f.completedAt <= b.generatedAt && cutoff.Some?
        && f.completedAt <= cutoff.value
      case RequestReused => Sound(e, b, cutoff, s)
  }

  predicate RefusesRight(sorted: Sorting, entries: seq<Entry>, b: Bundle, cutoff: Option<int>, s: Setting, k: int)
    requires 0 <= k < |entries|
  {
    !AdmittedIn(sorted.verified, entries[k]) ==>
      exists reason :: (entries[k].id, reason) in sorted.rejected && RefusedFor(entries[k], b, cutoff, s, reason)
  }

  lemma SeenExactly(receipts: seq<Receipt>, entries: seq<Entry>, e: Entry)
    requires e.facts.Some? && FromEntries(receipts, entries)
    ensures e.facts.value.requestId in RequestIds(receipts) <==> Repeats(receipts, entries + [e], |entries|)
  {
    var longer := entries + [e];
    assert forall j :: 0 <= j < |entries| ==> longer[j] == entries[j];
    if e.facts.value.requestId in RequestIds(receipts) {
      var i :| 0 <= i < |receipts| && receipts[i].facts.requestId == e.facts.value.requestId;
      var j :| 0 <= j < |entries| && entries[j] == Entry(receipts[i].id, Some(receipts[i].facts));
      assert AdmittedIn(receipts, longer[j]);
    }
    if Repeats(receipts, longer, |entries|) {
      var j :| 0 <= j < |entries| && AdmittedIn(receipts, longer[j])
               && longer[j].facts.value.requestId == e.facts.value.requestId;
      var i :| 0 <= i < |receipts| && receipts[i] == Receipt(longer[j].id, longer[j].facts.value);
      assert receipts[i].facts.requestId in RequestIds(receipts);
    }
  }

  /** One more receipt, of a later entry, changes nothing for the entries before. */
  lemma OthersUnmoved(receipts: seq<Receipt>, r: Receipt, entries: seq<Entry>, e: Entry, k: int)
    requires SortedUnique(entries + [e]) && r.id == e.id && 0 <= k < |entries|
    ensures AdmittedIn(receipts + [r], entries[k]) <==> AdmittedIn(receipts, entries[k])
    ensures entries[k].facts.Some? ==> (Repeats(receipts + [r], entries + [e], k) <==> Repeats(receipts, entries, k))
  {
    var longer := entries + [e];
    forall j | 0 <= j <= k
      ensures longer[j] == entries[j] && entries[j].id != r.id
      ensures AdmittedIn(receipts + [r], entries[j]) <==> AdmittedIn(receipts, entries[j])
    {
      SortedIsAscending(longer, j, |entries|);
    }
  }

  lemma SameRepeats(receipts: seq<Receipt>, entries: seq<Entry>, e: Entry, k: int)
    requires 0 <= k < |entries| && entries[k].facts.Some?
    ensures Repeats(receipts, entries + [e], k) <==> Repeats(receipts, entries, k)
  {
    assert forall j :: 0 <= j <= k ==> (entries + [e])[j] == entries[j];
  }

  lemma NotAdmittedYet(receipts: seq<Receipt>, entries: seq<Entry>, e: Entry)
    requires SortedUnique(entries + [e]) && FromEntries(receipts, entries)
    ensures !AdmittedIn(receipts, e)
  {
    if AdmittedIn(receipts, e) {
      var i :| 0 <= i < |receipts| && receipts[i] == Receipt(e.id, e.facts.value);
      var j :| 0 <= j < |entries| && entries[j] == Entry(receipts[i].id, Some(receipts[i].facts));
      SortedIsAscending(entries + [e], j, |entries|);
    }
  }

  lemma JudgedExactly(e: Entry, b: Bundle, cutoff: Option<int>, s: Setting, seen: set<Digest>)
    ensures var r := Judge(e, b, cutoff, s, seen);
            && (r.Ok? <==> Sound(e, b, cutoff, s) && e.facts.value.requestId !in seen)
            && (r.Ok? ==> e.facts == Some(r.value)) && (r.Err? ==> RefusedFor(e, b, cutoff, s, r.error))
  {
  }

  lemma SortsOneMore(front: seq<Entry>, e: Entry, b: Bundle, cutoff: Option<int>, s: Setting, k: int)
    requires SortedUnique(front + [e]) && 0 <= k <= |front|
    requires k < |front| ==> AdmitsRight(Sort(front, b, cutoff, s).verified, front, b, cutoff, s, k)
                             && RefusesRight(Sort(front, b, cutoff, s), front, b, cutoff, s, k)
    ensures var sorted := Sort(front + [e], b, cutoff, s);
            && AdmitsRight(sorted.verified, front + [e], b, cutoff, s, k)
            && RefusesRight(sorted, front + [e], b, cutoff, s, k)
  {
    var before, entries := Sort(front, b, cutoff, s), front + [e];
    var v := before.verified;
    var judged := Judge(e, b, cutoff, s, RequestIds(v));
    SortedFront(front, e);
    SortAdmits(front, b, cutoff, s);
    SortMore(front, e, b, cutoff, s);
    JudgedExactly(e, b, cutoff, s, RequestIds(v));
    if e.facts.Some? {
      SeenExactly(v, front, e);
    }
    if k < |front| {
      if front[k].facts.Some? {
        SameRepeats(v, front, e, k);
      }
      if judged.Ok? {
        OthersUnmoved(v, Receipt(e.id, judged.value), front, e, k);
      }
      assert entries[k] == front[k];
      RefusedStay(before, Sort(entries, b, cutoff, s), front[k], b, cutoff, s);
    } else {
      NotAdmittedYet(v, front, e);
      if judged.Ok? {
        SameRequestsBefore(v, Receipt(e.id, judged.value), front, e);
      } else {
        assert (e.id, judged.error) in Sort(entries, b, cutoff, s).rejected;
      }
    }
  }

  lemma RefusedStay(before: Sorting, after: Sorting, e: Entry, b: Bundle, cutoff: Option<int>, s: Setting)
    requires forall x :: x in before.rejected ==> x in after.rejected
    ensures (exists reason :: (e.id, reason) in before.rejected && RefusedFor(e, b, cutoff, s, reason)) ==>
              exists reason :: (e.id, reason) in after.rejected && RefusedFor(e, b, cutoff, s, reason)
  {
  }

  lemma SameRequestsBefore(receipts: seq<Receipt>, r: Receipt, front: seq<Entry>, e: Entry)
    requires SortedUnique(front + [e]) && r.id == e.id && e.facts.Some?
    ensures Repeats(receipts + [r], front + [e], |front|) <==> Repeats(receipts, front + [e], |front|)
  {
    var entries := front + [e];
    forall j | 0 <= j < |front|
      ensures AdmittedIn(receipts + [r], entries[j]) <==> AdmittedIn(receipts, entries[j])
    {
      SortedIsAscending(entries, j, |front|);
    }
  }

  lemma SortedFront(front: seq<Entry>, e: Entry)
    requires SortedUnique(front + [e])
    ensures SortedUnique(front)
  {
    forall i | 0 <= i < |front| - 1
      ensures Before(front[i].id, front[i + 1].id)
    {
      assert (front + [e])[i] == front[i] && (front + [e])[i + 1] == front[i + 1];
    }
  }

  /** Of a sorted list just those entries are admitted that have facts, no more than the largest work, the right
      request id and epoch, were completed by the time of the bundle and after the cutoff, and repeat no
      request admitted earlier in the list. Any other is listed with the first of these it fails. */
  lemma {:induction false} SortedExactly(entries: seq<Entry>, b: Bundle, cutoff: Option<int>, s: Setting, k: int)
    requires SortedUnique(entries) && 0 <= k < |entries|
    ensures AdmitsRight(Sort(entries, b, cutoff, s).verified, entries, b, cutoff, s, k)
    ensures RefusesRight(Sort(entries, b, cutoff, s), entries, b, cutoff, s, k)
    decreases |entries|
  {
    var front, e := entries[..|entries| - 1], entries[|entries| - 1];
    assert entries == front + [e];
    SortedFront(front, e);
    if k < |front| {
      SortedExactly(front, b, cutoff, s, k);
    }
    SortsOneMore(front, e, b, cutoff, s, k);
  }

  /** When a bundle is accepted: the block lies in its window, which is not wider than allowed, its time is neither
      stale nor too far ahead, it has not expired, it is the accepted bundle or the linked and later one of the
      next epoch, and it lists between 1 and 4096 receipts in order of their ids, of which some is sound. */
  lemma VerifiesExactly(b: Bundle, s: Setting, checkpoint: Option<Checkpoint>)
    ensures var r := Verify(b, s, checkpoint);
            var cutoff := if checkpoint.Some? && b.epoch != checkpoint.value.epoch
                          then Some(checkpoint.value.generatedAt) else None;
            && (r.Ok? <==>
                && b.firstBlock <= s.block < b.lastBlock && b.lastBlock <= b.firstBlock + s.maxBlockSpan
                && b.generatedAt <= s.now + s.maxFuture * 1_000_000 && s.now <= b.generatedAt + s.maxAge * 1_000_000
                && b.generatedAt < b.validUntil && s.now < b.validUntil
                && (checkpoint.Some? ==>
                      var c := checkpoint.value;
                      || (b.epoch == c.epoch && b.id == c.id)
                      || (b.epoch == c.epoch + 1 && b.previous == Some(c.id) && b.generatedAt > c.generatedAt))
                && 1 <= |b.entries| <= 4096
                && (forall i, j :: 0 <= i < j < |b.entries| ==> Before(b.entries[i].id, b.entries[j].id))
                && (exists k :: 0 <= k < |b.entries| && Sound(b.entries[k], b, cutoff, s)))
            && (r.Ok? ==>
                  && r.value.accepted
                     == (if checkpoint.Some? && checkpoint.value.epoch == b.epoch then checkpoint.value
                         else Checkpoint(b.epoch, b.id, b.generatedAt))
                  && (forall k :: 0 <= k < |b.entries| ==>
                        && AdmitsRight(r.value.receipts, b.entries, b, cutoff, s, k)
                        && RefusesRight(Sorting(r.value.receipts, r.value.rejections), b.entries, b, cutoff, s, k)))
  {
    var cutoff := Cutoff(b, checkpoint);
    OrderedExactly(b.entries);
    if SortedUnique(b.entries) {
      forall k | 0 <= k < |b.entries|
        ensures AdmitsRight(Sort(b.entries, b, cutoff, s).verified, b.entries, b, cutoff, s, k)
        ensures RefusesRight(Sort(b.entries, b, cutoff, s), b.entries, b, cutoff, s, k)
      {
        SortedExactly(b.entries, b, cutoff, s, k);
      }
      SomeAdmitted(b.entries, b, cutoff, s);
    }
  }

  lemma OrderedExactly(entries: seq<Entry>)
    ensures SortedUnique(entries) <==>
              forall i, j :: 0 <= i < j < |entries| ==> Before(entries[i].id, entries[j].id)
  {
    if SortedUnique(entries) {
      forall i, j | 0 <= i < j < |entries|
        ensures Before(entries[i].id, entries[j].id)
      {
        SortedIsAscending(entries, i, j);
      }
    }
  }

  lemma SomeAdmitted(entries: seq<Entry>, b: Bundle, cutoff: Option<int>, s: Setting)
    requires SortedUnique(entries)
    ensures Sort(entries, b, cutoff, s).verified != [] <==>
              exists k :: 0 <= k < |entries| && Sound(entries[k], b, cutoff, s)
  {
    var v := Sort(entries, b, cutoff, s).verified;
    SortAdmits(entries, b, cutoff, s);
    if v != [] {
      var k :| 0 <= k < |entries| && entries[k] == Entry(v[0].id, Some(v[0].facts));
      assert Admissible(v[0], b, cutoff, s);
      assert Sound(entries[k], b, cutoff, s);
    }
    if k :| 0 <= k < |entries| && Sound(entries[k], b, cutoff, s) {
      SortedExactly(entries, b, cutoff, s, k);
    }
  }

  // ---------------------------------------------------------------------------------------------
  // Verifying the accepted bundle again.

  /** An entry refused as already eligible whose request was not among those admitted before it. */
  predicate PassedOver(entries: seq<Entry>, b: Bundle, cutoff: int, s: Setting, i: nat)
    requires i < |entries|
  {
    var seen := RequestIds(Sort(entries[..i], b, Some(cutoff), s).verified);
    && Judge(entries[i], b, Some(cutoff), s, seen) == Err(AlreadyEligible)
    && entries[i].facts.value.requestId !in seen
  }

  predicate LeavesOut(entries: seq<Entry>, b: Bundle, cutoff: int, s: Setting) {
    exists i :: 0 <= i < |entries| && PassedOver(entries, b, cutoff, s, i)
  }

  predicate AnyEarly(receipts: seq<Receipt>, cutoff: int) {
    exists x :: 0 <= x < |receipts| && receipts[x].facts.completedAt <= cutoff
  }

  lemma LeavesOutMore(front: seq<Entry>, e: Entry, b: Bundle, cutoff: int, s: Setting)
    ensures LeavesOut(front + [e], b, cutoff, s) <==>
              LeavesOut(front, b, cutoff, s) || PassedOver(front + [e], b, cutoff, s, |front|)
  {
    var entries := front + [e];
    assert forall i :: 0 <= i < |front| ==> entries[..i] == front[..i];
    if LeavesOut(front, b, cutoff, s) {
      var i :| 0 <= i < |front| && PassedOver(front, b, cutoff, s, i);
      assert PassedOver(entries, b, cutoff, s, i);
    }
    if LeavesOut(entries, b, cutoff, s) {
      var i :| 0 <= i < |entries| && PassedOver(entries, b, cutoff, s, i);
      assert i < |front| ==> PassedOver(front, b, cutoff, s, i);
    }
  }

  lemma SortMore(front: seq<Entry>, e: Entry, b: Bundle, cutoff: Option<int>, s: Setting)
    ensures var sorted := Sort(front, b, cutoff, s);
            Sort(front + [e], b, cutoff, s) ==
            match Judge(e, b, cutoff, s, RequestIds(sorted.verified))
            case Ok(f) => sorted.(verified := sorted.verified + [Receipt(e.id, f)])
            case Err(reason) => sorted.(rejected := sorted.rejected + [(e.id, reason)])
  {
    assert (front + [e])[..|front|] == front;
  }

  /** One entry more, where nothing was passed over before it. */
  lemma SortAgainOnce(front: seq<Entry>, e: Entry, b: Bundle, cutoff: int, s: Setting)
    requires Sort(front, b, None, s).verified == Sort(front, b, Some(cutoff), s).verified
    ensures var again := Sort(front + [e], b, None, s).verified;
            if PassedOver(front + [e], b, cutoff, s, |front|) then AnyEarly(again, cutoff)
            else again == Sort(front + [e], b, Some(cutoff), s).verified
  {
    SortMore(front, e, b, None, s);
    SortMore(front, e, b, Some(cutoff), s);
    assert (front + [e])[..|front|] == front;
    if e.facts.Some? {
      EarlyStays(Sort(front, b, None, s).verified, Receipt(e.id, e.facts.value), cutoff);
    }
  }

  lemma EarlyStays(receipts: seq<Receipt>, r: Receipt, cutoff: int)
    ensures AnyEarly(receipts, cutoff) ==> AnyEarly(receipts + [r], cutoff)
    ensures r.facts.completedAt <= cutoff ==> AnyEarly(receipts + [r], cutoff)
  {
    var more := receipts + [r];
    assert more[|receipts|] == r;
    if AnyEarly(receipts, cutoff) {
      var x :| 0 <= x < |receipts| && receipts[x].facts.completedAt <= cutoff;
      assert more[x] == receipts[x];
    }
  }

  /** Without the cutoff the same receipts are admitted, unless an entry was passed over; then an early one is. */
  lemma {:induction false} SortAgain(entries: seq<Entry>, b: Bundle, cutoff: int, s: Setting)
    ensures var again := Sort(entries, b, None, s).verified;
            if LeavesOut(entries, b, cutoff, s) then AnyEarly(again, cutoff)
            else again == Sort(entries, b, Some(cutoff), s).verified
  {
    if entries != [] {
      var front, e := entries[..|entries| - 1], entries[|entries| - 1];
      SortAgain(front, b, cutoff, s);
      LeavesOutMore(front, e, b, cutoff, s);
      assert front + [e] == entries;
      if LeavesOut(front, b, cutoff, s) {
        SortMore(front, e, b, None, s);
        if e.facts.Some? {
          EarlyStays(Sort(front, b, None, s).verified, Receipt(e.id, e.facts.value), cutoff);
        }
      } else {
        SortAgainOnce(front, e, b, cutoff, s);
      }
    }
  }

  lemma EarlyExactlyWhenLeftOut(entries: seq<Entry>, b: Bundle, cutoff: int, s: Setting)
    requires SortedUnique(entries)
    ensures AnyEarly(Sort(entries, b, None, s).verified, cutoff) <==> LeavesOut(entries, b, cutoff, s)
    ensures !AnyEarly(Sort(entries, b, Some(cutoff), s).verified, cutoff)
  {
    SortAgain(entries, b, cutoff, s);
    SortAdmits(entries, b, Some(cutoff), s);
    var first := Sort(entries, b, Some(cutoff), s).verified;
    assert forall x :: 0 <= x < |first| ==> Admissible(first[x], b, Some(cutoff), s);
  }

  lemma {:induction false} SortIgnoresTheClock(entries: seq<Entry>, b: Bundle, cutoff: Option<int>, s: Setting,
                                              later: Setting)
    requires s.hash == later.hash
    ensures Sort(entries, b, cutoff, later) == Sort(entries, b, cutoff, s)
  {
    if entries != [] {
      SortIgnoresTheClock(entries[..|entries| - 1], b, cutoff, s, later);
    }
  }

  /** A newly accepted bundle that verifies again gives the same receipts exactly when no entry was refused as
      already eligible with its request not among those admitted before it. */
  lemma AgainTheSameExactlyUnlessLeftOut(b: Bundle, s: Setting, checkpoint: Option<Checkpoint>, later: Setting)
    requires Verify(b, s, checkpoint).Ok? && s.hash == later.hash
    requires checkpoint.Some? ==> b.epoch != checkpoint.value.epoch
    requires Verify(b, later, Some(Verify(b, s, checkpoint).value.accepted)).Ok?
    ensures var first := Verify(b, s, checkpoint).value;
            var again := Verify(b, later, Some(first.accepted)).value;
            && again.accepted == first.accepted
            && (again.receipts == first.receipts <==>
                  checkpoint.None? || !LeavesOut(b.entries, b, checkpoint.value.generatedAt, s))
  {
    SortIgnoresTheClock(b.entries, b, None, s, later);
    if checkpoint.Some? {
      SortAgain(b.entries, b, checkpoint.value.generatedAt, s);
      EarlyExactlyWhenLeftOut(b.entries, b, checkpoint.value.generatedAt, s);
    }
  }

  // ---------------------------------------------------------------------------------------------
  // Runs.

  datatype Offer = Offer(bundle: Bundle, setting: Setting)

  /** What one successful verification credits. `again` tells whether the bundle was the accepted one already,
      and `since` is the time of the bundle accepted before it, if there was one. */
  datatype Credit = Credit(bundle: Bundle, setting: Setting, again: bool, since: Option<int>, receipts: seq<Receipt>)

  datatype Ledger = Ledger(checkpoint: Option<Checkpoint>, since: Option<int>, credits: seq<Credit>)

  /** A refused bundle leaves everything as it was. Every verification that succeeds credits what it returns. */
  function Step(l: Ledger, o: Offer): Ledger {
    match Verify(o.bundle, o.setting, l.checkpoint)
    case Err(_) => l
    case Ok(v) =>
      var again := Some(v.accepted) == l.checkpoint;
      var since := if again then l.since else if l.checkpoint.Some? then Some(l.checkpoint.value.generatedAt) else None;
      Ledger(Some(v.accepted), since, l.credits + [Credit(o.bundle, o.setting, again, since, v.receipts)])
  }

  function After(offers: seq<Offer>): Ledger {
    if offers == [] then Ledger(None, None, []) else Step(After(offers[..|offers| - 1]), offers[|offers| - 1])
  }

  /** The bundle id, which covers the time a bundle was generated at, names it. */
  type TimeOf = Digest -> int

  ghost predicate Offered(offers: seq<Offer>, hash: RequestHash, timeOf: TimeOf) {
    forall i :: 0 <= i < |offers| ==> OfferOk(offers[i], hash, timeOf)
  }

  ghost predicate OfferOk(o: Offer, hash: RequestHash, timeOf: TimeOf) {
    o.setting.hash == hash && o.bundle.generatedAt == timeOf(o.bundle.id)
  }

  predicate Linked(earlier: Bundle, later: Bundle) {
    later.epoch == earlier.epoch + 1 && later.previous == Some(earlier.id) && later.generatedAt > earlier.generatedAt
  }

  predicate Same(earlier: Bundle, later: Bundle) {
    later.epoch == earlier.epoch && later.id == earlier.id && later.generatedAt == earlier.generatedAt
  }

  predicate Follows(a: Credit, b: Credit) {
    if b.again then Same(a.bundle, b.bundle) && b.since == a.since
    else Linked(a.bundle, b.bundle) && b.since == Some(a.bundle.generatedAt)
  }

  ghost predicate CreditOk(c: Credit, hash: RequestHash) {
    && c.setting.hash == hash && SortedUnique(c.bundle.entries)
    && c.receipts == Sort(c.bundle.entries, c.bundle, if c.again then None else c.since, c.setting).verified
  }

  ghost predicate LedgerOk(l: Ledger, hash: RequestHash) {
    && (l.credits == [] <==> l.checkpoint.None?)
    && (l.credits != [] ==>
          var last := l.credits[|l.credits| - 1];
          && l.since == last.since
          && l.checkpoint == Some(Checkpoint(last.bundle.epoch, last.bundle.id, last.bundle.generatedAt))
          && l.credits[0].since.None? && !l.credits[0].again)
    && (forall k :: 0 < k < |l.credits| ==> Follows(l.credits[k - 1], l.credits[k]))
    && (forall k :: 0 <= k < |l.credits| ==> CreditOk(l.credits[k], hash))
  }

  lemma StepKeeps(l: Ledger, o: Offer, hash: RequestHash, timeOf: TimeOf)
    requires LedgerOk(l, hash) && OfferOk(o, hash, timeOf)
    requires l.checkpoint.Some? ==> l.checkpoint.value.generatedAt == timeOf(l.checkpoint.value.id)
    ensures var next := Step(l, o);
            LedgerOk(next, hash)
            && (next.checkpoint.Some? ==> next.checkpoint.value.generatedAt == timeOf(next.checkpoint.value.id))
  {
    if Verify(o.bundle, o.setting, l.checkpoint).Ok? {
      var n, next := |l.credits|, Step(l, o);
      assert next.credits[..n] == l.credits;
      assert n > 0 ==> Follows(next.credits[n - 1], next.credits[n]);
      assert CreditOk(next.credits[n], hash);
    }
  }

  lemma {:induction false} RunKeepsLedger(offers: seq<Offer>, hash: RequestHash, timeOf: TimeOf)
    requires Offered(offers, hash, timeOf)
    ensures LedgerOk(After(offers), hash)
    ensures var c := After(offers).checkpoint; c.Some? ==> c.value.generatedAt == timeOf(c.value.id)
  {
    if offers != [] {
      RunKeepsLedger(offers[..|offers| - 1], hash, timeOf);
      StepKeeps(After(offers[..|offers| - 1]), offers[|offers| - 1], hash, timeOf);
    }
  }

  lemma {:induction false} CreditsAdvance(credits: seq<Credit>, i: nat, j: nat)
    requires forall k :: 0 < k < |credits| ==> Follows(credits[k - 1], credits[k])
    requires i <= j < |credits| && credits[0].since.None? && !credits[0].again
    ensures credits[i].bundle.epoch <= credits[j].bundle.epoch
    ensures credits[i].bundle.epoch == credits[j].bundle.epoch ==>
              Same(credits[i].bundle, credits[j].bundle) && credits[i].since == credits[j].since
    ensures credits[i].bundle.epoch < credits[j].bundle.epoch ==>
              credits[j].since.Some? && credits[i].bundle.generatedAt <= credits[j].since.value
    ensures credits[j].since.Some? ==> credits[j].since.value < credits[j].bundle.generatedAt
    ensures credits[i].bundle.generatedAt <= credits[j].bundle.generatedAt
    decreases j
  {
    if i < j {
      CreditsAdvance(credits, i, j - 1);
      assert Follows(credits[j - 1], credits[j]);
    } else if j > 0 {
      CreditsAdvance(credits, j - 1, j - 1);
      assert Follows(credits[j - 1], credits[j]);
    }
  }

  /** Some earlier credit is of the bundle accepted before. */
  lemma {:induction false} CreditBefore(credits: seq<Credit>, j: nat) returns (i: nat)
    requires (forall k :: 0 < k < |credits| ==> Follows(credits[k - 1], credits[k]))
    requires j < |credits| && credits[j].since.Some? && credits[0].since.None?
    ensures i < j && credits[i].bundle.epoch + 1 == credits[j].bundle.epoch
    ensures credits[i].bundle.generatedAt == credits[j].since.value
    decreases j
  {
    assert Follows(credits[j - 1], credits[j]);
    if credits[j].again {
      i := CreditBefore(credits, j - 1);
    } else {
      i := j - 1;
    }
  }
  /** Over any run of offered bundles each credit is of the bundle credited before it, verified again, or of the
      next epoch's, linked to it and later. So no epoch has two bundle ids, and none is skipped or gone back to. */
  lemma AcceptedEpochsAreConsecutive(offers: seq<Offer>, hash: RequestHash, timeOf: TimeOf, i: nat, j: nat)
    requires Offered(offers, hash, timeOf) && i < j < |After(offers).credits|
    ensures var credits := After(offers).credits;
            var (a, b) := (credits[i].bundle, credits[j].bundle);
            && a.epoch <= b.epoch && (a.epoch == b.epoch ==> Same(a, b))
            && (a.epoch < b.epoch ==> a.generatedAt < b.generatedAt)
            && (if credits[i + 1].again then Same(a, credits[i + 1].bundle) else Linked(a, credits[i + 1].bundle))
  {
    var credits := After(offers).credits;
    RunKeepsLedger(offers, hash, timeOf);
    CreditsAdvance(credits, i, j);
    assert Follows(credits[i], credits[i + 1]);
  }

  /** Receipts credited for different epochs were completed in windows that do not overlap. */
  predicate WindowsApart(credits: seq<Credit>) {
    forall i, j, y :: 0 <= i < j < |credits| && credits[i].bundle.epoch != credits[j].bundle.epoch
                      && 0 <= y < |credits[j].receipts| ==>
      credits[i].bundle.generatedAt < credits[j].receipts[y].facts.completedAt
  }

  /** A credit of a bundle verified again that left an entry out when it was new. */
  predicate Overreaches(c: Credit) {
    c.again && c.since.Some? && LeavesOut(c.bundle.entries, c.bundle, c.since.value, c.setting)
  }

  lemma EarlyCredit(c: Credit, hash: RequestHash)
    requires CreditOk(c, hash) && c.since.Some?
    ensures AnyEarly(c.receipts, c.since.value) <==> Overreaches(c)
  {
    EarlyExactlyWhenLeftOut(c.bundle.entries, c.bundle, c.since.value, c.setting);
  }

  /** No receipt is credited that was completed after its bundle. */
  lemma CreditedInTime(offers: seq<Offer>, hash: RequestHash, timeOf: TimeOf, i: nat, x: nat)
    requires Offered(offers, hash, timeOf) && i < |After(offers).credits| && x < |After(offers).credits[i].receipts|
    ensures var c := After(offers).credits[i]; c.receipts[x].facts.completedAt <= c.bundle.generatedAt
  {
    RunKeepsLedger(offers, hash, timeOf);
    var c := After(offers).credits[i];
    SortAdmits(c.bundle.entries, c.bundle, if c.again then None else c.since, c.setting);
    assert Admissible(c.receipts[x], c.bundle, if c.again then None else c.since, c.setting);
  }

  lemma OverreachOverlaps(l: Ledger, hash: RequestHash, k: nat)
    requires LedgerOk(l, hash) && k < |l.credits| && Overreaches(l.credits[k])
    ensures !WindowsApart(l.credits)
  {
    var c := l.credits[k];
    assert CreditOk(c, hash);
    EarlyCredit(c, hash);
    var y :| 0 <= y < |c.receipts| && c.receipts[y].facts.completedAt <= c.since.value;
    var i := CreditBefore(l.credits, k);
    assert l.credits[i].bundle.generatedAt >= l.credits[k].receipts[y].facts.completedAt;
  }

  lemma NoOverreachNoOverlap(l: Ledger, hash: RequestHash, i: nat, j: nat, y: nat)
    requires LedgerOk(l, hash) && i < j < |l.credits| && l.credits[i].bundle.epoch != l.credits[j].bundle.epoch
    requires !Overreaches(l.credits[j]) && y < |l.credits[j].receipts|
    ensures l.credits[i].bundle.generatedAt < l.credits[j].receipts[y].facts.completedAt
  {
    CreditsAdvance(l.credits, i, j);
    assert CreditOk(l.credits[j], hash);
    EarlyCredit(l.credits[j], hash);
    assert !AnyEarly(l.credits[j].receipts, l.credits[j].since.value);
  }

  /** Over any run the windows of different epochs stay apart exactly when no accepted bundle is verified again
      that left out, when it was new, an entry whose request it had not admitted before. */
  lemma WindowsDoNotOverlap(offers: seq<Offer>, hash: RequestHash, timeOf: TimeOf)
    requires Offered(offers, hash, timeOf)
    ensures WindowsApart(After(offers).credits) <==>
              forall k :: 0 <= k < |After(offers).credits| ==> !Overreaches(After(offers).credits[k])
  {
    var l := After(offers);
    RunKeepsLedger(offers, hash, timeOf);
    if k :| 0 <= k < |l.credits| && Overreaches(l.credits[k]) {
      OverreachOverlaps(l, hash, k);
    } else {
      forall i, j, y | 0 <= i < j < |l.credits| && l.credits[i].bundle.epoch != l.credits[j].bundle.epoch
                       && 0 <= y < |l.credits[j].receipts|
        ensures l.credits[i].bundle.generatedAt < l.credits[j].receipts[y].facts.completedAt
      {
        NoOverreachNoOverlap(l, hash, i, j, y);
      }
    }
  }

  // The failing case: a receipt completed before the bundle of epoch 0 is left out of the bundle of epoch 1, and
  // credited when that bundle is verified again.

  function ExampleSetting(hash: RequestHash): Setting {
    Setting(hash, 0, 10, 20, 60, 60)
  }

  function ExampleEntry(id: Digest, hash: RequestHash, r: Request, completedAt: int): Entry {
    Entry(id, Some(Facts(r, hash(r), completedAt, true, 1, 0, 0, "model", "image", "runner")))
  }

  function FirstBundle(hash: RequestHash, zero: Request): Bundle {
    Bundle(0, "zero", None, 10, 100, 0, 10, [ExampleEntry("a", hash, zero, 5)])
  }

  function SecondBundle(hash: RequestHash, early: Request, late: Request): Bundle {
    Bundle(1, "one", Some("zero"), 20, 100, 0, 10,
           [ExampleEntry("a", hash, early, 5), ExampleEntry("b", hash, late, 15)])
  }

  function VerifyThenScore(hash: RequestHash, zero: Request, early: Request, late: Request): seq<Offer> {
    var s := ExampleSetting(hash);
    [Offer(FirstBundle(hash, zero), s), Offer(SecondBundle(hash, early, late), s),
     Offer(SecondBundle(hash, early, late), s)]
  }

  lemma SortOne(e: Entry, b: Bundle, cutoff: Option<int>, s: Setting)
    ensures Sort([e], b, cutoff, s) ==
            match Judge(e, b, cutoff, s, {})
            case Ok(f) => Sorting([Receipt(e.id, f)], [])
            case Err(reason) => Sorting([], [(e.id, reason)])
  {
    assert [e][..0] == [];
    assert RequestIds([]) == {};
  }

  /** Only the later receipt is admitted to the second bundle when it is new, and both when it is not. */
  lemma SecondBundleSorted(hash: RequestHash, early: Request, late: Request)
    requires early.epoch == 1 && late.epoch == 1 && hash(early) != hash(late)
    ensures var (b, s) := (SecondBundle(hash, early, late), ExampleSetting(hash));
            var (x, y) := (Receipt("a", b.entries[0].facts.value), Receipt("b", b.entries[1].facts.value));
            && Sort(b.entries, b, Some(10), s).verified == [y]
            && Sort(b.entries, b, None, s).verified == [x, y]
  {
    var b, s := SecondBundle(hash, early, late), ExampleSetting(hash);
    var x := Receipt("a", b.entries[0].facts.value);
    SortOne(b.entries[0], b, Some(10), s);
    SortMore([b.entries[0]], b.entries[1], b, Some(10), s);
    SortOne(b.entries[0], b, None, s);
    SortMore([b.entries[0]], b.entries[1], b, None, s);
    assert [b.entries[0]] + [b.entries[1]] == b.entries;
    OneMoreRequest([], x);
    assert [] + [x] == [x];
    assert RequestIds([]) == {};
  }

  lemma SecondBundleVerified(hash: RequestHash, early: Request, late: Request)
    requires early.epoch == 1 && late.epoch == 1 && hash(early) != hash(late)
    ensures var (b, s) := (SecondBundle(hash, early, late), ExampleSetting(hash));
            var (x, y) := (Receipt("a", b.entries[0].facts.value), Receipt("b", b.entries[1].facts.value));
            var first := Verify(b, s, Some(Checkpoint(0, "zero", 10)));
            var again := Verify(b, s, Some(Checkpoint(1, "one", 20)));
            && first.Ok? && first.value.accepted == Checkpoint(1, "one", 20) && first.value.receipts == [y]
            && again.Ok? && again.value.accepted == Checkpoint(1, "one", 20) && again.value.receipts == [x, y]
  {
    SecondBundleSorted(hash, early, late);
    assert Before("a", "b");
  }

  lemma AfterMore(offers: seq<Offer>, o: Offer)
    ensures After(offers + [o]) == Step(After(offers), o)
  {
    assert (offers + [o])[..|offers|] == offers;
  }

  /** A bundle of epoch 1 is verified, and verified again to score it. The second time credits a receipt that
      was completed before the bundle of epoch 0. */
  lemma ScoringAfterVerifyingOverreaches(hash: RequestHash, zero: Request, early: Request, late: Request)
    requires zero.epoch == 0 && early.epoch == 1 && late.epoch == 1 && hash(early) != hash(late)
    ensures var credits := After(VerifyThenScore(hash, zero, early, late)).credits;
            && |credits| == 3 && |credits[1].receipts| == 1 && |credits[2].receipts| == 2
            && credits[2].receipts[0].facts.completedAt <= credits[0].bundle.generatedAt
            && !WindowsApart(credits)
  {
    var s, b := ExampleSetting(hash), SecondBundle(hash, early, late);
    var first, second := Offer(FirstBundle(hash, zero), s), Offer(b, s);
    SortOne(first.bundle.entries[0], first.bundle, None, s);
    SecondBundleVerified(hash, early, late);
    AfterMore([], first);
    AfterMore([first], second);
    AfterMore([first, second], second);
    assert [] + [first] == [first] && [first] + [second] == [first, second];
    assert [first, second] + [second] == VerifyThenScore(hash, zero, early, late);
    var credits := After([first, second, second]).credits;
    assert credits[0].bundle.epoch != credits[2].bundle.epoch;
    assert credits[2].receipts[0].facts.completedAt == 5;
  }

  ghost predicate Collisionless(hash: RequestHash) {
    forall a, b :: hash(a) == hash(b) ==> a == b
  }

  /** Over any run no request is credited in two epochs, nor twice by one verification. */
  lemma NoRequestCreditedTwice(offers: seq<Offer>, hash: RequestHash, timeOf: TimeOf, i: nat, j: nat, x: nat, y: nat)
    requires Offered(offers, hash, timeOf) && Collisionless(hash) && i <= j < |After(offers).credits|
    requires var credits := After(offers).credits;
             && x < |credits[i].receipts| && y < |credits[j].receipts|
             && (credits[i].bundle.epoch != credits[j].bundle.epoch || (i == j && x != y))
    ensures After(offers).credits[i].receipts[x].facts.requestId != After(offers).credits[j].receipts[y].facts.requestId
  {
    var credits := After(offers).credits;
    RunKeepsLedger(offers, hash, timeOf);
    CreditAdmissible(credits[i], hash);
    CreditAdmissible(credits[j], hash);
  }

  lemma CreditAdmissible(c: Credit, hash: RequestHash)
    requires CreditOk(c, hash)
    ensures NoIdTwice(c.receipts)
    ensures forall x :: 0 <= x < |c.receipts| ==>
              c.receipts[x].facts.requestId == hash(c.receipts[x].facts.request)
              && c.receipts[x].facts.request.epoch == c.bundle.epoch
  {
    var cutoff := if c.again then None else c.since;
    SortAdmits(c.bundle.entries, c.bundle, cutoff, c.setting);
    assert forall x :: 0 <= x < |c.receipts| ==> Admissible(c.receipts[x], c.bundle, cutoff, c.setting);
  }
}
