/** Anti-rollback checkpoints of `cathedral_thin/score_classes.py`: score reports by epoch and owner
    registrations by sequence, each loaded from several mirrors.

    A document's id is a hash of its body. Where a property needs ids not to collide it names a function
    `body` from ids to bodies and asks every document to agree with it. */
module Checkpoints {
  import opened Prelude

  // ---------------------------------------------------------------------------------------------
  // Score reports.

  datatype Report = Report(epoch: nat, id: Digest, previous: Option<Digest>)

  datatype SourceCheckpoint = SourceCheckpoint(epoch: nat, id: Digest)

  datatype ChainError = NoneValid | MirrorsEquivocate | RolledBack | Equivocated | NotLinked

  function EnforceCheckpoint(r: Report, checkpoint: Option<SourceCheckpoint>): Result<SourceCheckpoint, ChainError> {
    match checkpoint
    case None => Ok(SourceCheckpoint(r.epoch, r.id))
    case Some(c) =>
      if r.epoch < c.epoch then Err(RolledBack)
      else if r.epoch == c.epoch then (if r.id != c.id then Err(Equivocated) else Ok(c))
      else if r.epoch == c.epoch + 1 && r.previous != Some(c.id) then Err(NotLinked)
      else Ok(SourceCheckpoint(r.epoch, r.id))
  }

  /** The mirrors' reports that verified on their own, in mirror order. */
  function Valid<T>(mirrors: seq<Option<T>>): seq<T> {
    if mirrors == [] then []
    else
      var front, last := Valid(mirrors[..|mirrors| - 1]), mirrors[|mirrors| - 1];
      if last.Some? then front + [last.value] else front
  }

  function Highest(reports: seq<Report>): nat
    requires reports != []
  {
    if |reports| == 1 then reports[0].epoch
    else
      var front := Highest(reports[..|reports| - 1]);
      if reports[|reports| - 1].epoch > front then reports[|reports| - 1].epoch else front
  }

  function AtEpoch(reports: seq<Report>, epoch: nat): seq<Report> {
    if reports == [] then []
    else
      var front, last := AtEpoch(reports[..|reports| - 1], epoch), reports[|reports| - 1];
      if last.epoch == epoch then front + [last] else front
  }

  predicate SameId(reports: seq<Report>) {
    forall i, j :: 0 <= i < |reports| && 0 <= j < |reports| ==> reports[i].id == reports[j].id
  }

  lemma {:induction false} HighestIsHighest(reports: seq<Report>)
    requires reports != []
    ensures forall r :: r in reports ==> r.epoch <= Highest(reports)
    ensures exists r :: r in reports && r.epoch == Highest(reports)
  {
    var front, last := reports[..|reports| - 1], reports[|reports| - 1];
    assert reports == front + [last];
    assert last in reports;
    if |reports| > 1 {
      HighestIsHighest(front);
    }
  }

  lemma {:induction false} AtEpochMembers(reports: seq<Report>, epoch: nat)
    ensures forall r :: r in AtEpoch(reports, epoch) <==> r in reports && r.epoch == epoch
  {
    if reports != [] {
      AtEpochMembers(reports[..|reports| - 1], epoch);
      assert reports == reports[..|reports| - 1] + [reports[|reports| - 1]];
    }
  }

  lemma HighestListed(reports: seq<Report>)
    requires reports != []
    ensures AtEpoch(reports, Highest(reports)) != []
    ensures AtEpoch(reports, Highest(reports))[0] in reports
    ensures AtEpoch(reports, Highest(reports))[0].epoch == Highest(reports)
  {
    HighestIsHighest(reports);
    AtEpochMembers(reports, Highest(reports));
    var r :| r in reports && r.epoch == Highest(reports);
    assert r in AtEpoch(reports, Highest(reports));
    var first := AtEpoch(reports, Highest(reports))[0];
    assert first in AtEpoch(reports, Highest(reports));
  }

  /** The report chosen from the mirrors and the checkpoint it leads to. */
  function LoadBest(mirrors: seq<Option<Report>>, checkpoint: Option<SourceCheckpoint>)
    : Result<(Report, SourceCheckpoint), ChainError>
  {
    var valid := Valid(mirrors);
    if valid == [] then Err(NoneValid)
    else
      HighestListed(valid);
      var candidates := AtEpoch(valid, Highest(valid));
      if !SameId(candidates) then Err(MirrorsEquivocate)
      else
        match EnforceCheckpoint(candidates[0], checkpoint)
        case Err(e) => Err(e)
        case Ok(c) => Ok((candidates[0], c))
  }

  method LoadBestReport(mirrors: seq<Option<Report>>, checkpoint: Option<SourceCheckpoint>)
      returns (r: Result<(Report, SourceCheckpoint), ChainError>)
    ensures r == LoadBest(mirrors, checkpoint)
  {
    var valid: seq<Report> := [];
    for i := 0 to |mirrors|
      invariant valid == Valid(mirrors[..i])
    {
      assert mirrors[..i + 1][..i] == mirrors[..i];
      if mirrors[i].Some? {
        valid := valid + [mirrors[i].value];
      }
    }
    assert mirrors[..|mirrors|] == mirrors;
    if valid == [] {
      return Err(NoneValid);
    }
    var highest := valid[0].epoch;
    for i := 1 to |valid|
      invariant highest == Highest(valid[..i])
    {
      assert valid[..i + 1][..i] == valid[..i];
      if valid[i].epoch > highest {
        highest := valid[i].epoch;
      }
    }
    assert valid[..|valid|] == valid;
    var candidates: seq<Report> := [];
    for i := 0 to |valid|
      invariant candidates == AtEpoch(valid[..i], highest)
    {
      assert valid[..i + 1][..i] == valid[..i];
      if valid[i].epoch == highest {
        candidates := candidates + [valid[i]];
      }
    }
    HighestListed(valid);
    if !SameId(candidates) {
      return Err(MirrorsEquivocate);
    }
    var accepted := EnforceCheckpoint(candidates[0], checkpoint);
    if accepted.Err? {
      return Err(accepted.error);
    }
    return Ok((candidates[0], accepted.value));
  }

  /** What the checkpoint asks of the next document: `base` is its number and id. */
  predicate MayFollow(n: nat, id: Digest, previous: Option<Digest>, base: Option<(nat, Digest)>) {
    match base
    case None => true
    case Some((at, accepted)) =>
      n > at + 1 || (n == at + 1 && previous == Some(accepted)) || (n == at && id == accepted)
  }

  /** Mirror `k` is the first to serve a report of the highest epoch any mirror serves. */
  predicate IsBest(mirrors: seq<Option<Report>>, k: int) {
    && 0 <= k < |mirrors| && mirrors[k].Some?
    && (forall i :: 0 <= i < |mirrors| && mirrors[i].Some? ==> mirrors[i].value.epoch <= mirrors[k].value.epoch)
    && (forall i :: 0 <= i < k && mirrors[i].Some? ==> mirrors[i].value.epoch < mirrors[k].value.epoch)
  }

  predicate AgreesWithItsEpoch(mirrors: seq<Option<Report>>, k: int)
    requires 0 <= k < |mirrors| && mirrors[k].Some?
  {
    forall i :: 0 <= i < |mirrors| && mirrors[i].Some? && mirrors[i].value.epoch == mirrors[k].value.epoch ==>
      mirrors[i].value.id == mirrors[k].value.id
  }

  lemma {:induction false} FirstCandidate(mirrors: seq<Option<Report>>, n: nat) returns (k: nat)
    requires AtEpoch(Valid(mirrors), n) != []
    ensures k < |mirrors| && mirrors[k] == Some(AtEpoch(Valid(mirrors), n)[0]) && mirrors[k].value.epoch == n
    ensures forall i :: 0 <= i < k && mirrors[i].Some? ==> mirrors[i].value.epoch != n
  {
    var front, last := mirrors[..|mirrors| - 1], mirrors[|mirrors| - 1];
    if last.Some? {
      assert (Valid(front) + [last.value])[..|Valid(front)|] == Valid(front);
    }
    if AtEpoch(Valid(front), n) != [] {
      k := FirstCandidate(front, n);
    } else {
      k := |mirrors| - 1;
      forall i | 0 <= i < k && mirrors[i].Some?
        ensures mirrors[i].value.epoch != n
      {
        assert front[i] == mirrors[i];
        ValidMembers(front);
        AtEpochMembers(Valid(front), n);
        assert mirrors[i].value in Valid(front);
      }
    }
  }

  lemma {:induction false} NothingServed<T>(mirrors: seq<Option<T>>)
    ensures Valid(mirrors) == [] <==> forall i :: 0 <= i < |mirrors| ==> mirrors[i].None?
  {
    if mirrors != [] {
      var front := mirrors[..|mirrors| - 1];
      NothingServed(front);
      assert (forall i :: 0 <= i < |mirrors| ==> mirrors[i].None?) ==>
          forall i :: 0 <= i < |front| ==> front[i].None?;
      if Valid(mirrors) == [] {
        forall i | 0 <= i < |mirrors|
          ensures mirrors[i].None?
        {
          assert i < |front| ==> mirrors[i] == front[i];
        }
      }
    }
  }

  lemma BestOfMirrors(mirrors: seq<Option<Report>>) returns (k: nat)
    requires Valid(mirrors) != []
    ensures AtEpoch(Valid(mirrors), Highest(Valid(mirrors))) != []
    ensures IsBest(mirrors, k) && mirrors[k].value == AtEpoch(Valid(mirrors), Highest(Valid(mirrors)))[0]
    ensures AgreesWithItsEpoch(mirrors, k) <==> SameId(AtEpoch(Valid(mirrors), Highest(Valid(mirrors))))
  {
    var valid := Valid(mirrors);
    var n := Highest(valid);
    var candidates := AtEpoch(valid, n);
    HighestListed(valid);
    HighestIsHighest(valid);
    ValidMembers(mirrors);
    AtEpochMembers(valid, n);
    k := FirstCandidate(mirrors, n);
    forall i | 0 <= i < |mirrors| && mirrors[i].Some?
      ensures mirrors[i].value in valid && mirrors[i].value.epoch <= n
      ensures mirrors[i].value.epoch == n ==> mirrors[i].value in candidates
    {
      assert Some(mirrors[i].value) in mirrors;
    }
    if AgreesWithItsEpoch(mirrors, k) {
      forall i, j | 0 <= i < |candidates| && 0 <= j < |candidates|
        ensures candidates[i].id == candidates[j].id
      {
        assert candidates[i] in candidates && candidates[j] in candidates;
        assert Some(candidates[i]) in mirrors && Some(candidates[j]) in mirrors;
      }
    }
  }

  lemma BestIsUnique(mirrors: seq<Option<Report>>, j: int, k: int)
    requires IsBest(mirrors, j) && IsBest(mirrors, k)
    ensures j == k
  {
  }

  /** Which served reports are accepted: one is exactly when the mirrors that serve the highest epoch agree
      on its id and it may follow the checkpoint. It is then the first of that epoch, and the new
      checkpoint is its own epoch and id. */
  lemma AcceptedExactly(mirrors: seq<Option<Report>>, checkpoint: Option<SourceCheckpoint>)
    ensures var base := if checkpoint.None? then None else Some((checkpoint.value.epoch, checkpoint.value.id));
            var r := LoadBest(mirrors, checkpoint);
            && (r.Ok? <==> exists k :: IsBest(mirrors, k) && AgreesWithItsEpoch(mirrors, k)
                             && MayFollow(mirrors[k].value.epoch, mirrors[k].value.id, mirrors[k].value.previous, base))
            && (forall k :: IsBest(mirrors, k) && r.Ok? ==>
                  r.value == (mirrors[k].value, SourceCheckpoint(mirrors[k].value.epoch, mirrors[k].value.id)))
  {
    NothingServed(mirrors);
    if Valid(mirrors) != [] {
      var best := BestOfMirrors(mirrors);
      forall k | IsBest(mirrors, k)
        ensures k == best
      {
        BestIsUnique(mirrors, k, best);
      }
    }
  }

  /** Which error is given for the rest. */
  lemma RefusedFor(mirrors: seq<Option<Report>>, checkpoint: Option<SourceCheckpoint>)
    ensures LoadBest(mirrors, checkpoint) == Err(NoneValid) <==> forall i :: 0 <= i < |mirrors| ==> mirrors[i].None?
    ensures forall k :: IsBest(mirrors, k) ==>
              && (LoadBest(mirrors, checkpoint) == Err(MirrorsEquivocate) <==> !AgreesWithItsEpoch(mirrors, k))
              && (AgreesWithItsEpoch(mirrors, k) && checkpoint.Some? ==>
                    var r, c := mirrors[k].value, checkpoint.value;
                    && (LoadBest(mirrors, checkpoint) == Err(RolledBack) <==> r.epoch < c.epoch)
                    && (LoadBest(mirrors, checkpoint) == Err(Equivocated) <==> r.epoch == c.epoch && r.id != c.id)
                    && (LoadBest(mirrors, checkpoint) == Err(NotLinked) <==>
                        r.epoch == c.epoch + 1 && r.previous != Some(c.id)))
  {
    NothingServed(mirrors);
    if Valid(mirrors) != [] {
      var best := BestOfMirrors(mirrors);
      forall k | IsBest(mirrors, k)
        ensures k == best
      {
        BestIsUnique(mirrors, k, best);
      }
    }
  }

  /** The part of a report's body the chain depends on. */
  type ReportBody = Digest -> (nat, Option<Digest>)

  predicate Agrees(r: Report, body: ReportBody) {
    body(r.id) == (r.epoch, r.previous)
  }

  predicate AllAgree(mirrors: seq<Option<Report>>, body: ReportBody) {
    forall i :: 0 <= i < |mirrors| && mirrors[i].Some? ==> Agrees(mirrors[i].value, body)
  }

  lemma {:induction false} ValidMembers<T>(mirrors: seq<Option<T>>)
    ensures forall r :: r in Valid(mirrors) <==> Some(r) in mirrors
  {
    if mirrors != [] {
      ValidMembers(mirrors[..|mirrors| - 1]);
      assert mirrors == mirrors[..|mirrors| - 1] + [mirrors[|mirrors| - 1]];
    }
  }

  function Outcome<T, C>(r: Result<(T, C), ChainError>): Result<C, ChainError> {
    match r
    case Err(e) => Err(e)
    case Ok((_, c)) => Ok(c)
  }

  predicate SameReports<T(==)>(one: seq<Option<T>>, other: seq<Option<T>>) {
    (forall m :: m in one && m.Some? ==> m in other) && (forall m :: m in other && m.Some? ==> m in one)
  }

  /** The accepted checkpoint, or the error, depends on which reports the mirrors hold and not on the
      order of the mirrors. */
  lemma MirrorOrderIsIrrelevant(one: seq<Option<Report>>, other: seq<Option<Report>>,
                                checkpoint: Option<SourceCheckpoint>, body: ReportBody)
    requires SameReports(one, other) && AllAgree(one, body)
    ensures Outcome(LoadBest(one, checkpoint)) == Outcome(LoadBest(other, checkpoint))
  {
    var a, b := Valid(one), Valid(other);
    ValidMembers(one);
    ValidMembers(other);
    assert forall r :: r in a <==> r in b by {
      forall r: Report
        ensures Some(r) in one <==> Some(r) in other
      {
      }
    }
    if b != [] {
      assert b[0] in a;
    }
    if a != [] {
      assert a[0] in b;
      HighestIsHighest(a);
      HighestIsHighest(b);
      var n := Highest(a);
      assert n == Highest(b);
      AtEpochMembers(a, n);
      AtEpochMembers(b, n);
      HighestListed(a);
      HighestListed(b);
      var x, y := AtEpoch(a, n), AtEpoch(b, n);
      SameIdByMembers(x, y);
      SameIdByMembers(y, x);
      if SameId(x) {
        assert y[0] in x && x[0] in x;
        assert x[0].id == y[0].id;
        var i :| 0 <= i < |one| && one[i] == Some(x[0]);
        assert Some(y[0]) in one;
        var j :| 0 <= j < |one| && one[j] == Some(y[0]);
        assert x[0] == y[0];
      }
    }
  }

  lemma SameIdByMembers(x: seq<Report>, y: seq<Report>)
    requires forall r :: r in y ==> r in x
    ensures SameId(x) ==> SameId(y)
  {
    if SameId(x) {
      forall i, j | 0 <= i < |y| && 0 <= j < |y|
        ensures y[i].id == y[j].id
      {
        assert y[i] in x && y[j] in x;
      }
    }
  }

  /** How a later checkpoint of one source may differ from an earlier one: epochs never go back, one
      epoch has one report, and adjacent epochs are linked. */
  predicate Extends(earlier: Option<SourceCheckpoint>, later: Option<SourceCheckpoint>, body: ReportBody) {
    earlier.Some? ==>
      && later.Some?
      && earlier.value.epoch <= later.value.epoch
      && (earlier.value.epoch == later.value.epoch ==> earlier == later)
      && (later.value.epoch == earlier.value.epoch + 1 ==> body(later.value.id).1 == Some(earlier.value.id))
  }

  lemma ExtendsTransitive(a: Option<SourceCheckpoint>, b: Option<SourceCheckpoint>, c: Option<SourceCheckpoint>,
                          body: ReportBody)
    requires Extends(a, b, body) && Extends(b, c, body)
    ensures Extends(a, c, body)
  {
  }

  lemma EnforceExtends(r: Report, checkpoint: Option<SourceCheckpoint>, body: ReportBody)
    requires Agrees(r, body) && EnforceCheckpoint(r, checkpoint).Ok?
    ensures Extends(checkpoint, Some(EnforceCheckpoint(r, checkpoint).value), body)
  {
  }

  lemma LoadBestExtends(mirrors: seq<Option<Report>>, checkpoint: Option<SourceCheckpoint>, body: ReportBody)
    requires AllAgree(mirrors, body) && LoadBest(mirrors, checkpoint).Ok?
    ensures Extends(checkpoint, Some(LoadBest(mirrors, checkpoint).value.1), body)
    ensures Some(LoadBest(mirrors, checkpoint).value.0) in mirrors
  {
    var valid := Valid(mirrors);
    HighestListed(valid);
    ValidMembers(mirrors);
    var selected := AtEpoch(valid, Highest(valid))[0];
    assert selected in valid && Some(selected) in mirrors;
    EnforceExtends(selected, checkpoint, body);
  }

  /** The checkpoint after a run of loads; a failed load leaves it alone. */
  function AfterLoads(start: Option<SourceCheckpoint>, loads: seq<seq<Option<Report>>>): Option<SourceCheckpoint> {
    if loads == [] then start
    else
      var before := AfterLoads(start, loads[..|loads| - 1]);
      match LoadBest(loads[|loads| - 1], before)
      case Err(_) => before
      case Ok((_, c)) => Some(c)
  }

  /** Over any run of loads, whatever the mirrors serve. */
  lemma {:induction false} CheckpointNeverRollsBack(start: Option<SourceCheckpoint>, loads: seq<seq<Option<Report>>>,
                                                    k: nat, body: ReportBody)
    requires k <= |loads| && forall i :: 0 <= i < |loads| ==> AllAgree(loads[i], body)
    ensures Extends(AfterLoads(start, loads[..k]), AfterLoads(start, loads), body)
    decreases |loads|
  {
    if k == |loads| {
      assert loads[..k] == loads;
    } else {
      var front := loads[..|loads| - 1];
      CheckpointNeverRollsBack(start, front, k, body);
      assert front[..k] == loads[..k];
      var before := AfterLoads(start, front);
      if LoadBest(loads[|loads| - 1], before).Ok? {
        LoadBestExtends(loads[|loads| - 1], before, body);
        ExtendsTransitive(AfterLoads(start, loads[..k]), before, AfterLoads(start, loads), body);
      }
    }
  }

  // ---------------------------------------------------------------------------------------------
  // Owner registrations.

  datatype Registration = Registration(owner: Coldkey, delegate: Hotkey, sequence: nat, id: Digest,
                                       previous: Option<Digest>)

  datatype RegistrationCheckpoint = RegistrationCheckpoint(owner: Coldkey, delegate: Hotkey, sequence: nat, id: Digest)

  datatype RegistrationError = NotCurrentOwner | DelegateNotRegistered | ChainBroken(error: ChainError)

  function EnforceRegistration(r: Registration, checkpoint: Option<RegistrationCheckpoint>)
    : Result<RegistrationCheckpoint, ChainError>
  {
    var accepted := RegistrationCheckpoint(r.owner, r.delegate, r.sequence, r.id);
    if checkpoint.None? || checkpoint.value.owner != r.owner then Ok(accepted)
    else
      var c := checkpoint.value;
      if r.sequence < c.sequence then Err(RolledBack)
      else if r.sequence == c.sequence then (if r.id != c.id then Err(Equivocated) else Ok(c))
      else if r.sequence == c.sequence + 1 && r.previous != Some(c.id) then Err(NotLinked)
      else Ok(accepted)
  }

  /** The checks against the chain state and the checkpoint; the signature and form checks before them
      are part of what the mirrors are taken to have passed. */
  function VerifyRegistration(r: Registration, currentOwner: Coldkey, registered: map<Hotkey, Coldkey>,
                              checkpoint: Option<RegistrationCheckpoint>)
    : Result<RegistrationCheckpoint, RegistrationError>
  {
    if r.owner != currentOwner then Err(NotCurrentOwner)
    else if r.delegate !in registered || registered[r.delegate] != r.owner then Err(DelegateNotRegistered)
    else
      match EnforceRegistration(r, checkpoint)
      case Err(e) => Err(ChainBroken(e))
      case Ok(c) => Ok(c)
  }

  datatype Load = Load(mirrors: seq<Option<Registration>>, owner: Coldkey, registered: map<Hotkey, Coldkey>)

  /** Unlike reports, each mirror's registration must pass the checkpoint before one is chosen. */
  function Accepted(load: Load,
                    checkpoint: Option<RegistrationCheckpoint>): seq<(Registration, RegistrationCheckpoint)>
  {
    AcceptedUpTo(load, checkpoint, |load.mirrors|)
  }

  function AcceptedUpTo(load: Load, checkpoint: Option<RegistrationCheckpoint>,
                        k: nat): seq<(Registration, RegistrationCheckpoint)>
    requires k <= |load.mirrors|
  {
    if k == 0 then []
    else
      var front, last := AcceptedUpTo(load, checkpoint, k - 1), load.mirrors[k - 1];
      if last.None? then front
      else
        match VerifyRegistration(last.value, load.owner, load.registered, checkpoint)
        case Err(_) => front
        case Ok(c) => front + [(last.value, c)]
  }

  predicate IsTop(items: seq<(Registration, RegistrationCheckpoint)>, n: nat) {
    (exists i :: 0 <= i < |items| && items[i].0.sequence == n)
    && forall i :: 0 <= i < |items| ==> items[i].0.sequence <= n
  }

  predicate IsFirstAt(items: seq<(Registration, RegistrationCheckpoint)>, n: nat, k: int) {
    0 <= k < |items| && items[k].0.sequence == n && forall i :: 0 <= i < k ==> items[i].0.sequence != n
  }

  predicate OneIdAt(items: seq<(Registration, RegistrationCheckpoint)>, n: nat) {
    forall i, j :: 0 <= i < |items| && 0 <= j < |items| && items[i].0.sequence == n && items[j].0.sequence == n ==>
      items[i].0.id == items[j].0.id
  }

  function TopSequence(items: seq<(Registration, RegistrationCheckpoint)>): (n: nat)
    requires items != []
    ensures IsTop(items, n)
  {
    if |items| == 1 then items[0].0.sequence
    else
      var front, last := TopSequence(items[..|items| - 1]), items[|items| - 1].0.sequence;
      assert items[..|items| - 1][0] == items[0];
      if last > front then last
      else
        var i :| 0 <= i < |items| - 1 && items[..|items| - 1][i].0.sequence == front;
        assert items[i].0.sequence == front;
        front
  }

  function FirstAt(items: seq<(Registration, RegistrationCheckpoint)>, n: nat): (k: nat)
    requires exists i :: 0 <= i < |items| && items[i].0.sequence == n
    ensures IsFirstAt(items, n, k)
  {
    if items[0].0.sequence == n then 0
    else
      var i :| 0 <= i < |items| && items[i].0.sequence == n;
      assert items[1..][i - 1].0.sequence == n;
      1 + FirstAt(items[1..], n)
  }

  function LoadRegistration(load: Load, checkpoint: Option<RegistrationCheckpoint>)
    : Result<(Registration, RegistrationCheckpoint), ChainError>
  {
    var items := Accepted(load, checkpoint);
    if items == [] then Err(NoneValid)
    else if !OneIdAt(items, TopSequence(items)) then Err(MirrorsEquivocate)
    else Ok(items[FirstAt(items, TopSequence(items))])
  }

  type RegistrationBody = Digest -> (Coldkey, Hotkey, nat, Option<Digest>)

  predicate RegistrationAgrees(r: Registration, body: RegistrationBody) {
    body(r.id) == (r.owner, r.delegate, r.sequence, r.previous)
  }

  predicate RegistrationsAgree(load: Load, body: RegistrationBody) {
    forall i :: 0 <= i < |load.mirrors| && load.mirrors[i].Some? ==> RegistrationAgrees(load.mirrors[i].value, body)
  }

  lemma {:induction false} AcceptedMembers(load: Load, checkpoint: Option<RegistrationCheckpoint>, k: nat,
                                          item: (Registration, RegistrationCheckpoint))
    requires k <= |load.mirrors|
    ensures item in AcceptedUpTo(load, checkpoint, k) <==>
              Some(item.0) in load.mirrors[..k]
              && VerifyRegistration(item.0, load.owner, load.registered, checkpoint) == Ok(item.1)
  {
    if k > 0 {
      AcceptedMembers(load, checkpoint, k - 1, item);
      assert load.mirrors[..k] == load.mirrors[..k - 1] + [load.mirrors[k - 1]];
    }
  }

  /** What is accepted was served, is signed for by the current owner, and names a delegate that the
      owner has registered. */
  lemma LoadedIsAuthorized(load: Load, checkpoint: Option<RegistrationCheckpoint>)
    requires LoadRegistration(load, checkpoint).Ok?
    ensures var (r, c) := LoadRegistration(load, checkpoint).value;
            && Some(r) in load.mirrors
            && r.owner == load.owner && r.delegate in load.registered && load.registered[r.delegate] == load.owner
            && EnforceRegistration(r, checkpoint) == Ok(c)
            && c.owner == load.owner && c.id == r.id
  {
    var item := LoadRegistration(load, checkpoint).value;
    AcceptedMembers(load, checkpoint, |load.mirrors|, item);
    assert load.mirrors[..|load.mirrors|] == load.mirrors;
  }

  /** Mirror order does not matter for registrations either. */
  lemma RegistrationOrderIsIrrelevant(one: Load, other: Load, checkpoint: Option<RegistrationCheckpoint>,
                                      body: RegistrationBody)
    requires one.owner == other.owner && one.registered == other.registered
    requires SameReports(one.mirrors, other.mirrors) && RegistrationsAgree(one, body)
    ensures Outcome(LoadRegistration(one, checkpoint)) == Outcome(LoadRegistration(other, checkpoint))
  {
    var a, b := Accepted(one, checkpoint), Accepted(other, checkpoint);
    SameAccepted(one, other, checkpoint);
    if b != [] {
      assert b[0] in a;
    }
    if a != [] {
      assert a[0] in b;
      SameTop(a, b);
      var n := TopSequence(a);
      if OneIdAt(a, n) {
        var x, y := a[FirstAt(a, n)], b[FirstAt(b, n)];
        assert y in a && x in a;
        AcceptedMembers(one, checkpoint, |one.mirrors|, x);
        AcceptedMembers(one, checkpoint, |one.mirrors|, y);
        assert one.mirrors[..|one.mirrors|] == one.mirrors;
        assert x.0.id == y.0.id;
        var i :| 0 <= i < |one.mirrors| && one.mirrors[i] == Some(x.0);
        var j :| 0 <= j < |one.mirrors| && one.mirrors[j] == Some(y.0);
        assert x.0 == y.0;
      }
    }
  }

  lemma SameAccepted(one: Load, other: Load, checkpoint: Option<RegistrationCheckpoint>)
    requires one.owner == other.owner && one.registered == other.registered && SameReports(one.mirrors, other.mirrors)
    ensures forall item :: item in Accepted(one, checkpoint) <==> item in Accepted(other, checkpoint)
  {
    forall item
      ensures item in Accepted(one, checkpoint) <==> item in Accepted(other, checkpoint)
    {
      AcceptedMembers(one, checkpoint, |one.mirrors|, item);
      AcceptedMembers(other, checkpoint, |other.mirrors|, item);
      assert one.mirrors[..|one.mirrors|] == one.mirrors && other.mirrors[..|other.mirrors|] == other.mirrors;
      assert Some(item.0) in one.mirrors <==> Some(item.0) in other.mirrors;
    }
  }

  lemma SameTop(a: seq<(Registration, RegistrationCheckpoint)>, b: seq<(Registration, RegistrationCheckpoint)>)
    requires a != [] && b != [] && forall item :: item in a <==> item in b
    ensures TopSequence(a) == TopSequence(b)
    ensures OneIdAt(a, TopSequence(a)) <==> OneIdAt(b, TopSequence(b))
  {
    var i :| 0 <= i < |a| && a[i].0.sequence == TopSequence(a);
    assert a[i] in b;
    var j :| 0 <= j < |b| && b[j].0.sequence == TopSequence(b);
    assert b[j] in a;
    OneIdByMembers(a, b, TopSequence(a));
    OneIdByMembers(b, a, TopSequence(a));
  }

  lemma OneIdByMembers(a: seq<(Registration, RegistrationCheckpoint)>, b: seq<(Registration, RegistrationCheckpoint)>,
                       n: nat)
    requires forall item :: item in b ==> item in a
    ensures OneIdAt(a, n) ==> OneIdAt(b, n)
  {
    if OneIdAt(a, n) {
      forall i, j | 0 <= i < |b| && 0 <= j < |b| && b[i].0.sequence == n && b[j].0.sequence == n
        ensures b[i].0.id == b[j].0.id
      {
        assert b[i] in a && b[j] in a;
      }
    }
  }

  /** The same promise as for reports, among checkpoints of one owner. */
  predicate RegistrationExtends(earlier: Option<RegistrationCheckpoint>, later: Option<RegistrationCheckpoint>,
                                owner: Coldkey, body: RegistrationBody)
  {
    earlier.Some? && earlier.value.owner == owner ==>
      && later.Some? && later.value.owner == owner
      && earlier.value.sequence <= later.value.sequence
      && (earlier.value.sequence == later.value.sequence ==> earlier == later)
      && (later.value.sequence == earlier.value.sequence + 1 ==> body(later.value.id).3 == Some(earlier.value.id))
  }

  function AfterRegistrationLoads(start: Option<RegistrationCheckpoint>,
                                  loads: seq<Load>): Option<RegistrationCheckpoint>
  {
    if loads == [] then start
    else
      var before := AfterRegistrationLoads(start, loads[..|loads| - 1]);
      match LoadRegistration(loads[|loads| - 1], before)
      case Err(_) => before
      case Ok((_, c)) => Some(c)
  }

  /** Over any run of loads that all see the same owner. */
  lemma {:induction false} SequenceNeverRollsBackUnderOneOwner(start: Option<RegistrationCheckpoint>, loads: seq<Load>,
                                                               k: nat, owner: Coldkey, body: RegistrationBody)
    requires k <= |loads|
    requires forall i :: 0 <= i < |loads| ==> RegistrationsAgree(loads[i], body)
    requires forall i :: k <= i < |loads| ==> loads[i].owner == owner
    ensures RegistrationExtends(AfterRegistrationLoads(start, loads[..k]), AfterRegistrationLoads(start, loads), owner,
                                body)
    decreases |loads|
  {
    if k == |loads| {
      assert loads[..k] == loads;
    } else {
      var front, last := loads[..|loads| - 1], loads[|loads| - 1];
      SequenceNeverRollsBackUnderOneOwner(start, front, k, owner, body);
      assert front[..k] == loads[..k];
      var before := AfterRegistrationLoads(start, front);
      if LoadRegistration(last, before).Ok? {
        LoadedIsAuthorized(last, before);
        var r := LoadRegistration(last, before).value.0;
        var i :| 0 <= i < |last.mirrors| && last.mirrors[i] == Some(r);
        assert RegistrationAgrees(r, body);
      }
    }
  }

  lemma {:induction false} OtherOwnerIsNoCheckpoint(load: Load, c: RegistrationCheckpoint, k: nat)
    requires c.owner != load.owner && k <= |load.mirrors|
    ensures AcceptedUpTo(load, Some(c), k) == AcceptedUpTo(load, None, k)
  {
    if k > 0 {
      OtherOwnerIsNoCheckpoint(load, c, k - 1);
    }
  }

  /** Where the promise ends: whatever the mirrors serve, a sequence below the checkpoint's is accepted
      exactly when the checkpoint is of another owner, and the highest sequence the current owner has
      authorised, one registration alone, is lower. */
  lemma RollbackExactlyOnOwnerChange(load: Load, c: RegistrationCheckpoint)
    ensures var r := LoadRegistration(load, Some(c));
            var authorised := Accepted(load, None);
            (r.Ok? && r.value.1.sequence < c.sequence) <==>
            && c.owner != load.owner && authorised != []
            && OneIdAt(authorised, TopSequence(authorised)) && TopSequence(authorised) < c.sequence
  {
    var r := LoadRegistration(load, Some(c));
    if c.owner != load.owner {
      OtherOwnerIsNoCheckpoint(load, c, |load.mirrors|);
    }
    if r.Ok? {
      LoadedIsAuthorized(load, Some(c));
    }
  }

  /** So when a subnet changes hands and back, its first owner's older registration is accepted again. */
  lemma OwnerReturnRollsBack(newer: Registration, between: Registration, older: Registration,
                             registered: map<Hotkey, Coldkey>)
    requires newer.owner == older.owner != between.owner && older.sequence < newer.sequence
    requires newer.delegate in registered && registered[newer.delegate] == newer.owner
    requires between.delegate in registered && registered[between.delegate] == between.owner
    requires older.delegate in registered && registered[older.delegate] == older.owner
    ensures var loads := [Load([Some(newer)], newer.owner, registered),
                          Load([Some(between)], between.owner, registered),
                          Load([Some(older)], older.owner, registered)];
            && AfterRegistrationLoads(None, loads[..1]) == Some(CheckpointOf(newer))
            && AfterRegistrationLoads(None, loads) == Some(CheckpointOf(older))
  {
    var a, b, c := Load([Some(newer)], newer.owner, registered), Load([Some(between)], between.owner, registered),
      Load([Some(older)], older.owner, registered);
    SingleLoad(newer, registered, None);
    SingleLoad(between, registered, Some(CheckpointOf(newer)));
    SingleLoad(older, registered, Some(CheckpointOf(between)));
    OneMoreLoad(None, [], a);
    OneMoreLoad(None, [a], b);
    OneMoreLoad(None, [a, b], c);
    assert [] + [a] == [a] && [a] + [b] == [a, b] && [a, b] + [c] == [a, b, c] && [a, b, c][..1] == [a];
  }

  function CheckpointOf(r: Registration): RegistrationCheckpoint {
    RegistrationCheckpoint(r.owner, r.delegate, r.sequence, r.id)
  }

  lemma OneMoreLoad(start: Option<RegistrationCheckpoint>, loads: seq<Load>, load: Load)
    ensures AfterRegistrationLoads(start, loads + [load]) ==
            var before := AfterRegistrationLoads(start, loads);
            (match LoadRegistration(load, before)
             case Err(_) => before
             case Ok((_, c)) => Some(c))
  {
    assert (loads + [load])[..|loads|] == loads;
  }

  lemma SingleLoad(r: Registration, registered: map<Hotkey, Coldkey>, checkpoint: Option<RegistrationCheckpoint>)
    requires r.delegate in registered && registered[r.delegate] == r.owner
    requires checkpoint.Some? ==> checkpoint.value.owner != r.owner
    ensures LoadRegistration(Load([Some(r)], r.owner, registered), checkpoint)
            == Ok((r, RegistrationCheckpoint(r.owner, r.delegate, r.sequence, r.id)))
  {
    var load := Load([Some(r)], r.owner, registered);
    assert AcceptedUpTo(load, checkpoint, 0) == [];
    assert Accepted(load, checkpoint) == [(r, RegistrationCheckpoint(r.owner, r.delegate, r.sequence, r.id))];
  }

  /** The mirror loop of `load_best_owner_registration`. */
  method LoadBestOwnerRegistration(load: Load, checkpoint: Option<RegistrationCheckpoint>)
      returns (r: Result<(Registration, RegistrationCheckpoint), ChainError>)
    ensures r == LoadRegistration(load, checkpoint)
  {
    var items: seq<(Registration, RegistrationCheckpoint)> := [];
    for i := 0 to |load.mirrors|
      invariant items == AcceptedUpTo(load, checkpoint, i)
    {
      if load.mirrors[i].Some? {
        var verified := VerifyRegistration(load.mirrors[i].value, load.owner, load.registered, checkpoint);
        if verified.Ok? {
          items := items + [(load.mirrors[i].value, verified.value)];
        }
      }
    }
    if items == [] {
      return Err(NoneValid);
    }
    var first := FirstOfTop(items);
    if !OneIdAt(items, items[first].0.sequence) {
      return Err(MirrorsEquivocate);
    }
    return Ok(items[first]);
  }

  /** The index of the first item with the highest sequence. */
  method FirstOfTop(items: seq<(Registration, RegistrationCheckpoint)>) returns (first: nat)
    requires items != []
    ensures first < |items| && items[first].0.sequence == TopSequence(items)
            && first == FirstAt(items, TopSequence(items))
  {
    first := 0;
    for i := 1 to |items|
      invariant first < i
      invariant forall j :: 0 <= j < i ==> items[j].0.sequence <= items[first].0.sequence
      invariant forall j :: 0 <= j < first ==> items[j].0.sequence != items[first].0.sequence
    {
      if items[i].0.sequence > items[first].0.sequence {
        first := i;
      }
    }
    TopUnique(items, items[first].0.sequence);
  }

  lemma TopUnique(items: seq<(Registration, RegistrationCheckpoint)>, n: nat)
    requires IsTop(items, n)
    ensures items != [] && n == TopSequence(items)
  {
    var i :| 0 <= i < |items| && items[i].0.sequence == n;
    assert IsTop(items, TopSequence(items));
  }

  /** Mirror `i` serves a registration of the current owner, for a delegate that owner has registered, that
      may follow the checkpoint; another owner's checkpoint asks nothing. */
  predicate Passes(load: Load, checkpoint: Option<RegistrationCheckpoint>, i: int) {
    && 0 <= i < |load.mirrors| && load.mirrors[i].Some?
    && var r := load.mirrors[i].value;
    && r.owner == load.owner && r.delegate in load.registered && load.registered[r.delegate] == load.owner
    && MayFollow(r.sequence, r.id, r.previous,
                 if checkpoint.None? || checkpoint.value.owner != load.owner then None
                 else Some((checkpoint.value.sequence, checkpoint.value.id)))
  }

  /** Mirror `k` is the first with the highest sequence among those that pass. */
  ghost predicate IsBestRegistration(load: Load, checkpoint: Option<RegistrationCheckpoint>, k: int) {
    && Passes(load, checkpoint, k)
    && (forall i :: Passes(load, checkpoint, i) ==> load.mirrors[i].value.sequence <= load.mirrors[k].value.sequence)
    && (forall i :: Passes(load, checkpoint, i) && i < k ==>
          load.mirrors[i].value.sequence < load.mirrors[k].value.sequence)
  }

  ghost predicate AgreesWithItsSequence(load: Load, checkpoint: Option<RegistrationCheckpoint>, k: int)
    requires Passes(load, checkpoint, k)
  {
    forall i :: Passes(load, checkpoint, i) && load.mirrors[i].value.sequence == load.mirrors[k].value.sequence ==>
      load.mirrors[i].value.id == load.mirrors[k].value.id
  }

  /** The checkpoint after a registration: the same one again for the same sequence of the same owner. */
  function Reached(load: Load, checkpoint: Option<RegistrationCheckpoint>, r: Registration): RegistrationCheckpoint {
    if checkpoint.Some? && checkpoint.value.owner == load.owner && checkpoint.value.sequence == r.sequence
    then checkpoint.value
    else RegistrationCheckpoint(r.owner, r.delegate, r.sequence, r.id)
  }

  lemma PassesExactly(load: Load, checkpoint: Option<RegistrationCheckpoint>, i: int)
    requires 0 <= i < |load.mirrors| && load.mirrors[i].Some?
    ensures var v := VerifyRegistration(load.mirrors[i].value, load.owner, load.registered, checkpoint);
            (v.Ok? <==> Passes(load, checkpoint, i))
            && (v.Ok? ==> v.value == Reached(load, checkpoint, load.mirrors[i].value))
  {
  }

  lemma PassingIsListed(load: Load, checkpoint: Option<RegistrationCheckpoint>, k: nat, i: int)
    requires i < k <= |load.mirrors| && Passes(load, checkpoint, i)
    ensures (load.mirrors[i].value, Reached(load, checkpoint, load.mirrors[i].value))
            in AcceptedUpTo(load, checkpoint, k)
  {
    var r := load.mirrors[i].value;
    PassesExactly(load, checkpoint, i);
    AcceptedMembers(load, checkpoint, k, (r, Reached(load, checkpoint, r)));
    assert load.mirrors[..k][i] == Some(r);
  }

  /** The first listed item of a sequence comes from the first passing mirror of that sequence. */
  lemma {:induction false} FirstListed(load: Load, checkpoint: Option<RegistrationCheckpoint>, k: nat, n: nat, m: nat)
      returns (i: nat)
    requires k <= |load.mirrors| && IsFirstAt(AcceptedUpTo(load, checkpoint, k), n, m)
    ensures i < k && Passes(load, checkpoint, i) && load.mirrors[i].value.sequence == n
    ensures AcceptedUpTo(load, checkpoint, k)[m]
            == (load.mirrors[i].value, Reached(load, checkpoint, load.mirrors[i].value))
    ensures forall j :: Passes(load, checkpoint, j) && j < i ==> load.mirrors[j].value.sequence != n
  {
    var front, items := AcceptedUpTo(load, checkpoint, k - 1), AcceptedUpTo(load, checkpoint, k);
    if m < |front| {
      assert forall j :: 0 <= j <= m ==> items[j] == front[j];
      i := FirstListed(load, checkpoint, k - 1, n, m);
    } else {
      i := k - 1;
      PassesExactly(load, checkpoint, i);
      forall j | Passes(load, checkpoint, j) && j < i
        ensures load.mirrors[j].value.sequence != n
      {
        PassingIsListed(load, checkpoint, k - 1, j);
        var at :| 0 <= at < |front| && front[at].0 == load.mirrors[j].value;
        assert items[at] == front[at];
      }
    }
  }

  lemma ListedPasses(load: Load, checkpoint: Option<RegistrationCheckpoint>, m: nat) returns (i: nat)
    requires m < |Accepted(load, checkpoint)|
    ensures Passes(load, checkpoint, i) && load.mirrors[i].value == Accepted(load, checkpoint)[m].0
  {
    var item := Accepted(load, checkpoint)[m];
    AcceptedMembers(load, checkpoint, |load.mirrors|, item);
    assert load.mirrors[..|load.mirrors|] == load.mirrors;
    i :| 0 <= i < |load.mirrors| && load.mirrors[i] == Some(item.0);
    PassesExactly(load, checkpoint, i);
  }

  lemma BestRegistration(load: Load, checkpoint: Option<RegistrationCheckpoint>) returns (k: nat)
    requires Accepted(load, checkpoint) != []
    ensures IsBestRegistration(load, checkpoint, k)
    ensures var items := Accepted(load, checkpoint);
            && (AgreesWithItsSequence(load, checkpoint, k) <==> OneIdAt(items, TopSequence(items)))
            && items[FirstAt(items, TopSequence(items))]
               == (load.mirrors[k].value, Reached(load, checkpoint, load.mirrors[k].value))
  {
    var items := Accepted(load, checkpoint);
    var n := TopSequence(items);
    k := FirstListed(load, checkpoint, |load.mirrors|, n, FirstAt(items, n));
    forall i | Passes(load, checkpoint, i)
      ensures exists m :: 0 <= m < |items| && items[m].0 == load.mirrors[i].value
      ensures load.mirrors[i].value.sequence <= n
    {
      PassingIsListed(load, checkpoint, |load.mirrors|, i);
    }
    if AgreesWithItsSequence(load, checkpoint, k) {
      forall i, j | 0 <= i < |items| && 0 <= j < |items| && items[i].0.sequence == n && items[j].0.sequence == n
        ensures items[i].0.id == items[j].0.id
      {
        var a := ListedPasses(load, checkpoint, i);
        var b := ListedPasses(load, checkpoint, j);
      }
    }
  }

  /** Which served registrations are accepted: one is exactly when, among the mirrors that pass, those with
      the highest sequence agree on its id. It is then the first of them. */
  lemma RegistrationAcceptedExactly(load: Load, checkpoint: Option<RegistrationCheckpoint>)
    ensures var r := LoadRegistration(load, checkpoint);
            && (r.Ok? <==> exists k :: IsBestRegistration(load, checkpoint, k)
                                       && AgreesWithItsSequence(load, checkpoint, k))
            && (forall k :: IsBestRegistration(load, checkpoint, k) && r.Ok? ==>
                  var best := load.mirrors[k].value;
                  r.value.0 == best
                  && (if checkpoint.Some? && checkpoint.value.owner == load.owner
                         && checkpoint.value.sequence == best.sequence
                      then r.value.1 == checkpoint.value
                      else r.value.1 == RegistrationCheckpoint(best.owner, best.delegate, best.sequence, best.id)))
            && (r == Err(NoneValid) <==> forall i :: !Passes(load, checkpoint, i))
            && (r.Err? ==> r.error == NoneValid || r.error == MirrorsEquivocate)
  {
    if Accepted(load, checkpoint) == [] {
      forall i
        ensures !Passes(load, checkpoint, i)
      {
        if Passes(load, checkpoint, i) {
          PassingIsListed(load, checkpoint, |load.mirrors|, i);
        }
      }
    } else {
      var best := BestRegistration(load, checkpoint);
      forall k | IsBestRegistration(load, checkpoint, k)
        ensures k == best
      {
      }
    }
  }
}
