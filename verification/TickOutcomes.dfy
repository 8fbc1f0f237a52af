/** When one tick does what, written out case by case, and what it leaves in the state file.

    Nothing here names the functions a tick is defined by where it says what must hold: replies, guards,
    checkpoints and averages are spelled out. */
module TickOutcomes {
  import opened Prelude
  import opened Checkpoints
  import opened Collapse
  import opened Metagraphs
  import opened SubmissionState
  import opened Validator
  import opened ValidatorRuns
  import opened ValidatorSafety

  // ---------------------------------------------------------------------------------------------
  // Replies.

  predicate Landed(reply: Reply) {
    && reply.Replied?
    && (|| reply.response == Bool(true)
        || reply.response == Tuple(Some(true))
        || (reply.response.Object? && reply.response.isSuccess == Some(true))
        || (reply.response.Object? && reply.response.isSuccess.None? && reply.response.success == Some(true)))
  }

  predicate MayHaveLanded(reply: Reply) {
    || reply.Raised?
    || reply.response.Nothing?
    || (&& reply.response.Object? && reply.response.receiptField.Some?
        && var f := reply.response.receiptField.value; !f.hasReceipt && (f.hasError || f.hasExtrinsic))
    || (reply.response.Object? && reply.response.receiptField.None? && reply.response.ambiguousField)
  }

  /** What must be saved right after a submission. */
  predicate Recorded(sent: Effect, saved: Effect)
    requires sent.Sent?
  {
    && saved.Saved? && saved.retry == sent.retry
    && var (v, t) := (sent.vector, saved.state);
    if Landed(sent.reply) then
      t.pending.None? && t.confirmedVector == Some(v.digest) && t.confirmedDecision == v.provenance
    else
      t.pending == Some(PendingVector(v.digest, v.uids, v.weights, v.hotkeys, v.provenance, v.registrationIds,
                                      v.attempts + 1, sent.nowMs + DelayMs(v.attempts + 1),
                                      MayHaveLanded(sent.reply)))
  }

  /** Submissions come one before the end, and the last effect records them. */
  predicate AllRecorded(effects: seq<Effect>, reply: Reply) {
    forall k :: 0 <= k < |effects| && effects[k].Sent? ==>
      k + 2 == |effects| && effects[k].reply == reply && Recorded(effects[k], effects[k + 1])
  }

  lemma SendRecords(st: State, peers: seq<Peer>, current: Option<map<ClassId, Digest>>, input: TickInput, retry: bool)
    requires st.pending.Some?
    ensures AllRecorded(Send(st, peers, current, input, retry).effects, input.reply)
  {
  }

  lemma SubmitToRecords(st: State, cfg: Config, mode: Mode, peers: seq<Peer>, ids: Option<map<ClassId, Digest>>,
                        input: TickInput)
    requires st.pending.Some?
    ensures AllRecorded(SubmitTo(st, cfg, mode, peers, ids, input).effects, input.reply)
  {
    SendRecords(st, peers, None, input, mode.retryAmbiguous);
    var refreshed := RefreshIds(st, cfg, peers, ids, input);
    if refreshed.Ids? {
      SendRecords(st, peers, Some(refreshed.ids), input, mode.retryAmbiguous);
    }
  }

  lemma SubmitRecords(st: State, cfg: Config, mode: Mode, given: Option<Metagraph>, ids: Option<map<ClassId, Digest>>,
                      input: TickInput)
    ensures AllRecorded(Submit(st, cfg, mode, given, ids, input).effects, input.reply)
  {
    var peers := Peers(given, input);
    if st.pending.Some? && peers.Some? {
      SubmitToRecords(st, cfg, mode, peers.value, ids, input);
    }
  }

  lemma CommitRecords(hash: Hash, base: State, cfg: Config, mode: Mode, m: Metagraph, peers: seq<Peer>,
                      regs: Registrations, vector: Vector, input: TickInput)
    ensures AllRecorded(Commit(hash, base, cfg, mode, m, peers, regs, vector, input).effects, input.reply)
  {
    var marked := Marked(hash, base, peers, regs, vector, input);
    if marked.Some? {
      SubmitRecords(marked.value, cfg, mode, Some(m), Some(RegistrationIds(regs)), input);
    }
  }

  lemma TickRecords(hash: Hash, st: State, cfg: Config, mode: Mode, lastDryRun: Option<int>, input: TickInput)
    requires cfg.roundBlocks > 0
    ensures AllRecorded(Tick(hash, st, cfg, mode, lastDryRun, input).effects, input.reply)
  {
    if st.pending.Some? {
      SubmitRecords(st, cfg, mode, None, None, input);
    } else if input.metagraph.Got? && input.block.Got? && SnapshotPeers(input.metagraph.value).Some? {
      var peers, round := SnapshotPeers(input.metagraph.value).value, input.block.value / cfg.roundBlocks;
      var ema, regs := RoundEma(cfg, peers, input, st), RoundRegistrations(cfg, peers, input, st);
      if ema.Some? && regs.Some? && input.vector.Some? {
        var next := Advance(cfg.externals, st, cfg.hasBurn, regs.value, input);
        if next.Some? {
          CommitRecords(hash, Evaluated(st, ema.value, next.value, round), cfg, mode, input.metagraph.value, peers,
                        regs.value, input.vector.value, input);
        }
      }
    }
  }

  /** Every submission of a tick is followed by exactly one save. After a reply that says success no vector is
      pending and the one sent is confirmed with its provenance. After any other it is pending as it was, with
      one more attempt and its retry time, and is called ambiguous exactly when submitting raised, or the
      reply was nothing, or had the place for a receipt but no receipt and an error or an extrinsic, or,
      with no such place, said so itself. */
  lemma OutcomeIsRecorded(hash: Hash, st: State, cfg: Config, mode: Mode, lastDryRun: Option<int>, input: TickInput,
                          k: nat)
    requires cfg.roundBlocks > 0
    requires var effects := Tick(hash, st, cfg, mode, lastDryRun, input).effects; k < |effects| && effects[k].Sent?
    ensures var effects := Tick(hash, st, cfg, mode, lastDryRun, input).effects;
            && k + 2 == |effects| && effects[k + 1].Saved? && effects[k].reply == input.reply
            && var (v, t, reply) := (effects[k].vector, effects[k + 1].state, input.reply);
            var success :=
              reply.Replied? &&
              match reply.response
              case Bool(flag) => flag
              case Tuple(first) => first == Some(true)
              case Nothing => false
              case Object(isSuccess, success, _, _) =>
                isSuccess == Some(true) || (isSuccess == None && success == Some(true));
            var mayHaveLanded :=
              reply.Raised? ||
              match reply.response
              case Bool(_) => false
              case Tuple(_) => false
              case Nothing => true
              case Object(_, _, Some(ReceiptField(hasReceipt, hasError, hasExtrinsic)), _) =>
                !hasReceipt && (hasError || hasExtrinsic)
              case Object(_, _, None, saysSo) => saysSo;
            && (success ==>
                  t.pending == None && t.confirmedVector == Some(v.digest) && t.confirmedDecision == v.provenance)
            && (!success ==>
                  && t.pending.Some? && t.pending.value.ambiguous == mayHaveLanded
                  && t.pending.value.attempts == v.attempts + 1
                  && t.pending.value.nextRetryAtMs == effects[k].nowMs + DelayMs(v.attempts + 1)
                  && v == t.pending.value.(attempts := v.attempts, nextRetryAtMs := v.nextRetryAtMs,
                                           ambiguous := v.ambiguous))
  {
    TickRecords(hash, st, cfg, mode, lastDryRun, input);
    var effects := Tick(hash, st, cfg, mode, lastDryRun, input).effects;
    assert Recorded(effects[k], effects[k + 1]);
  }

  /** After a submission that may have landed without saying so, once its tick has saved that, no run sends or
      saves anything until a process is started with the flag. */
  lemma HeldUntilFlag(hash: Hash, body: ReportBody, events: seq<Event>, k: nat, i: nat)
    requires RunSound(events, body) && k < |events|
    requires |After(hash, events[..k]).log| <= i && i + 1 < |After(hash, events[..k + 1]).log|
    requires var e := After(hash, events[..k + 1]).log[i]; e.Sent? && !Landed(e.reply) && MayHaveLanded(e.reply)
    requires NoFlag(After(hash, events[..k + 1]).process)
    requires forall j :: k < j < |events| && events[j].Start? ==> !events[j].mode.retryAmbiguous
    ensures After(hash, events).log == After(hash, events[..k + 1]).log
  {
    var w := After(hash, events[..k]);
    assert events[..k + 1][..k] == events[..k];
    AmbiguousInFile(hash, w, events[k], i);
    AmbiguousStaysUntouched(hash, body, events, k + 1);
  }

  lemma AmbiguousInFile(hash: Hash, w: World, e: Event, i: nat)
    requires |w.log| <= i && i + 1 < |Next(hash, w, e).log| && Next(hash, w, e).log[i].Sent?
    requires var reply := Next(hash, w, e).log[i].reply; !Landed(reply) && MayHaveLanded(reply)
    ensures HasAmbiguous(Disk(Next(hash, w, e).log))
  {
    NothingSentAtStart(hash, w, e, i);
    NextLog(hash, w, e);
    RecordedInFile(w.log, EffectsOf(hash, w.process, e.input), Done(hash, w, e), i, e.input.reply) by {
      TickRecords(hash, w.process.memory, w.process.cfg, w.process.mode, w.process.lastDryRun, e.input);
    }
  }

  lemma RecordedInFile(log: seq<Effect>, effects: seq<Effect>, done: seq<Effect>, i: nat, reply: Reply)
    requires AllRecorded(effects, reply) && done <= effects && |log| <= i && i + 1 < |log + done|
    requires var e := (log + done)[i]; e.Sent? && !Landed(e.reply) && MayHaveLanded(e.reply)
    ensures HasAmbiguous(Disk(log + done))
  {
    var m := i - |log|;
    assert (log + done)[i] == effects[m] && (log + done)[|log + done| - 1] == effects[m + 1];
    assert Recorded(effects[m], effects[m + 1]);
  }

  lemma NothingSentAtStart(hash: Hash, w: World, e: Event, i: nat)
    requires |w.log| <= i < |Next(hash, w, e).log| && Next(hash, w, e).log[i].Sent?
    ensures w.process.Up? && w.process.cfg.roundBlocks > 0 && (e.FullTick? || e.CrashedTick?)
  {
  }

  // ---------------------------------------------------------------------------------------------
  // Which registrations are in force.

  predicate OwnerKnown(c: ExternalClass, owners: map<int, OwnerRead>) {
    c.sourceNetuid.Some? ==> c.sourceNetuid.value in owners && owners[c.sourceNetuid.value].Owner?
  }

  predicate NamedWithoutOwner(c: ExternalClass, owners: map<int, OwnerRead>) {
    c.sourceNetuid.Some? && c.sourceNetuid.value in owners && owners[c.sourceNetuid.value].NoOwner?
  }

  /** Reading owners fails exactly when some class's subnet has none or cannot be read, and with the failure of
      the first such class. */
  lemma {:induction false} OwnersReadExactly(classes: seq<ExternalClass>, owners: map<int, OwnerRead>)
    ensures ReadOwners(classes, owners) == None <==> forall i :: 0 <= i < |classes| ==> OwnerKnown(classes[i], owners)
    ensures forall i :: 0 <= i < |classes| && !OwnerKnown(classes[i], owners)
                        && (forall j :: 0 <= j < i ==> OwnerKnown(classes[j], owners)) ==>
              ReadOwners(classes, owners)
              == Some(if NamedWithoutOwner(classes[i], owners) then Unavailable else OtherException)
  {
    if classes != [] {
      var front := classes[..|classes| - 1];
      OwnersReadExactly(front, owners);
      assert forall i :: 0 <= i < |front| ==> front[i] == classes[i];
      assert ReadOwners(front, owners) == None ==> forall i :: 0 <= i < |front| ==> OwnerKnown(classes[i], owners);
    }
  }

  /** The accepted authority of a class is lost when its subnet has another owner than the checkpoint says, or
      its delegate is not in the metagraph under that owner. */
  lemma AuthorityLostExactly(c: ExternalClass, peers: seq<Peer>, input: TickInput,
                             checkpoints: map<ClassId, RegistrationCheckpoint>)
    requires DistinctPeers(peers) && c.sourceNetuid.Some? && c.id in checkpoints
    ensures var (lost, checkpoint) := (AuthorityLost(c, peers, input, checkpoints), checkpoints[c.id]);
            var sameOwner := c.sourceNetuid.value in input.owners
                             && input.owners[c.sourceNetuid.value] == Owner(checkpoint.owner);
            && (lost == Some(AuthorityChanged) <==> !sameOwner)
            && (lost == Some(DelegateDeregistered) <==>
                  sameOwner && forall i :: 0 <= i < |peers| && peers[i].hotkey == checkpoint.delegate ==>
                                 peers[i].coldkey != checkpoint.owner)
            && (lost.Some? ==> lost.value in {AuthorityChanged, DelegateDeregistered})
  {
    TablesList(peers, 0, checkpoints[c.id].delegate, checkpoints[c.id].owner);
  }

  lemma NoAuthorityToLose(c: ExternalClass, peers: seq<Peer>, input: TickInput,
                          checkpoints: map<ClassId, RegistrationCheckpoint>)
    requires c.sourceNetuid.None? || c.id !in checkpoints
    ensures AuthorityLost(c, peers, input, checkpoints) == None
  {
  }

  /** What the mirrors of a class give under its subnet's owner. */
  function FromMirrors(c: ExternalClass, peers: seq<Peer>, input: TickInput,
                       checkpoints: map<ClassId, RegistrationCheckpoint>)
    : Result<(Registration, RegistrationCheckpoint), ChainError>
    requires c.sourceNetuid.Some? && OwnerKnown(c, input.owners)
  {
    LoadRegistration(Load(if c.id in input.registrations then input.registrations[c.id] else [],
                          input.owners[c.sourceNetuid.value].coldkey, ColdkeyOf(peers)),
                     if c.id in checkpoints then Some(checkpoints[c.id]) else None)
  }

  predicate RegistrationLoads(c: ExternalClass, peers: seq<Peer>, input: TickInput,
                              checkpoints: map<ClassId, RegistrationCheckpoint>)
  {
    c.sourceNetuid.Some? ==> OwnerKnown(c, input.owners) && FromMirrors(c, peers, input, checkpoints).Ok?
  }

  predicate LastOfItsId(classes: seq<ExternalClass>, i: int) {
    0 <= i < |classes| && forall j :: i < j < |classes| && classes[j].id == classes[i].id ==>
      classes[j].sourceNetuid.None?
  }

  /** Just the classes with a subnet, each with what its own mirrors gave. */
  predicate ListsExactly(regs: Registrations, classes: seq<ExternalClass>, peers: seq<Peer>, input: TickInput,
                         checkpoints: map<ClassId, RegistrationCheckpoint>)
  {
    && SubnetIdsOf(regs, classes)
    && (forall i :: 0 <= i < |classes| && LastOfItsId(classes, i) && classes[i].sourceNetuid.Some? ==>
          GaveWhatIsListed(regs, classes[i], peers, input, checkpoints))
  }

  predicate SubnetIdsOf(regs: Registrations, classes: seq<ExternalClass>) {
    && (forall i :: 0 <= i < |classes| && classes[i].sourceNetuid.Some? ==> classes[i].id in regs)
    && (forall c :: c in regs ==>
          exists i :: 0 <= i < |classes| && classes[i].sourceNetuid.Some? && classes[i].id == c)
  }

  predicate GaveWhatIsListed(regs: Registrations, c: ExternalClass, peers: seq<Peer>, input: TickInput,
                             checkpoints: map<ClassId, RegistrationCheckpoint>)
    requires c.sourceNetuid.Some?
  {
    OwnerKnown(c, input.owners) && c.id in regs && FromMirrors(c, peers, input, checkpoints) == Ok(regs[c.id])
  }

  lemma SkipsOneMore(regs: Registrations, front: seq<ExternalClass>, last: ExternalClass, peers: seq<Peer>,
                     input: TickInput, checkpoints: map<ClassId, RegistrationCheckpoint>)
    requires ListsExactly(regs, front, peers, input, checkpoints) && last.sourceNetuid.None?
    ensures ListsExactly(regs, front + [last], peers, input, checkpoints)
  {
    var classes := front + [last];
    assert forall i :: 0 <= i < |front| ==> classes[i] == front[i];
    forall i | 0 <= i < |classes| && LastOfItsId(classes, i) && classes[i].sourceNetuid.Some?
      ensures GaveWhatIsListed(regs, classes[i], peers, input, checkpoints)
    {
      LastAmongFewer(front, last, i);
    }
  }

  lemma LastAmongFewer(front: seq<ExternalClass>, last: ExternalClass, i: int)
    requires LastOfItsId(front + [last], i) && i < |front|
    ensures LastOfItsId(front, i)
  {
    forall j | i < j < |front| && front[j].id == front[i].id
      ensures front[j].sourceNetuid.None?
    {
      assert (front + [last])[j] == front[j];
    }
  }

  lemma ListsOneMore(regs: Registrations, front: seq<ExternalClass>, last: ExternalClass, peers: seq<Peer>,
                     input: TickInput, checkpoints: map<ClassId, RegistrationCheckpoint>,
                     pair: (Registration, RegistrationCheckpoint))
    requires ListsExactly(regs, front, peers, input, checkpoints) && last.sourceNetuid.Some?
    requires GaveWhatIsListed(regs[last.id := pair], last, peers, input, checkpoints)
    ensures ListsExactly(regs[last.id := pair], front + [last], peers, input, checkpoints)
  {
    var classes, more := front + [last], regs[last.id := pair];
    assert classes[|front|] == last && forall i :: 0 <= i < |front| ==> classes[i] == front[i];
    forall i | 0 <= i < |classes| && LastOfItsId(classes, i) && classes[i].sourceNetuid.Some?
      ensures GaveWhatIsListed(more, classes[i], peers, input, checkpoints)
    {
      if i < |front| {
        LastAmongFewer(front, last, i);
        ListedStill(regs, last.id, pair, front[i], peers, input, checkpoints);
      }
    }
  }

  lemma ListedStill(regs: Registrations, id: ClassId, pair: (Registration, RegistrationCheckpoint), c: ExternalClass,
                    peers: seq<Peer>, input: TickInput, checkpoints: map<ClassId, RegistrationCheckpoint>)
    requires c.sourceNetuid.Some? && c.id != id && GaveWhatIsListed(regs, c, peers, input, checkpoints)
    ensures GaveWhatIsListed(regs[id := pair], c, peers, input, checkpoints)
  {
  }

  lemma OneMoreClassLoads(front: seq<ExternalClass>, last: ExternalClass, peers: seq<Peer>, input: TickInput,
                          checkpoints: map<ClassId, RegistrationCheckpoint>)
    ensures var (before, r) := (LoadClasses(front, peers, input, checkpoints),
                                LoadClasses(front + [last], peers, input, checkpoints));
            && (r.Ok? <==> before.Ok? && RegistrationLoads(last, peers, input, checkpoints))
            && (r.Ok? ==>
                  r.value == if last.sourceNetuid.None? then before.value
                             else before.value[last.id := FromMirrors(last, peers, input, checkpoints).value])
  {
    assert (front + [last])[..|front|] == front;
  }

  /** Loading succeeds exactly when every class with a subnet has a known owner and mirrors that give a
      registration. */
  lemma {:induction false} ClassesLoadedExactly(classes: seq<ExternalClass>, peers: seq<Peer>, input: TickInput,
                                               checkpoints: map<ClassId, RegistrationCheckpoint>)
    ensures var r := LoadClasses(classes, peers, input, checkpoints);
            && (r.Ok? <==> forall i :: 0 <= i < |classes| ==> RegistrationLoads(classes[i], peers, input, checkpoints))
            && (r.Ok? ==> ListsExactly(r.value, classes, peers, input, checkpoints))
  {
    if classes != [] {
      var front, last := classes[..|classes| - 1], classes[|classes| - 1];
      ClassesLoadedExactly(front, peers, input, checkpoints);
      assert classes == front + [last];
      OneMoreClassLoads(front, last, peers, input, checkpoints);
      var before := LoadClasses(front, peers, input, checkpoints);
      if before.Ok? && RegistrationLoads(last, peers, input, checkpoints) {
        if last.sourceNetuid.None? {
          SkipsOneMore(before.value, front, last, peers, input, checkpoints);
        } else {
          ListsOneMore(before.value, front, last, peers, input, checkpoints,
                       FromMirrors(last, peers, input, checkpoints).value);
        }
      }
    }
  }

  // ---------------------------------------------------------------------------------------------
  // When a pending vector is sent, cancelled, held or left.

  predicate Rests(s: Step, st: State) {
    s == Step(st, [])
  }

  predicate IsSent(s: Step, st: State)
    requires st.pending.Some?
  {
    |s.effects| == 2 && s.effects[0].Sent? && s.effects[0].vector == st.pending.value && s.effects[1].Saved?
  }

  predicate IsCancelled(s: Step, st: State, retry: bool) {
    s == Step(st.(pending := None), [Saved(st.(pending := None), retry)])
  }

  /** One more failed attempt, as ambiguous as before. */
  predicate IsHeld(s: Step, st: State, nowMs: int, retry: bool)
    requires st.pending.Some?
  {
    && s.effects == [Saved(s.state, retry)]
    && var p := st.pending.value;
       s.state == st.(pending := Some(p.(attempts := p.attempts + 1, nextRetryAtMs := nowMs + DelayMs(p.attempts + 1))))
  }

  /** The step does nothing unless the vector is due: not held as ambiguous, its retry time reached, and
      broadcasting. A due one is held when the membership cannot be read. */
  lemma DueExactly(st: State, cfg: Config, mode: Mode, given: Option<Metagraph>, ids: Option<map<ClassId, Digest>>,
                   input: TickInput)
    requires st.pending.Some?
    ensures var (s, p) := (Submit(st, cfg, mode, given, ids, input), st.pending.value);
            var due := (p.ambiguous ==> mode.retryAmbiguous) && p.nextRetryAtMs <= input.nowMs && mode.broadcast;
            var read := if given.Some? then given else if input.metagraph.Got? then Some(input.metagraph.value)
                                                       else None;
            && (!due ==> Rests(s, st))
            && (due && (read.None? || SnapshotPeers(read.value).None?) ==>
                  IsHeld(s, st, input.nowMs, mode.retryAmbiguous))
            && (due && read.Some? && SnapshotPeers(read.value).Some? ==>
                  s == SubmitTo(st, cfg, mode, SnapshotPeers(read.value).value, ids, input))
  {
  }

  predicate IsOf(uid: int, hotkey: Hotkey, peers: seq<Peer>) {
    exists j :: 0 <= j < |peers| && peers[j].uid == uid && peers[j].hotkey == hotkey
  }

  /** The UIDs of the vector are still of the hotkeys recorded for them. */
  predicate StillOwned(p: PendingVector, peers: seq<Peer>) {
    forall i :: 0 <= i < |p.uids| && i < |p.hotkeys| ==> IsOf(p.uids[i], p.hotkeys[i], peers)
  }

  lemma StillOwnedExactly(p: PendingVector, peers: seq<Peer>)
    requires DistinctPeers(peers)
    ensures OwnersMatch(p, peers) <==> StillOwned(p, peers)
  {
    forall i | 0 <= i < |p.uids| && i < |p.hotkeys|
      ensures LookUpUid(peers, p.uids[i]) == Some(p.hotkeys[i]) <==> IsOf(p.uids[i], p.hotkeys[i], peers)
    {
      TablesList(peers, p.uids[i], p.hotkeys[i], "");
    }
  }

  /** With a vector due and the membership read: an unbound one is sent exactly when its UIDs are still owned. */
  lemma UnboundSentExactly(st: State, cfg: Config, mode: Mode, peers: seq<Peer>, ids: Option<map<ClassId, Digest>>,
                           input: TickInput)
    requires st.pending.Some? && st.pending.value.registrationIds == map[] && DistinctPeers(peers)
    ensures var s := SubmitTo(st, cfg, mode, peers, ids, input);
            if StillOwned(st.pending.value, peers) then IsSent(s, st) else IsCancelled(s, st, mode.retryAmbiguous)
  {
    StillOwnedExactly(st.pending.value, peers);
  }

  /** One bound to registrations the round has just loaded also needs them to be the same ones. */
  lemma BoundSentExactly(st: State, cfg: Config, mode: Mode, peers: seq<Peer>, ids: map<ClassId, Digest>,
                         input: TickInput)
    requires st.pending.Some? && st.pending.value.registrationIds != map[] && DistinctPeers(peers)
    ensures var (s, p) := (SubmitTo(st, cfg, mode, peers, Some(ids), input), st.pending.value);
            if StillOwned(p, peers) && ids == p.registrationIds then IsSent(s, st)
            else IsCancelled(s, st, mode.retryAmbiguous)
  {
    StillOwnedExactly(st.pending.value, peers);
  }

  /** A fresh read: left undecided when the block or an owner cannot be read, held when an owner is missing or
      some class has no registration, revoked when the authority of some class is lost. */
  lemma RefreshedExactly(st: State, cfg: Config, peers: seq<Peer>, input: TickInput)
    ensures var refreshed := RefreshIds(st, cfg, peers, None, input);
            var ownersRead := ReadOwners(cfg.externals, input.owners);
            var lost := exists i :: 0 <= i < |cfg.externals|
                          && AuthorityLost(cfg.externals[i], peers, input, st.registrationCheckpoints).Some?;
            var loaded := LoadClasses(cfg.externals, peers, input, st.registrationCheckpoints);
            if input.block.RpcFailed? || ownersRead == Some(OtherException) then refreshed == Escaped
            else if ownersRead.Some? then refreshed == Held
            else if lost then refreshed == Revoked
            else if loaded.Err? then refreshed == Held
            else refreshed.Ids? && refreshed.ids.Keys == loaded.value.Keys
                 && forall c :: c in loaded.value ==> refreshed.ids[c] == loaded.value[c].0.id
  {
    OwnersReadFail(cfg.externals, input.owners);
    AnyAuthorityLost(cfg.externals, peers, input, st.registrationCheckpoints);
    LoadingKeepsAuthority(cfg.externals, peers, input, st.registrationCheckpoints);
    if ReadOwners(cfg.externals, input.owners).None? {
      OwnersKnownNoRpc(cfg.externals, peers, input, st.registrationCheckpoints);
    }
  }

  /** One that has to be checked against such a read is sent when that gives the registrations it is bound to,
      cancelled when it gives others or revokes, and otherwise held or left alone. */
  lemma RefreshedSentExactly(st: State, cfg: Config, mode: Mode, peers: seq<Peer>, input: TickInput)
    requires st.pending.Some? && st.pending.value.registrationIds != map[] && DistinctPeers(peers)
    ensures var (s, p) := (SubmitTo(st, cfg, mode, peers, None, input), st.pending.value);
            var refreshed := RefreshIds(st, cfg, peers, None, input);
            if !StillOwned(p, peers) || refreshed == Revoked then IsCancelled(s, st, mode.retryAmbiguous)
            else if refreshed == Escaped then Rests(s, st)
            else if refreshed == Held then IsHeld(s, st, input.nowMs, mode.retryAmbiguous)
            else if refreshed.ids == p.registrationIds then IsSent(s, st)
            else IsCancelled(s, st, mode.retryAmbiguous)
  {
    StillOwnedExactly(st.pending.value, peers);
  }

  lemma {:induction false} OwnersKnownNoRpc(classes: seq<ExternalClass>, peers: seq<Peer>, input: TickInput,
                                           checkpoints: map<ClassId, RegistrationCheckpoint>)
    requires ReadOwners(classes, input.owners).None?
    ensures LoadClasses(classes, peers, input, checkpoints) != Err(OtherException)
  {
    if classes != [] {
      OwnersKnownNoRpc(classes[..|classes| - 1], peers, input, checkpoints);
    }
  }

  // ---------------------------------------------------------------------------------------------
  // Checkpoints after a round.

  function BestReport(id: ClassId, st: State, input: TickInput): Result<(Report, SourceCheckpoint), ChainError> {
    LoadBest(if id in input.reports then input.reports[id] else [],
             if id in st.classCheckpoints then Some(st.classCheckpoints[id]) else None)
  }

  /** A class counts in a round when it has its registration, if it needs one, and a report is accepted. */
  predicate Counts(c: ExternalClass, st: State, regs: Registrations, input: TickInput) {
    (c.sourceNetuid.Some? ==> c.id in regs) && BestReport(c.id, st, input).Ok?
  }

  predicate SomeCounts(classes: seq<ExternalClass>, id: ClassId, st: State, regs: Registrations, input: TickInput,
                       owned: bool)
  {
    exists i :: 0 <= i < |classes| && classes[i].id == id && (owned ==> classes[i].sourceNetuid.Some?)
                && Counts(classes[i], st, regs, input)
  }

  predicate ClassAdvances(next: Advanced, classes: seq<ExternalClass>, id: ClassId, st: State, regs: Registrations,
                          input: TickInput)
  {
    if SomeCounts(classes, id, st, regs, input, false) then
      id in next.classes && BestReport(id, st, input).Ok? && next.classes[id] == BestReport(id, st, input).value.1
    else (id in next.classes <==> id in st.classCheckpoints)
         && (id in next.classes ==> next.classes[id] == st.classCheckpoints[id])
  }

  predicate RegistrationAdvances(next: Advanced, classes: seq<ExternalClass>, id: ClassId, st: State,
                                 regs: Registrations, input: TickInput)
  {
    if SomeCounts(classes, id, st, regs, input, true) then
      id in next.registrations && id in regs && next.registrations[id] == regs[id].1
    else (id in next.registrations <==> id in st.registrationCheckpoints)
         && (id in next.registrations ==> next.registrations[id] == st.registrationCheckpoints[id])
  }

  lemma OneMoreCounts(front: seq<ExternalClass>, last: ExternalClass, id: ClassId, st: State, regs: Registrations,
                      input: TickInput, owned: bool)
    ensures SomeCounts(front + [last], id, st, regs, input, owned) <==>
              || SomeCounts(front, id, st, regs, input, owned)
              || (last.id == id && (owned ==> last.sourceNetuid.Some?) && Counts(last, st, regs, input))
  {
    var classes := front + [last];
    assert classes[|front|] == last && forall i :: 0 <= i < |front| ==> classes[i] == front[i];
    if SomeCounts(front, id, st, regs, input, owned) {
      var i :| 0 <= i < |front| && front[i].id == id && (owned ==> front[i].sourceNetuid.Some?)
               && Counts(front[i], st, regs, input);
      assert classes[i] == front[i];
    }
  }

  lemma AdvanceOne(front: Advanced, c: ExternalClass, st: State, hasBurn: bool, regs: Registrations, input: TickInput)
    ensures var next := AdvanceClass(front, c, st, hasBurn, regs, input);
            if Counts(c, st, regs, input) then
              next == Some(Advanced(front.classes[c.id := BestReport(c.id, st, input).value.1],
                                    if c.sourceNetuid.Some? then front.registrations[c.id := regs[c.id].1]
                                    else front.registrations))
            else next == if hasBurn then Some(front) else None
  {
  }

  /** A round goes on when there is a burn destination or every class counts. It then takes over the checkpoint
      of the accepted report, and of the registration behind it, for just the classes that count, each
      against the checkpoint of the round's start. */
  lemma {:induction false} AdvancedExactly(classes: seq<ExternalClass>, st: State, hasBurn: bool, regs: Registrations,
                                          input: TickInput)
    ensures var next := Advance(classes, st, hasBurn, regs, input);
            && (next.Some? <==> hasBurn || forall i :: 0 <= i < |classes| ==> Counts(classes[i], st, regs, input))
            && (next.Some? ==> forall id :: ClassAdvances(next.value, classes, id, st, regs, input)
                                            && RegistrationAdvances(next.value, classes, id, st, regs, input))
  {
    if classes != [] {
      var front, last := classes[..|classes| - 1], classes[|classes| - 1];
      AdvancedExactly(front, st, hasBurn, regs, input);
      assert classes == front + [last];
      var before := Advance(front, st, hasBurn, regs, input);
      if before.Some? {
        AdvanceOne(before.value, last, st, hasBurn, regs, input);
        var next := AdvanceClass(before.value, last, st, hasBurn, regs, input);
        if next.Some? {
          forall id
            ensures ClassAdvances(next.value, classes, id, st, regs, input)
            ensures RegistrationAdvances(next.value, classes, id, st, regs, input)
          {
            OneMoreAdvances(before.value, next.value, front, last, id, st, hasBurn, regs, input);
          }
        }
      }
    }
  }

  lemma OneMoreAdvances(before: Advanced, next: Advanced, front: seq<ExternalClass>, last: ExternalClass, id: ClassId,
                        st: State, hasBurn: bool, regs: Registrations, input: TickInput)
    requires ClassAdvances(before, front, id, st, regs, input)
             && RegistrationAdvances(before, front, id, st, regs, input)
    requires AdvanceClass(before, last, st, hasBurn, regs, input) == Some(next)
    ensures ClassAdvances(next, front + [last], id, st, regs, input)
    ensures RegistrationAdvances(next, front + [last], id, st, regs, input)
  {
    AdvanceOne(before, last, st, hasBurn, regs, input);
    OneMoreCounts(front, last, id, st, regs, input, false);
    OneMoreCounts(front, last, id, st, regs, input, true);
  }

  // ---------------------------------------------------------------------------------------------
  // Rounds.

  /** The registrations a round counts on: those loaded, or with a burn destination none when they are not
      available. */
  lemma RoundRegistrationsExactly(cfg: Config, peers: seq<Peer>, input: TickInput, st: State)
    ensures var r := RoundRegistrations(cfg, peers, input, st);
            var ownersRead := ReadOwners(cfg.externals, input.owners);
            var loaded := LoadClasses(cfg.externals, peers, input, st.registrationCheckpoints);
            if ownersRead == Some(OtherException) then r == None
            else if ownersRead.None? && loaded.Ok? then r == Some(loaded.value)
            else r == if cfg.hasBurn then Some(map[]) else None
  {
    OwnersReadFail(cfg.externals, input.owners);
    LoadingKeepsAuthority(cfg.externals, peers, input, st.registrationCheckpoints);
    if ReadOwners(cfg.externals, input.owners).None? {
      OwnersKnownNoRpc(cfg.externals, peers, input, st.registrationCheckpoints);
    }
  }

  predicate HotkeyListed(peers: seq<Peer>, h: Hotkey) {
    exists i :: 0 <= i < |peers| && peers[i].hotkey == h
  }

  lemma HotkeysAreListed(peers: seq<Peer>, h: Hotkey)
    ensures h in Hotkeys(peers) <==> HotkeyListed(peers, h)
  {
    if HotkeyListed(peers, h) {
      var i :| 0 <= i < |peers| && peers[i].hotkey == h;
      assert peers[i].hotkey in Hotkeys(peers);
    }
  }

  /** With a local class a round needs a usable share and no negative score among the hotkeys now listed. */
  lemma AveragedExactly(cfg: Config, peers: seq<Peer>, input: TickInput, st: State)
    ensures var r := RoundEma(cfg, peers, input, st);
            r.Some? <==>
              cfg.hasLocal ==>
                && 0.0 < cfg.alpha <= 1.0
                && forall h :: HotkeyListed(peers, h) ==>
                     && (h in st.ema ==> st.ema[h] >= 0.0)
                     && (h in input.observations ==> input.observations[h] >= 0.0)
  {
    forall h
      ensures h in Hotkeys(peers) <==> HotkeyListed(peers, h)
    {
      HotkeysAreListed(peers, h);
    }
  }

  /** Its averages blend the old one and the round's score for just the hotkeys now listed; without a local class
      they stay as they were. */
  lemma AveragesAre(cfg: Config, peers: seq<Peer>, input: TickInput, st: State, h: Hotkey)
    requires RoundEma(cfg, peers, input, st).Some?
    ensures var ema := RoundEma(cfg, peers, input, st).value;
            if !cfg.hasLocal then ema == st.ema
            else
              && (h in ema <==> HotkeyListed(peers, h))
              && (h in ema ==>
                    ema[h] == (1.0 - cfg.alpha) * (if h in st.ema then st.ema[h] else 0.0)
                              + cfg.alpha * (if h in input.observations then input.observations[h] else 0.0))
  {
    if cfg.hasLocal {
      HotkeysAreListed(peers, h);
      AverageAt(st.ema, input.observations, Hotkeys(peers), cfg.alpha, h);
    }
  }

  lemma AverageAt(previous: Scores, observed: Scores, current: set<Hotkey>, alpha: real, h: Hotkey)
    ensures var ema := Ema(previous, observed, current, alpha);
            && (h in ema <==> h in current)
            && (h in ema ==> ema[h] == (1.0 - alpha) * (if h in previous then previous[h] else 0.0)
                                       + alpha * (if h in observed then observed[h] else 0.0))
  {
    BlendIs(Get(previous, h), Get(observed, h), alpha);
  }

  /** What a round has to have once its block and membership are read. */
  predicate RoundComplete(cfg: Config, peers: seq<Peer>, input: TickInput, st: State) {
    && RoundEma(cfg, peers, input, st).Some? && RoundRegistrations(cfg, peers, input, st).Some? && input.vector.Some?
    && (cfg.hasBurn || forall i :: 0 <= i < |cfg.externals| ==>
                         Counts(cfg.externals[i], st, RoundRegistrations(cfg, peers, input, st).value, input))
  }

  lemma CompleteExactly(hash: Hash, st: State, cfg: Config, mode: Mode, lastDryRun: Option<int>, input: TickInput,
                        peers: seq<Peer>, round: int)
    requires input.metagraph.Got?
    ensures var o := EvaluateRound(hash, st, cfg, mode, lastDryRun, input, peers, round);
            && (!RoundComplete(cfg, peers, input, st) ==> o == Outcome(st, [], lastDryRun))
            && (RoundComplete(cfg, peers, input, st) && !mode.broadcast ==> o == Outcome(st, [], Some(round)))
            && (RoundComplete(cfg, peers, input, st) && mode.broadcast ==>
                  var regs := RoundRegistrations(cfg, peers, input, st).value;
                  exists next :: Advance(cfg.externals, st, cfg.hasBurn, regs, input) == Some(next)
                    && var s := Commit(hash, st.(ema := RoundEma(cfg, peers, input, st).value,
                                                 classCheckpoints := next.classes,
                                                 registrationCheckpoints := next.registrations,
                                                 lastCompletedRound := round),
                                       cfg, mode, input.metagraph.value, peers, regs, input.vector.value, input);
                       o == Outcome(s.state, s.effects, lastDryRun))
  {
    var regs := RoundRegistrations(cfg, peers, input, st);
    if regs.Some? {
      AdvancedExactly(cfg.externals, st, cfg.hasBurn, regs.value, input);
    }
  }

  /** A tick with nothing pending goes on to a round exactly when the membership and the block can be read, the
      block's round is new, and no dry run of it was made; otherwise it changes nothing. The round is made when
      averages, registrations, checkpoints and vector are all there; a dry run then only remembers it. */
  lemma RoundEvaluatedExactly(hash: Hash, st: State, cfg: Config, mode: Mode, lastDryRun: Option<int>,
                              input: TickInput)
    requires cfg.roundBlocks > 0 && st.pending.None?
    ensures var o := Tick(hash, st, cfg, mode, lastDryRun, input);
            var readable := input.metagraph.Got? && SnapshotPeers(input.metagraph.value).Some? && input.block.Got?;
            && (!readable ==> o == Outcome(st, [], lastDryRun))
            && (readable ==>
                  var round := input.block.value / cfg.roundBlocks;
                  if round > st.lastCompletedRound && (mode.broadcast || lastDryRun != Some(round)) then
                    o == EvaluateRound(hash, st, cfg, mode, lastDryRun, input,
                                       SnapshotPeers(input.metagraph.value).value, round)
                  else o == Outcome(st, [], lastDryRun))
  {
  }

  predicate UidListed(peers: seq<Peer>, uid: int) {
    exists j :: 0 <= j < |peers| && peers[j].uid == uid
  }

  lemma UidsAreListed(peers: seq<Peer>, uid: int)
    requires DistinctPeers(peers)
    ensures uid in HotkeyByUid(peers) <==> UidListed(peers, uid)
    ensures uid in HotkeyByUid(peers) ==> IsOf(uid, HotkeyByUid(peers)[uid], peers)
  {
    if uid in HotkeyByUid(peers) {
      TablesList(peers, uid, HotkeyByUid(peers)[uid], "");
    }
    if UidListed(peers, uid) {
      var j :| 0 <= j < |peers| && peers[j].uid == uid;
      TablesList(peers, uid, peers[j].hotkey, "");
    }
  }

  /** A vector that pays nobody is not made pending; the round is saved as it is. */
  lemma EmptyRoundSaved(hash: Hash, base: State, cfg: Config, mode: Mode, m: Metagraph, peers: seq<Peer>,
                        regs: Registrations, vector: Vector, input: TickInput)
    requires vector.uids == []
    ensures Commit(hash, base, cfg, mode, m, peers, regs, vector, input)
            == Step(base, [Saved(base, mode.retryAmbiguous)])
  {
  }

  /** Any other is saved as pending, never attempted and not ambiguous, exactly when every UID is listed and the
      vector has a digest with those hotkeys, the decision and the round's registrations; it is then submitted
      at once. Otherwise nothing is saved. */
  lemma RoundMarkedExactly(hash: Hash, base: State, cfg: Config, mode: Mode, m: Metagraph, peers: seq<Peer>,
                           regs: Registrations, vector: Vector, input: TickInput)
    requires vector.uids != [] && DistinctPeers(peers)
    ensures var s := Commit(hash, base, cfg, mode, m, peers, regs, vector, input);
            if s.effects == [] then
              s.state == base
              && (|| (exists i :: 0 <= i < |vector.uids| && !UidListed(peers, vector.uids[i]))
                  || exists hotkeys: seq<Hotkey> ::
                       && |hotkeys| == |vector.uids|
                       && (forall i :: 0 <= i < |hotkeys| ==> IsOf(vector.uids[i], hotkeys[i], peers))
                       && VectorDigest(hash, vector.uids, vector.weights, hotkeys, Some(input.decisionDigest),
                                       RegistrationIds(regs)).Err?)
            else
              && s.effects[0].Saved? && s.effects[0].state.pending.Some?
              && var p := s.effects[0].state.pending.value;
              && s.effects[0].state == base.(pending := Some(p))
              && p.uids == vector.uids && p.weights == vector.weights && |p.hotkeys| == |vector.uids|
              && (forall i :: 0 <= i < |p.hotkeys| ==> IsOf(vector.uids[i], p.hotkeys[i], peers))
              && p.provenance == Some(input.decisionDigest)
              && p.registrationIds.Keys == regs.Keys && (forall c :: c in regs ==> p.registrationIds[c] == regs[c].0.id)
              && p.attempts == 0 && p.nextRetryAtMs == 0 && !p.ambiguous
              && VectorDigest(hash, p.uids, p.weights, p.hotkeys, p.provenance, p.registrationIds) == Ok(p.digest)
              && var after := Submit(s.effects[0].state, cfg, mode, Some(m), Some(p.registrationIds), input);
                 s.effects[1..] == after.effects && s.state == after.state
  {
    forall i | 0 <= i < |vector.uids|
      ensures vector.uids[i] in HotkeyByUid(peers) <==> UidListed(peers, vector.uids[i])
      ensures vector.uids[i] in HotkeyByUid(peers) ==>
                IsOf(vector.uids[i], HotkeyByUid(peers)[vector.uids[i]], peers)
    {
      UidsAreListed(peers, vector.uids[i]);
    }
  }
}
