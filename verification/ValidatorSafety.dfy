/** What holds over every run of the validator, read off the predicate on logs that all runs keep. */
module ValidatorSafety {
  import opened Prelude
  import opened Checkpoints
  import opened Metagraphs
  import opened SubmissionState
  import opened Validator
  import opened ValidatorPaths
  import opened ValidatorRuns

  predicate HasPending(disk: Option<State>) {
    disk.Some? && disk.value.pending.Some?
  }

  predicate HasAmbiguous(disk: Option<State>) {
    HasPending(disk) && disk.value.pending.value.ambiguous
  }

  /** Effect `k` of a run, and the state file just before it. */
  lemma RunEffect(hash: Hash, body: ReportBody, events: seq<Event>, k: nat)
    requires RunSound(events, body) && k < |After(hash, events).log|
    ensures var log := After(hash, events).log;
            LogOk(hash, body, log) && LogOk(hash, body, log[..k]) && EffectOk(hash, body, log[..k], log[k])
  {
    RunKeepsLog(hash, body, events);
    LogPrefix(hash, body, After(hash, events).log, k);
  }

  // ---------------------------------------------------------------------------------------------
  // Single effects.

  /** Whenever weights are submitted the state file already holds exactly that vector under its own
      digest. As the tick read the chain, every UID in it is of the hotkey recorded for it and the
      registrations are those it is bound to; its retry is due, and an ambiguous one has the explicit flag. */
  lemma EverySubmissionIsSafe(hash: Hash, body: ReportBody, events: seq<Event>, k: nat)
    requires RunSound(events, body) && k < |After(hash, events).log| && After(hash, events).log[k].Sent?
    ensures var log := After(hash, events).log;
            var (disk, e) := (Disk(log[..k]), log[k]);
            && disk.Some? && disk.value.pending == Some(e.vector)
            && VectorDigest(hash, e.vector.uids, e.vector.weights, e.vector.hotkeys, e.vector.provenance,
                            e.vector.registrationIds)
               == Ok(e.vector.digest)
            && (forall i :: 0 <= i < |e.vector.uids| ==>
                  LookUpUid(e.peers, e.vector.uids[i]) == Some(e.vector.hotkeys[i]))
            && (e.vector.registrationIds != map[] ==> e.current == Some(e.vector.registrationIds))
            && e.vector.nextRetryAtMs <= e.nowMs
            && (e.vector.ambiguous ==> e.retry)
  {
    RunEffect(hash, body, events, k);
    DiskIsLoadable(hash, body, After(hash, events).log[..k]);
  }

  lemma PendingOnlyRetries(log: seq<Effect>, s: State, t: State, retry: bool, body: ReportBody)
    requires Evolves(log, s, t, retry, body) && s.pending.Some?
    ensures t == s.(pending := t.pending, confirmedVector := t.confirmedVector,
                    confirmedDecision := t.confirmedDecision)
    ensures t.pending.Some? ==>
              SameVector(s.pending.value, t.pending.value) && t.pending.value.attempts == s.pending.value.attempts + 1
  {
  }

  /** While the file holds a pending vector no round completes: the only changes are to the vector's retry
      bookkeeping, its removal, and its confirmation. */
  lemma NoRoundWhilePending(hash: Hash, body: ReportBody, events: seq<Event>, k: nat)
    requires RunSound(events, body) && k < |After(hash, events).log| && After(hash, events).log[k].Saved?
    requires HasPending(Disk(After(hash, events).log[..k]))
    ensures var log := After(hash, events).log;
            var (s, t) := (Disk(log[..k]).value, log[k].state);
            && t == s.(pending := t.pending, confirmedVector := t.confirmedVector,
                       confirmedDecision := t.confirmedDecision)
            && (t.pending.Some? ==>
                  SameVector(s.pending.value, t.pending.value)
                  && t.pending.value.attempts == s.pending.value.attempts + 1)
  {
    RunEffect(hash, body, events, k);
    var log := After(hash, events).log;
    PendingOnlyRetries(log[..k], Disk(log[..k]).value, log[k].state, log[k].retry, body);
  }

  lemma ConfirmsAfterSuccess(log: seq<Effect>, s: State, t: State, retry: bool, body: ReportBody)
    requires Evolves(log, s, t, retry, body) && t.confirmedVector.Some? && s.confirmedVector != t.confirmedVector
    ensures Confirms(log, s, t)
  {
  }

  /** A digest is confirmed only right after a successful submission of that vector. */
  lemma ConfirmedOnlyBySuccess(hash: Hash, body: ReportBody, events: seq<Event>, k: nat)
    requires RunSound(events, body) && k < |After(hash, events).log| && After(hash, events).log[k].Saved?
    requires var log := After(hash, events).log;
             var before := Disk(log[..k]);
             log[k].state.confirmedVector.Some?
             && (before.None? || before.value.confirmedVector != log[k].state.confirmedVector)
    ensures var log := After(hash, events).log;
            var t := log[k].state;
            && k > 0 && log[k - 1].Sent? && Succeeded(log[k - 1].reply)
            && Disk(log[..k]).Some? && Disk(log[..k]).value.pending == Some(log[k - 1].vector)
            && t.confirmedVector == Some(log[k - 1].vector.digest)
            && t.confirmedDecision == log[k - 1].vector.provenance
            && t.pending == None
  {
    RunEffect(hash, body, events, k);
    var log := After(hash, events).log;
    ConfirmsAfterSuccess(log[..k], Disk(log[..k]).value, log[k].state, log[k].retry, body);
    assert log[..k][k - 1] == log[k - 1];
  }

  /** Every state any run saves passes all the checks of loading and reloads equal. */
  lemma EverySavedStateReloads(hash: Hash, body: ReportBody, events: seq<Event>, k: nat, allowChange: bool,
                               secret: seq<Byte>)
    requires RunSound(events, body) && k < |After(hash, events).log| && After(hash, events).log[k].Saved?
    ensures var t := After(hash, events).log[k].state;
            LoadOrCreate(hash, Some(t), t.fingerprint, allowChange, secret) == Loaded(Ok(t), [])
  {
    RunEffect(hash, body, events, k);
    LoadableReloads(hash, After(hash, events).log[k].state, allowChange, secret);
  }

  // ---------------------------------------------------------------------------------------------
  // One vector per round.

  /** The save of a new vector. */
  predicate Creates(log: seq<Effect>, k: nat)
    requires k < |log|
  {
    log[k].Saved? && log[k].state.pending.Some? && !HasPending(Disk(log[..k]))
  }

  predicate SameConfig(log: seq<Effect>, i: nat, j: nat, fingerprint: string)
    requires i <= j <= |log|
  {
    forall k :: i <= k < j && log[k].Saved? ==> log[k].state.fingerprint == fingerprint
  }

  lemma {:induction false} RoundsGoUp(hash: Hash, body: ReportBody, log: seq<Effect>, i: nat, j: nat)
    requires LogOk(hash, body, log) && i < j <= |log| && log[i].Saved?
    requires SameConfig(log, i, j, log[i].state.fingerprint)
    ensures Disk(log[..j]).Some? && Disk(log[..j]).value.fingerprint == log[i].state.fingerprint
    ensures log[i].state.lastCompletedRound <= Disk(log[..j]).value.lastCompletedRound
    decreases j
  {
    if j == i + 1 {
      DiskStep(log, i);
    } else {
      RoundsGoUp(hash, body, log, i, j - 1);
      LogPrefix(hash, body, log, j - 1);
      DiskStep(log, j - 1);
      if log[j - 1].Saved? {
        RoundStep(log[..j - 1], Disk(log[..j - 1]).value, log[j - 1].state, log[j - 1].retry, body);
      }
    }
  }

  lemma RoundStep(log: seq<Effect>, s: State, t: State, retry: bool, body: ReportBody)
    requires Evolves(log, s, t, retry, body) && t.fingerprint == s.fingerprint
    ensures s.lastCompletedRound <= t.lastCompletedRound
  {
  }

  /** Two vectors made under one configuration belong to different rounds, in order. */
  lemma OneVectorPerRound(hash: Hash, body: ReportBody, events: seq<Event>, i: nat, j: nat)
    requires RunSound(events, body) && i < j < |After(hash, events).log|
    requires Creates(After(hash, events).log, i) && Creates(After(hash, events).log, j)
    requires SameConfig(After(hash, events).log, i, j + 1, After(hash, events).log[i].state.fingerprint)
    ensures After(hash, events).log[i].state.lastCompletedRound < After(hash, events).log[j].state.lastCompletedRound
  {
    var log := After(hash, events).log;
    RunEffect(hash, body, events, j);
    RoundsGoUp(hash, body, log, i, j);
  }

  // ---------------------------------------------------------------------------------------------
  // The lifetime of one vector.

  predicate PendingThroughout(log: seq<Effect>, i: nat, j: nat)
    requires i <= j <= |log|
  {
    forall k :: i <= k <= j ==> HasPending(Disk(log[..k]))
  }

  lemma {:induction false} OneVectorPerLifetime(hash: Hash, body: ReportBody, log: seq<Effect>, i: nat, j: nat)
    requires LogOk(hash, body, log) && i <= j <= |log| && PendingThroughout(log, i, j)
    ensures var (p, q) := (Disk(log[..i]).value.pending.value, Disk(log[..j]).value.pending.value);
            SameVector(p, q) && p.attempts <= q.attempts && p.nextRetryAtMs <= q.nextRetryAtMs
    decreases j
  {
    if i < j {
      OneVectorPerLifetime(hash, body, log, i, j - 1);
      LogPrefix(hash, body, log, j - 1);
      DiskStep(log, j - 1);
      assert HasPending(Disk(log[..j - 1])) && HasPending(Disk(log[..j]));
      if log[j - 1].Saved? {
        RetryStep(log[..j - 1], Disk(log[..j - 1]).value, log[j - 1].state, log[j - 1].retry, body);
      }
    }
  }

  lemma RetryStep(log: seq<Effect>, s: State, t: State, retry: bool, body: ReportBody)
    requires Evolves(log, s, t, retry, body) && s.pending.Some? && t.pending.Some?
    ensures var (p, q) := (s.pending.value, t.pending.value);
            SameVector(p, q) && p.attempts <= q.attempts && p.nextRetryAtMs <= q.nextRetryAtMs
  {
    DelayNonNegative(t.pending.value.attempts);
  }

  /** Until a vector is confirmed or cancelled, every submission is of that vector, and none comes before
      the time any earlier file gave for its retry. */
  lemma EveryRetryIsIdenticalAndDue(hash: Hash, body: ReportBody, events: seq<Event>, i: nat, k: nat)
    requires RunSound(events, body) && i <= k < |After(hash, events).log| && After(hash, events).log[k].Sent?
    requires PendingThroughout(After(hash, events).log, i, k)
    ensures var log := After(hash, events).log;
            var p := Disk(log[..i]).value.pending.value;
            SameVector(p, log[k].vector) && p.nextRetryAtMs <= log[k].nowMs
  {
    RunEffect(hash, body, events, k);
    OneVectorPerLifetime(hash, body, After(hash, events).log, i, k);
  }

  ghost predicate Collisionless(hash: Hash) {
    forall a, b :: hash(a) == hash(b) ==> a == b
  }

  /** Two submissions of one digest, however far apart, agree on every UID, hotkey and binding, and on
      every weight to twelve digits. */
  lemma EqualDigestsEqualVectors(hash: Hash, body: ReportBody, events: seq<Event>, i: nat, j: nat)
    requires RunSound(events, body) && Collisionless(hash)
    requires i < |After(hash, events).log| && j < |After(hash, events).log|
    requires After(hash, events).log[i].Sent? && After(hash, events).log[j].Sent?
    requires After(hash, events).log[i].vector.digest == After(hash, events).log[j].vector.digest
    ensures var (p, q) := (After(hash, events).log[i].vector, After(hash, events).log[j].vector);
            && p.uids == q.uids && p.hotkeys == q.hotkeys && p.provenance == q.provenance
            && p.registrationIds == q.registrationIds
            && |p.weights| == |q.weights|
            && forall x :: 0 <= x < |p.weights| ==> Round12(p.weights[x]) == Round12(q.weights[x])
  {
    EverySubmissionIsSafe(hash, body, events, i);
    EverySubmissionIsSafe(hash, body, events, j);
    SameDigest(hash, After(hash, events).log[i].vector, After(hash, events).log[j].vector);
  }

  lemma SameDigest(hash: Hash, p: PendingVector, q: PendingVector)
    requires PendingMatchesDigest(hash, p) && PendingMatchesDigest(hash, q) && p.digest == q.digest
             && Collisionless(hash)
    ensures p.uids == q.uids && p.hotkeys == q.hotkeys && p.provenance == q.provenance
            && p.registrationIds == q.registrationIds
    ensures |p.weights| == |q.weights|
            && forall x :: 0 <= x < |p.weights| ==> Round12(p.weights[x]) == Round12(q.weights[x])
  {
    var a, b := Pairs(p.uids, p.weights, p.hotkeys), Pairs(q.uids, q.weights, q.hotkeys);
    assert VectorBody(a, p.provenance, p.registrationIds) == VectorBody(b, q.provenance, q.registrationIds);
    assert |a| == |p.uids| && |b| == |q.uids|;
    forall x | 0 <= x < |p.uids|
      ensures p.uids[x] == q.uids[x] && p.hotkeys[x] == q.hotkeys[x] && Round12(p.weights[x]) == Round12(q.weights[x])
    {
      assert a[x] == b[x];
    }
  }

  // ---------------------------------------------------------------------------------------------
  // Checkpoints.

  lemma {:induction false} DiskCheckpointsExtend(hash: Hash, body: ReportBody, log: seq<Effect>, i: nat, j: nat,
                                                 c: ClassId)
    requires LogOk(hash, body, log) && i <= j <= |log| && Disk(log[..i]).Some?
             && c in Disk(log[..i]).value.classCheckpoints
    ensures Disk(log[..j]).Some?
    ensures Extends(LookUp(Disk(log[..i]).value.classCheckpoints, c), LookUp(Disk(log[..j]).value.classCheckpoints, c),
                    body)
    decreases j
  {
    if i < j {
      DiskCheckpointsExtend(hash, body, log, i, j - 1, c);
      LogPrefix(hash, body, log, j - 1);
      DiskStep(log, j - 1);
      if log[j - 1].Saved? {
        var s, t := Disk(log[..j - 1]).value, log[j - 1].state;
        assert CheckpointsExtend(s, t, body);
        assert Extends(Some(s.classCheckpoints[c]), LookUp(t.classCheckpoints, c), body);
        ExtendsTransitive(LookUp(Disk(log[..i]).value.classCheckpoints, c), LookUp(s.classCheckpoints, c),
                          LookUp(t.classCheckpoints, c), body);
      }
    }
  }

  /** Over every run, restarts and configuration changes included, a class's accepted epoch never goes
      back, one epoch keeps one report, and adjacent epochs are linked. */
  lemma ClassCheckpointNeverRollsBack(hash: Hash, body: ReportBody, events: seq<Event>, i: nat, j: nat, c: ClassId)
    requires RunSound(events, body) && i <= j <= |After(hash, events).log|
    requires var before := Disk(After(hash, events).log[..i]); before.Some? && c in before.value.classCheckpoints
    ensures var log := After(hash, events).log;
            && Disk(log[..j]).Some? && c in Disk(log[..j]).value.classCheckpoints
            && var (a, b) := (Disk(log[..i]).value.classCheckpoints[c], Disk(log[..j]).value.classCheckpoints[c]);
               a.epoch <= b.epoch && (a.epoch == b.epoch ==> a == b)
               && (b.epoch == a.epoch + 1 ==> body(b.id).1 == Some(a.id))
  {
    RunKeepsLog(hash, body, events);
    DiskCheckpointsExtend(hash, body, After(hash, events).log, i, j, c);
  }

  // ---------------------------------------------------------------------------------------------
  // Ambiguous outcomes.

  predicate AllCarry(effects: seq<Effect>, retry: bool) {
    forall i :: 0 <= i < |effects| ==> effects[i].retry == retry
  }

  lemma SubmitCarries(st: State, cfg: Config, mode: Mode, given: Option<Metagraph>, ids: Option<map<ClassId, Digest>>,
                      input: TickInput)
    ensures AllCarry(Submit(st, cfg, mode, given, ids, input).effects, mode.retryAmbiguous)
  {
    if st.pending.Some? {
      var peers := Peers(given, input);
      if peers.Some? {
        SubmitToCarries(st, cfg, mode, peers.value, ids, input);
      }
    }
  }

  lemma SubmitToCarries(st: State, cfg: Config, mode: Mode, peers: seq<Peer>, ids: Option<map<ClassId, Digest>>,
                        input: TickInput)
    requires st.pending.Some?
    ensures AllCarry(SubmitTo(st, cfg, mode, peers, ids, input).effects, mode.retryAmbiguous)
  {
    SendCarries(st, peers, None, input, mode.retryAmbiguous);
    var refreshed := RefreshIds(st, cfg, peers, ids, input);
    if refreshed.Ids? {
      SendCarries(st, peers, Some(refreshed.ids), input, mode.retryAmbiguous);
    }
  }

  lemma SendCarries(st: State, peers: seq<Peer>, current: Option<map<ClassId, Digest>>, input: TickInput, retry: bool)
    requires st.pending.Some?
    ensures AllCarry(Send(st, peers, current, input, retry).effects, retry)
  {
  }

  lemma CommitCarries(hash: Hash, base: State, cfg: Config, mode: Mode, m: Metagraph, peers: seq<Peer>,
                      regs: Registrations, vector: Vector, input: TickInput)
    ensures AllCarry(Commit(hash, base, cfg, mode, m, peers, regs, vector, input).effects, mode.retryAmbiguous)
  {
    var marked := Marked(hash, base, peers, regs, vector, input);
    if vector.uids != [] && marked.Some? {
      SubmitCarries(marked.value, cfg, mode, Some(m), Some(RegistrationIds(regs)), input);
    }
  }

  lemma TickCarries(hash: Hash, st: State, cfg: Config, mode: Mode, lastDryRun: Option<int>, input: TickInput)
    requires cfg.roundBlocks > 0
    ensures AllCarry(Tick(hash, st, cfg, mode, lastDryRun, input).effects, mode.retryAmbiguous)
  {
    if st.pending.Some? {
      SubmitCarries(st, cfg, mode, None, None, input);
    } else if input.metagraph.Got? && input.block.Got? && SnapshotPeers(input.metagraph.value).Some? {
      var peers, round := SnapshotPeers(input.metagraph.value).value, input.block.value / cfg.roundBlocks;
      var ema, regs := RoundEma(cfg, peers, input, st), RoundRegistrations(cfg, peers, input, st);
      if ema.Some? && regs.Some? && input.vector.Some? {
        var next := Advance(cfg.externals, st, cfg.hasBurn, regs.value, input);
        if next.Some? {
          CommitCarries(hash, Evaluated(st, ema.value, next.value, round), cfg, mode, input.metagraph.value, peers,
                        regs.value, input.vector.value, input);
        }
      }
    }
  }

  function Flag(w: World, e: Event): bool {
    match w.process
    case Up(_, _, mode, _) => mode.retryAmbiguous
    case Down => e.Start? && e.mode.retryAmbiguous
  }

  /** An event only adds to the log, under the flag of the process that does it. */
  lemma NextAppends(hash: Hash, w: World, e: Event)
    ensures w.log <= Next(hash, w, e).log
    ensures AllCarry(Next(hash, w, e).log[|w.log|..], Flag(w, e))
  {
    if w.process.Up? && w.process.cfg.roundBlocks > 0 && (e.FullTick? || e.CrashedTick?) {
      var p := w.process;
      TickCarries(hash, p.memory, p.cfg, p.mode, p.lastDryRun, e.input);
    }
  }

  predicate NoFlag(process: Process) {
    process.Up? ==> !process.mode.retryAmbiguous
  }

  lemma NothingAdded(hash: Hash, body: ReportBody, log: seq<Effect>, longer: seq<Effect>)
    requires LogOk(hash, body, longer) && log <= longer && AllCarry(longer[|log|..], false) && HasAmbiguous(Disk(log))
    ensures longer == log
  {
    if |longer| > |log| {
      assert longer[..|log|] == log && longer[|log|] == longer[|log|..][0];
      LogPrefix(hash, body, longer, |log|);
    }
  }

  lemma FrozenStep(hash: Hash, body: ReportBody, w: World, e: Event)
    requires WorldOk(hash, body, w) && EventSound(e, body) && HasAmbiguous(Disk(w.log))
    requires NoFlag(w.process) && (e.Start? ==> !e.mode.retryAmbiguous)
    ensures Next(hash, w, e).log == w.log && NoFlag(Next(hash, w, e).process)
  {
    NextKeeps(hash, body, w, e);
    NextAppends(hash, w, e);
    NothingAdded(hash, body, w.log, Next(hash, w, e).log);
  }

  /** Once the file holds a vector whose outcome is ambiguous, nothing more is sent or written, through any
      ticks, crashes and restarts, until a process is started with the explicit retry flag. */
  lemma {:induction false} AmbiguousStaysUntouched(hash: Hash, body: ReportBody, events: seq<Event>, k: nat)
    requires RunSound(events, body) && k <= |events|
    requires HasAmbiguous(Disk(After(hash, events[..k]).log)) && NoFlag(After(hash, events[..k]).process)
    requires forall i :: k <= i < |events| && events[i].Start? ==> !events[i].mode.retryAmbiguous
    ensures After(hash, events).log == After(hash, events[..k]).log && NoFlag(After(hash, events).process)
    decreases |events|
  {
    if k == |events| {
      assert events[..k] == events;
    } else {
      var front := events[..|events| - 1];
      assert front[..k] == events[..k];
      AmbiguousStaysUntouched(hash, body, front, k);
      RunKeepsLog(hash, body, front);
      FrozenStep(hash, body, After(hash, front), events[|events| - 1]);
    }
  }

  lemma DryStep(hash: Hash, w: World, e: Event)
    requires (w.process.Up? ==> !w.process.mode.broadcast) && !e.Start?
    ensures var next := Next(hash, w, e);
            next.log == w.log && (next.process.Up? ==>
              w.process.Up? && next.process.memory == w.process.memory && next.process.mode == w.process.mode)
  {
  }

  /** Once it is up, a process that does not broadcast changes neither the file nor its own state. */
  lemma {:induction false} DryRunNeverWrites(hash: Hash, events: seq<Event>, k: nat)
    requires k <= |events| && After(hash, events[..k]).process.Up? && !After(hash, events[..k]).process.mode.broadcast
    requires forall i :: k <= i < |events| ==> !events[i].Start?
    ensures var (before, after) := (After(hash, events[..k]), After(hash, events));
            after.log == before.log
            && (after.process.Up? ==>
                  after.process.memory == before.process.memory && after.process.mode == before.process.mode)
    decreases |events|
  {
    if k == |events| {
      assert events[..k] == events;
    } else {
      var front := events[..|events| - 1];
      assert front[..k] == events[..k];
      DryRunNeverWrites(hash, front, k);
      DryStep(hash, After(hash, front), events[|events| - 1]);
    }
  }

  // ---------------------------------------------------------------------------------------------
  // Retry times.

  predicate Scheduled(st: State, t: State, nowMs: int)
    requires st.pending.Some?
  {
    t.pending.Some? ==>
      t.pending == st.pending || t.pending.value == FailedOnce(st.pending.value, nowMs, t.pending.value.ambiguous)
  }

  lemma SendSchedules(st: State, peers: seq<Peer>, current: Option<map<ClassId, Digest>>, input: TickInput, retry: bool)
    requires st.pending.Some?
    ensures Scheduled(st, Send(st, peers, current, input, retry).state, input.nowMs)
  {
  }

  lemma SubmitToSchedules(st: State, cfg: Config, mode: Mode, peers: seq<Peer>, ids: Option<map<ClassId, Digest>>,
                          input: TickInput)
    requires st.pending.Some?
    ensures Scheduled(st, SubmitTo(st, cfg, mode, peers, ids, input).state, input.nowMs)
  {
    SendSchedules(st, peers, None, input, mode.retryAmbiguous);
    var refreshed := RefreshIds(st, cfg, peers, ids, input);
    if refreshed.Ids? {
      SendSchedules(st, peers, Some(refreshed.ids), input, mode.retryAmbiguous);
    }
  }

  lemma SubmitSchedules(st: State, cfg: Config, mode: Mode, given: Option<Metagraph>,
                        ids: Option<map<ClassId, Digest>>, input: TickInput)
    requires st.pending.Some?
    ensures Scheduled(st, Submit(st, cfg, mode, given, ids, input).state, input.nowMs)
  {
    var peers := Peers(given, input);
    if peers.Some? {
      SubmitToSchedules(st, cfg, mode, peers.value, ids, input);
    }
  }

  /** A tick that fails to submit sets the next attempt its delay after the tick's time, and counts one
      more attempt; a vector made by the tick itself starts from none. */
  lemma FailureSetsRetryTime(hash: Hash, st: State, cfg: Config, mode: Mode, lastDryRun: Option<int>, input: TickInput)
    requires cfg.roundBlocks > 0
    requires var t := Tick(hash, st, cfg, mode, lastDryRun, input).state;
             t.pending.Some? && t.pending != st.pending && t.pending.value.attempts != 0
    ensures var q := Tick(hash, st, cfg, mode, lastDryRun, input).state.pending.value;
            && q.attempts == (if st.pending.Some? then st.pending.value.attempts else 0) + 1
            && q.nextRetryAtMs == input.nowMs + DelayMs(q.attempts)
  {
    if st.pending.Some? {
      SubmitSchedules(st, cfg, mode, None, None, input);
    } else {
      var peers, round := SnapshotPeers(input.metagraph.value).value, input.block.value / cfg.roundBlocks;
      var regs := RoundRegistrations(cfg, peers, input, st).value;
      var base := Evaluated(st, RoundEma(cfg, peers, input, st).value,
                            Advance(cfg.externals, st, cfg.hasBurn, regs, input).value, round);
      var marked := Marked(hash, base, peers, regs, input.vector.value, input);
      SubmitSchedules(marked.value, cfg, mode, Some(input.metagraph.value), Some(RegistrationIds(regs)), input);
    }
  }

  lemma {:induction false} LogsGrow(hash: Hash, events: seq<Event>, k: nat)
    requires k <= |events|
    ensures After(hash, events[..k]).log <= After(hash, events).log
    decreases |events|
  {
    if k == |events| {
      assert events[..k] == events;
    } else {
      var front := events[..|events| - 1];
      LogsGrow(hash, front, k);
      assert front[..k] == events[..k];
      NextAppends(hash, After(hash, front), events[|events| - 1]);
    }
  }

  /** What a tick, crashed or not, does to the outside. */
  function Done(hash: Hash, w: World, e: Event): seq<Effect>
    requires w.process.Up? && w.process.cfg.roundBlocks > 0 && (e.FullTick? || e.CrashedTick?)
  {
    var p := w.process;
    var effects := Tick(hash, p.memory, p.cfg, p.mode, p.lastDryRun, e.input).effects;
    if e.FullTick? || e.done >= |effects| then effects else effects[..e.done]
  }

  lemma NextLog(hash: Hash, w: World, e: Event)
    requires w.process.Up? && w.process.cfg.roundBlocks > 0 && (e.FullTick? || e.CrashedTick?)
    ensures Next(hash, w, e).log == w.log + Done(hash, w, e)
  {
    var p := w.process;
    var effects := Tick(hash, p.memory, p.cfg, p.mode, p.lastDryRun, e.input).effects;
    assert effects[..|effects|] == effects;
  }

  /** The file after some effects is the one before, or the last state they saved. */
  lemma {:induction false} DiskChange(log: seq<Effect>, effects: seq<Effect>) returns (i: int)
    ensures i == -1 ==> Disk(log + effects) == Disk(log)
    ensures i != -1 ==> 0 <= i < |effects| && effects[i].Saved? && Disk(log + effects) == Some(effects[i].state)
    decreases |effects|
  {
    if effects == [] {
      assert log + effects == log;
      i := -1;
    } else if effects[|effects| - 1].Saved? {
      i := |effects| - 1;
    } else {
      assert (log + effects)[..|log + effects| - 1] == log + effects[..|effects| - 1];
      i := DiskChange(log, effects[..|effects| - 1]);
    }
  }

  /** A vector that a tick leaves newly failed in the file waits its delay from that tick. */
  lemma FailureAt(hash: Hash, w: World, e: Event)
    requires e.FullTick? || e.CrashedTick?
    requires var (before, after) := (Disk(w.log), Disk(Next(hash, w, e).log));
             && HasPending(after) && after.value.pending.value.attempts != 0
             && (before.None? || before.value.pending != after.value.pending)
    ensures var q := Disk(Next(hash, w, e).log).value.pending.value;
            q.nextRetryAtMs == e.input.nowMs + DelayMs(q.attempts)
  {
    if w.process.Up? && w.process.cfg.roundBlocks > 0 {
      var p := w.process;
      var o := Tick(hash, p.memory, p.cfg, p.mode, p.lastDryRun, e.input);
      NextLog(hash, w, e);
      var i := DiskChange(w.log, Done(hash, w, e));
      assert Done(hash, w, e)[i] == o.effects[i];
      TickIsPath(hash, p.memory, p.cfg, p.mode, p.lastDryRun, e.input);
      PathAt(p.memory, o.effects, o.state, p.cfg, e.input, i);
    }
  }

  /** After a tick that failed to submit and saved that, whether or not it then crashed, no retry of that
      vector, in this or any later process, comes before the tick's time plus the delay for its number of
      attempts. */
  lemma RetryWaitsItsDelay(hash: Hash, body: ReportBody, events: seq<Event>, k: nat, j: nat)
    requires RunSound(events, body) && k < |events| && (events[k].FullTick? || events[k].CrashedTick?)
    requires var (before, after) := (Disk(After(hash, events[..k]).log), Disk(After(hash, events[..k + 1]).log));
             && HasPending(after) && after.value.pending.value.attempts != 0
             && (before.None? || before.value.pending != after.value.pending)
    requires |After(hash, events[..k + 1]).log| <= j < |After(hash, events).log| && After(hash, events).log[j].Sent?
    requires PendingThroughout(After(hash, events).log, |After(hash, events[..k + 1]).log|, j)
    ensures var q := Disk(After(hash, events[..k + 1]).log).value.pending.value;
            SameVector(q, After(hash, events).log[j].vector)
            && After(hash, events).log[j].nowMs >= events[k].input.nowMs + DelayMs(q.attempts)
  {
    var v := After(hash, events[..k + 1]);
    assert events[..k + 1][..k] == events[..k];
    FailureAt(hash, After(hash, events[..k]), events[k]);
    LogsGrow(hash, events, k + 1);
    assert After(hash, events).log[..|v.log|] == v.log;
    EveryRetryIsIdenticalAndDue(hash, body, events, |v.log|, j);
  }

  // ---------------------------------------------------------------------------------------------
  // What a new vector and its submission rest on.

  /** The vector a tick saves is the one composed for the round of the block it read, that round is new,
      and the hotkeys recorded for its UIDs are those the metagraph lists. */
  lemma NewVectorIsItsRounds(hash: Hash, st: State, cfg: Config, mode: Mode, lastDryRun: Option<int>, input: TickInput)
    requires cfg.roundBlocks > 0 && st.pending.None?
    requires var o := Tick(hash, st, cfg, mode, lastDryRun, input);
             o.effects != [] && o.effects[0].Saved? && o.effects[0].state.pending.Some?
    ensures var t := Tick(hash, st, cfg, mode, lastDryRun, input).effects[0].state;
            var p := t.pending.value;
            && mode.broadcast && input.block.Got?
            && t.lastCompletedRound == input.block.value / cfg.roundBlocks > st.lastCompletedRound
            && input.vector == Some(Vector(p.uids, p.weights)) && p.provenance == Some(input.decisionDigest)
            && input.metagraph.Got? && SnapshotPeers(input.metagraph.value).Some?
            && OwnersMatch(p, SnapshotPeers(input.metagraph.value).value)
  {
  }

  /** A registration a mirror served, signed for by the owner the chain named for the subnet of the class,
      whose delegate that owner had registered. */
  ghost predicate Authorized(id: Digest, c: ClassId, classes: seq<ExternalClass>, input: TickInput, peers: seq<Peer>) {
    exists i, r: Registration ::
      && 0 <= i < |classes| && classes[i].id == c && classes[i].sourceNetuid.Some?
      && OwnerOf(input.owners, classes[i].sourceNetuid.value) == Owner(r.owner)
      && r.id == id && Some(r) in Mirrors(input.registrations, c)
      && LookUp(ColdkeyOf(peers), r.delegate) == Some(r.owner)
  }

  ghost predicate AllAuthorized(ids: map<ClassId, Digest>, classes: seq<ExternalClass>, input: TickInput,
                                peers: seq<Peer>)
  {
    forall c :: c in ids ==> Authorized(ids[c], c, classes, input, peers)
  }

  lemma AuthorizedAmongMore(id: Digest, c: ClassId, front: seq<ExternalClass>, last: ExternalClass, input: TickInput,
                            peers: seq<Peer>)
    requires Authorized(id, c, front, input, peers)
    ensures Authorized(id, c, front + [last], input, peers)
  {
    var i, r: Registration :|
      && 0 <= i < |front| && front[i].id == c && front[i].sourceNetuid.Some?
      && OwnerOf(input.owners, front[i].sourceNetuid.value) == Owner(r.owner)
      && r.id == id && Some(r) in Mirrors(input.registrations, c)
      && LookUp(ColdkeyOf(peers), r.delegate) == Some(r.owner);
    assert (front + [last])[i] == front[i];
  }

  lemma AllAuthorizedAmongMore(ids: map<ClassId, Digest>, front: seq<ExternalClass>, last: ExternalClass,
                               input: TickInput, peers: seq<Peer>)
    requires AllAuthorized(ids, front, input, peers)
    ensures AllAuthorized(ids, front + [last], input, peers)
  {
    forall c | c in ids
      ensures Authorized(ids[c], c, front + [last], input, peers)
    {
      AuthorizedAmongMore(ids[c], c, front, last, input, peers);
    }
  }

  lemma LastClassAuthorized(front: seq<ExternalClass>, last: ExternalClass, peers: seq<Peer>, input: TickInput,
                            checkpoint: Option<RegistrationCheckpoint>)
    requires last.sourceNetuid.Some? && OwnerOf(input.owners, last.sourceNetuid.value).Owner?
    requires var owner := OwnerOf(input.owners, last.sourceNetuid.value).coldkey;
             LoadRegistration(Load(Mirrors(input.registrations, last.id), owner, ColdkeyOf(peers)), checkpoint).Ok?
    ensures var owner := OwnerOf(input.owners, last.sourceNetuid.value).coldkey;
            var load := Load(Mirrors(input.registrations, last.id), owner, ColdkeyOf(peers));
            Authorized(LoadRegistration(load, checkpoint).value.0.id, last.id, front + [last], input, peers)
  {
    var owner := OwnerOf(input.owners, last.sourceNetuid.value).coldkey;
    var load := Load(Mirrors(input.registrations, last.id), owner, ColdkeyOf(peers));
    LoadedIsAuthorized(load, checkpoint);
    var r := LoadRegistration(load, checkpoint).value.0;
    assert (front + [last])[|front|] == last;
    assert OwnerOf(input.owners, (front + [last])[|front|].sourceNetuid.value) == Owner(r.owner);
  }

  lemma {:induction false} LoadedClassesAuthorized(classes: seq<ExternalClass>, peers: seq<Peer>, input: TickInput,
                                                  checkpoints: map<ClassId, RegistrationCheckpoint>)
    requires LoadClasses(classes, peers, input, checkpoints).Ok?
    ensures var regs := LoadClasses(classes, peers, input, checkpoints).value;
            AllAuthorized(RegistrationIds(regs), classes, input, peers)
  {
    if classes != [] {
      var front, last := classes[..|classes| - 1], classes[|classes| - 1];
      LoadedClassesAuthorized(front, peers, input, checkpoints);
      assert classes == front + [last];
      OneMoreAuthorized(front, last, peers, input, checkpoints);
    }
  }

  lemma OneMoreAuthorized(front: seq<ExternalClass>, last: ExternalClass, peers: seq<Peer>, input: TickInput,
                          checkpoints: map<ClassId, RegistrationCheckpoint>)
    requires LoadClasses(front, peers, input, checkpoints).Ok?
    requires LoadClasses(front + [last], peers, input, checkpoints).Ok?
    requires var before := LoadClasses(front, peers, input, checkpoints).value;
             AllAuthorized(RegistrationIds(before), front, input, peers)
    ensures var regs := LoadClasses(front + [last], peers, input, checkpoints).value;
            AllAuthorized(RegistrationIds(regs), front + [last], input, peers)
  {
    var before := LoadClasses(front, peers, input, checkpoints).value;
    AllAuthorizedAmongMore(RegistrationIds(before), front, last, input, peers);
    OneMoreLoaded(front, last, peers, input, checkpoints);
    if last.sourceNetuid.Some? {
      LastClassAuthorized(front, last, peers, input, LookUp(checkpoints, last.id));
      var load := Load(Mirrors(input.registrations, last.id), OwnerOf(input.owners, last.sourceNetuid.value).coldkey,
                       ColdkeyOf(peers));
      var loaded := LoadRegistration(load, LookUp(checkpoints, last.id)).value.0;
      PutAuthorized(RegistrationIds(before), last.id, loaded.id, front + [last], input, peers);
    }
  }

  lemma PutAuthorized(ids: map<ClassId, Digest>, c: ClassId, id: Digest, classes: seq<ExternalClass>, input: TickInput,
                      peers: seq<Peer>)
    requires AllAuthorized(ids, classes, input, peers) && Authorized(id, c, classes, input, peers)
    ensures AllAuthorized(ids[c := id], classes, input, peers)
  {
  }

  lemma OneMoreLoaded(front: seq<ExternalClass>, last: ExternalClass, peers: seq<Peer>, input: TickInput,
                      checkpoints: map<ClassId, RegistrationCheckpoint>)
    requires LoadClasses(front, peers, input, checkpoints).Ok?
    requires LoadClasses(front + [last], peers, input, checkpoints).Ok?
    ensures var before := RegistrationIds(LoadClasses(front, peers, input, checkpoints).value);
            var after := RegistrationIds(LoadClasses(front + [last], peers, input, checkpoints).value);
            if last.sourceNetuid.None? then after == before
            else
              OwnerOf(input.owners, last.sourceNetuid.value).Owner?
              && var owner := OwnerOf(input.owners, last.sourceNetuid.value).coldkey;
                 var load := Load(Mirrors(input.registrations, last.id), owner, ColdkeyOf(peers));
                 var loaded := LoadRegistration(load, LookUp(checkpoints, last.id));
                 loaded.Ok? && after == before[last.id := loaded.value.0.id]
  {
    assert (front + [last])[..|front|] == front;
    var before := LoadClasses(front, peers, input, checkpoints).value;
    var regs := LoadClasses(front + [last], peers, input, checkpoints).value;
    if last.sourceNetuid.Some? {
      IdsWith(before, last.id, regs[last.id]);
    }
  }

  lemma IdsWith(regs: Registrations, c: ClassId, pair: (Registration, RegistrationCheckpoint))
    ensures RegistrationIds(regs[c := pair]) == RegistrationIds(regs)[c := pair.0.id]
  {
  }

  lemma SendSends(st: State, peers: seq<Peer>, current: Option<map<ClassId, Digest>>, input: TickInput, retry: bool,
                  e: Effect)
    requires st.pending.Some? && e in Send(st, peers, current, input, retry).effects && e.Sent?
    ensures e.vector == st.pending.value && e.peers == peers
  {
  }

  lemma SubmitToAuthorized(st: State, cfg: Config, mode: Mode, peers: seq<Peer>, given: Option<map<ClassId, Digest>>,
                           input: TickInput, e: Effect)
    requires st.pending.Some? && (given.Some? ==> AllAuthorized(given.value, cfg.externals, input, peers))
    requires e in SubmitTo(st, cfg, mode, peers, given, input).effects && e.Sent?
    ensures e.peers == peers && AllAuthorized(e.vector.registrationIds, cfg.externals, input, peers)
  {
    var p := st.pending.value;
    if p.registrationIds == map[] {
      SendSends(st, peers, None, input, mode.retryAmbiguous, e);
    } else {
      var refreshed := RefreshIds(st, cfg, peers, given, input);
      RefreshedAuthorized(st, cfg, peers, given, input);
      if refreshed.Ids? && refreshed.ids == p.registrationIds {
        SendSends(st, peers, Some(refreshed.ids), input, mode.retryAmbiguous, e);
      }
    }
  }

  lemma RefreshedAuthorized(st: State, cfg: Config, peers: seq<Peer>, given: Option<map<ClassId, Digest>>,
                            input: TickInput)
    requires given.Some? ==> AllAuthorized(given.value, cfg.externals, input, peers)
    ensures var refreshed := RefreshIds(st, cfg, peers, given, input);
            refreshed.Ids? ==> AllAuthorized(refreshed.ids, cfg.externals, input, peers)
  {
    if LoadOwnerRegistrations(cfg, peers, input, st.registrationCheckpoints, true).Ok? {
      LoadedClassesAuthorized(cfg.externals, peers, input, st.registrationCheckpoints);
    }
  }

  /** Whatever a tick submits was checked against the metagraph it read, and every registration the vector
      is bound to is one the current owner of that class's subnet has authorised. */
  lemma SubmissionIsAuthorized(hash: Hash, st: State, cfg: Config, mode: Mode, lastDryRun: Option<int>,
                               input: TickInput, e: Effect)
    requires cfg.roundBlocks > 0 && e in Tick(hash, st, cfg, mode, lastDryRun, input).effects && e.Sent?
    ensures input.metagraph.Got? && SnapshotPeers(input.metagraph.value) == Some(e.peers)
    ensures AllAuthorized(e.vector.registrationIds, cfg.externals, input, e.peers)
  {
    var peers := SnapshotPeers(input.metagraph.value).value;
    if st.pending.Some? {
      SubmitToAuthorized(st, cfg, mode, peers, None, input, e);
    } else {
      var round := input.block.value / cfg.roundBlocks;
      var regs := RoundRegistrations(cfg, peers, input, st).value;
      if LoadOwnerRegistrations(cfg, peers, input, st.registrationCheckpoints, false).Ok? {
        LoadedClassesAuthorized(cfg.externals, peers, input, st.registrationCheckpoints);
      }
      var ema := RoundEma(cfg, peers, input, st).value;
      var base := Evaluated(st, ema, Advance(cfg.externals, st, cfg.hasBurn, regs, input).value, round);
      var marked := Marked(hash, base, peers, regs, input.vector.value, input);
      SubmitToAuthorized(marked.value, cfg, mode, peers, Some(RegistrationIds(regs)), input, e);
    }
  }

  // ---------------------------------------------------------------------------------------------
  // Where the promises end.

  /** A broadcasting tick at `later` would submit the pending vector if the retry flag allowed it. */
  predicate WouldSend(st: State, cfg: Config, later: TickInput) {
    st.pending.Some? && var s := Submit(st, cfg, Mode(true, true), None, None, later);
                        s.effects != [] && s.effects[0].Sent?
  }

  /** Only the flag of the mode matters to a broadcasting submission, and only to its start. */
  lemma SubmitShape(st: State, cfg: Config, mode: Mode, later: TickInput)
    requires WouldSend(st, cfg, later) && mode.broadcast
    ensures var s := Submit(st, cfg, mode, None, None, later);
            if st.pending.value.ambiguous && !mode.retryAmbiguous then s.effects == []
            else s.effects != [] && s.effects[0].Sent? && s.effects[0].vector == st.pending.value
  {
  }

  /** What a restart on a file with a pending vector does at its first tick that could submit. */
  lemma RestartSends(hash: Hash, file: State, cfg: Config, restart: Mode, secret: seq<Byte>, later: TickInput)
    requires Loadable(hash, file) && file.fingerprint == cfg.fingerprint && cfg.roundBlocks > 0
    requires WouldSend(file, cfg, later) && restart.broadcast
    ensures LoadOrCreate(hash, Some(file), cfg.fingerprint, false, secret) == Loaded(Ok(file), [])
    ensures var effects := Tick(hash, file, cfg, restart, None, later).effects;
            if file.pending.value.ambiguous && !restart.retryAmbiguous then effects == []
            else effects != [] && effects[0].Sent? && effects[0].vector == file.pending.value
  {
    LoadableReloads(hash, file, false, secret);
    SubmitShape(file, cfg, restart, later);
  }

  function EffectsOf(hash: Hash, p: Process, input: TickInput): seq<Effect>
    requires p.Up? && p.cfg.roundBlocks > 0
  {
    Tick(hash, p.memory, p.cfg, p.mode, p.lastDryRun, input).effects
  }

  lemma SavedFingerprint(hash: Hash, p: Process, input: TickInput, i: nat)
    requires p.Up? && p.cfg.roundBlocks > 0 && i < |EffectsOf(hash, p, input)| && EffectsOf(hash, p, input)[i].Saved?
    ensures EffectsOf(hash, p, input)[i].state.fingerprint == p.memory.fingerprint
  {
    var o := Tick(hash, p.memory, p.cfg, p.mode, p.lastDryRun, input);
    TickIsPath(hash, p.memory, p.cfg, p.mode, p.lastDryRun, input);
    PathAt(p.memory, o.effects, o.state, p.cfg, input, i);
    PathKeepsFingerprint(p.memory, o.effects[..i], MemoryAfter(p.memory, o.effects[..i]), p.cfg, input);
  }

  /** The file behind a tick that has just sent a vector: loadable, of this configuration, and holding the
      vector as it was sent. */
  lemma FileBehindSending(hash: Hash, body: ReportBody, w: World, input: TickInput, k: nat)
    requires WorldOk(hash, body, w) && DocumentsSound(input, body) && w.process.Up?
    requires k < |EffectsOf(hash, w.process, input)| && EffectsOf(hash, w.process, input)[k].Sent?
    ensures var effects := EffectsOf(hash, w.process, input);
            var file := Disk(w.log + effects[..k]);
            && file.Some? && Loadable(hash, file.value) && file.value.fingerprint == w.process.cfg.fingerprint
            && file.value.pending == Some(effects[k].vector) && Disk(w.log + effects[..k + 1]) == file
  {
    var p := w.process;
    var effects := EffectsOf(hash, p, input);
    TickEffectsKeep(hash, body, w, input);
    forall i | 0 <= i < |effects| && effects[i].Saved?
      ensures effects[i].state.fingerprint == p.cfg.fingerprint
    {
      SavedFingerprint(hash, p, input, i);
    }
    FileAtSending(hash, body, w.log, effects, k, p.cfg.fingerprint);
  }

  lemma FileAtSending(hash: Hash, body: ReportBody, log: seq<Effect>, effects: seq<Effect>, k: nat, fingerprint: string)
    requires LogOk(hash, body, log + effects) && k < |effects| && effects[k].Sent?
    requires Disk(log).Some? && Disk(log).value.fingerprint == fingerprint
    requires forall i :: 0 <= i < |effects| && effects[i].Saved? ==> effects[i].state.fingerprint == fingerprint
    ensures var file := Disk(log + effects[..k]);
            && file.Some? && Loadable(hash, file.value) && file.value.fingerprint == fingerprint
            && file.value.pending == Some(effects[k].vector) && Disk(log + effects[..k + 1]) == file
  {
    var before := log + effects[..k];
    LogPrefix(hash, body, log + effects, |before|);
    assert (log + effects)[..|before|] == before && (log + effects)[|before|] == effects[k];
    DiskIsLoadable(hash, body, before);
    var i := DiskChange(log, effects[..k]);
    assert log + effects[..k + 1] == before + [effects[k]];
    LogAppend(hash, body, before, effects[k]);
  }

  /** A log that goes on with another submission of a vector, exactly unless the vector is called ambiguous
      and there is no flag; then it stays as it was. */
  predicate SendsAgainUnlessHeld(log: seq<Effect>, later: seq<Effect>, v: PendingVector, flag: bool) {
    if v.ambiguous && !flag then later == log
    else log < later && later[|log|].Sent? && later[|log|].vector == v
  }

  /** A start with an unchanged configuration, and a tick. */
  function Restarted(hash: Hash, w: World, cfg: Config, restart: Mode, secret: seq<Byte>, later: TickInput): World {
    Next(hash, Next(hash, w, Start(cfg, restart, false, secret)), FullTick(later))
  }

  /** A crash anywhere between sending a vector, old or new, and recording the outcome: at the first tick
      that could submit, a restart sends the same vector again exactly when the file does not already call
      it ambiguous, or the retry flag is given. */
  lemma CrashAfterSendingResends(hash: Hash, body: ReportBody, w: World, input: TickInput, done: nat, restart: Mode,
                                 secret: seq<Byte>, later: TickInput)
    requires WorldOk(hash, body, w) && DocumentsSound(input, body) && w.process.Up? && restart.broadcast
    requires 0 < done <= |EffectsOf(hash, w.process, input)| && EffectsOf(hash, w.process, input)[done - 1].Sent?
    requires var crashed := Next(hash, w, CrashedTick(input, done));
             Disk(crashed.log).Some? && WouldSend(Disk(crashed.log).value, w.process.cfg, later)
    ensures var sent := EffectsOf(hash, w.process, input)[done - 1].vector;
            var crashed := Next(hash, w, CrashedTick(input, done));
            var again := Restarted(hash, crashed, w.process.cfg, restart, secret, later);
            Disk(crashed.log).value.pending == Some(sent)
            && SendsAgainUnlessHeld(crashed.log, again.log, sent, restart.retryAmbiguous)
  {
    CrashLeaves(hash, body, w, input, done);
    RestartAfterSending(hash, Next(hash, w, CrashedTick(input, done)).log,
                        EffectsOf(hash, w.process, input)[done - 1].vector, w.process.cfg, restart, secret, later);
  }

  /** The crash ends the process and leaves the sent vector in the file. */
  lemma CrashLeaves(hash: Hash, body: ReportBody, w: World, input: TickInput, done: nat)
    requires WorldOk(hash, body, w) && DocumentsSound(input, body) && w.process.Up?
    requires 0 < done <= |EffectsOf(hash, w.process, input)| && EffectsOf(hash, w.process, input)[done - 1].Sent?
    ensures var crashed := Next(hash, w, CrashedTick(input, done));
            var file := Disk(crashed.log);
            && crashed.process.Down? && file.Some? && Loadable(hash, file.value)
            && file.value.pending == Some(EffectsOf(hash, w.process, input)[done - 1].vector)
            && file.value.fingerprint == w.process.cfg.fingerprint
  {
    FileBehindSending(hash, body, w, input, done - 1);
    CrashedWorld(hash, w, input, done);
  }

  lemma RestartAfterSending(hash: Hash, log: seq<Effect>, sent: PendingVector, cfg: Config, restart: Mode,
                            secret: seq<Byte>, later: TickInput)
    requires Disk(log).Some? && Loadable(hash, Disk(log).value) && Disk(log).value.pending == Some(sent)
    requires Disk(log).value.fingerprint == cfg.fingerprint && cfg.roundBlocks > 0
    requires WouldSend(Disk(log).value, cfg, later) && restart.broadcast
    ensures SendsAgainUnlessHeld(log, Restarted(hash, World(log, Down), cfg, restart, secret, later).log, sent,
                                 restart.retryAmbiguous)
  {
    var file := Disk(log).value;
    RestartSends(hash, file, cfg, restart, secret, later);
    RestartedLog(hash, log, file, cfg, restart, secret, later);
    GoesOn(log, Tick(hash, file, cfg, restart, None, later).effects, sent, restart.retryAmbiguous);
  }

  lemma GoesOn(log: seq<Effect>, effects: seq<Effect>, v: PendingVector, flag: bool)
    requires if v.ambiguous && !flag then effects == [] else effects != [] && effects[0].Sent? && effects[0].vector == v
    ensures SendsAgainUnlessHeld(log, log + effects, v, flag)
  {
  }

  lemma CrashedWorld(hash: Hash, w: World, input: TickInput, done: nat)
    requires w.process.Up? && w.process.cfg.roundBlocks > 0 && done <= |EffectsOf(hash, w.process, input)|
    ensures Next(hash, w, CrashedTick(input, done)) == World(w.log + EffectsOf(hash, w.process, input)[..done], Down)
  {
  }

  lemma RestartedLog(hash: Hash, log: seq<Effect>, file: State, cfg: Config, restart: Mode, secret: seq<Byte>,
                     later: TickInput)
    requires Disk(log) == Some(file) && cfg.roundBlocks > 0
    requires LoadOrCreate(hash, Some(file), cfg.fingerprint, false, secret) == Loaded(Ok(file), [])
    ensures Restarted(hash, World(log, Down), cfg, restart, secret, later).log
            == log + Tick(hash, file, cfg, restart, None, later).effects
  {
    assert SavedAs([], restart.retryAmbiguous) == [];
    assert log + [] == log;
    assert Next(hash, World(log, Down), Start(cfg, restart, false, secret)) == World(log, Up(file, cfg, restart, None));
  }

  /** A vector that was pending before the tick can be sent again at once: the tick that was interrupted,
      taken again, does it. */
  lemma InterruptedTickWouldSend(st: State, cfg: Config, mode: Mode, input: TickInput)
    requires st.pending.Some?
    requires var s := Submit(st, cfg, mode, None, None, input); s.effects != [] && s.effects[0].Sent?
    ensures WouldSend(st, cfg, input)
  {
  }
}
