/** Owner registrations over whole runs of the validator: while every tick sees one owner for a class,
    the accepted registration sequence of that class never goes back in the state file. */
module RegistrationRuns {
  import opened Prelude
  import opened Checkpoints
  import opened Metagraphs
  import opened SubmissionState
  import opened Validator
  import opened ValidatorRuns

  /** One class, its owner, and the bodies of registrations by id. */
  datatype Watch = Watch(c: ClassId, owner: Coldkey, body: RegistrationBody)

  function Accepted(s: State, w: Watch): Option<RegistrationCheckpoint> {
    LookUp(s.registrationCheckpoints, w.c)
  }

  predicate Onwards(s: State, t: State, w: Watch) {
    RegistrationExtends(Accepted(s, w), Accepted(t, w), w.owner, w.body)
  }

  lemma OnwardsTwice(s: State, t: State, u: State, w: Watch)
    requires Onwards(s, t, w) && Onwards(t, u, w)
    ensures Onwards(s, u, w)
  {
  }

  // ---------------------------------------------------------------------------------------------
  // One tick.

  /** Every owner read of the class is of the watched owner, and what the mirrors serve agrees with `body`. */
  predicate Sees(cfg: Config, input: TickInput, w: Watch) {
    && (forall i :: 0 <= i < |cfg.externals| && cfg.externals[i].id == w.c && cfg.externals[i].sourceNetuid.Some? ==>
          var read := OwnerOf(input.owners, cfg.externals[i].sourceNetuid.value);
          read.Owner? ==> read.coldkey == w.owner)
    && (forall i :: 0 <= i < |Mirrors(input.registrations, w.c)| && Mirrors(input.registrations, w.c)[i].Some? ==>
          RegistrationAgrees(Mirrors(input.registrations, w.c)[i].value, w.body))
  }

  lemma LoadGoesOn(load: Load, checkpoint: Option<RegistrationCheckpoint>, body: RegistrationBody)
    requires RegistrationsAgree(load, body) && LoadRegistration(load, checkpoint).Ok?
    ensures RegistrationExtends(checkpoint, Some(LoadRegistration(load, checkpoint).value.1), load.owner, body)
  {
    LoadedIsAuthorized(load, checkpoint);
    var r := LoadRegistration(load, checkpoint).value.0;
    var i :| 0 <= i < |load.mirrors| && load.mirrors[i] == Some(r);
    assert RegistrationAgrees(r, body);
  }

  lemma {:induction false} LoadedGoesOn(classes: seq<ExternalClass>, peers: seq<Peer>, cfg: Config, input: TickInput,
                                       checkpoints: map<ClassId, RegistrationCheckpoint>, w: Watch)
    requires Sees(cfg, input, w) && forall i :: 0 <= i < |classes| ==> classes[i] in cfg.externals
    requires LoadClasses(classes, peers, input, checkpoints).Ok?
    ensures var regs := LoadClasses(classes, peers, input, checkpoints).value;
            w.c in regs ==> RegistrationExtends(LookUp(checkpoints, w.c), Some(regs[w.c].1), w.owner, w.body)
  {
    if classes != [] {
      var front, last := classes[..|classes| - 1], classes[|classes| - 1];
      LoadedGoesOn(front, peers, cfg, input, checkpoints, w);
      if last.id == w.c && last.sourceNetuid.Some? {
        var owner := OwnerOf(input.owners, last.sourceNetuid.value).coldkey;
        var i :| 0 <= i < |cfg.externals| && cfg.externals[i] == last;
        assert owner == w.owner;
        LoadGoesOn(Load(Mirrors(input.registrations, w.c), owner, ColdkeyOf(peers)), LookUp(checkpoints, w.c), w.body);
      }
    }
  }

  lemma {:induction false} AdvanceGoesOn(classes: seq<ExternalClass>, st: State, hasBurn: bool, regs: Registrations,
                                         input: TickInput, w: Watch)
    requires w.c in regs ==> RegistrationExtends(Accepted(st, w), Some(regs[w.c].1), w.owner, w.body)
    requires Advance(classes, st, hasBurn, regs, input).Some?
    ensures RegistrationExtends(Accepted(st, w),
                                LookUp(Advance(classes, st, hasBurn, regs, input).value.registrations, w.c),
                                w.owner, w.body)
  {
    if classes != [] {
      AdvanceGoesOn(classes[..|classes| - 1], st, hasBurn, regs, input, w);
    }
  }

  predicate AllHold(effects: seq<Effect>, registrations: map<ClassId, RegistrationCheckpoint>) {
    forall i :: 0 <= i < |effects| && effects[i].Saved? ==> effects[i].state.registrationCheckpoints == registrations
  }

  /** A step that leaves the registrations alone, in memory and in what it saves. */
  predicate Holds(step: Step, st: State) {
    step.state.registrationCheckpoints == st.registrationCheckpoints
    && AllHold(step.effects, st.registrationCheckpoints)
  }

  lemma SendHolds(st: State, peers: seq<Peer>, current: Option<map<ClassId, Digest>>, input: TickInput, retry: bool)
    requires st.pending.Some?
    ensures Holds(Send(st, peers, current, input, retry), st)
  {
  }

  lemma SubmitToHolds(st: State, cfg: Config, mode: Mode, peers: seq<Peer>, ids: Option<map<ClassId, Digest>>,
                      input: TickInput)
    requires st.pending.Some?
    ensures Holds(SubmitTo(st, cfg, mode, peers, ids, input), st)
  {
    SendHolds(st, peers, None, input, mode.retryAmbiguous);
    var refreshed := RefreshIds(st, cfg, peers, ids, input);
    if refreshed.Ids? {
      SendHolds(st, peers, Some(refreshed.ids), input, mode.retryAmbiguous);
    }
  }

  lemma SubmitHolds(st: State, cfg: Config, mode: Mode, given: Option<Metagraph>, ids: Option<map<ClassId, Digest>>,
                    input: TickInput)
    ensures Holds(Submit(st, cfg, mode, given, ids, input), st)
  {
    var peers := Peers(given, input);
    if st.pending.Some? && peers.Some? {
      SubmitToHolds(st, cfg, mode, peers.value, ids, input);
    }
  }

  lemma CommitHolds(hash: Hash, base: State, cfg: Config, mode: Mode, m: Metagraph, peers: seq<Peer>,
                    regs: Registrations, vector: Vector, input: TickInput)
    ensures Holds(Commit(hash, base, cfg, mode, m, peers, regs, vector, input), base)
  {
    var marked := Marked(hash, base, peers, regs, vector, input);
    if vector.uids != [] && marked.Some? {
      SubmitHolds(marked.value, cfg, mode, Some(m), Some(RegistrationIds(regs)), input);
    }
  }

  /** A tick's new registrations go on from the old ones, and are the ones in everything it saves. */
  predicate TickGoesOn(o: Outcome, st: State, w: Watch) {
    Onwards(st, o.state, w) && AllHold(o.effects, o.state.registrationCheckpoints)
  }

  lemma RegistrationsGoOn(cfg: Config, peers: seq<Peer>, input: TickInput, st: State, w: Watch)
    requires Sees(cfg, input, w) && RoundRegistrations(cfg, peers, input, st).Some?
    ensures var regs := RoundRegistrations(cfg, peers, input, st).value;
            w.c in regs ==> RegistrationExtends(Accepted(st, w), Some(regs[w.c].1), w.owner, w.body)
  {
    if LoadOwnerRegistrations(cfg, peers, input, st.registrationCheckpoints, false).Ok? {
      LoadedGoesOn(cfg.externals, peers, cfg, input, st.registrationCheckpoints, w);
    }
  }

  lemma RoundGoesOn(hash: Hash, st: State, cfg: Config, mode: Mode, lastDryRun: Option<int>, input: TickInput,
                    peers: seq<Peer>, round: int, w: Watch)
    requires input.metagraph.Got? && Sees(cfg, input, w)
    ensures TickGoesOn(EvaluateRound(hash, st, cfg, mode, lastDryRun, input, peers, round), st, w)
  {
    var ema, regs := RoundEma(cfg, peers, input, st), RoundRegistrations(cfg, peers, input, st);
    if ema.Some? && regs.Some? && input.vector.Some? {
      var next := Advance(cfg.externals, st, cfg.hasBurn, regs.value, input);
      if next.Some? && mode.broadcast {
        RegistrationsGoOn(cfg, peers, input, st, w);
        AdvanceGoesOn(cfg.externals, st, cfg.hasBurn, regs.value, input, w);
        CommitHolds(hash, Evaluated(st, ema.value, next.value, round), cfg, mode, input.metagraph.value, peers,
                    regs.value, input.vector.value, input);
      }
    }
  }

  lemma TickIsOnwards(hash: Hash, st: State, cfg: Config, mode: Mode, lastDryRun: Option<int>, input: TickInput,
                      w: Watch)
    requires cfg.roundBlocks > 0 && Sees(cfg, input, w)
    ensures TickGoesOn(Tick(hash, st, cfg, mode, lastDryRun, input), st, w)
  {
    if st.pending.Some? {
      SubmitHolds(st, cfg, mode, None, None, input);
    } else if input.metagraph.Got? && input.block.Got? && SnapshotPeers(input.metagraph.value).Some? {
      RoundGoesOn(hash, st, cfg, mode, lastDryRun, input, SnapshotPeers(input.metagraph.value).value,
                  input.block.value / cfg.roundBlocks, w);
    }
  }

  // ---------------------------------------------------------------------------------------------
  // Runs.

  /** From a starting state: the file, and the memory of a running process, go on from it. */
  predicate Reaches(start: State, world: World, w: Watch) {
    && Disk(world.log).Some? && Onwards(start, Disk(world.log).value, w)
    && (world.process.Up? ==> Onwards(start, world.process.memory, w))
  }

  predicate SeesOne(world: World, e: Event, w: Watch) {
    match e
    case FullTick(input) => world.process.Up? ==> Sees(world.process.cfg, input, w)
    case CrashedTick(input, _) => world.process.Up? ==> Sees(world.process.cfg, input, w)
    case _ => true
  }

  lemma {:induction false} DiskAfterHolds(log: seq<Effect>, effects: seq<Effect>,
                                          registrations: map<ClassId, RegistrationCheckpoint>)
    requires AllHold(effects, registrations) && Disk(log).Some?
    ensures Disk(log + effects).Some?
    ensures Disk(log + effects) == Disk(log) || Disk(log + effects).value.registrationCheckpoints == registrations
    decreases |effects|
  {
    if effects == [] {
      assert log + effects == log;
    } else {
      var front := effects[..|effects| - 1];
      DiskAfterHolds(log, front, registrations);
      assert (log + effects)[..|log + effects| - 1] == log + front;
    }
  }

  lemma TickReaches(start: State, world: World, o: Outcome, effects: seq<Effect>, w: Watch)
    requires Reaches(start, world, w) && world.process.Up? && TickGoesOn(o, world.process.memory, w)
             && effects <= o.effects
    ensures Onwards(start, o.state, w)
    ensures Disk(world.log + effects).Some? && Onwards(start, Disk(world.log + effects).value, w)
  {
    OnwardsTwice(start, world.process.memory, o.state, w);
    DiskAfterHolds(world.log, effects, o.state.registrationCheckpoints);
  }

  lemma StartReaches(hash: Hash, start: State, world: World, e: Event, w: Watch)
    requires Reaches(start, world, w) && world.process.Down? && e.Start?
    ensures Reaches(start, Next(hash, world, e), w)
  {
    var loaded := LoadOrCreate(hash, Disk(world.log), e.cfg.fingerprint, e.allowChange, e.secret);
    var saves := SavedAs(loaded.saves, e.mode.retryAmbiguous);
    var registrations := Disk(world.log).value.registrationCheckpoints;
    assert AllHold(saves, registrations);
    DiskAfterHolds(world.log, saves, registrations);
  }

  lemma NextReaches(hash: Hash, start: State, world: World, e: Event, w: Watch)
    requires Reaches(start, world, w) && SeesOne(world, e, w)
    ensures Reaches(start, Next(hash, world, e), w)
  {
    if world.process.Down? {
      if e.Start? {
        StartReaches(hash, start, world, e, w);
      }
    } else if world.process.cfg.roundBlocks > 0 && (e.FullTick? || e.CrashedTick?) {
      var p := world.process;
      TickIsOnwards(hash, p.memory, p.cfg, p.mode, p.lastDryRun, e.input, w);
      var o := Tick(hash, p.memory, p.cfg, p.mode, p.lastDryRun, e.input);
      if e.FullTick? {
        TickReaches(start, world, o, o.effects, w);
      } else {
        var crashed := o.effects[..if e.done < |o.effects| then e.done else |o.effects|];
        TickReaches(start, world, o, crashed, w);
      }
    }
  }

  predicate SeesThroughout(hash: Hash, events: seq<Event>, k: nat, w: Watch) {
    forall i :: k <= i < |events| ==> SeesOne(After(hash, events[..i]), events[i], w)
  }

  lemma SeesBefore(hash: Hash, events: seq<Event>, k: nat, w: Watch)
    requires k < |events| && SeesThroughout(hash, events, k, w)
    ensures SeesThroughout(hash, events[..|events| - 1], k, w)
  {
    var front := events[..|events| - 1];
    forall i | k <= i < |front|
      ensures SeesOne(After(hash, front[..i]), front[i], w)
    {
      assert front[..i] == events[..i];
    }
  }

  lemma {:induction false} RunReaches(hash: Hash, events: seq<Event>, k: nat, start: State, w: Watch)
    requires k <= |events| && SeesThroughout(hash, events, k, w) && Reaches(start, After(hash, events[..k]), w)
    ensures Reaches(start, After(hash, events), w)
    decreases |events|
  {
    if k == |events| {
      assert events[..k] == events;
    } else {
      var front := events[..|events| - 1];
      assert front[..k] == events[..k];
      SeesBefore(hash, events, k, w);
      RunReaches(hash, front, k, start, w);
      assert SeesOne(After(hash, front), events[|events| - 1], w);
      LastReaches(hash, start, events, w);
    }
  }

  lemma LastReaches(hash: Hash, start: State, events: seq<Event>, w: Watch)
    requires events != [] && Reaches(start, After(hash, events[..|events| - 1]), w)
    requires SeesOne(After(hash, events[..|events| - 1]), events[|events| - 1], w)
    ensures Reaches(start, After(hash, events), w)
  {
    NextReaches(hash, start, After(hash, events[..|events| - 1]), events[|events| - 1], w);
  }

  /** Over any stretch of a run that starts with the process down, or in step with its file, and sees one
      owner throughout: the owner's accepted sequence never goes back, one sequence keeps one registration,
      and adjacent ones are linked, through crashes, restarts and configuration changes. */
  lemma SequenceNeverRollsBack(hash: Hash, events: seq<Event>, k: nat, w: Watch)
    requires k <= |events| && Disk(After(hash, events[..k]).log).Some? && SeesThroughout(hash, events, k, w)
    requires var begin := After(hash, events[..k]);
             begin.process.Up? ==> Onwards(Disk(begin.log).value, begin.process.memory, w)
    ensures var (before, after) := (Disk(After(hash, events[..k]).log), Disk(After(hash, events).log));
            && after.Some?
            && (Accepted(before.value, w).Some? && Accepted(before.value, w).value.owner == w.owner ==>
                  && Accepted(after.value, w).Some?
                  && var (a, b) := (Accepted(before.value, w).value, Accepted(after.value, w).value);
                     && b.owner == w.owner && a.sequence <= b.sequence && (a.sequence == b.sequence ==> a == b)
                     && (b.sequence == a.sequence + 1 ==> w.body(b.id).3 == Some(a.id)))
  {
    RunReaches(hash, events, k, Disk(After(hash, events[..k]).log).value, w);
  }
}
