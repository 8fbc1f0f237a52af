/** From a round's class decisions to what is submitted: the weights that are composed, mapped to UIDs and, where
    the chain library asks for it, prepared by it (`cathedral_thin/validator.py`), and what every submission of a
    run therefore pays. */
module RoundVectors {
  import opened Prelude
  import opened ClassDecisions
  import opened Collapse
  import opened Composition
  import opened Metagraphs
  import opened SaveFailures
  import opened SubmissionState
  import opened Sums
  import opened Validator
  import opened ValidatorPaths

  /** The largest change of a weight that a policy with external classes accepts from the chain library. */
  const KEPT := 0.000_001

  /** What the chain library does with a vector; not every runtime has one. */
  datatype Library = Absent | Refuses | Prepares(vector: Vector)

  datatype Round = Round(policy: Policy, decisions: seq<Decision>, library: Library)

  datatype RoundError = Composing(error: ComposeError) | Refused | Altered

  predicate HasExternal(p: Policy) {
    exists i :: 0 <= i < |p.classes| && p.classes[i].kind == External
  }

  predicate BurnOnly(p: Policy, weights: Scores) {
    p.burn.Some? && weights == map[p.burn.value := 1.0]
  }

  function Listed(entries: seq<Entry>): Vector {
    Vector(seq(|entries|, i requires 0 <= i < |entries| => entries[i].uid),
           seq(|entries|, i requires 0 <= i < |entries| => entries[i].weight))
  }

  /** UIDs and weights paired up to the shorter list; of a repeated UID the last weight counts. */
  function Zipped(uids: seq<int>, weights: seq<real>): map<int, real>
    decreases |uids| + |weights|
  {
    if uids == [] || weights == [] then map[]
    else if |uids| > |weights| then Zipped(uids[..|uids| - 1], weights)
    else if |uids| < |weights| then Zipped(uids, weights[..|weights| - 1])
    else Zipped(uids[..|uids| - 1], weights[..|weights| - 1])[uids[|uids| - 1] := weights[|weights| - 1]]
  }

  predicate Close(x: real, y: real, slack: real) {
    -slack <= x - y <= slack
  }

  /** The same UIDs, each with nearly the same weight. */
  predicate Kept(original: Vector, prepared: Vector, slack: real) {
    var (before, after) := (Zipped(original.uids, original.weights), Zipped(prepared.uids, prepared.weights));
    after.Keys == before.Keys && forall uid :: uid in before ==> Close(after[uid], before[uid], slack)
  }

  // ---------------------------------------------------------------------------------------------
  // A round's vector.

  /** The weights that a round composes: none when nothing was earned and there is no burn destination. */
  ghost predicate Weighs(r: Round, weights: Scores) {
    && MatchesPolicy(r.policy, r.decisions)
    && if r.policy.burn.None? && NothingEarned(r.decisions) then weights == map[]
       else
         && Covers(ById(r.decisions), r.policy.classes)
         && AllAccepted(r.policy.classes, ById(r.decisions), r.policy.burn)
         && weights == Composed(r.policy, ById(r.decisions))
  }

  /** A list of UIDs and weights that pays each hotkey of the metagraph its share, in some order. */
  ghost predicate Mapped(v: Vector, weights: Scores, peers: seq<Peer>) {
    exists entries, owners ::
      v == Listed(entries) && Pays(entries, owners, Shares(weights, peers), Present(weights, peers), UidOf(peers))
  }

  predicate GoesToLibrary(r: Round, weights: Scores, original: Vector) {
    original.uids != [] && !r.library.Absent? && !BurnOnly(r.policy, weights)
  }

  /** The mapped weights, unless the library prepares them; with external classes it must keep them. */
  predicate PreparedFrom(r: Round, weights: Scores, original: Vector, v: Vector) {
    if !GoesToLibrary(r, weights, original) then v == original
    else r.library == Prepares(v) && (HasExternal(r.policy) ==> Kept(original, v, KEPT))
  }

  ghost predicate OfRound(v: Vector, r: Round, peers: seq<Peer>) {
    exists weights, original ::
      Weighs(r, weights) && Mapped(original, weights, peers) && PreparedFrom(r, weights, original, v)
  }

  /** The library is given the mapped weights and refuses them or, for a policy with external classes, changes
      them by too much. */
  ghost predicate Stops(r: Round, peers: seq<Peer>) {
    exists weights, original ::
      && Weighs(r, weights) && Mapped(original, weights, peers) && GoesToLibrary(r, weights, original)
      && (r.library.Refuses? || (HasExternal(r.policy) && !Kept(original, r.library.vector, KEPT)))
  }

  /** A round has a vector unless its decisions do not compose, or the library refuses it or, with external
      classes, alters it; the vector is then the round's. */
  method RoundVector(r: Round, peers: seq<Peer>) returns (v: Result<Vector, RoundError>)
    requires ValidPolicy(r.policy) && DistinctPeers(peers)
    ensures v.Ok? ==> OfRound(v.value, r, peers)
    ensures v.Err? ==>
              || (v.error.Composing? && !exists weights :: Weighs(r, weights))
              || (v == Err(Refused) && r.library.Refuses? && Stops(r, peers))
              || (v == Err(Altered) && r.library.Prepares? && Stops(r, peers))
  {
    var composed := ComposeClassDecisions(r.policy, r.decisions);
    if composed.Err? {
      return Err(Composing(composed.error));
    }
    var weights := composed.value;
    assert Weighs(r, weights);
    WeightsPositive(r, weights);
    var mapped, owners := UidVector(weights, peers);
    if mapped.Err? {
      assert false;
    }
    var original := Listed(mapped.value);
    assert Mapped(original, weights, peers);
    if !GoesToLibrary(r, weights, original) {
      return Ok(original);
    }
    if r.library.Refuses? {
      return Err(Refused);
    }
    if HasExternal(r.policy) && !Kept(original, r.library.vector, KEPT) {
      return Err(Altered);
    }
    return Ok(r.library.vector);
  }

  lemma WeightsPositive(r: Round, weights: Scores)
    requires ValidPolicy(r.policy) && Weighs(r, weights)
    ensures forall h :: h in weights ==> weights[h] > 0.0
  {
    if !(r.policy.burn.None? && NothingEarned(r.decisions)) {
      var byId := ById(r.decisions);
      ConservationNeverFails(r.policy, byId);
      var f := Final(r.policy.classes, byId, r.policy.burn);
      var total := SumOf(f.Keys, f);
      forall h | h in weights
        ensures weights[h] > 0.0
      {
        OverPositive(f[h], total);
      }
    }
  }

  // ---------------------------------------------------------------------------------------------
  // What a marked vector pays.

  /** A round whose vector the library leaves as it is, or nearly so. */
  ghost predicate Bound(r: Round, slack: real) {
    || (r.library.Absent? && slack == 0.0)
    || (Covers(ById(r.decisions), r.policy.classes) && BurnOnly(r.policy, Composed(r.policy, ById(r.decisions)))
        && slack == 0.0)
    || (HasExternal(r.policy) && slack == 0.000_001)
  }

  /** Each hotkey of the metagraph with a composed weight is paid its share of what such hotkeys weigh, on its
      own UID, and no one else is paid. */
  ghost predicate PaysRound(p: PendingVector, r: Round, peers: seq<Peer>, slack: real) {
    && Covers(ById(r.decisions), r.policy.classes) && |p.uids| == |p.weights| == |p.hotkeys|
    && var weights := Composed(r.policy, ById(r.decisions));
       && (forall h :: h in p.hotkeys <==> h in Present(weights, peers))
       && forall i :: 0 <= i < |p.hotkeys| ==>
            && p.hotkeys[i] in UidOf(peers) && p.uids[i] == UidOf(peers)[p.hotkeys[i]]
            && p.hotkeys[i] in Shares(weights, peers)
            && Close(p.weights[i], Shares(weights, peers)[p.hotkeys[i]], slack)
  }

  lemma {:induction false} ZippedAt(uids: seq<int>, weights: seq<real>)
    requires |uids| == |weights|
    requires forall i, j :: 0 <= i < j < |uids| ==> uids[i] != uids[j]
    ensures forall uid :: uid in Zipped(uids, weights) <==> uid in uids
    ensures forall i :: 0 <= i < |uids| ==>
              uids[i] in Zipped(uids, weights) && Zipped(uids, weights)[uids[i]] == weights[i]
  {
    if uids != [] {
      var frontUids, frontWeights := uids[..|uids| - 1], weights[..|weights| - 1];
      ZippedAt(frontUids, frontWeights);
      assert uids == frontUids + [uids[|uids| - 1]];
    }
  }

  lemma KeptIsClose(original: Vector, v: Vector, slack: real)
    requires v == original || Kept(original, v, slack)
    requires slack >= 0.0
    ensures Kept(original, v, slack)
  {
  }

  /** The hotkey listed for a UID is the one whose UID it is. */
  lemma HotkeyOfUid(peers: seq<Peer>, h: Hotkey)
    requires DistinctPeers(peers) && h in UidOf(peers)
    ensures UidOf(peers)[h] in HotkeyByUid(peers) && HotkeyByUid(peers)[UidOf(peers)[h]] == h
  {
    UidOfLists(peers);
    var i :| 0 <= i < |peers| && peers[i].hotkey == h && peers[i].uid == UidOf(peers)[h];
    TablesList(peers, peers[i].uid, h, peers[i].coldkey);
  }

  /** A UID of the prepared vector is a UID of the mapped one, with nearly its weight. */
  lemma PaidNearly(p: PendingVector, original: Vector, entries: seq<Entry>, owners: seq<Hotkey>, weights: Scores,
                   peers: seq<Peer>, slack: real, i: nat)
    requires DistinctPeers(peers) && original == Listed(entries) && Kept(original, Vector(p.uids, p.weights), slack)
    requires Pays(entries, owners, Shares(weights, peers), Present(weights, peers), UidOf(peers))
    requires |p.uids| == |p.weights| == |p.hotkeys| && VectorEntriesValid(p.uids, p.weights, p.hotkeys)
    requires HotkeysFor(p.uids, peers) == Some(p.hotkeys) && i < |p.hotkeys|
    ensures p.hotkeys[i] in Present(weights, peers) && p.hotkeys[i] in UidOf(peers)
            && p.uids[i] == UidOf(peers)[p.hotkeys[i]]
    ensures Close(p.weights[i], Shares(weights, peers)[p.hotkeys[i]], slack)
  {
    ZippedAt(p.uids, p.weights);
    ZippedAt(original.uids, original.weights);
    assert p.uids[i] in original.uids;
    var k :| 0 <= k < |entries| && original.uids[k] == p.uids[i];
    assert entries[k] == Entry(UidOf(peers)[owners[k]], Shares(weights, peers)[owners[k]]);
    HotkeyOfUid(peers, owners[k]);
    assert p.hotkeys[i] == owners[k];
  }

  lemma PresentIsPaid(p: PendingVector, original: Vector, entries: seq<Entry>, owners: seq<Hotkey>, weights: Scores,
                      peers: seq<Peer>, slack: real, h: Hotkey)
    requires DistinctPeers(peers) && original == Listed(entries) && Kept(original, Vector(p.uids, p.weights), slack)
    requires Pays(entries, owners, Shares(weights, peers), Present(weights, peers), UidOf(peers))
    requires |p.uids| == |p.weights| == |p.hotkeys| && VectorEntriesValid(p.uids, p.weights, p.hotkeys)
    requires HotkeysFor(p.uids, peers) == Some(p.hotkeys) && h in Present(weights, peers)
    ensures h in p.hotkeys
  {
    ZippedAt(p.uids, p.weights);
    ZippedAt(original.uids, original.weights);
    var k :| 0 <= k < |owners| && owners[k] == h;
    assert entries[k].uid == UidOf(peers)[h];
    assert original.uids[k] in original.uids;
    assert UidOf(peers)[h] in p.uids;
    var i :| 0 <= i < |p.uids| && p.uids[i] == UidOf(peers)[h];
    HotkeyOfUid(peers, h);
    assert p.hotkeys[i] == h;
  }

  /** A vector made from a round's vector pays the round. */
  lemma MadePays(p: PendingVector, input: TickInput, r: Round, slack: real)
    requires MadeFrom(p, input) && OfRound(input.vector.value, r, SnapshotPeers(input.metagraph.value).value)
    requires Bound(r, slack)
    ensures PaysRound(p, r, SnapshotPeers(input.metagraph.value).value, slack)
  {
    var peers, v := SnapshotPeers(input.metagraph.value).value, input.vector.value;
    var weights, original :| Weighs(r, weights) && Mapped(original, weights, peers)
                             && PreparedFrom(r, weights, original, v);
    var entries, owners :|
      original == Listed(entries)
      && Pays(entries, owners, Shares(weights, peers), Present(weights, peers), UidOf(peers));
    KeptIsClose(original, v, slack);
    if weights == map[] {
      PaidNearly(p, original, entries, owners, weights, peers, slack, 0);
      assert false;
    }
    forall i | 0 <= i < |p.hotkeys|
      ensures p.hotkeys[i] in Present(weights, peers) && p.hotkeys[i] in UidOf(peers)
              && p.uids[i] == UidOf(peers)[p.hotkeys[i]]
      ensures Close(p.weights[i], Shares(weights, peers)[p.hotkeys[i]], slack)
    {
      PaidNearly(p, original, entries, owners, weights, peers, slack, i);
    }
    forall h | h in Present(weights, peers)
      ensures h in p.hotkeys
    {
      PresentIsPaid(p, original, entries, owners, weights, peers, slack, h);
    }
  }

  // ---------------------------------------------------------------------------------------------
  // Every vector of a run was made from one of its ticks.

  function InputOf(e: FaultyEvent): Option<TickInput> {
    match e
    case Plain(FullTick(input)) => Some(input)
    case Plain(CrashedTick(input, _)) => Some(input)
    case RaisedSave(input, _) => Some(input)
    case _ => None
  }

  ghost predicate MadeIn(p: PendingVector, events: seq<FaultyEvent>) {
    exists i :: 0 <= i < |events| && InputOf(events[i]).Some? && MadeFrom(p, InputOf(events[i]).value)
  }

  ghost predicate PendingMade(s: State, events: seq<FaultyEvent>) {
    s.pending.Some? ==> MadeIn(s.pending.value, events)
  }

  ghost predicate EffectMade(e: Effect, events: seq<FaultyEvent>) {
    match e
    case Saved(t, _) => PendingMade(t, events)
    case Sent(v, _, _, _, _, _) => MadeIn(v, events)
  }

  ghost predicate TraceMade(trace: seq<TraceEntry>, events: seq<FaultyEvent>) {
    forall k :: 0 <= k < |trace| && trace[k].Did? ==> EffectMade(trace[k].effect, events)
  }

  ghost predicate WorldMade(w: FaultyWorld, events: seq<FaultyEvent>) {
    TraceMade(w.trace, events) && (w.process.Up? ==> PendingMade(w.process.memory, events))
  }

  lemma MadeInMore(p: PendingVector, events: seq<FaultyEvent>, e: FaultyEvent)
    requires MadeIn(p, events)
    ensures MadeIn(p, events + [e])
  {
    var i :| 0 <= i < |events| && InputOf(events[i]).Some? && MadeFrom(p, InputOf(events[i]).value);
    assert (events + [e])[i] == events[i];
  }

  lemma WorldMadeInMore(w: FaultyWorld, events: seq<FaultyEvent>, e: FaultyEvent)
    requires WorldMade(w, events)
    ensures WorldMade(w, events + [e])
  {
    forall p | MadeIn(p, events)
      ensures MadeIn(p, events + [e])
    {
      MadeInMore(p, events, e);
    }
  }

  lemma {:induction false} FileMade(trace: seq<TraceEntry>, events: seq<FaultyEvent>)
    requires TraceMade(trace, events) && File(trace).Some?
    ensures PendingMade(File(trace).value, events)
  {
    if !(trace[|trace| - 1].Did? && trace[|trace| - 1].effect.Saved?) {
      FileMade(trace[..|trace| - 1], events);
    }
  }

  lemma ChangeMade(m: State, t: State, cfg: Config, input: TickInput, events: seq<FaultyEvent>, e: FaultyEvent)
    requires cfg.roundBlocks > 0 && Changes(m, t, cfg, input) && PendingMade(m, events + [e])
             && InputOf(e) == Some(input)
    ensures PendingMade(t, events + [e])
  {
    if t.pending.Some? && CompletesNow(m, t, cfg, input) {
      assert (events + [e])[|events|] == e;
    } else if t.pending.Some? {
      var i :| 0 <= i < |events + [e]| && InputOf((events + [e])[i]).Some?
               && MadeFrom(m.pending.value, InputOf((events + [e])[i]).value);
      assert MadeFrom(t.pending.value, InputOf((events + [e])[i]).value);
    }
  }

  lemma {:induction false} PathMade(m: State, effects: seq<Effect>, final: State, cfg: Config, input: TickInput,
                                   events: seq<FaultyEvent>, e: FaultyEvent)
    requires cfg.roundBlocks > 0 && Path(m, effects, final, cfg, input) && PendingMade(m, events + [e])
             && InputOf(e) == Some(input)
    ensures PendingMade(final, events + [e])
    ensures forall k :: 0 <= k < |effects| ==> EffectMade(effects[k], events + [e])
    decreases |effects|
  {
    if effects != [] {
      var next := if effects[0].Saved? then effects[0].state else m;
      if effects[0].Saved? {
        ChangeMade(m, next, cfg, input, events, e);
      }
      PathMade(next, effects[1..], final, cfg, input, events, e);
    }
  }

  lemma TickMade(hash: Hash, w: FaultyWorld, input: TickInput, events: seq<FaultyEvent>, e: FaultyEvent)
    requires w.process.Up? && w.process.cfg.roundBlocks > 0 && InputOf(e) == Some(input)
    requires PendingMade(w.process.memory, events + [e])
    ensures var o := Tick(hash, w.process.memory, w.process.cfg, w.process.mode, w.process.lastDryRun, input);
            PendingMade(o.state, events + [e])
            && forall k :: 0 <= k < |o.effects| ==> EffectMade(o.effects[k], events + [e])
  {
    var p := w.process;
    var o := Tick(hash, p.memory, p.cfg, p.mode, p.lastDryRun, input);
    TickIsPath(hash, p.memory, p.cfg, p.mode, p.lastDryRun, input);
    PathMade(p.memory, o.effects, o.state, p.cfg, input, events, e);
  }

  lemma StartMade(hash: Hash, w: FaultyWorld, e: FaultyEvent, events: seq<FaultyEvent>)
    requires WorldMade(w, events) && w.process.Down?
    ensures WorldMade(NextFaulty(hash, w, e), events)
  {
    if e.Plain? && e.event.Start? && File(w.trace).Some? {
      FileMade(w.trace, events);
    }
  }

  lemma NextMade(hash: Hash, w: FaultyWorld, e: FaultyEvent, events: seq<FaultyEvent>)
    requires WorldMade(w, events + [e])
    ensures WorldMade(NextFaulty(hash, w, e), events + [e])
  {
    if w.process.Down? {
      StartMade(hash, w, e, events + [e]);
    } else if InputOf(e).Some? && w.process.cfg.roundBlocks > 0 {
      TickMade(hash, w, InputOf(e).value, events, e);
    }
  }

  lemma {:induction false} RunMade(hash: Hash, events: seq<FaultyEvent>)
    ensures WorldMade(AfterFaulty(hash, events), events)
  {
    if events != [] {
      var front, last := events[..|events| - 1], events[|events| - 1];
      RunMade(hash, front);
      WorldMadeInMore(AfterFaulty(hash, front), front, last);
      assert front + [last] == events;
      NextMade(hash, AfterFaulty(hash, front), last, front);
    }
  }

  /** The round that a tick computes its vector from, when it does. */
  type Rounds = TickInput -> Round

  ghost predicate FromRounds(events: seq<FaultyEvent>, rounds: Rounds) {
    forall i :: 0 <= i < |events| && InputOf(events[i]).Some? ==> ComputedFrom(InputOf(events[i]).value, rounds)
  }

  ghost predicate ComputedFrom(input: TickInput, rounds: Rounds) {
    input.vector.Some? && input.metagraph.Got? && SnapshotPeers(input.metagraph.value).Some? ==>
      OfRound(input.vector.value, rounds(input), SnapshotPeers(input.metagraph.value).value)
  }

  /** A tick of the run computed this vector, and it pays that tick's round. */
  ghost predicate PaysItsRound(p: PendingVector, e: FaultyEvent, rounds: Rounds, slack: real) {
    && InputOf(e).Some? && MadeFrom(p, InputOf(e).value)
    && (Bound(rounds(InputOf(e).value), slack) ==>
          PaysRound(p, rounds(InputOf(e).value), SnapshotPeers(InputOf(e).value.metagraph.value).value, slack))
  }

  lemma MadePaysItsRound(p: PendingVector, e: FaultyEvent, rounds: Rounds, slack: real)
    requires InputOf(e).Some? && MadeFrom(p, InputOf(e).value) && ComputedFrom(InputOf(e).value, rounds)
    ensures PaysItsRound(p, e, rounds, slack)
  {
    if Bound(rounds(InputOf(e).value), slack) {
      MadePays(p, InputOf(e).value, rounds(InputOf(e).value), slack);
    }
  }

  /** Over every run, crashes, restarts and saves that raise included, each vector submitted was computed by a
      tick of the run, and pays what that tick's round composed: exactly where the chain library has no part in
      it or all is burnt, and to within a millionth under a policy with external classes. */
  lemma EverySubmissionPaysItsRound(hash: Hash, events: seq<FaultyEvent>, rounds: Rounds, k: nat, slack: real)
    requires FromRounds(events, rounds)
    requires var trace := AfterFaulty(hash, events).trace; k < |trace| && trace[k].Did? && trace[k].effect.Sent?
    ensures var p := AfterFaulty(hash, events).trace[k].effect.vector;
            exists i :: 0 <= i < |events| && PaysItsRound(p, events[i], rounds, slack)
  {
    RunMade(hash, events);
    var p := AfterFaulty(hash, events).trace[k].effect.vector;
    assert EffectMade(AfterFaulty(hash, events).trace[k].effect, events);
    var i :| 0 <= i < |events| && InputOf(events[i]).Some? && MadeFrom(p, InputOf(events[i]).value);
    MadePaysItsRound(p, events[i], rounds, slack);
  }

  /** When no paid hotkey is missing from the metagraph, what each is paid is its composed weight. */
  lemma PaidInFull(p: PendingVector, r: Round, peers: seq<Peer>, slack: real, i: nat)
    requires ValidPolicy(r.policy) && DistinctPeers(peers) && PaysRound(p, r, peers, slack) && i < |p.hotkeys|
    requires AllAccepted(r.policy.classes, ById(r.decisions), r.policy.burn) && WeightsNonNegative(ById(r.decisions))
    requires forall h :: h in Composed(r.policy, ById(r.decisions)) ==> h in UidOf(peers)
    ensures var weights := Composed(r.policy, ById(r.decisions));
            p.hotkeys[i] in weights && Close(p.weights[i], weights[p.hotkeys[i]], slack)
  {
    var weights := Composed(r.policy, ById(r.decisions));
    ComposedSumsToOne(r.policy, ById(r.decisions));
    assert weights.Keys == Present(weights, peers);
    assert p.hotkeys[i] in Present(weights, peers);
    SharesKeptExactlyWhenAllPresent(weights, peers, p.hotkeys[i]);
  }

  // ---------------------------------------------------------------------------------------------
  // What the paid have earned.

  /** The decisions of local classes are made from averages, whatever they were before, gated by the
      observations of the tick. */
  ghost predicate LocalFromWork(r: Round, input: TickInput, peers: seq<Peer>) {
    forall i :: 0 <= i < |r.policy.classes| && r.policy.classes[i].kind == LocalSat
                && r.policy.classes[i].id in ById(r.decisions) ==>
      MadeFromWork(ById(r.decisions)[r.policy.classes[i].id], input.observations, peers)
  }

  ghost predicate MadeFromWork(d: Decision, observed: Scores, peers: seq<Peer>) {
    exists previous, alpha ::
      && EmaAccepts(previous, observed, Hotkeys(peers), alpha)
      && BuiltFrom(d, Gated(Ema(previous, observed, Hotkeys(peers), alpha), observed), ColdkeyOf(peers))
  }

  /** A class pays the hotkey: as the burn destination of an empty class, or for a positive weight, which in a
      local class comes of a positive observation. */
  ghost predicate PaidByClass(c: ClassPolicy, d: Decision, burn: Option<Hotkey>, observed: Scores, h: Hotkey) {
    if d.weights == map[] then burn == Some(h)
    else h in d.weights && d.weights[h] > 0.0 && (c.kind == LocalSat ==> Get(observed, h) > 0.0)
  }

  ghost predicate HasEarned(r: Round, observed: Scores, h: Hotkey) {
    && Covers(ById(r.decisions), r.policy.classes)
    && exists i :: 0 <= i < |r.policy.classes|
         && PaidByClass(r.policy.classes[i], ById(r.decisions)[r.policy.classes[i].id], r.policy.burn, observed, h)
  }

  lemma {:induction false} OwedBySomeClass(classes: seq<ClassPolicy>, byId: map<ClassId, Decision>,
                                          burn: Option<Hotkey>, h: Hotkey) returns (i: nat)
    requires Covers(byId, classes) && Owed(classes, byId, burn, h) > 0.0
    ensures i < |classes| && Contribution(classes[i], byId[classes[i].id], burn, h) > 0.0
  {
    var last := classes[|classes| - 1];
    if Contribution(last, byId[last.id], burn, h) > 0.0 {
      i := |classes| - 1;
    } else {
      i := OwedBySomeClass(classes[..|classes| - 1], byId, burn, h);
    }
  }

  lemma PositiveFactor(a: real, w: real)
    requires a > 0.0 && Times(a, w) > 0.0
    ensures w > 0.0
  {
    if w <= 0.0 {
      TimesNonNegative(a, 0.0 - w);
      Distribute(a, 0.0, w);
      TimesZero(a);
    }
  }

  lemma WorkIsObserved(d: Decision, observed: Scores, peers: seq<Peer>, h: Hotkey)
    requires MadeFromWork(d, observed, peers) && h in d.weights
    ensures Get(observed, h) > 0.0
  {
    var previous, alpha :|
      && EmaAccepts(previous, observed, Hotkeys(peers), alpha)
      && BuiltFrom(d, Gated(Ema(previous, observed, Hotkeys(peers), alpha), observed), ColdkeyOf(peers));
    BuiltIsNormalized(d, Gated(Ema(previous, observed, Hotkeys(peers), alpha), observed), ColdkeyOf(peers));
    PaidOnlyForCurrentWork(previous, observed, Hotkeys(peers), alpha, h);
  }

  /** Whoever has a composed weight has earned it. */
  lemma ComposedIsEarned(r: Round, input: TickInput, peers: seq<Peer>, h: Hotkey)
    requires ValidPolicy(r.policy) && Covers(ById(r.decisions), r.policy.classes) && LocalFromWork(r, input, peers)
    requires h in Composed(r.policy, ById(r.decisions))
    ensures HasEarned(r, input.observations, h)
  {
    var byId := ById(r.decisions);
    var i := OwedBySomeClass(r.policy.classes, byId, r.policy.burn, h);
    var c := r.policy.classes[i];
    if byId[c.id].weights != map[] {
      PositiveFactor(c.allocation, byId[c.id].weights[h]);
      if c.kind == LocalSat {
        WorkIsObserved(byId[c.id], input.observations, peers, h);
      }
    }
    assert PaidByClass(c, byId[c.id], r.policy.burn, input.observations, h);
  }

  ghost predicate RoundsFromWork(events: seq<FaultyEvent>, rounds: Rounds) {
    forall i :: 0 <= i < |events| && InputOf(events[i]).Some? ==> RoundFromWork(InputOf(events[i]).value, rounds)
  }

  ghost predicate RoundFromWork(input: TickInput, rounds: Rounds) {
    && ValidPolicy(rounds(input).policy)
    && (input.metagraph.Got? && SnapshotPeers(input.metagraph.value).Some? ==>
          LocalFromWork(rounds(input), input, SnapshotPeers(input.metagraph.value).value))
  }

  /** A tick of the run computed this vector, and every hotkey in it has earned its place in that tick's round. */
  ghost predicate PaysOnlyTheEarned(p: PendingVector, e: FaultyEvent, rounds: Rounds, slack: real) {
    && InputOf(e).Some? && MadeFrom(p, InputOf(e).value)
    && (Bound(rounds(InputOf(e).value), slack) ==>
          forall h :: h in p.hotkeys ==> HasEarned(rounds(InputOf(e).value), InputOf(e).value.observations, h))
  }

  lemma PaidHaveEarned(p: PendingVector, e: FaultyEvent, rounds: Rounds, slack: real)
    requires PaysItsRound(p, e, rounds, slack) && RoundFromWork(InputOf(e).value, rounds)
    ensures PaysOnlyTheEarned(p, e, rounds, slack)
  {
    var input := InputOf(e).value;
    var r, peers := rounds(input), SnapshotPeers(input.metagraph.value).value;
    if Bound(r, slack) {
      forall h | h in p.hotkeys
        ensures HasEarned(r, input.observations, h)
      {
        assert h in Present(Composed(r.policy, ById(r.decisions)), peers);
        ComposedIsEarned(r, input, peers, h);
      }
    }
  }

  /** Over every run, each hotkey that a submitted vector pays is the burn destination of an empty class, or has a
      positive weight in the decision of some class, which in a local class means that its work was observed in
      the very tick that made the vector. History alone is never paid. */
  lemma EveryPaidHotkeyHasEarned(hash: Hash, events: seq<FaultyEvent>, rounds: Rounds, k: nat, slack: real)
    requires FromRounds(events, rounds) && RoundsFromWork(events, rounds)
    requires var trace := AfterFaulty(hash, events).trace; k < |trace| && trace[k].Did? && trace[k].effect.Sent?
    ensures var p := AfterFaulty(hash, events).trace[k].effect.vector;
            exists i :: 0 <= i < |events| && PaysOnlyTheEarned(p, events[i], rounds, slack)
  {
    EverySubmissionPaysItsRound(hash, events, rounds, k, slack);
    var p := AfterFaulty(hash, events).trace[k].effect.vector;
    var i :| 0 <= i < |events| && PaysItsRound(p, events[i], rounds, slack);
    PaidHaveEarned(p, events[i], rounds, slack);
  }
}
