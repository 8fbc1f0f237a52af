/** The miner's permit check and sliding-window rate limit (`cathedral_thin/miner.py`). The clock and the
    metagraph reads are inputs; the loop that refreshes the permits sleeps between its refreshes. */
module RateLimiter {
  import opened Prelude

  datatype Request = Request(target: Hotkey, caller: Hotkey, validator: Hotkey, now: real)

  datatype Event = Ask(request: Request) | Refresh(at: real, hotkeys: seq<Hotkey>, permits: seq<bool>)

  datatype Answer = WrongTarget | NoPermit | IdentityMismatch | RateLimited | Allowed | Refreshed | Held

  datatype Limits = Limits(self: Hotkey, limit: nat, window: real)

  datatype Access = Access(allowed: set<Hotkey>, requests: map<Hotkey, seq<real>>)

  // ---------------------------------------------------------------------------------------------
  // One call.

  function Attempts(a: Access, caller: Hotkey): seq<real> {
    if caller in a.requests then a.requests[caller] else []
  }

  function Prune(attempts: seq<real>, cutoff: real): seq<real> {
    if attempts != [] && attempts[0] <= cutoff then Prune(attempts[1..], cutoff) else attempts
  }

  function Limited(a: Access, caller: Hotkey, now: real, l: Limits): (Access, bool) {
    var attempts := Prune(Attempts(a, caller), now - l.window);
    if |attempts| >= l.limit then (a.(requests := a.requests[caller := attempts]), true)
    else (a.(requests := a.requests[caller := attempts + [now]]), false)
  }

  function Permitted(hotkeys: seq<Hotkey>, permits: seq<bool>): set<Hotkey>
    requires |hotkeys| == |permits|
  {
    set i | 0 <= i < |hotkeys| && permits[i] :: hotkeys[i]
  }

  function Only(requests: map<Hotkey, seq<real>>, allowed: set<Hotkey>): map<Hotkey, seq<real>> {
    map h | h in requests && h in allowed :: requests[h]
  }

  /** A refresh with mismatched arrays raises and keeps the last snapshot. */
  function Step(a: Access, e: Event, l: Limits): (Access, Answer) {
    match e
    case Refresh(_, hotkeys, permits) =>
      if |hotkeys| != |permits| then (a, Held)
      else var allowed := Permitted(hotkeys, permits); (Access(allowed, Only(a.requests, allowed)), Refreshed)
    case Ask(r) =>
      if r.target != l.self then (a, WrongTarget)
      else if r.caller == "" || r.caller !in a.allowed then (a, NoPermit)
      else if r.validator != r.caller then (a, IdentityMismatch)
      else
        var (next, limited) := Limited(a, r.caller, r.now, l);
        (next, if limited then RateLimited else Allowed)
  }

  class PermitAccess {
    const limits: Limits
    var allowed: set<Hotkey>
    var requests: map<Hotkey, seq<real>>

    constructor (limits: Limits)
      requires limits.limit > 0 && limits.window > 0.0
      ensures this.limits == limits && Value() == Access({}, map[])
    {
      this.limits := limits;
      allowed, requests := {}, map[];
    }

    function Value(): Access
      reads this
    {
      Access(allowed, requests)
    }

    method RefreshPreservingSnapshot(ghost at: real, hotkeys: seq<Hotkey>, permits: seq<bool>) returns (done: bool)
      modifies this
      ensures Value() == Step(old(Value()), Refresh(at, hotkeys, permits), limits).0
      ensures done <==> Step(old(Value()), Refresh(at, hotkeys, permits), limits).1 == Refreshed
    {
      if |hotkeys| != |permits| {
        return false;
      }
      allowed := Permitted(hotkeys, permits);
      requests := Only(requests, allowed);
      return true;
    }

    method IsRateLimited(caller: Hotkey, now: real) returns (limited: bool)
      modifies this
      ensures (Value(), limited) == Limited(old(Value()), caller, now, limits)
    {
      var attempts := if caller in requests then requests[caller] else [];
      var cutoff := now - limits.window;
      while attempts != [] && attempts[0] <= cutoff
        invariant Prune(attempts, cutoff) == Prune(Attempts(old(Value()), caller), cutoff)
        decreases |attempts|
      {
        attempts := attempts[1..];
      }
      requests := requests[caller := attempts];
      if |attempts| >= limits.limit {
        return true;
      }
      requests := requests[caller := attempts + [now]];
      assert requests == old(requests)[caller := attempts + [now]];
      return false;
    }

    method Blacklist(r: Request) returns (answer: Answer)
      modifies this
      ensures (Value(), answer) == Step(old(Value()), Ask(r), limits)
    {
      if r.target != limits.self {
        return WrongTarget;
      }
      if r.caller == "" || r.caller !in allowed {
        return NoPermit;
      }
      if r.validator != r.caller {
        return IdentityMismatch;
      }
      var limited := IsRateLimited(r.caller, r.now);
      return if limited then RateLimited else Allowed;
    }
  }

  // ---------------------------------------------------------------------------------------------
  // Calls and refreshes, written out.

  /** The first `j` of some times are those dropped: all old, and the next one is not. */
  predicate OldUpTo(attempts: seq<real>, cutoff: real, j: nat) {
    && j <= |attempts| && (forall i :: 0 <= i < j ==> attempts[i] <= cutoff)
    && (j < |attempts| ==> attempts[j] > cutoff)
  }

  lemma {:induction false} PrunedExactly(attempts: seq<real>, cutoff: real) returns (j: nat)
    ensures OldUpTo(attempts, cutoff, j) && Prune(attempts, cutoff) == attempts[j..]
  {
    if attempts != [] && attempts[0] <= cutoff {
      var k := PrunedExactly(attempts[1..], cutoff);
      j := k + 1;
      assert attempts[j..] == attempts[1..][k..];
      forall i | 0 <= i < j
        ensures attempts[i] <= cutoff
      {
        assert i > 0 ==> attempts[i] == attempts[1..][i - 1];
      }
    } else {
      j := 0;
      assert attempts[0..] == attempts;
    }
  }

  /** A call is answered by the first test it fails: the target, the permit, the identity, and the number of times
      still remembered after the old ones in front are dropped. It is remembered when it is allowed, and nothing
      else changes. */
  lemma AskedExactly(a: Access, r: Request, l: Limits) returns (j: nat)
    ensures var attempts := if r.caller in a.requests then a.requests[r.caller] else [];
            var (next, answer) := Step(a, Ask(r), l);
            var known := r.caller != "" && r.caller in a.allowed;
            var counted := r.target == l.self && known && r.validator == r.caller;
            && OldUpTo(attempts, r.now - l.window, j)
            && (answer == WrongTarget <==> r.target != l.self)
            && (answer == NoPermit <==> r.target == l.self && !known)
            && (answer == IdentityMismatch <==> r.target == l.self && known && r.validator != r.caller)
            && (answer == RateLimited <==> counted && |attempts| - j >= l.limit)
            && (answer == Allowed <==> counted && |attempts| - j < l.limit)
            && next.allowed == a.allowed
            && (!counted ==> next.requests == a.requests)
            && (counted ==>
                  next.requests == a.requests[r.caller := attempts[j..] + if answer == Allowed then [r.now] else []])
  {
    j := PrunedExactly(Attempts(a, r.caller), r.now - l.window);
    var kept := Attempts(a, r.caller)[j..];
    assert kept + [] == kept;
  }

  /** A complete read replaces the permits by the hotkeys it marks and forgets the times of the others. */
  lemma RefreshedExactly(a: Access, at: real, hotkeys: seq<Hotkey>, permits: seq<bool>, l: Limits)
    ensures var (next, answer) := Step(a, Refresh(at, hotkeys, permits), l);
            if |hotkeys| != |permits| then answer == Held && next == a
            else
              && answer == Refreshed
              && (forall h :: h in next.allowed <==> exists i :: 0 <= i < |hotkeys| && hotkeys[i] == h && permits[i])
              && (forall h :: h in next.requests <==> h in a.requests && h in next.allowed)
              && (forall h :: h in next.requests ==> next.requests[h] == a.requests[h])
  {
  }

  // ---------------------------------------------------------------------------------------------
  // Runs.

  function After(events: seq<Event>, l: Limits): Access {
    if events == [] then Access({}, map[]) else Step(After(events[..|events| - 1], l), events[|events| - 1], l).0
  }

  function AnswerOf(events: seq<Event>, i: nat, l: Limits): Answer
    requires i < |events|
  {
    Step(After(events[..i], l), events[i], l).1
  }

  /** The times of a caller's accepted calls. */
  function Accepted(events: seq<Event>, caller: Hotkey, l: Limits): seq<real> {
    if events == [] then []
    else
      var i := |events| - 1;
      var front, last := Accepted(events[..i], caller, l), events[i];
      if last.Ask? && last.request.caller == caller && AnswerOf(events, i, l) == Allowed then front + [last.request.now]
      else front
  }

  predicate Drops(e: Event, caller: Hotkey) {
    e.Refresh? && |e.hotkeys| == |e.permits| && caller !in Permitted(e.hotkeys, e.permits)
  }

  /** Those since a refresh last found the caller without a permit. */
  function Remembered(events: seq<Event>, caller: Hotkey, l: Limits): seq<real> {
    if events == [] then []
    else
      var i := |events| - 1;
      var front, last := Remembered(events[..i], caller, l), events[i];
      if Drops(last, caller) then []
      else if last.Ask? && last.request.caller == caller && AnswerOf(events, i, l) == Allowed
             then front + [last.request.now]
      else front
  }

  function TimeOf(e: Event): real {
    match e
    case Ask(r) => r.now
    case Refresh(at, _, _) => at
  }

  predicate ClockRuns(events: seq<Event>) {
    forall i, j :: 0 <= i < j < |events| ==> TimeOf(events[i]) <= TimeOf(events[j])
  }

  /** How many of some times lie in the window that ends at `t`. */
  function CountIn(times: seq<real>, t: real, window: real): nat {
    if times == [] then 0
    else
      var last := times[|times| - 1];
      CountIn(times[..|times| - 1], t, window) + if t - window < last <= t then 1 else 0
  }

  predicate Rising(times: seq<real>) {
    forall i, j :: 0 <= i < j < |times| ==> times[i] <= times[j]
  }

  // ---------------------------------------------------------------------------------------------
  // What is stored is the end of what is remembered.

  /** `stored` is the end of `times`, and everything before it is outside the window at `t`. */
  predicate EndsWith(times: seq<real>, stored: seq<real>, t: real, window: real) {
    && |stored| <= |times| && stored == times[|times| - |stored|..]
    && forall i :: 0 <= i < |times| - |stored| ==> times[i] <= t - window
  }

  lemma {:induction false} PruneEnds(times: seq<real>, stored: seq<real>, t: real, later: real, window: real)
    requires Rising(times) && EndsWith(times, stored, t, window) && t <= later
    ensures var pruned := Prune(stored, later - window);
            EndsWith(times, pruned, later, window) && forall i :: 0 <= i < |pruned| ==> pruned[i] > later - window
    decreases |stored|
  {
    var cutoff := later - window;
    if stored != [] && stored[0] <= cutoff {
      assert times[|times| - |stored|] == stored[0];
      assert EndsWith(times, stored[1..], later, window);
      PruneEnds(times, stored[1..], later, later, window);
    } else if stored != [] {
      forall i | 0 <= i < |stored|
        ensures stored[i] > cutoff
      {
        assert stored[i] == times[|times| - |stored| + i] && stored[0] == times[|times| - |stored|];
      }
    }
  }

  lemma {:induction false} CountOfEnd(times: seq<real>, kept: seq<real>, t: real, window: real)
    requires EndsWith(times, kept, t, window) && window > 0.0
    requires forall i :: 0 <= i < |kept| ==> t - window < kept[i] <= t
    ensures CountIn(times, t, window) == |kept|
    decreases |times|
  {
    if times != [] {
      var front := times[..|times| - 1];
      assert forall i :: 0 <= i < |front| ==> front[i] == times[i];
      if kept == [] {
        assert times[|times| - 1] <= t - window;
        assert EndsWith(front, [], t, window);
        CountOfEnd(front, [], t, window);
      } else {
        var less := kept[..|kept| - 1];
        assert less == front[|front| - |less|..];
        assert kept[|kept| - 1] == times[|times| - 1];
        CountOfEnd(front, less, t, window);
      }
    }
  }

  predicate NotBefore(events: seq<Event>, t: real) {
    forall i :: 0 <= i < |events| ==> TimeOf(events[i]) <= t
  }

  predicate RemembersWell(events: seq<Event>, caller: Hotkey, l: Limits, t: real) {
    var times := Remembered(events, caller, l);
    && Rising(times) && (forall i :: 0 <= i < |times| ==> times[i] <= t)
    && EndsWith(times, Attempts(After(events, l), caller), t, l.window)
  }

  lemma LaterStill(times: seq<real>, stored: seq<real>, t: real, later: real, window: real)
    requires EndsWith(times, stored, t, window) && t <= later
    ensures EndsWith(times, stored, later, window)
  {
  }

  lemma AcceptEnds(times: seq<real>, kept: seq<real>, t: real, window: real)
    requires EndsWith(times, kept, t, window) && Rising(times) && forall i :: 0 <= i < |times| ==> times[i] <= t
    ensures EndsWith(times + [t], kept + [t], t, window) && Rising(times + [t])
  {
  }

  /** What one call leaves stored for some caller. */
  lemma StoredAfterAsk(a: Access, r: Request, l: Limits, caller: Hotkey)
    ensures var (next, answer) := Step(a, Ask(r), l);
            var pruned := Prune(Attempts(a, caller), r.now - l.window);
            Attempts(next, caller) == if r.caller == caller && answer == Allowed then pruned + [r.now]
                                      else if r.caller == caller && answer == RateLimited then pruned
                                      else Attempts(a, caller)
  {
  }

  predicate AskRemembered(times: seq<real>, stored: seq<real>, next: seq<real>, more: seq<real>, t: real,
                          window: real)
  {
    var pruned := Prune(stored, t - window);
    (more == times && (next == stored || next == pruned)) || (more == times + [t] && next == pruned + [t])
  }

  lemma AskKeepsEnd(times: seq<real>, stored: seq<real>, next: seq<real>, more: seq<real>, t: real, window: real)
    requires Rising(times) && (forall i :: 0 <= i < |times| ==> times[i] <= t) && EndsWith(times, stored, t, window)
    requires AskRemembered(times, stored, next, more, t, window)
    ensures Rising(more) && (forall i :: 0 <= i < |more| ==> more[i] <= t) && EndsWith(more, next, t, window)
  {
    PruneEnds(times, stored, t, t, window);
    AcceptEnds(times, Prune(stored, t - window), t, window);
  }

  lemma AskIsRemembered(front: seq<Event>, r: Request, caller: Hotkey, l: Limits)
    ensures var events := front + [Ask(r)];
            AskRemembered(Remembered(front, caller, l), Attempts(After(front, l), caller),
                          Attempts(After(events, l), caller), Remembered(events, caller, l), r.now, l.window)
  {
    assert (front + [Ask(r)])[..|front|] == front;
    StoredAfterAsk(After(front, l), r, l, caller);
  }

  lemma RefreshRemembers(front: seq<Event>, e: Event, caller: Hotkey, l: Limits, t: real)
    requires e.Refresh? && RemembersWell(front, caller, l, t)
    ensures RemembersWell(front + [e], caller, l, t)
  {
    assert (front + [e])[..|front|] == front;
    RefreshKeeps(After(front, l), e, caller, l);
  }

  lemma RefreshKeeps(a: Access, e: Event, caller: Hotkey, l: Limits)
    requires e.Refresh?
    ensures Attempts(Step(a, e, l).0, caller) == if Drops(e, caller) then [] else Attempts(a, caller)
  {
  }

  lemma {:induction false} RunRemembers(events: seq<Event>, caller: Hotkey, l: Limits, t: real)
    requires ClockRuns(events) && NotBefore(events, t) && l.window > 0.0
    ensures RemembersWell(events, caller, l, t)
  {
    if events != [] {
      var front, last := events[..|events| - 1], events[|events| - 1];
      assert events == front + [last];
      if last.Ask? {
        var now := last.request.now;
        RunRemembers(front, caller, l, now);
        AskIsRemembered(front, last.request, caller, l);
        var times, stored := Remembered(events, caller, l), Attempts(After(events, l), caller);
        AskKeepsEnd(Remembered(front, caller, l), Attempts(After(front, l), caller), stored, times, now, l.window);
        LaterStill(times, stored, now, t, l.window);
      } else {
        RunRemembers(front, caller, l, t);
        RefreshRemembers(front, last, caller, l, t);
      }
    }
  }

  /** The call is made by a permitted caller in its own name to this miner. */
  predicate ReachesLimit(a: Access, r: Request, l: Limits) {
    r.target == l.self && r.caller != "" && r.caller in a.allowed && r.validator == r.caller
  }

  lemma AnswerByPruned(a: Access, r: Request, l: Limits)
    requires ReachesLimit(a, r, l)
    ensures Step(a, Ask(r), l).1 == if |Prune(Attempts(a, r.caller), r.now - l.window)| >= l.limit then RateLimited
                                    else Allowed
  {
  }

  lemma PrunedIsInWindow(times: seq<real>, stored: seq<real>, t: real, window: real)
    requires Rising(times)
             && (forall i :: 0 <= i < |times| ==> times[i] <= t) && EndsWith(times, stored, t, window) && window > 0.0
    ensures CountIn(times, t, window) == |Prune(stored, t - window)|
  {
    PruneEnds(times, stored, t, t, window);
    var pruned := Prune(stored, t - window);
    forall k | 0 <= k < |pruned|
      ensures pruned[k] <= t
    {
      assert pruned[k] == times[|times| - |pruned| + k];
    }
    CountOfEnd(times, pruned, t, window);
  }

  /** Over any run with a clock that does not go back, a permitted call is refused for its rate exactly when
      the limit of accepted calls, counted since the caller last lacked a permit, lies in the window. */
  lemma RefusedExactlyAtLimit(events: seq<Event>, i: nat, l: Limits)
    requires ClockRuns(events) && l.window > 0.0 && i < |events| && events[i].Ask?
    requires ReachesLimit(After(events[..i], l), events[i].request, l)
    ensures var r := events[i].request;
            AnswerOf(events, i, l) == if CountIn(Remembered(events[..i], r.caller, l), r.now, l.window) >= l.limit
                                        then RateLimited else Allowed
  {
    var r, front := events[i].request, events[..i];
    RunRemembers(front, r.caller, l, r.now);
    RefusedAtLimit(After(front, l), Remembered(front, r.caller, l), r, l);
    assert events[i] == Ask(r);
  }

  lemma RefusedAtLimit(a: Access, times: seq<real>, r: Request, l: Limits)
    requires ReachesLimit(a, r, l) && l.window > 0.0 && Rising(times)
             && forall i :: 0 <= i < |times| ==> times[i] <= r.now
    requires EndsWith(times, Attempts(a, r.caller), r.now, l.window)
    ensures Step(a, Ask(r), l).1 == if CountIn(times, r.now, l.window) >= l.limit then RateLimited else Allowed
  {
    PrunedIsInWindow(times, Attempts(a, r.caller), r.now, l.window);
    AnswerByPruned(a, r, l);
  }

  // ---------------------------------------------------------------------------------------------
  // No window holds more than the limit.

  /** Each time had room in its own window. */
  predicate Spaced(times: seq<real>, limit: nat, window: real) {
    times == []
    || (Spaced(times[..|times| - 1], limit, window)
        && CountIn(times[..|times| - 1], times[|times| - 1], window) < limit)
  }

  lemma {:induction false} CountShifts(times: seq<real>, x: real, t: real, window: real)
    requires (forall i :: 0 <= i < |times| ==> times[i] <= x) && x <= t
    ensures CountIn(times, t, window) <= CountIn(times, x, window)
  {
    if times != [] {
      CountShifts(times[..|times| - 1], x, t, window);
    }
  }

  lemma {:induction false} SpacedFitsEveryWindow(times: seq<real>, limit: nat, window: real, t: real)
    requires Spaced(times, limit, window) && Rising(times)
    ensures CountIn(times, t, window) <= limit
  {
    if times != [] {
      var front, last := times[..|times| - 1], times[|times| - 1];
      SpacedFitsEveryWindow(front, limit, window, t);
      if t - window < last <= t {
        CountShifts(front, last, t, window);
      }
    }
  }

  lemma LastEvent(events: seq<Event>)
    requires events != [] && ClockRuns(events)
    ensures ClockRuns(events[..|events| - 1])
    ensures NotBefore(events, TimeOf(events[|events| - 1]))
    ensures NotBefore(events[..|events| - 1], TimeOf(events[|events| - 1]))
  {
  }

  lemma {:induction false} RememberedIsSpaced(events: seq<Event>, caller: Hotkey, l: Limits)
    requires ClockRuns(events) && l.window > 0.0
    ensures Spaced(Remembered(events, caller, l), l.limit, l.window)
  {
    if events != [] {
      var i := |events| - 1;
      var last := events[i];
      LastEvent(events);
      RememberedIsSpaced(events[..i], caller, l);
      if last.Ask? && last.request.caller == caller && AnswerOf(events, i, l) == Allowed {
        RefusedExactlyAtLimit(events, i, l);
        var times := Remembered(events[..i], caller, l);
        assert (times + [last.request.now])[..|times|] == times;
      }
    }
  }

  /** Whatever was forgotten, every window of the clock holds at most the limit of remembered calls. */
  lemma EveryWindowWithinLimit(events: seq<Event>, caller: Hotkey, l: Limits, t: real)
    requires ClockRuns(events) && l.window > 0.0
    ensures CountIn(Remembered(events, caller, l), t, l.window) <= l.limit
  {
    if events != [] {
      LastEvent(events);
      RememberedIsSpaced(events, caller, l);
      RunRemembers(events, caller, l, TimeOf(events[|events| - 1]));
      SpacedFitsEveryWindow(Remembered(events, caller, l), l.limit, l.window, t);
    }
  }

  /** A caller that no refresh drops has all its accepted calls remembered, so both results speak of them all. */
  lemma {:induction false} StayingPermittedRemembersAll(events: seq<Event>, caller: Hotkey, l: Limits)
    requires forall i :: 0 <= i < |events| ==> !Drops(events[i], caller)
    ensures Remembered(events, caller, l) == Accepted(events, caller, l)
  {
    if events != [] {
      StayingPermittedRemembersAll(events[..|events| - 1], caller, l);
    }
  }

  // ---------------------------------------------------------------------------------------------
  // Callers that a refresh drops.

  /** Any two refreshes, complete or not, are at least `gap` apart. */
  predicate RefreshesApart(events: seq<Event>, gap: real) {
    forall i, j :: 0 <= i < j < |events| && events[i].Refresh? && events[j].Refresh? ==>
      TimeOf(events[i]) + gap <= TimeOf(events[j])
  }

  /** The place of the last refresh that dropped the caller, or -1. */
  function LastDrop(events: seq<Event>, caller: Hotkey): (i: int)
    ensures -1 <= i < |events|
    ensures i >= 0 ==> Drops(events[i], caller)
  {
    if events == [] then -1
    else if Drops(events[|events| - 1], caller) then |events| - 1
    else LastDrop(events[..|events| - 1], caller)
  }

  /** A caller with a permit was dropped, if ever, at least a gap ago. */
  lemma {:induction false} PermittedAgainLater(events: seq<Event>, caller: Hotkey, l: Limits, gap: real)
    requires ClockRuns(events) && RefreshesApart(events, gap) && events != []
    requires LastDrop(events, caller) >= 0 && caller in After(events, l).allowed
    ensures TimeOf(events[LastDrop(events, caller)]) + gap <= TimeOf(events[|events| - 1])
  {
    var front, last := events[..|events| - 1], events[|events| - 1];
    if last.Refresh? && |last.hotkeys| == |last.permits| {
      assert events[LastDrop(events, caller)].Refresh?;
    } else {
      LastEvent(events);
      FrontApart(events, gap);
      assert caller in After(front, l).allowed;
      PermittedAgainLater(front, caller, l, gap);
    }
  }

  lemma FrontApart(events: seq<Event>, gap: real)
    requires events != [] && RefreshesApart(events, gap)
    ensures RefreshesApart(events[..|events| - 1], gap)
  {
  }

  /** What was accepted and forgotten again is no later than the last drop. */
  lemma {:induction false} ForgottenByDrop(events: seq<Event>, caller: Hotkey, l: Limits) returns (forgotten: seq<real>)
    requires ClockRuns(events)
    ensures Accepted(events, caller, l) == forgotten + Remembered(events, caller, l)
    ensures forgotten != [] ==> LastDrop(events, caller) >= 0
    ensures forall i :: 0 <= i < |forgotten| ==> forgotten[i] <= TimeOf(events[LastDrop(events, caller)])
  {
    if events == [] {
      forgotten := [];
    } else {
      var front, last := events[..|events| - 1], events[|events| - 1];
      LastEvent(events);
      forgotten := ForgottenByDrop(front, caller, l);
      if Drops(last, caller) {
        forgotten := Accepted(front, caller, l);
        AcceptedBefore(front, caller, l, TimeOf(last));
      }
    }
  }

  lemma {:induction false} AcceptedBefore(events: seq<Event>, caller: Hotkey, l: Limits, t: real)
    requires NotBefore(events, t)
    ensures forall i :: 0 <= i < |Accepted(events, caller, l)| ==> Accepted(events, caller, l)[i] <= t
  {
    if events != [] {
      AcceptedBefore(events[..|events| - 1], caller, l, t);
    }
  }

  lemma {:induction false} CountConcat(a: seq<real>, b: seq<real>, t: real, window: real)
    ensures CountIn(a + b, t, window) == CountIn(a, t, window) + CountIn(b, t, window)
    decreases |b|
  {
    if b == [] {
      assert a + b == a;
    } else {
      CountConcat(a, b[..|b| - 1], t, window);
      assert (a + b)[..|a + b| - 1] == a + b[..|b| - 1];
    }
  }

  lemma {:induction false} CountOfOld(times: seq<real>, t: real, window: real)
    requires forall i :: 0 <= i < |times| ==> times[i] <= t - window
    ensures CountIn(times, t, window) == 0
  {
    if times != [] {
      CountOfOld(times[..|times| - 1], t, window);
    }
  }

  /** With refreshes a window apart, whatever a permitted caller has had forgotten is outside the window. */
  lemma ForgottenIsOld(events: seq<Event>, caller: Hotkey, l: Limits, gap: real, t: real)
    requires ClockRuns(events) && RefreshesApart(events, gap) && l.window <= gap && NotBefore(events, t)
    requires caller in After(events, l).allowed
    ensures CountIn(Accepted(events, caller, l), t, l.window) == CountIn(Remembered(events, caller, l), t, l.window)
  {
    var forgotten := ForgottenByDrop(events, caller, l);
    CountConcat(forgotten, Remembered(events, caller, l), t, l.window);
    if forgotten != [] {
      PermittedAgainLater(events, caller, l, gap);
      CountOfOld(forgotten, t, l.window);
    }
  }

  lemma {:induction false} AcceptedRises(events: seq<Event>, caller: Hotkey, l: Limits)
    requires ClockRuns(events)
    ensures Rising(Accepted(events, caller, l))
  {
    if events != [] {
      LastEvent(events);
      AcceptedRises(events[..|events| - 1], caller, l);
      AcceptedBefore(events[..|events| - 1], caller, l, TimeOf(events[|events| - 1]));
    }
  }

  lemma {:induction false} AcceptedIsSpaced(events: seq<Event>, caller: Hotkey, l: Limits, gap: real)
    requires ClockRuns(events) && RefreshesApart(events, gap) && 0.0 < l.window <= gap
    ensures Spaced(Accepted(events, caller, l), l.limit, l.window)
  {
    if events != [] {
      var i := |events| - 1;
      var front, last := events[..i], events[i];
      LastEvent(events);
      FrontApart(events, gap);
      AcceptedIsSpaced(front, caller, l, gap);
      if last.Ask? && last.request.caller == caller && AnswerOf(events, i, l) == Allowed {
        RefusedExactlyAtLimit(events, i, l);
        ForgottenIsOld(front, caller, l, gap, last.request.now);
        var times := Accepted(front, caller, l);
        assert (times + [last.request.now])[..|times|] == times;
      }
    }
  }

  /** Every caller, dropped or not, keeps within the limit in every window of every run whose refreshes are
      at least `gap` apart. */
  ghost predicate AlwaysWithinLimit(l: Limits, gap: real) {
    forall events, caller, t :: ClockRuns(events) && RefreshesApart(events, gap) ==>
      CountIn(Accepted(events, caller, l), t, l.window) <= l.limit
  }

  // ---------------------------------------------------------------------------------------------
  // A run that passes the limit.

  function Copies(x: real, n: nat): seq<real> {
    seq(n, _ => x)
  }

  lemma {:induction false} CountOfCopies(x: real, n: nat, t: real, window: real)
    requires t - window < x <= t
    ensures CountIn(Copies(x, n), t, window) == n
  {
    if n > 0 {
      CountOfCopies(x, n - 1, t, window);
      assert Copies(x, n)[..n - 1] == Copies(x, n - 1);
    }
  }

  function Call(l: Limits, caller: Hotkey, now: real): Event {
    Ask(Request(l.self, caller, caller, now))
  }

  /** A permit at time 0, and `n` calls one gap later. */
  function FirstCalls(l: Limits, caller: Hotkey, gap: real, n: nat): seq<Event> {
    [Refresh(0.0, [caller], [true])] + seq(n, _ => Call(l, caller, gap))
  }

  /** Then a refresh without the caller, one with it a gap later, and one more call. */
  function DropAndReturn(l: Limits, caller: Hotkey, gap: real): seq<Event> {
    FirstCalls(l, caller, gap, l.limit)
    + [Refresh(gap, [], []), Refresh(gap + gap, [caller], [true]), Call(l, caller, gap + gap)]
  }

  lemma PermitOne(caller: Hotkey)
    ensures Permitted([caller], [true]) == {caller}
    ensures Permitted([], []) == {}
  {
    assert [true][0] && [caller][0] == caller;
  }

  lemma OneMore(events: seq<Event>, e: Event, caller: Hotkey, l: Limits)
    ensures After(events + [e], l) == Step(After(events, l), e, l).0
    ensures AnswerOf(events + [e], |events|, l) == Step(After(events, l), e, l).1
    ensures Accepted(events + [e], caller, l) ==
            Accepted(events, caller, l)
            + if e.Ask? && e.request.caller == caller && Step(After(events, l), e, l).1 == Allowed then [e.request.now]
              else []
  {
    assert (events + [e])[..|events|] == events;
  }

  lemma {:induction false} FirstCallsAccepted(l: Limits, caller: Hotkey, gap: real, n: nat)
    requires caller != "" && l.window > 0.0 && n <= l.limit
    ensures var events := FirstCalls(l, caller, gap, n);
            && After(events, l).allowed == {caller} && Attempts(After(events, l), caller) == Copies(gap, n)
            && Accepted(events, caller, l) == Copies(gap, n)
  {
    if n == 0 {
      NoCallsYet(l, caller, gap);
    } else {
      FirstCallsAccepted(l, caller, gap, n - 1);
      OneMore(FirstCalls(l, caller, gap, n - 1), Call(l, caller, gap), caller, l);
      OneCallMore(l, caller, gap, n);
      NoneToPrune(gap, n - 1, l.window);
    }
  }

  lemma NoCallsYet(l: Limits, caller: Hotkey, gap: real)
    requires caller != ""
    ensures var events := FirstCalls(l, caller, gap, 0);
            && After(events, l).allowed == {caller} && Attempts(After(events, l), caller) == []
            && Accepted(events, caller, l) == []
  {
    var permit := Refresh(0.0, [caller], [true]);
    PermitOne(caller);
    OneMore([], permit, caller, l);
    assert [] + [permit] == [permit] == FirstCalls(l, caller, gap, 0);
  }

  lemma OneCallMore(l: Limits, caller: Hotkey, gap: real, n: nat)
    requires n > 0
    ensures FirstCalls(l, caller, gap, n) == FirstCalls(l, caller, gap, n - 1) + [Call(l, caller, gap)]
    ensures Copies(gap, n - 1) + [gap] == Copies(gap, n)
  {
  }

  lemma NoneToPrune(x: real, n: nat, window: real)
    requires window > 0.0
    ensures Prune(Copies(x, n), x - window) == Copies(x, n)
  {
  }

  lemma ReturnAccepted(l: Limits, caller: Hotkey, gap: real)
    requires caller != "" && l.window > 0.0 && l.limit > 0
    ensures Accepted(DropAndReturn(l, caller, gap), caller, l) == Copies(gap, l.limit) + [gap + gap]
  {
    var calls := FirstCalls(l, caller, gap, l.limit);
    var drop, permit, last := Refresh(gap, [], []), Refresh(gap + gap, [caller], [true]), Call(l, caller, gap + gap);
    FirstCallsAccepted(l, caller, gap, l.limit);
    PermitOne(caller);
    OneMore(calls, drop, caller, l);
    OneMore(calls + [drop], permit, caller, l);
    OneMore(calls + [drop] + [permit], last, caller, l);
    assert DropAndReturn(l, caller, gap) == calls + [drop] + [permit] + [last];
    assert Attempts(After(calls + [drop] + [permit], l), caller) == [];
    assert Accepted(calls + [drop] + [permit], caller, l) == Copies(gap, l.limit);
  }

  lemma ReturnIsARun(l: Limits, caller: Hotkey, gap: real)
    requires gap >= 0.0
    ensures ClockRuns(DropAndReturn(l, caller, gap)) && RefreshesApart(DropAndReturn(l, caller, gap), gap)
  {
  }

  /** A refresh that drops a caller forgets its calls. When the next refresh comes back within the window,
      the caller has one accepted call more than the limit in it. */
  lemma DroppedCallerStartsAfresh(l: Limits, caller: Hotkey, gap: real)
    requires caller != "" && l.limit > 0 && 0.0 <= gap < l.window
    ensures var events := DropAndReturn(l, caller, gap);
            && ClockRuns(events) && RefreshesApart(events, gap)
            && CountIn(Accepted(events, caller, l), gap + gap, l.window) == l.limit + 1
  {
    ReturnIsARun(l, caller, gap);
    ReturnAccepted(l, caller, gap);
    CountOfCopies(gap, l.limit, gap + gap, l.window);
    CountConcat(Copies(gap, l.limit), [gap + gap], gap + gap, l.window);
    assert [gap + gap][..0] == [];
  }

  /** The rate limit holds for every caller in every run exactly when refreshes are at least a window apart. */
  lemma LimitHoldsExactlyWhenRefreshesAreSpaced(l: Limits, gap: real)
    requires l.limit > 0 && l.window > 0.0 && gap >= 0.0
    ensures AlwaysWithinLimit(l, gap) <==> gap >= l.window
  {
    if gap >= l.window {
      forall events, caller, t | ClockRuns(events) && RefreshesApart(events, gap)
        ensures CountIn(Accepted(events, caller, l), t, l.window) <= l.limit
      {
        AcceptedIsSpaced(events, caller, l, gap);
        AcceptedRises(events, caller, l);
        SpacedFitsEveryWindow(Accepted(events, caller, l), l.limit, l.window, t);
      }
    } else {
      DroppedCallerStartsAfresh(l, "caller", gap);
      assert CountIn(Accepted(DropAndReturn(l, "caller", gap), "caller", l), gap + gap, l.window) > l.limit;
    }
  }

  const WINDOW_SECS := 60.0
  const LEAST_SLEEP_SECS := 30.0

  /** The sleep of the refresh loop for an operator's setting. */
  function SleepSecs(refreshSecs: real): real {
    if refreshSecs > LEAST_SLEEP_SECS then refreshSecs else LEAST_SLEEP_SECS
  }

  /** Under the program's window and loop the limit holds exactly when the refresh setting is at least 60 s:
      the default of 300 s keeps it, and a setting of 30 s does not. */
  lemma RefreshSettingKeepsLimit(self: Hotkey, limit: nat, refreshSecs: real)
    requires limit > 0
    ensures AlwaysWithinLimit(Limits(self, limit, WINDOW_SECS), SleepSecs(refreshSecs)) <==> refreshSecs >= WINDOW_SECS
  {
    LimitHoldsExactlyWhenRefreshesAreSpaced(Limits(self, limit, WINDOW_SECS), SleepSecs(refreshSecs));
  }
}
