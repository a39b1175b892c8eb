/** Why the DSP engine never gets stuck, always comes to rest, and rests with all its tokens back. */
module EngineProgress {
  import opened Types
  import opened Engine
  import Breaker

  // ---------------------------------------------------------------------------
  // A measure of the work ahead
  // ---------------------------------------------------------------------------

  /** Steps that a refresh can still take, counting those of the workers it may start. */
  function RefreshWeight(c: Config, f: Refresh): nat {
    match f.phase
    case Checked => 7 * |c.bidders| + 6
    case Claimed => 7 * |c.bidders| + 5
    case Looping(next) => 7 * Left(c, next) + 4
    case Asking(next) => 7 * Left(c, next) + 3
    case Denied(next) => 7 * Left(c, next) + 2
    case Waiting => 3
    case Stored => 2
    case Unkeyed => 1
  }

  function Left(c: Config, next: nat): nat {
    if next < |c.bidders| then |c.bidders| - next else 0
  }

  function WorkerWeight(x: Worker): nat {
    match x.stage
    case Calling => 4
    case Reported(_) => 3
    case Sent => 2
    case Freed => 1
  }

  ghost function Total(m: map<nat, nat>): nat
    decreases |m.Keys|
  {
    if m.Keys == {} then 0
    else
      var k :| k in m.Keys;
      assert (m - {k}).Keys == m.Keys - {k};
      m[k] + Total(m - {k})
  }

  lemma {:induction false} TotalTakes(m: map<nat, nat>, k: nat)
    requires k in m
    ensures Total(m) == m[k] + Total(m - {k})
    decreases |m.Keys|
  {
    var j :| j in m.Keys && Total(m) == m[j] + Total(m - {j});
    if j == k {
    } else {
      assert (m - {j}).Keys == m.Keys - {j} && (m - {k}).Keys == m.Keys - {k};
      TotalTakes(m - {j}, k);
      TotalTakes(m - {k}, j);
      assert (m - {j}) - {k} == (m - {k}) - {j};
    }
  }

  function At(m: map<nat, nat>, k: nat): nat {
    if k in m then m[k] else 0
  }

  /** A change at one key changes the total by as much. */
  lemma TotalChange(m: map<nat, nat>, m': map<nat, nat>, k: nat)
    requires m' - {k} == m - {k}
    ensures Total(m') - At(m', k) == Total(m) - At(m, k)
  {
    if k in m {
      TotalTakes(m, k);
    } else {
      assert m - {k} == m;
    }
    if k in m' {
      TotalTakes(m', k);
    } else {
      assert m' - {k} == m';
    }
  }

  ghost function RefreshWeights(c: Config, s: Sys): map<nat, nat> {
    map r | r in s.refreshes :: RefreshWeight(c, s.refreshes[r])
  }

  ghost function WorkerWeights(s: Sys): map<nat, nat> {
    map w | w in s.workers :: WorkerWeight(s.workers[w])
  }

  ghost function Measure(c: Config, s: Sys): nat {
    Total(RefreshWeights(c, s)) + Total(WorkerWeights(s))
  }

  predicate ByWorker(a: Action) {
    a.Report? || a.Send? || a.FreeSem? || a.Finish?
  }

  function TouchedRefresh(a: Action): nat {
    if ByWorker(a) then 0 else a.r
  }

  function TouchedWorker(a: Action): nat {
    if a.AskBreaker? || ByWorker(a) then a.w else 0
  }

  lemma OnlyTouchedRefresh(c: Config, s: Sys, a: Action)
    requires Enabled(c, s, a)
    ensures RefreshWeights(c, Do(c, s, a)) - {TouchedRefresh(a)} == RefreshWeights(c, s) - {TouchedRefresh(a)}
  {
    hide Breaker.Grants;
    hide Breaker.Moved;
    hide Result;
    hide Outcome;
  }

  lemma OnlyTouchedWorker(c: Config, s: Sys, a: Action)
    requires Enabled(c, s, a)
    ensures WorkerWeights(Do(c, s, a)) - {TouchedWorker(a)} == WorkerWeights(s) - {TouchedWorker(a)}
  {
    hide Breaker.Grants;
    hide Breaker.Moved;
    hide Result;
    hide Outcome;
  }

  lemma TouchedLosesWeight(c: Config, s: Sys, a: Action)
    requires Enabled(c, s, a) && !a.Check?
    ensures At(RefreshWeights(c, Do(c, s, a)), TouchedRefresh(a)) + At(WorkerWeights(Do(c, s, a)), TouchedWorker(a))
          < At(RefreshWeights(c, s), TouchedRefresh(a)) + At(WorkerWeights(s), TouchedWorker(a))
  {
    if ByWorker(a) {
      WorkerLosesWeight(c, s, a);
    } else {
      RefreshLosesWeight(c, s, a);
    }
  }

  lemma WorkerLosesWeight(c: Config, s: Sys, a: Action)
    requires Enabled(c, s, a) && ByWorker(a)
    ensures At(RefreshWeights(c, Do(c, s, a)), 0) == At(RefreshWeights(c, s), 0)
    ensures At(WorkerWeights(Do(c, s, a)), a.w) < At(WorkerWeights(s), a.w)
  {
    hide Breaker.Grants;
    hide Breaker.Moved;
    hide Result;
    hide Outcome;
  }

  lemma RefreshLosesWeight(c: Config, s: Sys, a: Action)
    requires Enabled(c, s, a) && !a.Check? && !ByWorker(a)
    ensures At(RefreshWeights(c, Do(c, s, a)), a.r) + At(WorkerWeights(Do(c, s, a)), TouchedWorker(a))
          < At(RefreshWeights(c, s), a.r) + At(WorkerWeights(s), TouchedWorker(a))
  {
    if a.AskBreaker? {
      AskLosesWeight(c, s, a);
    } else {
      PhaseLosesWeight(c, s, a);
    }
  }

  /** A started worker weighs less than the turn of the loop that started it. */
  lemma AskLosesWeight(c: Config, s: Sys, a: Action)
    requires Enabled(c, s, a) && a.AskBreaker?
    ensures At(RefreshWeights(c, Do(c, s, a)), a.r) + At(WorkerWeights(Do(c, s, a)), a.w)
          < At(RefreshWeights(c, s), a.r) + At(WorkerWeights(s), a.w)
  {
    hide Breaker.Grants;
  }

  lemma PhaseLosesWeight(c: Config, s: Sys, a: Action)
    requires Enabled(c, s, a) && !a.Check? && !ByWorker(a) && !a.AskBreaker?
    ensures At(RefreshWeights(c, Do(c, s, a)), a.r) < At(RefreshWeights(c, s), a.r)
    ensures Do(c, s, a).workers == s.workers
  {
  }

  /** Every step but a new trigger brings the engine nearer to rest. */
  lemma MeasureDecreases(c: Config, s: Sys, a: Action)
    requires Enabled(c, s, a) && !a.Check?
    ensures Measure(c, Do(c, s, a)) < Measure(c, s)
  {
    OnlyTouchedRefresh(c, s, a);
    OnlyTouchedWorker(c, s, a);
    TouchedLosesWeight(c, s, a);
    hide Do;
    TotalChange(RefreshWeights(c, s), RefreshWeights(c, Do(c, s, a)), TouchedRefresh(a));
    TotalChange(WorkerWeights(s), WorkerWeights(Do(c, s, a)), TouchedWorker(a));
    hide RefreshWeights;
    hide WorkerWeights;
  }

  /** Without new triggers a run is no longer than the measure of its first state. */
  lemma {:induction false} RunsAreBounded(c: Config, states: seq<Sys>, acts: seq<Action>)
    requires IsRun(c, states, acts) && forall i :: 0 <= i < |acts| ==> !acts[i].Check?
    ensures |acts| + Measure(c, states[|acts|]) <= Measure(c, states[0])
    decreases |acts|
  {
    hide Measure;
    hide Do;
    hide Enabled;
    if acts == [] {
    } else {
      var n := |acts| - 1;
      RunsAreBounded(c, states[..n + 1], acts[..n]);
      MeasureDecreases(c, states[n], acts[n]);
    }
  }

  // ---------------------------------------------------------------------------
  // No goroutine waits for ever, and what comes back at rest
  // ---------------------------------------------------------------------------

  /** A worker that has sent its result still holds its token. */
  lemma TokenComesBack(c: Config, s: Sys, w: nat)
    requires SemInv(c, s) && w in s.workers && s.workers[w].stage.Sent?
    ensures Enabled(c, s, FreeSem(w))
  {
    var b := s.workers[w].bidder;
    assert SemBalance(c, s, b);
    assert w in Holders(s, b);
    Within({w}, Holders(s, b));
  }

  lemma WorkerCanMove(c: Config, s: Sys, w: nat) returns (a: Action)
    requires Inv(c, s) && w in s.workers
    ensures Enabled(c, s, a) && !a.Check?
  {
    hide KeyInv;
    hide CacheInv;
    hide CircuitsInv;
    hide SemBalance;
    match s.workers[w].stage
    case Calling => a := Report(w, None, 0);
    case Reported(_) =>
      SendsFit(c, s, w);
      a := Send(w);
    case Sent =>
      TokenComesBack(c, s, w);
      a := FreeSem(w);
    case Freed => a := Finish(w);
  }

  lemma RefreshCanMove(c: Config, s: Sys, r: nat) returns (a: Action)
    requires Inv(c, s) && r in s.refreshes && s.workers == map[]
    ensures Enabled(c, s, a) && !a.Check?
  {
    var f := s.refreshes[r];
    match f.phase
    case Checked => a := if f.key in s.inflight then GiveUp(r) else Claim(r);
    case Claimed => a := if s.slots < c.maxRefreshes then TakeSlot(r) else NoSlot(r);
    case Looping(next) =>
      if LoopDone(c, f) {
        a := StopLoop(r);
      } else {
        a := if HasRoom(c, s, next) then TakeSem(r) else SkipBusy(r);
      }
    case Asking(next) => a := AskBreaker(r, 0, 0);
    case Denied(next) =>
      assert SemBalance(c, s, next);
      assert r in Askers(s, next);
      Within({r}, Askers(s, next));
      a := ReturnSem(r);
    case Waiting => a := Store(r, true, s.clock);
    case Stored => a := ReleaseKey(r);
    case Unkeyed =>
      assert r in SlotHolders(s);
      Within({r}, SlotHolders(s));
      a := ReleaseSlot(r);
  }

  /** Nothing is left to do but to wait for a trigger. */
  ghost predicate AtRest(c: Config, s: Sys) {
    forall a :: Enabled(c, s, a) ==> a.Check?
  }

  /** Every slot, semaphore token, in-flight key and probe is back. */
  ghost predicate AllReturned(c: Config, s: Sys) {
    && s.refreshes == map[] && s.workers == map[]
    && s.slots == 0 && s.inflight == {}
    && Shaped(c, s)
    && forall b: nat :: b < |c.bidders| ==> s.sems[b] == 0 && !s.circuits[b].breaker.probeInFlight
  }

  lemma RestReturnsAll(c: Config, s: Sys)
    requires Inv(c, s)
    ensures AtRest(c, s) ==> AllReturned(c, s)
  {
    hide Enabled;
    if AtRest(c, s) {
      if s.workers != map[] {
        var w :| w in s.workers;
        var a := WorkerCanMove(c, s, w);
      }
      if s.refreshes != map[] {
        var r :| r in s.refreshes;
        var a := RefreshCanMove(c, s, r);
      }
      assert SlotHolders(s) == {};
      forall b: nat | b < |c.bidders|
        ensures s.sems[b] == 0 && !s.circuits[b].breaker.probeInFlight
      {
        assert SemBalance(c, s, b) && CircuitKnows(c, s, b);
        assert CallsTo(s, b) == {} && s.circuits[b].probes <= s.circuits[b].Out();
        assert Holders(s, b) == {} && Askers(s, b) == {};
      }
    }
  }

  /**
  From every reachable state, whatever order the goroutines run in: without new
  triggers they stop after a bounded number of steps, and when no step is left
  every token has been returned.
  */
  lemma EngineComesToRest(c: Config, states: seq<Sys>, acts: seq<Action>, from: nat)
    requires IsRun(c, states, acts) && states[0] == Init(c) && from <= |acts|
    requires forall i :: from <= i < |acts| ==> !acts[i].Check?
    ensures |acts| - from <= Measure(c, states[from])
    ensures AtRest(c, states[|acts|]) ==> AllReturned(c, states[|acts|])
  {
    RunsAreBounded(c, states[from..], acts[from..]);
    InvHolds(c, states, acts, |acts|);
    RestReturnsAll(c, states[|acts|]);
  }
}
