/**
The snapshot cache under concurrency: clients write to the registry, refreshes
fetch and publish in two separate steps, invalidations start single-flight
refreshes, and reconcile passes walk the index without that guard. Every step
is atomic; steps of different parties interleave freely. Invalidations may be
lost, late or repeated: `RefreshAsync` can be called at any time.
*/
module CacheProtocol {
  import opened Types
  import opened LuaNumbers
  import opened Registry
  import opened Snapshots
  import opened Store

  /**
  A published list. `fetchedAt` is the index of the registry state it was read
  from and `readAt` the time of that; the source keeps only `refreshedAt`, the
  time of the publication.
  */
  datatype Snap = Snap(bids: seq<Bid>, fetchedAt: nat, readAt: int, refreshedAt: int)

  datatype Job = Idle | Holding(bids: seq<Bid>, fetchedAt: nat, readAt: int) | Published

  datatype Worker =
    | Async(placement: Text, job: Job)
    | Pass(todo: seq<Text>, job: Job)
  {
    predicate HasTarget() {
      Async? || todo != []
    }

    function Target(): Text
      requires HasTarget()
    {
      if Async? then placement else todo[0]
    }
  }

  datatype Sys = Sys(
    history: seq<State>,        // all registry states so far
    log: seq<Op>,               // the scripts that ran
    pending: map<nat, Op>,      // clients between the index update and their last script run
    snapshots: map<Text, Snap>,
    inflight: set<Text>,
    workers: map<nat, Worker>,
    now: int)

  const INIT := Sys([EMPTY], [], map[], map[], {}, map[], 0)

  datatype Action =
    | Begin(client: nat, op: Op)             // the client has added the placement to the index
    | Script(client: nat)                    // its script runs, for the first or a further time
    | Retire(client: nat)
    | RefreshAsync(worker: nat, placement: Text)
    | Fetch(worker: nat)
    | FetchFails(worker: nat)
    | Publish(worker: nat)
    | Release(worker: nat)                   // the goroutine leaves the in-flight set
    | StartPass(worker: nat, order: seq<Text>)
    | FinishPass(worker: nat)
    | Tick(time: int)

  ghost function Now(s: Sys): State
    requires s.history != []
  {
    s.history[|s.history| - 1]
  }

  ghost predicate Enabled(s: Sys, a: Action)
  {
    s.history != [] &&
    match a
    case Begin(c, op) => c !in s.pending && WellFormed(op)
    case Script(c) => c in s.pending
    case Retire(c) => c in s.pending
    case RefreshAsync(w, _) => w !in s.workers
    case Fetch(w) => w in s.workers && s.workers[w].job.Idle? && s.workers[w].HasTarget()
    case FetchFails(w) => w in s.workers && s.workers[w].job.Idle? && s.workers[w].HasTarget()
    case Publish(w) => w in s.workers && s.workers[w].job.Holding? && s.workers[w].HasTarget()
    case Release(w) => w in s.workers && s.workers[w].Async? && s.workers[w].job.Published?
    case StartPass(w, order) => w !in s.workers && forall p :: p in order <==> p in Now(s).placements
    case FinishPass(w) => w in s.workers && s.workers[w].Pass? && s.workers[w].job.Idle? && s.workers[w].todo == []
    case Tick(time) => time >= s.now
  }

  ghost function Do(s: Sys, a: Action): Sys
    requires Enabled(s, a)
  {
    match a
    case Begin(c, op) => s.(history := s.history + [Index(Now(s), KeyOf(op).placement)], pending := s.pending[c := op])
    case Script(c) => s.(history := s.history + [Exec(Now(s), s.pending[c])], log := s.log + [s.pending[c]])
    case Retire(c) => s.(pending := s.pending - {c})
    case RefreshAsync(w, p) =>
      if p == [] || p in s.inflight then s
      else s.(inflight := s.inflight + {p}, workers := s.workers[w := Async(p, Idle)])
    case Fetch(w) =>
      var worker := s.workers[w];
      s.(workers := s.workers[w := worker.(job := Holding(FetchOf(Now(s), worker.Target()), |s.history| - 1, s.now))])
    case FetchFails(w) =>
      var worker := s.workers[w];
      if worker.Pass? then s.(workers := s.workers - {w})
      else s.(workers := s.workers[w := Async(worker.placement, Published)])
    case Publish(w) =>
      var worker := s.workers[w];
      var snap := Snap(worker.job.bids, worker.job.fetchedAt, worker.job.readAt, s.now);
      var s' := s.(snapshots := s.snapshots[worker.Target() := snap]);
      if worker.Pass? then s'.(workers := s.workers[w := Pass(worker.todo[1..], Idle)])
      else s'.(workers := s.workers[w := Async(worker.placement, Published)])
    case Release(w) => s.(inflight := s.inflight - {s.workers[w].placement}, workers := s.workers - {w})
    case StartPass(w, order) => s.(workers := s.workers[w := Pass(order, Idle)])
    case FinishPass(w) => s.(workers := s.workers - {w})
    case Tick(time) => s.(now := time)
  }

  ghost predicate IsRun(states: seq<Sys>, acts: seq<Action>) {
    && |states| == |acts| + 1
    && forall i :: 0 <= i < |acts| ==> Enabled(states[i], acts[i]) && states[i + 1] == Do(states[i], acts[i])
  }

  /** No order of events is ruled out: clients, invalidations, the network and the clock are free at every moment. */
  lemma AnythingMayHappen(s: Sys, client: nat, op: Op, w: nat, placement: Text, time: int)
    requires s.history != []
    ensures client !in s.pending && WellFormed(op) ==> Enabled(s, Begin(client, op))
    ensures client in s.pending ==> Enabled(s, Script(client)) && Enabled(s, Retire(client))
    ensures w !in s.workers ==> Enabled(s, RefreshAsync(w, placement))
    ensures w in s.workers && s.workers[w].job.Idle? && s.workers[w].HasTarget() ==>
              Enabled(s, Fetch(w)) && Enabled(s, FetchFails(w))
    ensures w in s.workers && s.workers[w].job.Holding? && s.workers[w].HasTarget() ==> Enabled(s, Publish(w))
    ensures time >= s.now ==> Enabled(s, Tick(time))
  {
  }

  // ---------------------------------------------------------------------------
  // What holds in every reachable state
  // ---------------------------------------------------------------------------

  /** The bids are one placement's list in one registry state of the past. */
  ghost predicate Genuine(s: Sys, placement: Text, bids: seq<Bid>, at: nat) {
    at < |s.history| && bids == FetchOf(s.history[at], placement)
  }

  ghost predicate RegistryInv(s: Sys) {
    && s.history != []
    && (forall i :: 0 <= i < |s.history| ==> Agreement(s.history[i]) && s.history[i].placements <= Now(s).placements)
    && SameRows(Now(s), Play(EMPTY, s.log))
    && (forall op :: op in s.log ==> WellFormed(op))
    && (forall c :: c in s.pending ==> WellFormed(s.pending[c]) && KeyOf(s.pending[c]).placement in Now(s).placements)
  }

  ghost predicate SnapshotInv(s: Sys) {
    PublishedInv(s) && HeldInv(s)
  }

  ghost predicate PublishedInv(s: Sys) {
    forall p :: p in s.snapshots ==>
      && Genuine(s, p, s.snapshots[p].bids, s.snapshots[p].fetchedAt)
      && s.snapshots[p].readAt <= s.snapshots[p].refreshedAt <= s.now
  }

  ghost predicate HeldInv(s: Sys) {
    forall w :: w in s.workers && s.workers[w].job.Holding? ==>
      && s.workers[w].HasTarget()
      && Genuine(s, s.workers[w].Target(), s.workers[w].job.bids, s.workers[w].job.fetchedAt)
      && s.workers[w].job.readAt <= s.now
  }

  ghost predicate SingleFlight(s: Sys) {
    && [] !in s.inflight
    && (forall w :: w in s.workers && s.workers[w].Async? ==> s.workers[w].placement in s.inflight)
    && (forall w, w' | w in s.workers && w' in s.workers && s.workers[w].Async? && s.workers[w'].Async? ::
          s.workers[w].placement == s.workers[w'].placement ==> w == w')
    && (forall p :: p in s.inflight ==>
          exists w :: w in s.workers && s.workers[w].Async? && s.workers[w].placement == p)
  }

  ghost predicate Inv(s: Sys) {
    RegistryInv(s) && SnapshotInv(s) && SingleFlight(s)
  }

  /** A new registry state that agrees with the log keeps the invariant. */
  lemma HistoryGrows(s: Sys, s': Sys, r: State)
    requires RegistryInv(s) && s'.history == s.history + [r]
    requires Agreement(r) && Now(s).placements <= r.placements && SameRows(r, Play(EMPTY, s'.log))
    requires forall op :: op in s'.log ==> WellFormed(op)
    requires forall c :: c in s'.pending ==> WellFormed(s'.pending[c]) && KeyOf(s'.pending[c]).placement in r.placements
    ensures RegistryInv(s')
  {
    hide Agreement;
    hide WellFormed;
    hide Play;
    hide SameRows;
    forall i | 0 <= i < |s'.history|
      ensures Agreement(s'.history[i]) && s'.history[i].placements <= Now(s').placements
    {
      assert i < |s.history| ==> s'.history[i] == s.history[i];
    }
  }

  lemma StepKeepsRegistryInv(s: Sys, a: Action)
    requires RegistryInv(s) && Enabled(s, a)
    ensures RegistryInv(Do(s, a))
  {
    hide FetchOf;
    hide Exec;
    hide Agreement;
    hide WellFormed;
    hide Play;
    match a
    case Begin(c, op) =>
      IndexKeepsAgreement(Now(s), KeyOf(op).placement);
      HistoryGrows(s, Do(s, a), Index(Now(s), KeyOf(op).placement));
    case Script(c) =>
      ExecKeepsAgreement(Now(s), s.pending[c]);
      PlayOneMore(Now(s), s.log, s.pending[c]);
      HistoryGrows(s, Do(s, a), Exec(Now(s), s.pending[c]));
    case _ =>
  }

  lemma IndexKeepsAgreement(s: State, placement: Text)
    requires Agreement(s)
    ensures Agreement(Index(s, placement)) && SameRows(Index(s, placement), s) &&
            s.placements <= Index(s, placement).placements
  {
    hide Valid;
  }

  lemma PlayOneMore(s: State, log: seq<Op>, op: Op)
    requires SameRows(s, Play(EMPTY, log))
    ensures SameRows(Exec(s, op), Play(EMPTY, log + [op]))
    ensures Exec(s, op).placements == s.placements
  {
    hide Double;
    assert (log + [op])[..|log|] == log;
  }

  lemma HistoryRemains(s: Sys, a: Action)
    requires Enabled(s, a)
    ensures s.history <= Do(s, a).history && s.now <= Do(s, a).now
    ensures forall p, bids, at :: Genuine(s, p, bids, at) ==> Genuine(Do(s, a), p, bids, at)
  {
    hide FetchOf;
    hide Exec;
  }

  lemma StepKeepsPublished(s: Sys, a: Action)
    requires SnapshotInv(s) && Enabled(s, a)
    ensures PublishedInv(Do(s, a))
  {
    HistoryRemains(s, a);
    hide FetchOf;
    hide Exec;
    hide Genuine;
  }

  lemma StepKeepsHeld(s: Sys, a: Action)
    requires HeldInv(s) && Enabled(s, a)
    ensures HeldInv(Do(s, a))
  {
    HistoryRemains(s, a);
    hide FetchOf;
    hide Exec;
  }

  lemma StepKeepsSnapshotInv(s: Sys, a: Action)
    requires SnapshotInv(s) && Enabled(s, a)
    ensures SnapshotInv(Do(s, a))
  {
    StepKeepsPublished(s, a);
    StepKeepsHeld(s, a);
    hide Do;
    hide Enabled;
    hide PublishedInv;
    hide HeldInv;
  }

  lemma StepKeepsSingleFlight(s: Sys, a: Action)
    requires SingleFlight(s) && Enabled(s, a)
    ensures SingleFlight(Do(s, a))
  {
    hide FetchOf;
    hide Exec;
    var s' := Do(s, a);
    forall p | p in s'.inflight
      ensures exists w :: w in s'.workers && s'.workers[w].Async? && s'.workers[w].placement == p
    {
      if p in s.inflight {
        var w :| w in s.workers && s.workers[w].Async? && s.workers[w].placement == p;
        assert w in s'.workers && s'.workers[w].Async? && s'.workers[w].placement == p;
      } else {
        assert a.worker in s'.workers && s'.workers[a.worker].placement == p;
      }
    }
  }

  /** Every published list, in every state of every run, is one genuine past registry state's list. */
  lemma {:induction false} InvHolds(states: seq<Sys>, acts: seq<Action>, k: nat)
    requires IsRun(states, acts) && states[0] == INIT && k < |states|
    ensures Inv(states[k])
  {
    if k == 0 {
    } else {
      InvHolds(states, acts, k - 1);
      StepKeepsRegistryInv(states[k - 1], acts[k - 1]);
      StepKeepsSnapshotInv(states[k - 1], acts[k - 1]);
      StepKeepsSingleFlight(states[k - 1], acts[k - 1]);
    }
  }

  // ---------------------------------------------------------------------------
  // After the last mutation
  // ---------------------------------------------------------------------------

  predicate Quiet(a: Action) {
    !a.Begin? && !a.Script?
  }

  /** The placement's snapshot is what the registry holds now. */
  ghost predicate Settled(s: Sys, placement: Text)
    requires s.history != []
  {
    placement in s.snapshots && s.snapshots[placement].bids == FetchOf(Now(s), placement)
  }

  /** No refresh is still holding a list that differs from the registry's. */
  ghost predicate Drained(s: Sys)
    requires s.history != []
  {
    forall w :: w in s.workers && s.workers[w].job.Holding? && s.workers[w].HasTarget() ==>
      s.workers[w].job.bids == FetchOf(Now(s), s.workers[w].Target())
  }

  /** What the pass w has not settled yet is still on its list. */
  ghost predicate Progress(s: Sys, w: nat)
    requires s.history != []
  {
    w in s.workers && s.workers[w].Pass? ==>
      forall p :: p in Now(s).placements ==> Settled(s, p) || p in s.workers[w].todo
  }

  lemma QuietStep(s: Sys, a: Action)
    requires SnapshotInv(s) && Enabled(s, a) && Quiet(a) && Drained(s)
    ensures Do(s, a).history == s.history && Drained(Do(s, a))
    ensures forall p :: Settled(s, p) ==> Settled(Do(s, a), p)
    ensures a.Publish? ==> Settled(Do(s, a), s.workers[a.worker].Target())
  {
    hide FetchOf;
  }

  lemma ProgressStep(s: Sys, a: Action, w: nat)
    requires SnapshotInv(s) && Enabled(s, a) && Quiet(a) && Drained(s)
    requires Progress(s, w) || (a.StartPass? && a.worker == w)
    ensures Progress(Do(s, a), w)
  {
    hide FetchOf;
    QuietStep(s, a);
    var s' := Do(s, a);
    if a.Publish? && a.worker == w && w in s'.workers && s'.workers[w].Pass? {
      var todo := s.workers[w].todo;
      assert todo == [todo[0]] + todo[1..];
    }
  }

  lemma {:induction false} QuietRun(states: seq<Sys>, acts: seq<Action>, from: nat, k: nat)
    requires IsRun(states, acts) && states[0] == INIT && from <= k < |states|
    requires forall i :: from <= i < |acts| ==> Quiet(acts[i])
    requires states[from].history != [] && Drained(states[from])
    ensures states[k].history == states[from].history && Drained(states[k])
    ensures forall p :: Settled(states[from], p) ==> Settled(states[k], p)
    decreases k
  {
    if k == from {
    } else {
      QuietRun(states, acts, from, k - 1);
      InvHolds(states, acts, k - 1);
      QuietStep(states[k - 1], acts[k - 1]);
    }
  }

  lemma {:induction false} PassProgress(states: seq<Sys>, acts: seq<Action>, start: nat, k: nat, w: nat)
    requires IsRun(states, acts) && states[0] == INIT && start < k < |states|
    requires forall i :: start <= i < |acts| ==> Quiet(acts[i])
    requires acts[start].StartPass? && acts[start].worker == w
    requires states[start].history != [] && Drained(states[start])
    ensures states[k].history != [] && Progress(states[k], w)
    decreases k
  {
    hide Do;
    hide Enabled;
    hide FetchOf;
    hide Drained;
    hide Progress;
    QuietRun(states, acts, start, k - 1);
    QuietRun(states, acts, start, k);
    InvHolds(states, acts, k - 1);
    if k - 1 == start {
    } else {
      PassProgress(states, acts, start, k - 1, w);
    }
    ProgressStep(states[k - 1], acts[k - 1], w);
  }

  /**
  Mutations have stopped, nobody holds an outdated fetch, and one reconcile
  pass has run from start to end since: from then on every indexed placement
  has the registry's list, and every snapshot at all is the registry's list.
  */
  lemma Convergence(states: seq<Sys>, acts: seq<Action>, start: nat, finish: nat, k: nat)
    requires IsRun(states, acts) && states[0] == INIT && start < finish < k < |states|
    requires forall i :: start <= i < |acts| ==> Quiet(acts[i])
    requires acts[start].StartPass? && acts[finish] == FinishPass(acts[start].worker)
    requires states[start].history != [] && Drained(states[start])
    ensures states[k].history == states[start].history
    ensures forall p :: p in Now(states[k]).placements ==> Settled(states[k], p)
    ensures forall p :: p in states[k].snapshots ==> Settled(states[k], p)
  {
    var w := acts[start].worker;
    PassProgress(states, acts, start, finish, w);
    QuietRun(states, acts, start, finish);
    QuietRun(states, acts, start, finish + 1);
    QuietRun(states, acts, start, k);
    InvHolds(states, acts, finish);
    QuietRun(states, acts, finish, k);
    InvHolds(states, acts, k);
    forall p | p in states[k].snapshots && p !in Now(states[k]).placements
      ensures Settled(states[k], p)
    {
      UnindexedIsEmpty(states[k].history[states[k].snapshots[p].fetchedAt], p);
      UnindexedIsEmpty(Now(states[k]), p);
    }
  }
}
