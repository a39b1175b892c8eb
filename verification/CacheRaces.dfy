/**
What interleaving does to snapshots and invalidations: exactly when a snapshot
goes backwards, exactly when an invalidation is honoured, and by how much the
reported age is short. Runs are those of `CacheProtocol`.
*/
module CacheRaces {
  import opened Types
  import opened Registry
  import opened Snapshots
  import opened Store
  import opened CacheProtocol
  import Cache

  // ---------------------------------------------------------------------------
  // From a fetch to its publication
  // ---------------------------------------------------------------------------

  /** A fetched list stays with its worker until it is published. */
  lemma HeldStep(s: Sys, a: Action, w: nat)
    requires Enabled(s, a) && a != Publish(w)
    requires w in s.workers && s.workers[w].job.Holding?
    ensures w in Do(s, a).workers && Do(s, a).workers[w] == s.workers[w]
  {
    hide FetchOf;
    hide Exec;
  }

  lemma {:induction false} HeldUntil(states: seq<Sys>, acts: seq<Action>, w: nat, from: nat, k: nat)
    requires IsRun(states, acts) && from <= k < |states|
    requires w in states[from].workers && states[from].workers[w].job.Holding?
    requires forall m :: from <= m < k ==> acts[m] != Publish(w)
    ensures w in states[k].workers && states[k].workers[w] == states[from].workers[w]
    decreases k
  {
    if k == from {
    } else {
      HeldUntil(states, acts, w, from, k - 1);
      HeldStep(states[k - 1], acts[k - 1], w);
    }
  }

  /** The worker w fetches at f and publishes that list at k. */
  ghost predicate Delivers(states: seq<Sys>, acts: seq<Action>, w: nat, f: nat, k: nat) {
    && IsRun(states, acts) && f < k < |acts|
    && acts[f] == Fetch(w) && acts[k] == Publish(w)
    && forall m :: f < m < k ==> acts[m] != Publish(w)
  }

  /** What the worker holds all the way from its fetch to its publication. */
  lemma HeldOnTheWay(states: seq<Sys>, acts: seq<Action>, w: nat, f: nat, k: nat, m: nat)
    requires Delivers(states, acts, w, f, k) && f < m <= k
    ensures w in states[f].workers && states[f].workers[w].HasTarget() && states[f].history != []
    ensures w in states[m].workers
    ensures var x := states[f].workers[w];
            states[m].workers[w]
              == x.(job := Holding(FetchOf(Now(states[f]), x.Target()), |states[f].history| - 1, states[f].now))
  {
    hide FetchOf;
    hide Exec;
    assert Enabled(states[f], acts[f]) && states[f + 1] == Do(states[f], acts[f]);
    hide Do;
    HeldUntil(states, acts, w, f + 1, m);
  }

  // ---------------------------------------------------------------------------
  // Exactly when a snapshot goes backwards
  // ---------------------------------------------------------------------------

  /** No snapshot gives way to one that was fetched earlier. */
  ghost predicate Forward(s: Sys, s': Sys) {
    forall p :: p in s.snapshots ==> p in s'.snapshots && s.snapshots[p].fetchedAt <= s'.snapshots[p].fetchedAt
  }

  ghost predicate Publishes(s: Sys, a: Action, p: Text) {
    Enabled(s, a) && a.Publish? && s.workers[a.worker].Target() == p
  }

  lemma OthersKeepSnapshot(s: Sys, a: Action, p: Text)
    requires Enabled(s, a) && !Publishes(s, a, p)
    ensures p in Do(s, a).snapshots <==> p in s.snapshots
    ensures p in s.snapshots ==> Do(s, a).snapshots[p] == s.snapshots[p]
  {
    hide FetchOf;
    hide Exec;
  }

  lemma {:induction false} SnapshotSince(states: seq<Sys>, acts: seq<Action>, p: Text, from: nat, k: nat)
    requires IsRun(states, acts) && from <= k < |states|
    requires forall m :: from <= m < k ==> !Publishes(states[m], acts[m], p)
    ensures p in states[k].snapshots <==> p in states[from].snapshots
    ensures p in states[k].snapshots ==> states[k].snapshots[p] == states[from].snapshots[p]
    decreases k
  {
    if k == from {
    } else {
      SnapshotSince(states, acts, p, from, k - 1);
      OthersKeepSnapshot(states[k - 1], acts[k - 1], p);
    }
  }

  /** The list that is published at m is still the placement's list at k. */
  ghost predicate LastPublication(states: seq<Sys>, acts: seq<Action>, p: Text, m: nat, k: nat) {
    && m < k <= |acts| < |states|
    && Publishes(states[m], acts[m], p)
    && forall j :: m < j < k ==> !Publishes(states[j], acts[j], p)
  }

  lemma {:induction false} LatestOf(states: seq<Sys>, acts: seq<Action>, p: Text, from: nat, k: nat) returns (m: nat)
    requires |acts| < |states| && from <= k <= |acts|
    requires exists j :: from <= j < k && Publishes(states[j], acts[j], p)
    ensures from <= m && LastPublication(states, acts, p, m, k)
    decreases k
  {
    hide Publishes;
    if Publishes(states[k - 1], acts[k - 1], p) {
      m := k - 1;
    } else {
      m := LatestOf(states, acts, p, from, k - 1);
    }
  }

  lemma StandsUntil(states: seq<Sys>, acts: seq<Action>, p: Text, m: nat, k: nat)
    requires IsRun(states, acts) && LastPublication(states, acts, p, m, k)
    ensures p in states[k].snapshots
    ensures states[k].snapshots[p].fetchedAt == states[m].workers[acts[m].worker].job.fetchedAt
  {
    hide FetchOf;
    hide Exec;
    assert Enabled(states[m], acts[m]) && states[m + 1] == Do(states[m], acts[m]);
    SnapshotSince(states, acts, p, m + 1, k);
  }

  /** Between f and k a list of p that was read after f was published, and it was still there at k. */
  ghost predicate Overtaken(states: seq<Sys>, acts: seq<Action>, p: Text, f: nat, m: nat, k: nat) {
    && f < m && LastPublication(states, acts, p, m, k)
    && states[m].workers[acts[m].worker].job.fetchedAt > |states[f].history| - 1
  }

  /** Two workers that hold lists of one placement at the same time are not both single-flight refreshes. */
  lemma OneIsAPass(states: seq<Sys>, acts: seq<Action>, w: nat, f: nat, m: nat, k: nat)
    requires Delivers(states, acts, w, f, k) && states[0] == INIT && f < m < k
    requires w in states[f].workers && states[f].workers[w].HasTarget()
    requires Publishes(states[m], acts[m], states[f].workers[w].Target())
    ensures acts[m].worker in states[m].workers
    ensures acts[m].worker != w && (states[m].workers[acts[m].worker].Pass? || states[f].workers[w].Pass?)
  {
    hide FetchOf;
    hide RegistryInv;
    hide SnapshotInv;
    HeldOnTheWay(states, acts, w, f, k, m);
    InvHolds(states, acts, m);
    assert SingleFlight(states[m]);
    assert acts[m] != Publish(w);
  }

  /** The publication alone: it goes back exactly when the list it replaces was fetched later. */
  lemma DeliveryGoesBack(states: seq<Sys>, acts: seq<Action>, w: nat, f: nat, k: nat)
    requires Delivers(states, acts, w, f, k) && states[0] == INIT
    ensures w in states[f].workers && states[f].workers[w].HasTarget()
    ensures var p, read := states[f].workers[w].Target(), |states[f].history| - 1;
            && (p in states[f].snapshots ==> states[f].snapshots[p].fetchedAt <= read)
            && !Publishes(states[f], acts[f], p)
            && (Forward(states[k], states[k + 1]) <==>
                  (p in states[k].snapshots ==> states[k].snapshots[p].fetchedAt <= read))
  {
    hide FetchOf;
    hide Exec;
    HeldOnTheWay(states, acts, w, f, k, k);
    InvHolds(states, acts, f);
    var p, s' := states[f].workers[w].Target(), states[k + 1];
    assert Enabled(states[k], acts[k]) && s' == Do(states[k], acts[k]);
    assert s'.snapshots == states[k].snapshots[p := s'.snapshots[p]];
  }

  /**
  A publication moves the snapshot back if and only if, between the fetch and
  the publication, another worker has published a later fetch that still stands.
  One of the two is then a reconcile pass.
  */
  lemma GoesBackIff(states: seq<Sys>, acts: seq<Action>, w: nat, f: nat, k: nat)
    requires Delivers(states, acts, w, f, k) && states[0] == INIT
    ensures w in states[f].workers && states[f].workers[w].HasTarget()
    ensures var p := states[f].workers[w].Target();
            && (!Forward(states[k], states[k + 1]) <==> exists m: nat :: Overtaken(states, acts, p, f, m, k))
            && forall m: nat :: Overtaken(states, acts, p, f, m, k) ==>
                 acts[m].worker != w && (states[m].workers[acts[m].worker].Pass? || states[f].workers[w].Pass?)
  {
    hide Do;
    hide Enabled;
    hide Forward;
    DeliveryGoesBack(states, acts, w, f, k);
    var p := states[f].workers[w].Target();
    if forall j :: f <= j < k ==> !Publishes(states[j], acts[j], p) {
      SnapshotSince(states, acts, p, f, k);
    } else {
      var m := LatestOf(states, acts, p, f, k);
      StandsUntil(states, acts, p, m, k);
      assert Overtaken(states, acts, p, f, m, k) <==> !Forward(states[k], states[k + 1]);
      assert forall m': nat :: LastPublication(states, acts, p, m', k) ==> m' == m;
    }
    forall m: nat | Overtaken(states, acts, p, f, m, k)
      ensures acts[m].worker in states[m].workers && acts[m].worker != w
      ensures states[m].workers[acts[m].worker].Pass? || states[f].workers[w].Pass?
    {
      OneIsAPass(states, acts, w, f, m, k);
    }
  }

  lemma {:induction false} ForwardChain(states: seq<Sys>, from: nat, k: nat)
    requires from <= k < |states| && forall j :: from <= j < k ==> Forward(states[j], states[j + 1])
    ensures Forward(states[from], states[k])
    decreases k
  {
    if k == from {
    } else {
      ForwardChain(states, from, k - 1);
    }
  }

  /** Whatever is published in between: a later fetch that comes out first makes the snapshot go back at some step. */
  lemma LaterFetchFirstGoesBack(states: seq<Sys>, acts: seq<Action>, w: nat, f: nat, m: nat, k: nat)
    requires Delivers(states, acts, w, f, k) && states[0] == INIT && f < m < k
    requires w in states[f].workers && states[f].workers[w].HasTarget()
    requires Publishes(states[m], acts[m], states[f].workers[w].Target())
    requires states[m].workers[acts[m].worker].job.fetchedAt > |states[f].history| - 1
    ensures exists j :: m < j <= k && !Forward(states[j], states[j + 1])
  {
    hide FetchOf;
    hide Exec;
    var p := states[f].workers[w].Target();
    HeldOnTheWay(states, acts, w, f, k, k);
    assert Enabled(states[m], acts[m]) && states[m + 1] == Do(states[m], acts[m]);
    assert Enabled(states[k], acts[k]) && states[k + 1] == Do(states[k], acts[k]);
    assert p in states[m + 1].snapshots && p in states[k + 1].snapshots;
    assert states[k + 1].snapshots[p].fetchedAt < states[m + 1].snapshots[p].fetchedAt;
    hide Do;
    hide Enabled;
    if forall j :: m < j <= k ==> Forward(states[j], states[j + 1]) {
      ForwardChain(states, m + 1, k + 1);
    }
  }

  /** Only single-flight refreshes are out, and none of them holds a list older than the snapshot. */
  ghost predicate OnlyAsync(s: Sys) {
    forall w :: w in s.workers ==>
      && s.workers[w].Async?
      && (s.workers[w].job.Holding? && s.workers[w].placement in s.snapshots ==>
            s.snapshots[s.workers[w].placement].fetchedAt <= s.workers[w].job.fetchedAt)
  }

  lemma AsyncStep(s: Sys, a: Action)
    requires Inv(s) && Enabled(s, a) && OnlyAsync(s) && !a.StartPass?
    ensures OnlyAsync(Do(s, a)) && Forward(s, Do(s, a))
  {
    hide FetchOf;
    hide Exec;
    hide RegistryInv;
  }

  /** Between two passes, as from the end of the warm-up on, snapshots only move forward. */
  lemma {:induction false} ForwardBetweenPasses(states: seq<Sys>, acts: seq<Action>, j: nat, k: nat)
    requires IsRun(states, acts) && states[0] == INIT && j <= k < |states|
    requires OnlyAsync(states[j]) && forall i :: j <= i < k ==> !acts[i].StartPass?
    ensures OnlyAsync(states[k]) && Forward(states[j], states[k])
    decreases k
  {
    hide Do;
    hide Enabled;
    hide Inv;
    hide OnlyAsync;
    if k == j {
    } else {
      InvHolds(states, acts, k - 1);
      ForwardBetweenPasses(states, acts, j, k - 1);
      AsyncStep(states[k - 1], acts[k - 1]);
    }
  }

  // ---------------------------------------------------------------------------
  // Exactly when an invalidation is honoured
  // ---------------------------------------------------------------------------

  /** The in-flight refresh of p. */
  ghost predicate Flight(s: Sys, w: nat, p: Text) {
    w in s.workers && s.workers[w].Async? && s.workers[w].placement == p
  }

  /** The refresh has still to read, or has read a registry state no older than the n-th. */
  ghost predicate WillShow(s: Sys, w: nat, n: nat)
    requires w in s.workers
  {
    s.workers[w].job.Idle? || (s.workers[w].job.Holding? && s.workers[w].job.fetchedAt >= n)
  }

  /** The end of what a refresh does for its placement: the list is out, or the fetch has failed. */
  predicate Ends(a: Action, w: nat) {
    a == Publish(w) || a == FetchFails(w)
  }

  lemma FlightStep(s: Sys, a: Action, w: nat, p: Text, n: nat)
    requires Enabled(s, a) && Flight(s, w, p) && n < |s.history|
    requires !s.workers[w].job.Published? && !Ends(a, w)
    ensures Flight(Do(s, a), w, p) && n < |Do(s, a).history| && !Do(s, a).workers[w].job.Published?
    ensures WillShow(Do(s, a), w, n) <==> WillShow(s, w, n)
    ensures s.workers[w].job.Holding? ==> Do(s, a).workers[w].job.Holding?
  {
    hide FetchOf;
    hide Exec;
  }

  lemma {:induction false} FlightUntil(states: seq<Sys>, acts: seq<Action>, w: nat, p: Text, n: nat, from: nat, k: nat)
    requires IsRun(states, acts) && from <= k < |states|
    requires Flight(states[from], w, p) && n < |states[from].history| && !states[from].workers[w].job.Published?
    requires forall m :: from <= m < k ==> !Ends(acts[m], w)
    ensures Flight(states[k], w, p) && n < |states[k].history| && !states[k].workers[w].job.Published?
    ensures WillShow(states[k], w, n) <==> WillShow(states[from], w, n)
    ensures states[from].workers[w].job.Holding? ==> states[k].workers[w].job.Holding?
    decreases k
  {
    hide Do;
    hide Enabled;
    hide WillShow;
    if k == from {
    } else {
      FlightUntil(states, acts, w, p, n, from, k - 1);
      FlightStep(states[k - 1], acts[k - 1], w, p, n);
    }
  }

  /** Once its list is out the refresh does nothing for the placement any more, and no invalidation starts anything. */
  lemma {:induction false} DoneUntilReleased(states: seq<Sys>, acts: seq<Action>, w: nat, p: Text, from: nat, k: nat)
    requires IsRun(states, acts) && states[0] == INIT && from <= k < |acts|
    requires Flight(states[from], w, p) && states[from].workers[w].job.Published?
    requires forall m :: from <= m < k ==> acts[m] != Release(w)
    ensures Flight(states[k], w, p) && states[k].workers[w].job.Published?
    ensures !Ends(acts[k], w)
    ensures acts[k].RefreshAsync? && acts[k].placement == p ==> states[k + 1] == states[k]
    decreases k
  {
    hide FetchOf;
    hide Exec;
    hide RegistryInv;
    hide SnapshotInv;
    InvHolds(states, acts, k);
    if k == from {
    } else {
      DoneUntilReleased(states, acts, w, p, from, k - 1);
    }
  }

  lemma {:induction false} FirstEnd(acts: seq<Action>, w: nat, from: nat, k: nat) returns (m: nat)
    requires from <= k <= |acts| && exists j :: from <= j < k && Ends(acts[j], w)
    ensures from <= m < k && Ends(acts[m], w) && forall j :: from <= j < m ==> !Ends(acts[j], w)
    decreases k - from
  {
    if Ends(acts[from], w) {
      m := from;
    } else {
      m := FirstEnd(acts, w, from + 1, k);
    }
  }

  /** After step i and before step k the refresh w publishes a list no older than the n-th registry state. */
  ghost predicate ShowsWithin(states: seq<Sys>, acts: seq<Action>, w: nat, p: Text, n: nat, i: nat, k: nat)
    requires IsRun(states, acts) && k < |acts|
  {
    exists m :: i < m < k && acts[m] == Publish(w)
                && p in states[m + 1].snapshots && states[m + 1].snapshots[p].fetchedAt >= n
  }

  /** An invalidation arrives at i; w is then the refresh in flight, and it leaves the in-flight set at k. */
  ghost predicate Meets(states: seq<Sys>, acts: seq<Action>, i: nat, w: nat, k: nat) {
    && IsRun(states, acts) && states[0] == INIT && i < k < |acts|
    && acts[i].RefreshAsync? && Flight(states[i + 1], w, acts[i].placement)
    && acts[k] == Release(w) && forall m :: i < m < k ==> acts[m] != Release(w)
  }

  /** What the end of the refresh does, at m. */
  lemma EndOfFlight(states: seq<Sys>, acts: seq<Action>, i: nat, w: nat, m: nat, n: nat)
    requires IsRun(states, acts) && i < m < |acts| && acts[i].RefreshAsync? && n < |states[i].history|
    requires Flight(states[i + 1], w, acts[i].placement) && !states[i + 1].workers[w].job.Published?
    requires Ends(acts[m], w) && forall j :: i < j < m ==> !Ends(acts[j], w)
    ensures Flight(states[m + 1], w, acts[i].placement) && states[m + 1].workers[w].job.Published?
    ensures acts[m] == FetchFails(w) ==> states[i + 1].workers[w].job.Idle?
    ensures acts[m] == Publish(w) ==>
              && acts[i].placement in states[m + 1].snapshots
              && (states[m + 1].snapshots[acts[i].placement].fetchedAt >= n <==> WillShow(states[i + 1], w, n))
  {
    hide FetchOf;
    hide Exec;
    assert Enabled(states[i], acts[i]) && states[i + 1] == Do(states[i], acts[i]);
    assert n < |states[i + 1].history|;
    FlightUntil(states, acts, w, acts[i].placement, n, i + 1, m);
    assert Enabled(states[m], acts[m]) && states[m + 1] == Do(states[m], acts[m]);
  }

  lemma NoEndAfter(states: seq<Sys>, acts: seq<Action>, w: nat, p: Text, from: nat, k: nat)
    requires IsRun(states, acts) && states[0] == INIT && from <= k < |acts|
    requires Flight(states[from], w, p) && states[from].workers[w].job.Published?
    requires forall m :: from <= m < k ==> acts[m] != Release(w)
    ensures forall m :: from <= m < k ==> !Ends(acts[m], w)
  {
    hide Do;
    hide Enabled;
    forall m | from <= m < k
      ensures !Ends(acts[m], w)
    {
      DoneUntilReleased(states, acts, w, p, from, m);
    }
  }

  /** A refresh leaves the in-flight set only when it has ended. */
  lemma EndsBeforeRelease(states: seq<Sys>, acts: seq<Action>, i: nat, w: nat, k: nat)
    requires Meets(states, acts, i, w, k) && !states[i + 1].workers[w].job.Published?
    ensures exists m :: i < m < k && Ends(acts[m], w)
  {
    hide FetchOf;
    hide Exec;
    assert Enabled(states[i], acts[i]) && states[i + 1] == Do(states[i], acts[i]);
    assert Enabled(states[k], acts[k]);
    if forall m :: i < m < k ==> !Ends(acts[m], w) {
      FlightUntil(states, acts, w, acts[i].placement, 0, i + 1, k);
    }
  }

  /**
  The refresh that an invalidation starts or meets shows what the registry held
  then if and only if it had not read yet, or had read no older a registry, and
  its fetch goes through.
  */
  lemma InvalidationHonouredIff(states: seq<Sys>, acts: seq<Action>, i: nat, w: nat, k: nat)
    requires Meets(states, acts, i, w, k)
    ensures ShowsWithin(states, acts, w, acts[i].placement, |states[i].history| - 1, i, k)
       <==> WillShow(states[i + 1], w, |states[i].history| - 1) && forall m :: i < m < k ==> acts[m] != FetchFails(w)
  {
    var p, n := acts[i].placement, |states[i].history| - 1;
    assert Enabled(states[i], acts[i]);
    hide Do;
    hide Enabled;
    if states[i + 1].workers[w].job.Published? {
      NoEndAfter(states, acts, w, p, i + 1, k);
    } else {
      EndsBeforeRelease(states, acts, i, w, k);
      var m := FirstEnd(acts, w, i + 1, k);
      EndOfFlight(states, acts, i, w, m, n);
      NoEndAfter(states, acts, w, p, m + 1, k);
      assert forall j :: i < j < k && Ends(acts[j], w) ==> j == m;
    }
  }

  // ---------------------------------------------------------------------------
  // The age of the data
  // ---------------------------------------------------------------------------

  /**
  The reported age counts from the publication: it is short of the age of the
  data by the time between the fetch and the publication, and right if and only
  if none has passed.
  */
  lemma ReportedAgeIsShort(states: seq<Sys>, acts: seq<Action>, w: nat, f: nat, k: nat,
                           policy: Cache.CachePolicy, now: int)
    requires Delivers(states, acts, w, f, k) && states[0] == INIT
    ensures w in states[f].workers && states[f].workers[w].HasTarget()
    ensures var p := states[f].workers[w].Target();
            && p in states[k + 1].snapshots
            && var snap := states[k + 1].snapshots[p];
               var reported := Cache.StateOf(Cache.BidList(snap.bids, snap.refreshedAt), policy, now).age;
               && snap.bids == FetchOf(Now(states[f]), p)
               && reported <= now - states[f].now
               && (reported == now - states[f].now <==> states[k].now == states[f].now)
  {
    hide FetchOf;
    hide Exec;
    HeldOnTheWay(states, acts, w, f, k, k);
    InvHolds(states, acts, k);
    assert Enabled(states[k], acts[k]) && states[k + 1] == Do(states[k], acts[k]);
  }

  // ---------------------------------------------------------------------------
  // Runs in which these things happen
  // ---------------------------------------------------------------------------

  lemma ListOfOne(bid: Bid)
    requires Valid(bid)
    ensures var r := Index(EMPTY, bid.placementId);
            FetchOf(r, bid.placementId) == [] && FetchOf(Exec(r, Put(bid)), bid.placementId) == [bid]
  {
    var r := Index(EMPTY, bid.placementId);
    var r' := Exec(r, Put(bid));
    assert Live(r, bid.placementId) == {};
    assert r'.active == map[Key(bid.placementId, bid.id) := bid];
    assert Live(r', bid.placementId) == {bid};
    ListOfIsListing({bid});
    ListingIsUnique(ListOf({bid}), [bid], {bid});
  }

  /** The states that a list of actions leads to. */
  ghost predicate Leads(s: Sys, acts: seq<Action>, s': Sys)
    decreases |acts|
  {
    if acts == [] then s == s'
    else Enabled(s, acts[0]) && Leads(Do(s, acts[0]), acts[1..], s')
  }

  lemma {:induction false} LeadsIsRun(s: Sys, acts: seq<Action>, s': Sys) returns (states: seq<Sys>)
    requires Leads(s, acts, s')
    ensures IsRun(states, acts) && states[0] == s && states[|acts|] == s'
    decreases |acts|
  {
    if acts == [] {
      states := [s];
    } else {
      var rest := LeadsIsRun(Do(s, acts[0]), acts[1..], s');
      states := [s] + rest;
      forall i | 0 <= i < |acts|
        ensures Enabled(states[i], acts[i]) && states[i + 1] == Do(states[i], acts[i])
      {
        if i > 0 {
          assert acts[i] == acts[1..][i - 1] && states[i] == rest[i - 1] && states[i + 1] == rest[i];
        }
      }
    }
  }

  lemma LeadsStep(s: Sys, a: Action, rest: seq<Action>, s': Sys)
    requires Enabled(s, a) && Leads(Do(s, a), rest, s')
    ensures Leads(s, [a] + rest, s')
  {
    assert ([a] + rest)[1..] == rest;
  }

  /** An old fetch in the hands of a single-flight refresh, and the bid written meanwhile. */
  function Behind(bid: Bid): Sys {
    var p := bid.placementId;
    var r := Index(EMPTY, p);
    Sys([EMPTY, r, Exec(r, Put(bid))], [Put(bid)], map[0 := Put(bid)], map[], {p},
        map[0 := Async(p, Holding([], 1, 0))], 0)
  }

  lemma BehindIsReached(bid: Bid)
    requires Valid(bid)
    ensures Leads(INIT, [Begin(0, Put(bid)), RefreshAsync(0, bid.placementId), Fetch(0), Script(0)], Behind(bid))
  {
    hide FetchOf;
    hide Exec;
    var p, op := bid.placementId, Put(bid);
    var r := Index(EMPTY, p);
    ListOfOne(bid);
    var s1 := Sys([EMPTY, r], [], map[0 := op], map[], {}, map[], 0);
    var s2 := s1.(inflight := {p}, workers := map[0 := Async(p, Idle)]);
    var s3 := s2.(workers := map[0 := Async(p, Holding([], 1, 0))]);
    assert Do(INIT, Begin(0, op)) == s1 && Do(s1, RefreshAsync(0, p)) == s2 && Do(s2, Fetch(0)) == s3;
    assert Do(s3, Script(0)) == Behind(bid);
    hide Do;
    hide Behind;
    assert Leads(Behind(bid), [], Behind(bid));
    LeadsStep(s3, Script(0), [], Behind(bid));
    LeadsStep(s2, Fetch(0), [Script(0)], Behind(bid));
    LeadsStep(s1, RefreshAsync(0, p), [Fetch(0), Script(0)], Behind(bid));
    LeadsStep(INIT, Begin(0, op), [RefreshAsync(0, p), Fetch(0), Script(0)], Behind(bid));
  }

  lemma {:induction false} LeadsAppend(s: Sys, acts: seq<Action>, m: Sys, more: seq<Action>, s': Sys)
    requires Leads(s, acts, m) && Leads(m, more, s')
    ensures Leads(s, acts + more, s')
    decreases |acts|
  {
    hide Do;
    hide Enabled;
    if acts == [] {
      assert acts + more == more;
    } else {
      LeadsAppend(Do(s, acts[0]), acts[1..], m, more, s');
      assert (acts + more)[1..] == acts[1..] + more;
    }
  }

  /** A whole reconcile pass sees and publishes the new bid while the old fetch is still around. */
  function Reconciled(bid: Bid): Sys {
    Behind(bid).(snapshots := map[bid.placementId := Snap([bid], 2, 0, 0)])
  }

  function Reread(bid: Bid): Sys {
    Behind(bid).(workers := Behind(bid).workers[1 := Pass([bid.placementId], Holding([bid], 2, 0))])
  }

  lemma PassReads(bid: Bid)
    requires Valid(bid)
    ensures Leads(Behind(bid), [StartPass(1, [bid.placementId]), Fetch(1)], Reread(bid))
  {
    hide FetchOf;
    hide Exec;
    var p, s0, s2 := bid.placementId, Behind(bid), Reread(bid);
    ListOfOne(bid);
    PlayOneMore(Index(EMPTY, p), [], Put(bid));
    assert Now(s0).placements == {p};
    var s1 := s0.(workers := s0.workers[1 := Pass([p], Idle)]);
    assert Do(s0, StartPass(1, [p])) == s1 && Do(s1, Fetch(1)) == s2;
    hide Do;
    hide Behind;
    hide Reread;
    LeadsStep(s1, Fetch(1), [], s2);
    LeadsStep(s0, StartPass(1, [p]), [Fetch(1)], s2);
  }

  lemma PassOvertakes(bid: Bid)
    requires Valid(bid)
    ensures Leads(Behind(bid), [StartPass(1, [bid.placementId]), Fetch(1), Publish(1), FinishPass(1)], Reconciled(bid))
  {
    hide FetchOf;
    hide Exec;
    var p, s2, s4 := bid.placementId, Reread(bid), Reconciled(bid);
    var s3 := s4.(workers := s4.workers[1 := Pass([], Idle)]);
    assert [p][1..] == [];
    assert Do(s2, Publish(1)) == s3 && Do(s3, FinishPass(1)) == s4;
    PassReads(bid);
    hide Do;
    hide Behind;
    hide Reread;
    hide Reconciled;
    LeadsStep(s3, FinishPass(1), [], s4);
    LeadsStep(s2, Publish(1), [FinishPass(1)], s4);
    LeadsAppend(Behind(bid), [StartPass(1, [p]), Fetch(1)], s2, [Publish(1), FinishPass(1)], s4);
  }

  /** The old fetch comes out one tick after the pass. */
  function Overwritten(bid: Bid): Sys {
    Reconciled(bid).(now := 1, workers := map[0 := Async(bid.placementId, Published)],
                     snapshots := map[bid.placementId := Snap([], 1, 0, 1)])
  }

  lemma OldFetchComesLate(bid: Bid)
    requires Valid(bid)
    ensures var s8 := Reconciled(bid);
            var s9 := s8.(now := 1);
            && s8.history != [] && Enabled(s8, Tick(1)) && Do(s8, Tick(1)) == s9
            && Enabled(s9, Publish(0)) && Do(s9, Publish(0)) == Overwritten(bid)
  {
    hide FetchOf;
    hide Exec;
  }

  /**
  A reconcile pass publishes without the in-flight guard, so an older fetch can
  replace a newer one, even after the pass has succeeded, and looks younger.
  */
  lemma SnapshotsGoBackwards(bid: Bid) returns (states: seq<Sys>, acts: seq<Action>)
    requires Valid(bid)
    ensures IsRun(states, acts) && states[0] == INIT
    ensures |acts| == 10 && acts[4].StartPass? && acts[7] == FinishPass(acts[4].worker)
    ensures var p, s, s' := bid.placementId, states[8], states[10];
            && p in s.snapshots && s.snapshots[p].bids == [bid]
            && p in s'.snapshots && s'.snapshots[p].bids == []
            && s'.snapshots[p].fetchedAt < s.snapshots[p].fetchedAt
            && s'.snapshots[p].refreshedAt > s.snapshots[p].refreshedAt
  {
    hide FetchOf;
    hide Exec;
    var p, s8 := bid.placementId, Reconciled(bid);
    var s9, s10 := s8.(now := 1), Overwritten(bid);
    BehindIsReached(bid);
    PassOvertakes(bid);
    OldFetchComesLate(bid);
    hide Do;
    hide Enabled;
    hide Behind;
    var start := [Begin(0, Put(bid)), RefreshAsync(0, p), Fetch(0), Script(0)];
    var rest := [StartPass(1, [p]), Fetch(1), Publish(1), FinishPass(1)];
    LeadsAppend(INIT, start, Behind(bid), rest, s8);
    var front := LeadsIsRun(INIT, start + rest, s8);
    states, acts := front + [s9, s10], start + rest + [Tick(1), Publish(0)];
    forall i | 0 <= i < |acts|
      ensures Enabled(states[i], acts[i]) && states[i + 1] == Do(states[i], acts[i])
    {
      if i < 8 {
        assert states[i] == front[i] && states[i + 1] == front[i + 1] && acts[i] == (start + rest)[i];
      }
    }
  }

  /**
  An invalidation that arrives while a refresh is in flight starts nothing: the
  bid written meanwhile can stay unseen although everyone has finished.
  */
  lemma InvalidationCanBeLost(bid: Bid) returns (states: seq<Sys>, acts: seq<Action>)
    requires Valid(bid)
    ensures IsRun(states, acts) && states[0] == INIT
    ensures |acts| == 8 && acts[3] == Script(0) && acts[4] == RefreshAsync(1, bid.placementId)
    ensures var s := states[|acts|];
            && s.history != [] && s.workers == map[] && s.inflight == {} && s.pending == map[]
            && FetchOf(Now(s), bid.placementId) == [bid]
            && bid.placementId in s.snapshots && s.snapshots[bid.placementId].bids == []
  {
    hide FetchOf;
    hide Exec;
    var p := bid.placementId;
    BehindIsReached(bid);
    ListOfOne(bid);
    var s0 := Behind(bid);
    var s1 := s0.(workers := map[0 := Async(p, Published)], snapshots := map[p := Snap([], 1, 0, 0)]);
    var s2 := s1.(workers := map[], inflight := {});
    var s3 := s2.(pending := map[]);
    assert Do(s0, RefreshAsync(1, p)) == s0 && Do(s0, Publish(0)) == s1;
    assert Do(s1, Release(0)) == s2 && Do(s2, Retire(0)) == s3;
    hide Do;
    hide Behind;
    var start := [Begin(0, Put(bid)), RefreshAsync(0, p), Fetch(0), Script(0)];
    LeadsStep(s2, Retire(0), [], s3);
    LeadsStep(s1, Release(0), [Retire(0)], s3);
    LeadsStep(s0, Publish(0), [Release(0), Retire(0)], s3);
    LeadsStep(s0, RefreshAsync(1, p), [Publish(0), Release(0), Retire(0)], s3);
    LeadsAppend(INIT, start, s0, [RefreshAsync(1, p), Publish(0), Release(0), Retire(0)], s3);
    acts := start + [RefreshAsync(1, p), Publish(0), Release(0), Retire(0)];
    states := LeadsIsRun(INIT, acts, s3);
  }

  lemma TimeGrows(s: Sys, a: Action)
    requires Enabled(s, a)
    ensures s.now <= Do(s, a).now
  {
    hide FetchOf;
    hide Exec;
  }

  /**
  With `NoBidOnStale` and any age limit: a list read longer ago than the limit,
  and outdated ever since, is served as fresh.
  */
  lemma OldDataIsServed(bid: Bid, policy: Cache.CachePolicy) returns (states: seq<Sys>, acts: seq<Action>)
    requires Valid(bid) && policy.Valid() && policy.staleAction.NoBidOnStale?
    ensures IsRun(states, acts) && states[0] == INIT
    ensures |acts| == 6 && acts[2] == Fetch(0) && acts[3] == Script(0) && acts[5] == Publish(0)
    ensures var p, s := bid.placementId, states[6];
            && s.history != [] && FetchOf(Now(s), p) == [bid]
            && p in s.snapshots && s.snapshots[p].bids == []
            && s.now - states[2].now > policy.maxSnapshotAge
            && !Cache.StateOf(Cache.BidList([], s.snapshots[p].refreshedAt), policy, s.now).rejectStale
  {
    hide FetchOf;
    hide Exec;
    var p, s4 := bid.placementId, Behind(bid);
    BehindIsReached(bid);
    ListOfOne(bid);
    var late := policy.maxSnapshotAge + 1;
    var s5 := s4.(now := late);
    var s6 := s5.(workers := map[0 := Async(p, Published)], snapshots := map[p := Snap([], 1, 0, late)]);
    assert Do(s4, Tick(late)) == s5 && Do(s5, Publish(0)) == s6;
    assert Enabled(s4, Tick(late)) && Enabled(s5, Publish(0));
    hide Do;
    hide Enabled;
    hide Behind;
    var start := [Begin(0, Put(bid)), RefreshAsync(0, p), Fetch(0), Script(0)];
    var front := LeadsIsRun(INIT, start, s4);
    states, acts := front + [s5, s6], start + [Tick(late), Publish(0)];
    forall i | 0 <= i < |acts|
      ensures Enabled(states[i], acts[i]) && states[i + 1] == Do(states[i], acts[i])
    {
      if i < 4 {
        assert states[i] == front[i] && states[i + 1] == front[i + 1] && acts[i] == start[i];
      }
    }
    TimeGrows(states[2], acts[2]);
    TimeGrows(states[3], acts[3]);
  }
}
