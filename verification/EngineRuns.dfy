/**
Facts about whole runs of the DSP engine: where cached bids come from, exactly
when a refresh replaces a live entry, and what its breakers go through.
*/
module EngineRuns {
  import opened Types
  import opened Dynamic
  import opened DynamicCache
  import opened Engine
  import Breaker

  // ---------------------------------------------------------------------------
  // Stores
  // ---------------------------------------------------------------------------

  predicate Stores(s: Sys, a: Action, key: Text) {
    a.Store? && a.accepted && a.r in s.refreshes && s.refreshes[a.r].key == key
  }

  lemma StoreStep(c: Config, s: Sys, a: Action, key: Text)
    requires Enabled(c, s, a)
    ensures Found(Do(c, s, a), key) == if Stores(s, a, key) then Some(Result(c, s.refreshes[a.r], a.now))
                                       else Found(s, key)
    ensures s.clock <= Do(c, s, a).clock
    ensures a.Check? || a.Store? ==> s.clock <= a.now == Do(c, s, a).clock
  {
    hide Breaker.Grants;
    hide Breaker.Moved;
    hide Result;
    hide Outcome;
    hide CacheKey;
  }

  /** The entry that the step m stores under the key is still there at k. */
  ghost predicate LastStore(states: seq<Sys>, acts: seq<Action>, key: Text, m: nat, k: nat) {
    && m < k <= |acts| < |states|
    && Stores(states[m], acts[m], key)
    && forall j :: m < j < k ==> !Stores(states[j], acts[j], key)
  }

  lemma {:induction false} FoundSince(c: Config, states: seq<Sys>, acts: seq<Action>, key: Text, from: nat, k: nat)
    requires IsRun(c, states, acts) && from <= k < |states|
    requires forall j :: from <= j < k ==> !Stores(states[j], acts[j], key)
    ensures Found(states[k], key) == Found(states[from], key)
    decreases k
  {
    hide Do;
    hide Enabled;
    hide Stores;
    hide Found;
    if k == from {
    } else {
      FoundSince(c, states, acts, key, from, k - 1);
      StoreStep(c, states[k - 1], acts[k - 1], key);
    }
  }

  lemma StandsUntil(c: Config, states: seq<Sys>, acts: seq<Action>, key: Text, m: nat, k: nat)
    requires IsRun(c, states, acts) && LastStore(states, acts, key, m, k)
    ensures Found(states[k], key) == Some(Result(c, states[m].refreshes[acts[m].r], acts[m].now))
  {
    hide Do;
    hide Enabled;
    hide Found;
    hide Result;
    StoreStep(c, states[m], acts[m], key);
    FoundSince(c, states, acts, key, m + 1, k);
  }

  lemma StoredIsFound(c: Config, states: seq<Sys>, acts: seq<Action>, key: Text, m: nat, k: nat)
    requires IsRun(c, states, acts) && LastStore(states, acts, key, m, k)
    ensures key in states[m + 1].cache && Found(states[k], key) == Some(states[m + 1].cache[key])
  {
    hide Do;
    hide Enabled;
    hide Result;
    StandsUntil(c, states, acts, key, m, k);
    StandsUntil(c, states, acts, key, m, m + 1);
  }

  lemma {:induction false} LatestStore(states: seq<Sys>, acts: seq<Action>, key: Text, from: nat, k: nat)
    returns (m: nat)
    requires from <= k <= |acts| < |states|
    requires exists j :: from <= j < k && Stores(states[j], acts[j], key)
    ensures from <= m && LastStore(states, acts, key, m, k)
    decreases k
  {
    hide Stores;
    if Stores(states[k - 1], acts[k - 1], key) {
      m := k - 1;
    } else {
      m := LatestStore(states, acts, key, from, k - 1);
    }
  }

  lemma {:induction false} ClockGrows(c: Config, states: seq<Sys>, acts: seq<Action>, from: nat, k: nat)
    requires IsRun(c, states, acts) && from <= k < |states|
    ensures states[from].clock <= states[k].clock
    decreases k
  {
    hide Do;
    hide Enabled;
    if k == from {
    } else {
      ClockGrows(c, states, acts, from, k - 1);
      StoreStep(c, states[k - 1], acts[k - 1], []);
    }
  }

  // ---------------------------------------------------------------------------
  // Exactly when a refresh replaces a live entry
  // ---------------------------------------------------------------------------

  predicate Starts(a: Action, r: nat) {
    a.Check? && a.r == r
  }

  lemma RefreshStep(c: Config, s: Sys, a: Action, r: nat)
    requires Enabled(c, s, a) && r in Do(c, s, a).refreshes && !Starts(a, r)
    ensures r in s.refreshes
    ensures var f, f' := s.refreshes[r], Do(c, s, a).refreshes[r];
            && f'.key == f.key && f'.request == f.request
            && (!f.phase.Checked? ==> !f'.phase.Checked? && f'.seen == f.seen)
  {
    hide Breaker.Grants;
    hide Breaker.Moved;
    hide Result;
    hide Outcome;
    hide CacheKey;
  }

  /** What a refresh goroutine keeps from m to k. */
  lemma {:induction false} Persists(c: Config, states: seq<Sys>, acts: seq<Action>, r: nat, m: nat, k: nat)
    requires IsRun(c, states, acts) && m <= k < |states| && r in states[k].refreshes
    requires forall j :: m <= j < k ==> !Starts(acts[j], r)
    ensures r in states[m].refreshes
    ensures var f, f' := states[m].refreshes[r], states[k].refreshes[r];
            && f'.key == f.key && f'.request == f.request
            && (!f.phase.Checked? ==> !f'.phase.Checked? && f'.seen == f.seen)
    decreases k
  {
    hide Do;
    hide Enabled;
    if k == m {
    } else {
      RefreshStep(c, states[k - 1], acts[k - 1], r);
      Persists(c, states, acts, r, m, k - 1);
    }
  }

  /** The goroutine r tests the cache at i, claims the key at j and stores at k. */
  ghost predicate Lifetime(c: Config, states: seq<Sys>, acts: seq<Action>, r: nat, i: nat, j: nat, k: nat) {
    && IsRun(c, states, acts) && states[0] == Init(c) && i < j < k < |acts|
    && Starts(acts[i], r) && acts[j] == Claim(r) && acts[k].Store? && acts[k].r == r
    && forall m :: i < m < k ==> !Starts(acts[m], r)
  }

  /** From the claim on nobody else stores under the key. */
  lemma UntouchedSinceClaim(c: Config, states: seq<Sys>, acts: seq<Action>, r: nat, i: nat, j: nat, k: nat)
    requires Lifetime(c, states, acts, r, i, j, k)
    ensures r in states[k].refreshes && states[k].refreshes[r].key == CacheKey(acts[i].request)
    ensures Found(states[k], CacheKey(acts[i].request)) == Found(states[j], CacheKey(acts[i].request))
  {
    hide CacheKey;
    hide Result;
    hide Outcome;
    assert Enabled(c, states[i], acts[i]) && states[i + 1] == Do(c, states[i], acts[i]);
    assert Enabled(c, states[j], acts[j]) && states[j + 1] == Do(c, states[j], acts[j]);
    assert Enabled(c, states[k], acts[k]);
    hide Do;
    Persists(c, states, acts, r, j + 1, k);
    Persists(c, states, acts, r, i + 1, k);
    Persists(c, states, acts, r, i + 1, j);
    InvHolds(c, states, acts, k);
    assert CacheInv(states[k]);
  }

  /** Until its claim a goroutine stores nothing. */
  lemma OthersStoreBeforeClaim(c: Config, states: seq<Sys>, acts: seq<Action>, r: nat, i: nat, j: nat, k: nat, m: nat)
    requires Lifetime(c, states, acts, r, i, j, k) && i < m < j
    ensures !(acts[m].Store? && acts[m].r == r)
  {
    assert Enabled(c, states[j], acts[j]) && Enabled(c, states[m], acts[m]);
    hide Do;
    Persists(c, states, acts, r, m, j);
  }

  /** What the test at i found is not live at k either, and what is live at k is not refused a new entry. */
  lemma CheckedStale(c: Config, states: seq<Sys>, acts: seq<Action>, r: nat, i: nat, j: nat, k: nat)
    requires Lifetime(c, states, acts, r, i, j, k)
    ensures !Fresh(states[i], CacheKey(acts[i].request), acts[k].now) && !acts[i].Store?
    ensures r in states[k].refreshes
    ensures Fresh(states[k], states[k].refreshes[r].key, acts[k].now) ==> acts[k].accepted
  {
    hide CacheKey;
    hide Result;
    assert Enabled(c, states[i], acts[i]);
    assert Enabled(c, states[k], acts[k]);
    StoreStep(c, states[i], acts[i], []);
    StoreStep(c, states[k], acts[k], []);
    ClockGrows(c, states, acts, i + 1, k);
  }

  /**
  What a refresh replaces is live if and only if another refresh has stored it
  between this one's test of the cache and its claim, and it has not expired.
  Live entries are always replaced.
  */
  lemma OverwritesLiveIff(c: Config, states: seq<Sys>, acts: seq<Action>, r: nat, i: nat, j: nat, k: nat)
    requires Lifetime(c, states, acts, r, i, j, k)
    ensures var key, now := CacheKey(acts[i].request), acts[k].now;
            && (Fresh(states[k], key, now) <==>
                  exists m: nat :: i < m && LastStore(states, acts, key, m, j) && acts[m].r != r
                              && key in states[m + 1].cache && now < states[m + 1].cache[key].expires)
            && (Fresh(states[k], key, now) ==> Stores(states[k], acts[k], key))
  {
    hide CacheKey;
    hide Do;
    var key, now := CacheKey(acts[i].request), acts[k].now;
    CheckedStale(c, states, acts, r, i, j, k);
    UntouchedSinceClaim(c, states, acts, r, i, j, k);
    hide Enabled;
    if forall m :: i <= m < j ==> !Stores(states[m], acts[m], key) {
      FoundSince(c, states, acts, key, i, j);
    } else {
      var m := LatestStore(states, acts, key, i, j);
      StoredIsFound(c, states, acts, key, m, j);
      OthersStoreBeforeClaim(c, states, acts, r, i, j, k, m);
      assert forall m': nat :: LastStore(states, acts, key, m', j) ==> m' == m;
    }
  }

  // ---------------------------------------------------------------------------
  // Where cached bids come from
  // ---------------------------------------------------------------------------

  /** The requests that were triggered before step n. */
  ghost function Asked(acts: seq<Action>, n: nat): set<AuctionRequest>
    requires n <= |acts|
  {
    set m | 0 <= m < n && acts[m].Check? :: acts[m].request
  }

  lemma AskedNext(acts: seq<Action>, n: nat)
    requires n < |acts|
    ensures Asked(acts, n + 1) == if acts[n].Check? then Asked(acts, n) + {acts[n].request} else Asked(acts, n)
  {
  }

  ghost predicate KeyedInv(asked: set<AuctionRequest>, s: Sys) {
    KeyedRefreshes(asked, s) && KeyedWorkers(s)
  }

  ghost predicate KeyedRefreshes(asked: set<AuctionRequest>, s: Sys) {
    forall r :: r in s.refreshes ==>
      s.refreshes[r].key == CacheKey(s.refreshes[r].request) && s.refreshes[r].request in asked
  }

  /** A worker carries the request of its refresh. */
  ghost predicate KeyedWorkers(s: Sys) {
    forall w :: w in s.workers ==>
      s.workers[w].refresh in s.refreshes && s.workers[w].request == s.refreshes[s.workers[w].refresh].request
  }

  lemma StartStep(c: Config, s: Sys, a: Action, r: nat)
    requires Enabled(c, s, a) && Starts(a, r)
    ensures r in Do(c, s, a).refreshes
    ensures Do(c, s, a).refreshes[r].request == a.request && Do(c, s, a).refreshes[r].key == CacheKey(a.request)
  {
    hide CacheKey;
  }

  lemma KeyedRefreshesStep(c: Config, s: Sys, a: Action, asked: set<AuctionRequest>)
    requires Enabled(c, s, a) && KeyedRefreshes(asked, s)
    ensures KeyedRefreshes(if a.Check? then asked + {a.request} else asked, Do(c, s, a))
  {
    forall r | r in Do(c, s, a).refreshes
      ensures Do(c, s, a).refreshes[r].key == CacheKey(Do(c, s, a).refreshes[r].request)
      ensures Do(c, s, a).refreshes[r].request in if a.Check? then asked + {a.request} else asked
    {
      if Starts(a, r) {
        StartStep(c, s, a, r);
      } else {
        RefreshStep(c, s, a, r);
      }
    }
    hide Do;
    hide Enabled;
    hide CacheKey;
  }

  /** Where a worker stands may change, whose it is does not. */
  lemma WorkerStep(c: Config, s: Sys, a: Action, w: nat)
    requires Enabled(c, s, a) && w in Do(c, s, a).workers
    ensures var x := Do(c, s, a).workers[w];
            if w in s.workers then s.workers[w].refresh == x.refresh && s.workers[w].request == x.request
            else x.refresh in s.refreshes && s.refreshes[x.refresh].request == x.request
  {
    hide Breaker.Grants;
    hide Breaker.Moved;
    hide Result;
    hide Outcome;
    hide CacheKey;
  }

  lemma KeyedWorkersStep(c: Config, s: Sys, a: Action)
    requires HomeInv(s) && Enabled(c, s, a) && KeyedWorkers(s)
    ensures KeyedWorkers(Do(c, s, a))
  {
    HomeStep(c, s, a);
    forall w | w in Do(c, s, a).workers
      ensures Do(c, s, a).workers[w].refresh in Do(c, s, a).refreshes
      ensures Do(c, s, a).workers[w].request == Do(c, s, a).refreshes[Do(c, s, a).workers[w].refresh].request
    {
      WorkerStep(c, s, a, w);
      SameRequest(c, s, a, Do(c, s, a).workers[w].refresh);
    }
    hide Do;
    hide Enabled;
  }

  lemma SameRequest(c: Config, s: Sys, a: Action, r: nat)
    requires Enabled(c, s, a) && r in Do(c, s, a).refreshes && r in s.refreshes
    ensures Do(c, s, a).refreshes[r].request == s.refreshes[r].request
  {
    RefreshStep(c, s, a, r);
  }

  lemma {:induction false} KeyedAlways(c: Config, states: seq<Sys>, acts: seq<Action>, k: nat)
    requires IsRun(c, states, acts) && states[0] == Init(c) && k < |states|
    ensures KeyedInv(Asked(acts, k), states[k])
    decreases k
  {
    hide Do;
    hide Enabled;
    hide Asked;
    hide HomeInv;
    hide KeyedRefreshes;
    hide KeyedWorkers;
    if k == 0 {
      NobodyYet(c, Asked(acts, 0));
    } else {
      KeyedAlways(c, states, acts, k - 1);
      HomeAlways(c, states, acts, k - 1);
      KeyedRefreshesStep(c, states[k - 1], acts[k - 1], Asked(acts, k - 1));
      KeyedWorkersStep(c, states[k - 1], acts[k - 1]);
      AskedNext(acts, k - 1);
    }
  }

  lemma NobodyYet(c: Config, asked: set<AuctionRequest>)
    ensures KeyedInv(asked, Init(c))
  {
  }

  lemma HomeAlways(c: Config, states: seq<Sys>, acts: seq<Action>, k: nat)
    requires IsRun(c, states, acts) && states[0] == Init(c) && k < |states|
    ensures HomeInv(states[k])
  {
    hide Do;
    hide Enabled;
    InvHolds(c, states, acts, k);
  }

  /** At step j a worker of refresh r reports, for this request, an answer that comes out as this result. */
  ghost predicate OwnReport(c: Config, states: seq<Sys>, acts: seq<Action>, j: nat, r: nat, request: AuctionRequest,
                            result: BidderResult)
  {
    && j < |acts| < |states| && acts[j].Report? && acts[j].w in states[j].workers
    && var x := states[j].workers[acts[j].w];
       && x.refresh == r && x.request == request && x.bidder < |c.bidders|
       && match acts[j].answer
          case None => !result.success && result.bids == []
          case Some(bids) =>
            result.success && result.bids == Sanitized(c.bidders[x.bidder].id, request.placementId, bids)
  }

  ghost predicate Told(c: Config, states: seq<Sys>, acts: seq<Action>, n: nat, r: nat, request: AuctionRequest,
                       result: BidderResult)
  {
    exists j: nat :: j < n && OwnReport(c, states, acts, j, r, request, result)
  }

  /** Every result on its way or in a channel was reported by a worker of that refresh. */
  ghost predicate ResultsInv(c: Config, states: seq<Sys>, acts: seq<Action>, k: nat)
    requires k < |states|
  {
    && (forall w :: w in states[k].workers && states[k].workers[w].stage.Reported? ==>
          var x := states[k].workers[w]; Told(c, states, acts, k, x.refresh, x.request, x.stage.result))
    && (forall r, result :: r in states[k].refreshes && result in states[k].refreshes[r].results ==>
          Told(c, states, acts, k, r, states[k].refreshes[r].request, result))
  }

  lemma ReportedStep(c: Config, s: Sys, a: Action, w: nat)
    requires Enabled(c, s, a) && w in Do(c, s, a).workers && Do(c, s, a).workers[w].stage.Reported?
    ensures w in s.workers
    ensures if a.Report? && a.w == w
            then s.workers[w].bidder < |c.bidders|
                 && Do(c, s, a).workers[w] == s.workers[w].(stage := Reported(Outcome(c, s.workers[w], a.answer)))
            else Do(c, s, a).workers[w] == s.workers[w]
  {
    hide Breaker.Grants;
    hide Breaker.Moved;
    hide Result;
    hide Outcome;
    hide CacheKey;
  }

  lemma ChannelStep(c: Config, s: Sys, a: Action, r: nat)
    requires Enabled(c, s, a) && r in Do(c, s, a).refreshes
    ensures Starts(a, r) ==> Do(c, s, a).refreshes[r].results == []
    ensures !Starts(a, r) ==>
              && r in s.refreshes && Do(c, s, a).refreshes[r].request == s.refreshes[r].request
              && Do(c, s, a).refreshes[r].results
                 == s.refreshes[r].results
                    + if a.Send? && s.workers[a.w].refresh == r then [s.workers[a.w].stage.result] else []
  {
    hide Breaker.Grants;
    hide Breaker.Moved;
    hide Result;
    hide Outcome;
    hide CacheKey;
  }

  lemma ResultsStep(c: Config, states: seq<Sys>, acts: seq<Action>, k: nat)
    requires IsRun(c, states, acts) && k < |acts| && ResultsInv(c, states, acts, k)
    requires KeyedWorkers(states[k])
    ensures ResultsInv(c, states, acts, k + 1)
  {
    var s, s', a := states[k], states[k + 1], acts[k];
    assert Enabled(c, s, a) && s' == Do(c, s, a);
    hide Do;
    hide Outcome;
    hide CacheKey;
    forall w | w in s'.workers && s'.workers[w].stage.Reported?
      ensures Told(c, states, acts, k + 1, s'.workers[w].refresh, s'.workers[w].request, s'.workers[w].stage.result)
    {
      ReportedStep(c, s, a, w);
      if a.Report? && a.w == w {
        assert OwnReport(c, states, acts, k, s'.workers[w].refresh, s'.workers[w].request, s'.workers[w].stage.result);
      }
    }
    forall r, result | r in s'.refreshes && result in s'.refreshes[r].results
      ensures Told(c, states, acts, k + 1, r, s'.refreshes[r].request, result)
    {
      ChannelStep(c, s, a, r);
      if result !in s.refreshes[r].results {
        assert Told(c, states, acts, k, r, s.workers[a.w].request, result);
      }
    }
  }

  lemma {:induction false} ResultsAlways(c: Config, states: seq<Sys>, acts: seq<Action>, k: nat)
    requires IsRun(c, states, acts) && states[0] == Init(c) && k < |states|
    ensures ResultsInv(c, states, acts, k)
    decreases k
  {
    hide Do;
    hide Enabled;
    if k == 0 {
    } else {
      ResultsAlways(c, states, acts, k - 1);
      KeyedAlways(c, states, acts, k - 1);
      ResultsStep(c, states, acts, k - 1);
    }
  }

  /**
  A refresh for this triggered request has stored this entry, and its own workers
  have reported all that went into it.
  */
  ghost predicate StoredFor(c: Config, states: seq<Sys>, acts: seq<Action>, k: nat, key: Text, entry: Entry,
                            request: AuctionRequest, m: nat)
  {
    && m < k <= |acts| < |states| && acts[m].Store? && acts[m].r in states[m].refreshes
    && request in Asked(acts, m) && key == CacheKey(request)
    && var f := states[m].refreshes[acts[m].r];
       && f.request == request
       && entry.bids == Merged(f.results)
       && entry.expires == acts[m].now + (if exists x :: x in f.results && x.success then c.cacheTtl else c.failureTtl)
       && forall result :: result in f.results ==> Told(c, states, acts, m, acts[m].r, request, result)
  }

  /** In every interleaving: an entry is the merged list of one refresh for a request with that very key. */
  lemma EntriesAreKeyed(c: Config, states: seq<Sys>, acts: seq<Action>, k: nat, key: Text)
    requires IsRun(c, states, acts) && states[0] == Init(c) && k < |states| && key in states[k].cache
    ensures exists request, m: nat :: StoredFor(c, states, acts, k, key, states[k].cache[key], request, m)
  {
    hide Do;
    hide Enabled;
    hide CacheKey;
    hide Told;
    if forall j :: 0 <= j < k ==> !Stores(states[j], acts[j], key) {
      FoundSince(c, states, acts, key, 0, k);
    } else {
      var m := LatestStore(states, acts, key, 0, k);
      StandsUntil(c, states, acts, key, m, k);
      KeyedAlways(c, states, acts, m);
      ResultsAlways(c, states, acts, m);
      assert StoredFor(c, states, acts, k, key, states[k].cache[key], states[m].refreshes[acts[m].r].request, m);
    }
  }

  /**
  Every cached offer is clean, for the placement of a triggered request with that
  key, and from a configured bidder.
  */
  lemma EntriesAreClean(c: Config, states: seq<Sys>, acts: seq<Action>, k: nat, key: Text)
    returns (request: AuctionRequest)
    requires c.Valid() && IsRun(c, states, acts) && states[0] == Init(c) && k < |states| && key in states[k].cache
    ensures request in Asked(acts, |acts|) && key == CacheKey(request)
    ensures forall o :: o in states[k].cache[key].bids ==>
              DspOffer(o, request.placementId) && exists b :: b in c.bidders && o.bidderId == b.id
  {
    hide Do;
    hide Enabled;
    hide CacheKey;
    EntriesAreKeyed(c, states, acts, k, key);
    var m: nat;
    request, m :| StoredFor(c, states, acts, k, key, states[k].cache[key], request, m);
    var f := states[m].refreshes[acts[m].r];
    forall o | o in states[k].cache[key].bids
      ensures DspOffer(o, request.placementId) && exists b :: b in c.bidders && o.bidderId == b.id
    {
      MergedOffers(f.results, o);
      var result :| result in f.results && result.success && o in result.bids;
      var j: nat :| j < m && OwnReport(c, states, acts, j, acts[m].r, request, result);
      var x := states[j].workers[acts[j].w];
      SanitizerOutput(c.bidders[x.bidder].id, request.placementId, acts[j].answer.value);
    }
  }

  // ---------------------------------------------------------------------------
  // Breakers
  // ---------------------------------------------------------------------------

  /** Whatever the goroutines do, each breaker sees a run of its own with at most `maxConcurrent` calls out. */
  lemma {:induction false} CircuitsRun(c: Config, states: seq<Sys>, acts: seq<Action>, k: nat, b: nat)
    returns (moves: seq<Breaker.Move>)
    requires IsRun(c, states, acts) && states[0] == Init(c) && k < |states| && b < |c.bidders|
    ensures Shaped(c, states[k])
    ensures Breaker.Reaches(c.bidders[b].limits, c.bidders[b].maxConcurrent, Breaker.START, moves,
                            states[k].circuits[b])
    ensures states[k].circuits[b].Out() == CallsTo(states[k], b)
    decreases k
  {
    hide Do;
    hide Enabled;
    hide Breaker.Reaches;
    hide Breaker.CircuitInv;
    InvHolds(c, states, acts, k);
    assert CircuitKnows(c, states[k], b);
    if k == 0 {
      moves := NoMoves(c, b);
    } else {
      var before := CircuitsRun(c, states, acts, k - 1, b);
      InvHolds(c, states, acts, k - 1);
      var more := CircuitMoves(c, states[k - 1], acts[k - 1], b);
      moves := before + more;
      Breaker.ReachesThen(c.bidders[b].limits, c.bidders[b].maxConcurrent, Breaker.START, before,
                          states[k - 1].circuits[b], more, states[k].circuits[b]);
    }
  }

  lemma NoMoves(c: Config, b: nat) returns (moves: seq<Breaker.Move>)
    requires b < |c.bidders|
    ensures Breaker.Reaches(c.bidders[b].limits, c.bidders[b].maxConcurrent, Breaker.START, moves, Init(c).circuits[b])
  {
    moves := [];
  }

  /** A bidder that may have one call out never has two probes out. */
  lemma OneCallOneProbe(c: Config, states: seq<Sys>, acts: seq<Action>, k: nat, b: nat)
    requires c.Valid() && IsRun(c, states, acts) && states[0] == Init(c) && k < |states| && b < |c.bidders|
    ensures Shaped(c, states[k])
    ensures |states[k].circuits[b].probes| >= 2 ==> c.bidders[b].maxConcurrent >= 2
  {
    var moves := CircuitsRun(c, states, acts, k, b);
    Breaker.TwoProbesReachableIff(c.bidders[b].limits, c.bidders[b].maxConcurrent);
  }
}
