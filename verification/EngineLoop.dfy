/**
What one refresh does from its slot to its entry: which bidders it asks and in
which order, what its breakers are told, and that no answer is lost on the way.
*/
module EngineLoop {
  import opened Types
  import opened Auction
  import opened Dynamic
  import opened DynamicCache
  import opened Engine
  import opened EngineRuns
  import Breaker

  // ---------------------------------------------------------------------------
  // Turns
  // ---------------------------------------------------------------------------

  /** Refresh r passes bidder b over because its semaphore is full. */
  ghost predicate Busy(c: Config, s: Sys, a: Action, r: nat, b: nat) {
    && a == SkipBusy(r) && r in s.refreshes && s.refreshes[r].phase == Looping(b)
    && b < |c.bidders| && Shaped(c, s) && s.sems[b] >= c.bidders[b].maxConcurrent
  }

  /** The breaker of bidder b refuses refresh r. */
  ghost predicate Refused(c: Config, s: Sys, a: Action, r: nat, b: nat) {
    && a.AskBreaker? && a.r == r && r in s.refreshes && s.refreshes[r].phase == Asking(b)
    && b < |c.bidders| && Shaped(c, s) && !Breaker.Grants(s.circuits[b].breaker, a.now)
  }

  /** Refresh r starts a worker that calls bidder b with its request. */
  ghost predicate Called(s: Sys, a: Action, s': Sys, r: nat, b: nat) {
    && a.AskBreaker? && a.r == r && r in s.refreshes
    && a.w !in s.workers && a.w in s'.workers
    && s'.workers[a.w] == Worker(r, b, s.refreshes[r].request, Calling)
  }

  ghost predicate Turn(c: Config, s: Sys, a: Action, s': Sys, r: nat, b: nat) {
    Busy(c, s, a, r, b) || Refused(c, s, a, r, b) || Called(s, a, s', r, b)
  }

  /** How many bidders have had their turn. */
  function Cursor(phase: Phase): nat
    requires Spawning(phase)
  {
    match phase
    case Looping(next) => next
    case Asking(next) => next
    case Denied(next) => next + 1
  }

  lemma LoopStep(c: Config, s: Sys, a: Action, r: nat)
    requires Enabled(c, s, a) && r in s.refreshes && Spawning(s.refreshes[r].phase) && a != StopLoop(r)
    ensures r in Do(c, s, a).refreshes && Spawning(Do(c, s, a).refreshes[r].phase)
    ensures var f, f' := s.refreshes[r], Do(c, s, a).refreshes[r];
            var at := Cursor(f.phase);
            && Cursor(f'.phase) == at + (if Turn(c, s, a, Do(c, s, a), r, at) then 1 else 0)
            && f'.started == f.started + (if Called(s, a, Do(c, s, a), r, at) then 1 else 0)
  {
    hide Breaker.Grants;
    hide Breaker.Moved;
    hide Result;
    hide Outcome;
    hide CacheKey;
  }

  lemma TurnIsAtCursor(c: Config, s: Sys, a: Action, r: nat, b: nat)
    requires Enabled(c, s, a) && Turn(c, s, a, Do(c, s, a), r, b)
    ensures r in s.refreshes && Spawning(s.refreshes[r].phase) && b == Cursor(s.refreshes[r].phase)
    ensures b < |c.bidders| && a != StopLoop(r)
  {
    hide Breaker.Moved;
    hide CacheKey;
  }

  // ---------------------------------------------------------------------------
  // The loop over the bidders
  // ---------------------------------------------------------------------------

  /** Refresh r takes its slot at i and is still in its loop before step k. */
  ghost predicate InLoop(c: Config, states: seq<Sys>, acts: seq<Action>, r: nat, i: nat, k: nat) {
    && IsRun(c, states, acts) && states[0] == Init(c) && i < k < |states|
    && acts[i] == TakeSlot(r) && forall m :: i < m < k ==> acts[m] != StopLoop(r)
  }

  ghost predicate TurnAt(c: Config, states: seq<Sys>, acts: seq<Action>, r: nat, m: nat, b: nat) {
    m < |acts| && m + 1 < |states| && Turn(c, states[m], acts[m], states[m + 1], r, b)
  }

  /** Bidder b has had its turn between i and k. */
  ghost predicate HadTurn(c: Config, states: seq<Sys>, acts: seq<Action>, r: nat, i: nat, k: nat, b: nat) {
    exists m: nat :: i < m < k && TurnAt(c, states, acts, r, m, b)
  }

  ghost predicate CalledAt(states: seq<Sys>, acts: seq<Action>, r: nat, m: nat, b: nat) {
    m < |acts| && m + 1 < |states| && Called(states[m], acts[m], states[m + 1], r, b)
  }

  ghost predicate WasCalled(states: seq<Sys>, acts: seq<Action>, r: nat, i: nat, k: nat, b: nat) {
    exists m: nat :: i < m < k && CalledAt(states, acts, r, m, b)
  }

  /** The bidders that r has called between i and k. */
  ghost function CalledBidders(c: Config, states: seq<Sys>, acts: seq<Action>, r: nat, i: nat, k: nat): set<nat> {
    set b: nat | b < |c.bidders| && WasCalled(states, acts, r, i, k, b)
  }

  ghost predicate LoopInv(c: Config, states: seq<Sys>, acts: seq<Action>, r: nat, i: nat, k: nat)
    requires k < |states|
  {
    && r in states[k].refreshes && Spawning(states[k].refreshes[r].phase)
    && var at := Cursor(states[k].refreshes[r].phase);
       && (forall b: nat :: HadTurn(c, states, acts, r, i, k, b) <==> b < at)
       && states[k].refreshes[r].started == |CalledBidders(c, states, acts, r, i, k)|
  }

  lemma LoopStarts(c: Config, states: seq<Sys>, acts: seq<Action>, r: nat, i: nat)
    requires InLoop(c, states, acts, r, i, i + 1)
    ensures LoopInv(c, states, acts, r, i, i + 1)
  {
    assert Enabled(c, states[i], acts[i]) && states[i + 1] == Do(c, states[i], acts[i]);
    InvHolds(c, states, acts, i);
    assert StartedInv(c, states[i], r);
    assert CalledBidders(c, states, acts, r, i, i + 1) == {};
  }

  lemma TurnsSoFar(c: Config, states: seq<Sys>, acts: seq<Action>, r: nat, i: nat, k: nat, b: nat)
    requires i < k < |acts| < |states|
    ensures HadTurn(c, states, acts, r, i, k + 1, b) <==>
              HadTurn(c, states, acts, r, i, k, b) || TurnAt(c, states, acts, r, k, b)
  {
    hide TurnAt;
  }

  lemma CallsSoFar(c: Config, states: seq<Sys>, acts: seq<Action>, r: nat, i: nat, k: nat, at: nat)
    requires i < k < |acts| < |states|
    requires forall b: nat :: CalledAt(states, acts, r, k, b) ==> b == at < |c.bidders|
    requires at !in CalledBidders(c, states, acts, r, i, k)
    ensures |CalledBidders(c, states, acts, r, i, k + 1)|
         == |CalledBidders(c, states, acts, r, i, k)| + (if CalledAt(states, acts, r, k, at) then 1 else 0)
  {
    hide CalledAt;
    var before, after := CalledBidders(c, states, acts, r, i, k), CalledBidders(c, states, acts, r, i, k + 1);
    assert after == if CalledAt(states, acts, r, k, at) then before + {at} else before;
  }

  /** What one step does to the loop. */
  lemma TurnOfStep(c: Config, states: seq<Sys>, acts: seq<Action>, r: nat, k: nat)
    requires IsRun(c, states, acts) && k < |acts| && acts[k] != StopLoop(r)
    requires r in states[k].refreshes && Spawning(states[k].refreshes[r].phase)
    ensures r in states[k + 1].refreshes && Spawning(states[k + 1].refreshes[r].phase)
    ensures var f, f' := states[k].refreshes[r], states[k + 1].refreshes[r];
            var at := Cursor(f.phase);
            && Cursor(f'.phase) == at + (if TurnAt(c, states, acts, r, k, at) then 1 else 0)
            && f'.started == f.started + (if CalledAt(states, acts, r, k, at) then 1 else 0)
            && (forall b: nat :: TurnAt(c, states, acts, r, k, b) ==> b == at < |c.bidders|)
            && (forall b: nat :: CalledAt(states, acts, r, k, b) ==> TurnAt(c, states, acts, r, k, b))
  {
    assert Enabled(c, states[k], acts[k]) && states[k + 1] == Do(c, states[k], acts[k]);
    LoopStep(c, states[k], acts[k], r);
    forall b: nat | TurnAt(c, states, acts, r, k, b)
      ensures b == Cursor(states[k].refreshes[r].phase) < |c.bidders|
    {
      TurnIsAtCursor(c, states[k], acts[k], r, b);
    }
    hide Do;
    hide Enabled;
  }

  lemma LoopGoesOn(c: Config, states: seq<Sys>, acts: seq<Action>, r: nat, i: nat, k: nat)
    requires InLoop(c, states, acts, r, i, k + 1) && i < k && LoopInv(c, states, acts, r, i, k)
    ensures LoopInv(c, states, acts, r, i, k + 1)
  {
    hide Do;
    hide Enabled;
    hide TurnAt;
    hide CalledAt;
    var at, n := Cursor(states[k].refreshes[r].phase), k + 1;
    TurnOfStep(c, states, acts, r, k);
    CalledHadTurn(c, states, acts, r, i, k, at);
    CallsSoFar(c, states, acts, r, i, k, at);
    hide HadTurn;
    forall b: nat
      ensures HadTurn(c, states, acts, r, i, n, b) <==> b < Cursor(states[n].refreshes[r].phase)
    {
      TurnsSoFar(c, states, acts, r, i, k, b);
    }
  }

  lemma CalledHadTurn(c: Config, states: seq<Sys>, acts: seq<Action>, r: nat, i: nat, k: nat, b: nat)
    ensures b in CalledBidders(c, states, acts, r, i, k) ==> HadTurn(c, states, acts, r, i, k, b)
  {
    if m: nat :| i < m < k && CalledAt(states, acts, r, m, b) && b < |c.bidders| {
      CallIsATurn(c, states, acts, r, m, b);
    }
  }

  lemma CallIsATurn(c: Config, states: seq<Sys>, acts: seq<Action>, r: nat, m: nat, b: nat)
    requires CalledAt(states, acts, r, m, b)
    ensures TurnAt(c, states, acts, r, m, b)
  {
  }

  lemma {:induction false} LoopSoFar(c: Config, states: seq<Sys>, acts: seq<Action>, r: nat, i: nat, k: nat)
    requires InLoop(c, states, acts, r, i, k)
    ensures LoopInv(c, states, acts, r, i, k)
    decreases k
  {
    hide LoopInv;
    if k == i + 1 {
      LoopStarts(c, states, acts, r, i);
    } else {
      LoopSoFar(c, states, acts, r, i, k - 1);
      LoopGoesOn(c, states, acts, r, i, k - 1);
    }
  }

  /**
  When the loop of a refresh ends, every bidder has had its turn (it was full,
  its breaker refused, or it was called), or `maxFanout` bidders were called,
  all of them before it.
  */
  lemma EveryBidderHasATurn(c: Config, states: seq<Sys>, acts: seq<Action>, r: nat, i: nat, k: nat, b: nat)
    requires InLoop(c, states, acts, r, i, k) && k < |acts| && acts[k] == StopLoop(r) && b < |c.bidders|
    ensures var called := CalledBidders(c, states, acts, r, i, k);
            && |called| <= c.maxFanout
            && (HadTurn(c, states, acts, r, i, k, b)
                || (|called| == c.maxFanout && forall b' :: b' in called ==> b' < b))
  {
    LoopSoFar(c, states, acts, r, i, k);
    assert Enabled(c, states[k], acts[k]);
    InvHolds(c, states, acts, k);
    assert StartedInv(c, states[k], r);
    var called := CalledBidders(c, states, acts, r, i, k);
    forall b' | b' in called
      ensures HadTurn(c, states, acts, r, i, k, b')
    {
      CalledHadTurn(c, states, acts, r, i, k, b');
    }
  }

  /** Turns come in the order of the bidders, one for each at most. */
  lemma TurnsInOrder(c: Config, states: seq<Sys>, acts: seq<Action>, r: nat, i: nat, k: nat,
                     m: nat, b: nat, m': nat, b': nat)
    requires InLoop(c, states, acts, r, i, k) && i < m < m' < k
    requires TurnAt(c, states, acts, r, m, b) && TurnAt(c, states, acts, r, m', b')
    ensures b < b'
  {
    assert Enabled(c, states[m'], acts[m']) && states[m' + 1] == Do(c, states[m'], acts[m']);
    TurnIsAtCursor(c, states[m'], acts[m'], r, b');
    hide Do;
    hide Enabled;
    LoopSoFar(c, states, acts, r, i, m');
    assert HadTurn(c, states, acts, r, i, m', b);
  }

  /** A trigger comes to nothing only when another goroutine works on its key or every slot is held. */
  lemma DroppedOnlyIf(c: Config, s: Sys, a: Action, r: nat)
    requires Inv(c, s) && Enabled(c, s, a) && r in s.refreshes && r !in Do(c, s, a).refreshes
    ensures || s.refreshes[r].phase == Unkeyed
            || (exists r' :: r' in s.refreshes && r' != r && InFlight(s.refreshes[r'].phase)
                             && s.refreshes[r'].key == s.refreshes[r].key)
            || |SlotHolders(s)| == c.maxRefreshes
  {
    hide Breaker.Grants;
    hide Breaker.Moved;
    hide CacheKey;
    hide SemInv;
    hide FanoutInv;
    hide CircuitsInv;
    hide CacheInv;
  }

  /** No trigger is held back, and a breaker may be asked at any time. */
  lemma TriggersAreFree(c: Config, s: Sys, r: nat, w: nat, request: AuctionRequest, now: int)
    requires Shaped(c, s) && InRange(c, s)
    ensures r !in s.refreshes && c.bidders != [] && now >= s.clock && !Fresh(s, CacheKey(request), now) ==>
              Enabled(c, s, Check(r, request, now))
    ensures r in s.refreshes && s.refreshes[r].phase.Asking? && w !in s.workers ==> Enabled(c, s, AskBreaker(r, w, now))
  {
    hide CacheKey;
  }

  /** A call is answered in any way, and a full cache may refuse whatever is not live. */
  lemma AnswersAreFree(c: Config, s: Sys, r: nat, w: nat, answer: Option<seq<Bid>>, now: int)
    requires Shaped(c, s) && InRange(c, s)
    ensures w in s.workers && s.workers[w].stage.Calling? ==> Enabled(c, s, Report(w, answer, now))
    ensures r in s.refreshes && s.refreshes[r].phase.Waiting? && now >= s.clock
            && (forall x :: x in s.workers ==> s.workers[x].refresh != r) ==>
              && Enabled(c, s, Store(r, true, now))
              && (Fresh(s, s.refreshes[r].key, now) || Enabled(c, s, Store(r, false, now)))
  {
  }

  // ---------------------------------------------------------------------------
  // What the breakers are told
  // ---------------------------------------------------------------------------

  /** What step m tells the breaker of bidder b: that a refresh asks, or how one of its calls went. */
  function Heard(s: Sys, a: Action, b: nat): seq<Breaker.Event> {
    match a
    case AskBreaker(r, _, now) =>
      if r in s.refreshes && s.refreshes[r].phase == Asking(b) then [Breaker.Ask(now)] else []
    case Report(w, answer, now) =>
      if w !in s.workers || s.workers[w].bidder != b then []
      else if answer.Some? then [Breaker.Succeed(now)]
      else [Breaker.Fail(now)]
    case _ => []
  }

  function History(states: seq<Sys>, acts: seq<Action>, b: nat, k: nat): seq<Breaker.Event>
    requires k <= |acts| && k <= |states|
  {
    if k == 0 then [] else History(states, acts, b, k - 1) + Heard(states[k - 1], acts[k - 1], b)
  }

  lemma BreakerStep(c: Config, s: Sys, a: Action, b: nat)
    requires CircuitsInv(c, s) && Enabled(c, s, a) && b < |c.bidders|
    ensures Shaped(c, Do(c, s, a))
    ensures var told, breaker' := Heard(s, a, b), Do(c, s, a).circuits[b].breaker;
            && |told| <= 1
            && breaker' == if told == [] then s.circuits[b].breaker
                           else Breaker.Step(c.bidders[b].limits, s.circuits[b].breaker, told[0])
  {
    CircuitAt(c, s, a, b);
    assert CircuitKnows(c, s, b);
    hide Do;
    hide CallsTo;
  }

  /** Each breaker is in the state of the history of requests and outcomes that concern its bidder, in their order. */
  lemma {:induction false} BreakersHearEverything(c: Config, states: seq<Sys>, acts: seq<Action>, b: nat, k: nat)
    requires IsRun(c, states, acts) && states[0] == Init(c) && k < |states| && b < |c.bidders|
    ensures Shaped(c, states[k])
    ensures states[k].circuits[b].breaker == Breaker.Run(c.bidders[b].limits, History(states, acts, b, k))
    decreases k
  {
    hide Do;
    hide Enabled;
    hide Heard;
    hide Breaker.Step;
    if k == 0 {
    } else {
      BreakersHearEverything(c, states, acts, b, k - 1);
      InvHolds(c, states, acts, k - 1);
      BreakerStep(c, states[k - 1], acts[k - 1], b);
      var before, told := History(states, acts, b, k - 1), Heard(states[k - 1], acts[k - 1], b);
      if told == [] {
        assert before + told == before;
      } else {
        assert (before + told)[..|before + told| - 1] == before;
      }
    }
  }

  // ---------------------------------------------------------------------------
  // No answer is lost
  // ---------------------------------------------------------------------------

  /** The result sent at step m, if a worker of r sends one. */
  function Sending(s: Sys, a: Action, r: nat): seq<BidderResult> {
    if a.Send? && a.w in s.workers && s.workers[a.w].refresh == r && s.workers[a.w].stage.Reported?
    then [s.workers[a.w].stage.result] else []
  }

  function SentSince(states: seq<Sys>, acts: seq<Action>, r: nat, i: nat, k: nat): seq<BidderResult>
    requires i <= k <= |acts| && k <= |states|
    decreases k
  {
    if k == i then [] else SentSince(states, acts, r, i, k - 1) + Sending(states[k - 1], acts[k - 1], r)
  }

  lemma SendStep(c: Config, s: Sys, a: Action, r: nat)
    requires Enabled(c, s, a) && r in Do(c, s, a).refreshes
    ensures Starts(a, r) ==> Do(c, s, a).refreshes[r].results == []
    ensures !Starts(a, r) ==>
              && r in s.refreshes
              && Do(c, s, a).refreshes[r].results == s.refreshes[r].results + Sending(s, a, r)
  {
    ChannelStep(c, s, a, r);
    hide Do;
  }

  /** The channel of a refresh holds what its workers have sent since its start, in that order. */
  lemma {:induction false} ChannelHoldsWhatWasSent(c: Config, states: seq<Sys>, acts: seq<Action>, r: nat,
                                                   i: nat, k: nat)
    requires IsRun(c, states, acts) && i < k < |states| && Starts(acts[i], r) && r in states[k].refreshes
    requires forall m :: i < m < k ==> !Starts(acts[m], r)
    ensures states[k].refreshes[r].results == SentSince(states, acts, r, i + 1, k)
    decreases k
  {
    hide Do;
    hide Enabled;
    hide Sending;
    SendStep(c, states[k - 1], acts[k - 1], r);
    if k == i + 1 {
    } else {
      ChannelHoldsWhatWasSent(c, states, acts, r, i, k - 1);
    }
  }

  /** When a refresh stores, each worker that it started has sent its result. */
  lemma StoreWaitsForAll(c: Config, s: Sys, a: Action)
    requires Inv(c, s) && Enabled(c, s, a) && a.Store?
    ensures a.r in s.refreshes && |s.refreshes[a.r].results| == s.refreshes[a.r].started
  {
    assert StartedInv(c, s, a.r);
    assert Unsent(s, a.r) == {};
  }

  /** The result is in the channel of r, or on its way there with the worker w. */
  ghost predicate OnItsWay(s: Sys, r: nat, w: nat, result: BidderResult) {
    r in s.refreshes && (result in s.refreshes[r].results
                         || (w in s.workers && s.workers[w].refresh == r && s.workers[w].stage == Reported(result)))
  }

  lemma OnItsWayStep(c: Config, s: Sys, a: Action, r: nat, w: nat, result: BidderResult)
    requires Enabled(c, s, a) && OnItsWay(s, r, w, result) && r in Do(c, s, a).refreshes && !Starts(a, r)
    ensures OnItsWay(Do(c, s, a), r, w, result)
  {
    ChannelStep(c, s, a, r);
    hide Breaker.Grants;
    hide Breaker.Moved;
    hide Result;
    hide Outcome;
    hide CacheKey;
  }

  lemma {:induction false} OnItsWayUntil(c: Config, states: seq<Sys>, acts: seq<Action>, r: nat, w: nat,
                                         result: BidderResult, j: nat, k: nat)
    requires IsRun(c, states, acts) && j <= k < |states| && OnItsWay(states[j], r, w, result)
    requires r in states[k].refreshes && forall m :: j <= m < k ==> !Starts(acts[m], r)
    ensures OnItsWay(states[k], r, w, result)
    decreases k
  {
    hide Do;
    hide Enabled;
    hide OnItsWay;
    if k == j {
    } else {
      RefreshStep(c, states[k - 1], acts[k - 1], r);
      OnItsWayUntil(c, states, acts, r, w, result, j, k - 1);
      OnItsWayStep(c, states[k - 1], acts[k - 1], r, w, result);
    }
  }

  /** A worker of r reports the adapter's bids at j; r stores at k. */
  ghost predicate Replies(c: Config, states: seq<Sys>, acts: seq<Action>, r: nat, j: nat, k: nat) {
    && IsRun(c, states, acts) && states[0] == Init(c) && j < k < |acts|
    && acts[j].Report? && acts[j].answer.Some?
    && acts[j].w in states[j].workers && states[j].workers[acts[j].w].refresh == r
    && acts[k].Store? && acts[k].accepted && acts[k].r == r
    && forall m :: j <= m < k ==> !Starts(acts[m], r)
  }

  /** Each of these bids that passes is in the entry, and the entry lives for the long time. */
  lemma AnswersReachTheCache(c: Config, states: seq<Sys>, acts: seq<Action>, r: nat, j: nat, k: nat, bid: Bid)
    requires Replies(c, states, acts, r, j, k) && bid in acts[j].answer.value
    ensures var x := states[j].workers[acts[j].w];
            && x.bidder < |c.bidders| && r in states[k].refreshes
            && var id, key := c.bidders[x.bidder].id, states[k].refreshes[r].key;
               && key in states[k + 1].cache
               && states[k + 1].cache[key].expires == acts[k].now + c.cacheTtl
               && (Kept(id, x.request.placementId, bid) ==>
                     DynamicBid(Cleaned(id, bid), id) in states[k + 1].cache[key].bids)
  {
    hide CacheKey;
    hide Kept;
    hide Cleaned;
    var w := acts[j].w;
    var x := states[j].workers[w];
    assert Enabled(c, states[j], acts[j]) && states[j + 1] == Do(c, states[j], acts[j]);
    assert Enabled(c, states[k], acts[k]);
    var result := Outcome(c, x, acts[j].answer);
    HomeAlways(c, states, acts, j);
    assert OnItsWay(states[j + 1], r, w, result);
    OnItsWayUntil(c, states, acts, r, w, result, j + 1, k);
    StoreStep(c, states[k], acts[k], states[k].refreshes[r].key);
    hide Do;
    hide Enabled;
    var id := c.bidders[x.bidder].id;
    MergedOffers(states[k].refreshes[r].results, DynamicBid(Cleaned(id, bid), id));
    if Kept(id, x.request.placementId, bid) {
      SanitizedHolds(id, x.request.placementId, acts[j].answer.value, bid);
    }
  }

  lemma {:induction false} SanitizedHolds(bidderId: Text, placement: Text, bids: seq<Bid>, bid: Bid)
    requires bid in bids && Kept(bidderId, placement, bid)
    ensures DynamicBid(Cleaned(bidderId, bid), bidderId) in Sanitized(bidderId, placement, bids)
    decreases |bids|
  {
    var n := |bids| - 1;
    if bid == bids[n] {
    } else {
      SanitizedHolds(bidderId, placement, bids[..n], bid);
    }
  }
}
