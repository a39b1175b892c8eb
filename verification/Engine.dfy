/**
The DSP engine (BidderEngine.Trigger and refresh in dynamic_bidding.go) as a
step system: refresh goroutines, their workers, the in-flight keys, the refresh
slots, one semaphore and one circuit breaker per bidder, and the buffered
result channel of each refresh. Every step is one mutex section, channel
operation or map call; steps of all goroutines interleave freely. A trigger
tests the cache, then claims the key: two steps. The clock of the cache does
not run backwards; the times that the breakers are given may come in any order.
*/
module Engine {
  import opened Types
  import opened Dynamic
  import opened DynamicCache
  import Breaker

  datatype Bidder = Bidder(id: Text, maxConcurrent: nat, limits: Breaker.Limits)

  datatype Config = Config(maxFanout: nat, maxRefreshes: nat, cacheTtl: int, failureTtl: int, bidders: seq<Bidder>)
  {
    ghost predicate Valid() {
      && 1 <= maxFanout <= 64 && 1 <= maxRefreshes <= 4096 && cacheTtl > 0 && failureTtl > 0
      && (forall b :: 0 <= b < |bidders| ==>
            BidderId(bidders[b].id) && 1 <= bidders[b].maxConcurrent <= 1024 && bidders[b].limits.Valid())
      && (forall b, b' :: 0 <= b < b' < |bidders| ==> bidders[b].id != bidders[b'].id)
    }
  }

  /** Where a refresh goroutine is; `next` is the index of its bidder loop. */
  datatype Phase =
    | Checked              // found no fresh entry
    | Claimed              // in the in-flight set, no slot yet
    | Looping(next: nat)
    | Asking(next: nat)    // holds the bidder's semaphore, about to ask its breaker
    | Denied(next: nat)    // the breaker refused, the semaphore is still held
    | Waiting              // workers.Wait
    | Stored               // the merged result is in the cache
    | Unkeyed              // out of the in-flight set, slot still held

  /** `results` is the channel; `seen` is the entry that the cache held when the key was claimed. */
  datatype Refresh = Refresh(
    key: Text,
    request: AuctionRequest,
    phase: Phase,
    started: nat,
    results: seq<BidderResult>,
    seen: Option<Entry>)

  /** Where a worker is: calling, its outcome reported to the breaker, its result sent, its semaphore freed. */
  datatype Stage = Calling | Reported(result: BidderResult) | Sent | Freed

  /** `request` is what the goroutine took along when it was started. */
  datatype Worker = Worker(refresh: nat, bidder: nat, request: AuctionRequest, stage: Stage)

  /** `cache` holds each key's last accepted entry, `clock` the latest time at which it was used. */
  datatype Sys = Sys(
    cache: map<Text, Entry>,
    clock: int,
    slots: nat,
    inflight: set<Text>,
    refreshes: map<nat, Refresh>,
    workers: map<nat, Worker>,
    sems: seq<nat>,
    circuits: seq<Breaker.Circuit>)

  datatype Action =
    | Check(r: nat, request: AuctionRequest, now: int)
    | Claim(r: nat)
    | GiveUp(r: nat)
    | TakeSlot(r: nat)
    | NoSlot(r: nat)
    | StopLoop(r: nat)
    | TakeSem(r: nat)
    | SkipBusy(r: nat)
    | AskBreaker(r: nat, w: nat, now: int)
    | ReturnSem(r: nat)
    | Store(r: nat, accepted: bool, now: int)
    | ReleaseKey(r: nat)
    | ReleaseSlot(r: nat)
    | Report(w: nat, answer: Option<seq<Bid>>, now: int)  // what the adapter returned, None for an error
    | Send(w: nat)
    | FreeSem(w: nat)
    | Finish(w: nat)

  ghost function Init(c: Config): Sys {
    Sys(map[], 0, 0, {}, map[], map[], seq(|c.bidders|, _ => 0), seq(|c.bidders|, _ => Breaker.START))
  }

  predicate Shaped(c: Config, s: Sys) {
    |s.sems| == |s.circuits| == |c.bidders|
  }

  predicate LoopDone(c: Config, f: Refresh) {
    f.phase.Looping? && (f.started == c.maxFanout || f.phase.next >= |c.bidders|)
  }

  predicate LoopAt(c: Config, f: Refresh) {
    f.phase.Looping? && f.started != c.maxFanout && f.phase.next < |c.bidders|
  }

  predicate HasRoom(c: Config, s: Sys, b: nat)
    requires Shaped(c, s) && b < |c.bidders|
  {
    s.sems[b] < c.bidders[b].maxConcurrent
  }

  predicate Fresh(s: Sys, key: Text, now: int) {
    key in s.cache && now < s.cache[key].expires
  }

  function Found(s: Sys, key: Text): Option<Entry> {
    if key in s.cache then Some(s.cache[key]) else None
  }

  /** What a worker sends, for an answer or an error. */
  function Outcome(c: Config, x: Worker, answer: Option<seq<Bid>>): BidderResult
    requires x.bidder < |c.bidders|
  {
    match answer
    case None => BidderResult([], false)
    case Some(bids) => BidderResult(Sanitized(c.bidders[x.bidder].id, x.request.placementId, bids), true)
  }

  /** What refresh leaves in the cache. */
  function Result(c: Config, f: Refresh, now: int): Entry {
    Entry(Merged(f.results), now + if AnySuccess(f.results) then c.cacheTtl else c.failureTtl)
  }

  /** A send goes through only while the channel has room. A live entry is in the cache, so its key is never refused. */
  predicate Enabled(c: Config, s: Sys, a: Action) {
    Shaped(c, s) &&
    match a
    case Check(r, request, now) =>
      r !in s.refreshes && c.bidders != [] && now >= s.clock && !Fresh(s, CacheKey(request), now)
    case Claim(r) => r in s.refreshes && s.refreshes[r].phase.Checked? && s.refreshes[r].key !in s.inflight
    case GiveUp(r) => r in s.refreshes && s.refreshes[r].phase.Checked? && s.refreshes[r].key in s.inflight
    case TakeSlot(r) => r in s.refreshes && s.refreshes[r].phase.Claimed? && s.slots < c.maxRefreshes
    case NoSlot(r) => r in s.refreshes && s.refreshes[r].phase.Claimed? && s.slots >= c.maxRefreshes
    case StopLoop(r) => r in s.refreshes && LoopDone(c, s.refreshes[r])
    case TakeSem(r) =>
      r in s.refreshes && LoopAt(c, s.refreshes[r]) && HasRoom(c, s, s.refreshes[r].phase.next)
    case SkipBusy(r) =>
      r in s.refreshes && LoopAt(c, s.refreshes[r]) && !HasRoom(c, s, s.refreshes[r].phase.next)
    case AskBreaker(r, w, _) =>
      r in s.refreshes && s.refreshes[r].phase.Asking? && s.refreshes[r].phase.next < |c.bidders| && w !in s.workers
    case ReturnSem(r) =>
      r in s.refreshes && s.refreshes[r].phase.Denied? && s.refreshes[r].phase.next < |c.bidders|
      && s.sems[s.refreshes[r].phase.next] > 0
    case Store(r, accepted, now) =>
      && r in s.refreshes && s.refreshes[r].phase.Waiting? && (forall w :: w in s.workers ==> s.workers[w].refresh != r)
      && now >= s.clock && (!accepted ==> !Fresh(s, s.refreshes[r].key, now))
    case ReleaseKey(r) => r in s.refreshes && s.refreshes[r].phase.Stored?
    case ReleaseSlot(r) => r in s.refreshes && s.refreshes[r].phase.Unkeyed? && s.slots > 0
    case Report(w, _, _) => w in s.workers && s.workers[w].stage.Calling? && s.workers[w].bidder < |c.bidders|
    case Send(w) =>
      w in s.workers && s.workers[w].stage.Reported? && s.workers[w].refresh in s.refreshes
      && |s.refreshes[s.workers[w].refresh].results| < c.maxFanout
    case FreeSem(w) =>
      w in s.workers && s.workers[w].stage.Sent? && s.workers[w].bidder < |c.bidders| && s.sems[s.workers[w].bidder] > 0
    case Finish(w) => w in s.workers && s.workers[w].stage.Freed?
  }

  function SetPhase(s: Sys, r: nat, phase: Phase): Sys
    requires r in s.refreshes
  {
    s.(refreshes := s.refreshes[r := s.refreshes[r].(phase := phase)])
  }

  function SetStage(s: Sys, w: nat, stage: Stage): Sys
    requires w in s.workers
  {
    s.(workers := s.workers[w := s.workers[w].(stage := stage)])
  }

  function Do(c: Config, s: Sys, a: Action): Sys
    requires Enabled(c, s, a)
  {
    match a
    case Check(r, request, now) =>
      s.(refreshes := s.refreshes[r := Refresh(CacheKey(request), request, Checked, 0, [], None)], clock := now)
    case Claim(r) =>
      var f := s.refreshes[r];
      s.(inflight := s.inflight + {f.key}, refreshes := s.refreshes[r := f.(phase := Claimed, seen := Found(s, f.key))])
    case GiveUp(r) => s.(refreshes := s.refreshes - {r})
    case TakeSlot(r) => SetPhase(s, r, Looping(0)).(slots := s.slots + 1)
    case NoSlot(r) => s.(inflight := s.inflight - {s.refreshes[r].key}, refreshes := s.refreshes - {r})
    case StopLoop(r) => SetPhase(s, r, Waiting)
    case TakeSem(r) =>
      var b := s.refreshes[r].phase.next;
      SetPhase(s, r, Asking(b)).(sems := s.sems[b := s.sems[b] + 1])
    case SkipBusy(r) => SetPhase(s, r, Looping(s.refreshes[r].phase.next + 1))
    case AskBreaker(r, w, now) =>
      var b := s.refreshes[r].phase.next;
      if Breaker.Grants(s.circuits[b].breaker, now) then
        var f := s.refreshes[r];
        s.(refreshes := s.refreshes[r := f.(phase := Looping(b + 1), started := f.started + 1)],
           workers := s.workers[w := Worker(r, b, f.request, Calling)],
           circuits := s.circuits[b := Breaker.Moved(c.bidders[b].limits, s.circuits[b], Breaker.LetThrough(w, now))])
      else SetPhase(s, r, Denied(b))
    case ReturnSem(r) =>
      var b := s.refreshes[r].phase.next;
      SetPhase(s, r, Looping(b + 1)).(sems := s.sems[b := s.sems[b] - 1])
    case Store(r, accepted, now) =>
      var f := s.refreshes[r];
      SetPhase(s, r, Stored).(clock := now, cache := if accepted then s.cache[f.key := Result(c, f, now)] else s.cache)
    case ReleaseKey(r) => SetPhase(s, r, Unkeyed).(inflight := s.inflight - {s.refreshes[r].key})
    case ReleaseSlot(r) => s.(refreshes := s.refreshes - {r}, slots := s.slots - 1)
    case Report(w, answer, now) =>
      var b := s.workers[w].bidder;
      SetStage(s, w, Reported(Outcome(c, s.workers[w], answer))).(
        circuits := s.circuits[b := Breaker.Moved(c.bidders[b].limits, s.circuits[b],
                                             Breaker.Report(w, answer.Some?, now))])
    case Send(w) =>
      var r := s.workers[w].refresh;
      SetStage(s, w, Sent).(
        refreshes := s.refreshes[r := s.refreshes[r].(results := s.refreshes[r].results + [s.workers[w].stage.result])])
    case FreeSem(w) =>
      var b := s.workers[w].bidder;
      SetStage(s, w, Freed).(sems := s.sems[b := s.sems[b] - 1])
    case Finish(w) => s.(workers := s.workers - {w})
  }

  ghost predicate IsRun(c: Config, states: seq<Sys>, acts: seq<Action>) {
    && |states| == |acts| + 1
    && forall i :: 0 <= i < |acts| ==> Enabled(c, states[i], acts[i]) && states[i + 1] == Do(c, states[i], acts[i])
  }

  // ---------------------------------------------------------------------------
  // Invariants
  // ---------------------------------------------------------------------------

  ghost function SlotHolders(s: Sys): set<nat> {
    set r | r in s.refreshes && !s.refreshes[r].phase.Checked? && !s.refreshes[r].phase.Claimed?
  }

  /** The slot tokens are held by the goroutines past `Claimed`. */
  ghost predicate SlotInv(c: Config, s: Sys) {
    s.slots == |SlotHolders(s)| && s.slots <= c.maxRefreshes
  }

  predicate InFlight(phase: Phase) {
    !phase.Checked? && !phase.Unkeyed?
  }

  /** The in-flight set is the keys of the goroutines from `Claimed` to `Stored`, one goroutine per key. */
  ghost predicate KeyInv(s: Sys) {
    KeysInFlight(s) && AllOwned(s) && OneOwner(s)
  }

  ghost predicate KeysInFlight(s: Sys) {
    forall r :: r in s.refreshes && InFlight(s.refreshes[r].phase) ==> s.refreshes[r].key in s.inflight
  }

  ghost predicate AllOwned(s: Sys) {
    forall key :: key in s.inflight ==>
      exists r :: r in s.refreshes && InFlight(s.refreshes[r].phase) && s.refreshes[r].key == key
  }

  ghost predicate OneOwner(s: Sys) {
    forall r, r' | r in s.refreshes && r' in s.refreshes && InFlight(s.refreshes[r].phase)
                   && InFlight(s.refreshes[r'].phase) ::
      s.refreshes[r].key == s.refreshes[r'].key ==> r == r'
  }

  /** Workers that hold a token of bidder b's semaphore. */
  ghost function Holders(s: Sys, b: nat): set<nat> {
    set w | w in s.workers && s.workers[w].bidder == b && !s.workers[w].stage.Freed?
  }

  /** Refresh goroutines that hold one while they ask the breaker. */
  ghost function Askers(s: Sys, b: nat): set<nat> {
    set r | r in s.refreshes && Asks(s.refreshes[r].phase) && s.refreshes[r].phase.next == b
  }

  ghost predicate SemInv(c: Config, s: Sys) {
    Shaped(c, s) && InRange(c, s) && forall b: nat :: b < |c.bidders| ==> SemBalance(c, s, b)
  }

  /** Bidder b's tokens are held by its workers and by the goroutines that ask its breaker. */
  ghost predicate SemBalance(c: Config, s: Sys, b: nat)
    requires Shaped(c, s) && b < |c.bidders|
  {
    s.sems[b] == |Holders(s, b)| + |Askers(s, b)| && s.sems[b] <= c.bidders[b].maxConcurrent
  }

  predicate Asks(phase: Phase) {
    phase.Asking? || phase.Denied?
  }

  ghost predicate InRange(c: Config, s: Sys) {
    && (forall r :: r in s.refreshes && Asks(s.refreshes[r].phase) ==> s.refreshes[r].phase.next < |c.bidders|)
    && (forall w :: w in s.workers ==> s.workers[w].bidder < |c.bidders|)
  }

  /** Workers of refresh r that have not sent their result. */
  ghost function Unsent(s: Sys, r: nat): set<nat> {
    set w | w in s.workers && s.workers[w].refresh == r && (s.workers[w].stage.Calling? || s.workers[w].stage.Reported?)
  }

  predicate Spawning(phase: Phase) {
    phase.Looping? || phase.Asking? || phase.Denied?
  }

  /** Workers belong to a refresh that has not passed Wait. */
  ghost predicate HomeInv(s: Sys) {
    forall w :: w in s.workers ==>
      && s.workers[w].refresh in s.refreshes
      && (Spawning(s.refreshes[s.workers[w].refresh].phase) || s.refreshes[s.workers[w].refresh].phase.Waiting?)
  }

  ghost predicate FanoutInv(c: Config, s: Sys) {
    HomeInv(s) && forall r :: r in s.refreshes ==> StartedInv(c, s, r)
  }

  /** Started workers are within the fan-out; each has its result in the channel or still to send. */
  ghost predicate StartedInv(c: Config, s: Sys, r: nat)
    requires r in s.refreshes
  {
    var f := s.refreshes[r];
    && f.started <= c.maxFanout
    && (f.phase.Checked? || f.phase.Claimed? ==> f.started == 0)
    && (f.phase.Asking? || f.phase.Denied? ==> f.started < c.maxFanout)
    && f.started == |f.results| + |Unsent(s, r)|
  }

  ghost function CallsTo(s: Sys, b: nat): set<nat> {
    set w | w in s.workers && s.workers[w].bidder == b && s.workers[w].stage.Calling?
  }

  /** Each circuit knows the calls that are out; its flag is up exactly while the probe that raised it is. */
  ghost predicate CircuitsInv(c: Config, s: Sys) {
    Shaped(c, s) && forall b: nat :: b < |c.bidders| ==> CircuitKnows(c, s, b)
  }

  ghost predicate CircuitKnows(c: Config, s: Sys, b: nat)
    requires Shaped(c, s) && b < |c.bidders|
  {
    s.circuits[b].Out() == CallsTo(s, b) && Breaker.CircuitInv(c.bidders[b].maxConcurrent, s.circuits[b])
  }

  /** While a key is claimed nobody else stores under it: its entry is still the one the claim saw. */
  ghost predicate CacheInv(s: Sys) {
    forall r :: r in s.refreshes && InFlight(s.refreshes[r].phase) && !s.refreshes[r].phase.Stored? ==>
      Found(s, s.refreshes[r].key) == s.refreshes[r].seen
  }

  ghost predicate Inv(c: Config, s: Sys) {
    SlotInv(c, s) && KeyInv(s) && CacheInv(s) && SemInv(c, s) && FanoutInv(c, s) && CircuitsInv(c, s)
  }

  lemma Within(a: set<nat>, b: set<nat>)
    requires a <= b
    ensures |a| <= |b|
  {
    assert b == a + (b - a);
  }

  lemma InitInv(c: Config)
    ensures Inv(c, Init(c))
  {
    var s := Init(c);
    assert SlotHolders(s) == {};
    assert forall b: nat :: Holders(s, b) == {} && Askers(s, b) == {} && CallsTo(s, b) == {};
  }

  lemma SlotHoldersStep(c: Config, s: Sys, a: Action)
    requires Enabled(c, s, a)
    ensures SlotHolders(Do(c, s, a))
         == if a.TakeSlot? then SlotHolders(s) + {a.r}
            else if a.ReleaseSlot? then SlotHolders(s) - {a.r} else SlotHolders(s)
    ensures a.TakeSlot? ==> a.r !in SlotHolders(s)
    ensures a.ReleaseSlot? ==> a.r in SlotHolders(s)
  {
    hide Result;
    hide Outcome;
    hide CacheKey;
    hide Breaker.Grants;
    hide Breaker.Moved;
  }

  lemma SlotStep(c: Config, s: Sys, a: Action)
    requires SlotInv(c, s) && Enabled(c, s, a)
    ensures SlotInv(c, Do(c, s, a))
  {
    SlotHoldersStep(c, s, a);
    hide SlotHolders;
  }

  lemma KeyStep(c: Config, s: Sys, a: Action)
    requires KeyInv(s) && Enabled(c, s, a)
    ensures KeyInv(Do(c, s, a))
  {
    OwnersStep(c, s, a);
    OneOwnerStep(c, s, a);
    hide Do;
    hide Enabled;
  }

  /** Which goroutines own their key after a step. */
  lemma OwnershipStep(c: Config, s: Sys, a: Action, r: nat)
    requires Enabled(c, s, a) && r in Do(c, s, a).refreshes && InFlight(Do(c, s, a).refreshes[r].phase)
    ensures r in s.refreshes && s.refreshes[r].key == Do(c, s, a).refreshes[r].key
    ensures InFlight(s.refreshes[r].phase) || (a == Claim(r) && s.refreshes[r].key !in s.inflight)
    ensures a.ReleaseKey? || a.NoSlot? ==> a.r != r
  {
    hide Breaker.Grants;
  }

  lemma InflightStep(c: Config, s: Sys, a: Action)
    requires Enabled(c, s, a)
    ensures Do(c, s, a).inflight
         == if a.Claim? then s.inflight + {s.refreshes[a.r].key}
            else if a.ReleaseKey? || a.NoSlot? then s.inflight - {s.refreshes[a.r].key}
            else s.inflight
    ensures a.Claim? || a.ReleaseKey? || a.NoSlot? ==> a.r in s.refreshes
    ensures a.ReleaseKey? || a.NoSlot? ==> InFlight(s.refreshes[a.r].phase)
  {
    hide Breaker.Grants;
  }

  lemma OwnerSurvives(c: Config, s: Sys, a: Action, r: nat)
    requires Enabled(c, s, a) && r in s.refreshes && (InFlight(s.refreshes[r].phase) || a == Claim(r))
    requires !((a.ReleaseKey? || a.NoSlot?) && a.r == r)
    ensures r in Do(c, s, a).refreshes && InFlight(Do(c, s, a).refreshes[r].phase)
    ensures Do(c, s, a).refreshes[r].key == s.refreshes[r].key
  {
    hide Breaker.Grants;
  }

  lemma OwnersStep(c: Config, s: Sys, a: Action)
    requires KeyInv(s) && Enabled(c, s, a)
    ensures AllOwned(Do(c, s, a))
  {
    var s' := Do(c, s, a);
    InflightStep(c, s, a);
    forall key | key in s'.inflight
      ensures exists r :: r in s'.refreshes && InFlight(s'.refreshes[r].phase) && s'.refreshes[r].key == key
    {
      if key in s.inflight {
        var r :| r in s.refreshes && InFlight(s.refreshes[r].phase) && s.refreshes[r].key == key;
        OwnerSurvives(c, s, a, r);
      } else {
        OwnerSurvives(c, s, a, a.r);
      }
    }
    hide Do;
    hide Enabled;
  }

  lemma OneOwnerStep(c: Config, s: Sys, a: Action)
    requires KeyInv(s) && Enabled(c, s, a)
    ensures KeysInFlight(Do(c, s, a)) && OneOwner(Do(c, s, a))
  {
    var s' := Do(c, s, a);
    InflightStep(c, s, a);
    forall r | r in s'.refreshes && InFlight(s'.refreshes[r].phase)
      ensures r in s.refreshes && s.refreshes[r].key == s'.refreshes[r].key
      ensures InFlight(s.refreshes[r].phase) || (a == Claim(r) && s.refreshes[r].key !in s.inflight)
      ensures a.ReleaseKey? || a.NoSlot? ==> a.r != r
    {
      OwnershipStep(c, s, a, r);
    }
    hide AllOwned;
    hide Do;
    hide Enabled;
  }

  lemma CacheStep(c: Config, s: Sys, a: Action)
    requires KeyInv(s) && CacheInv(s) && Enabled(c, s, a)
    ensures CacheInv(Do(c, s, a))
  {
    hide Result;
    hide Outcome;
    hide CacheKey;
    hide Breaker.Grants;
    hide Breaker.Moved;
  }

  lemma InRangeStep(c: Config, s: Sys, a: Action)
    requires InRange(c, s) && Enabled(c, s, a)
    ensures InRange(c, Do(c, s, a)) && Shaped(c, Do(c, s, a))
  {
    hide Result;
    hide Outcome;
    hide CacheKey;
    hide Breaker.Grants;
  }

  lemma SemStep(c: Config, s: Sys, a: Action)
    requires SemInv(c, s) && Enabled(c, s, a)
    ensures SemInv(c, Do(c, s, a))
  {
    InRangeStep(c, s, a);
    forall b: nat | b < |c.bidders|
      ensures SemBalance(c, Do(c, s, a), b)
    {
      SemBalanceStep(c, s, a, b);
    }
    hide Do;
    hide Enabled;
    hide SemBalance;
    hide InRange;
  }

  lemma SemBalanceStep(c: Config, s: Sys, a: Action, b: nat)
    requires Shaped(c, s) && Enabled(c, s, a) && b < |c.bidders| && SemBalance(c, s, b)
    ensures Shaped(c, Do(c, s, a)) && SemBalance(c, Do(c, s, a), b)
  {
    SemsStep(c, s, a, b);
    HoldersStep(c, s, a, b);
    AskersStep(c, s, a, b);
    hide Do;
    hide Holders;
    hide Askers;
  }

  /** Which steps move a token. */
  lemma SemsStep(c: Config, s: Sys, a: Action, b: nat)
    requires Shaped(c, s) && Enabled(c, s, a) && b < |c.bidders|
    ensures Shaped(c, Do(c, s, a))
    ensures Do(c, s, a).sems[b]
         == s.sems[b] + (if a.TakeSem? && s.refreshes[a.r].phase.next == b then 1 else 0)
                      - (if a.ReturnSem? && s.refreshes[a.r].phase.next == b then 1
                         else if a.FreeSem? && s.workers[a.w].bidder == b then 1
                         else 0)
    ensures a.TakeSem? && s.refreshes[a.r].phase.next == b ==> s.sems[b] < c.bidders[b].maxConcurrent
  {
    hide Breaker.Grants;
    hide Breaker.Moved;
  }

  lemma HoldersStep(c: Config, s: Sys, a: Action, b: nat)
    requires Enabled(c, s, a) && b < |c.bidders|
    ensures Holders(Do(c, s, a), b)
         == if a.AskBreaker? && s.refreshes[a.r].phase.next == b && Breaker.Grants(s.circuits[b].breaker, a.now)
            then Holders(s, b) + {a.w}
            else if a.FreeSem? && s.workers[a.w].bidder == b then Holders(s, b) - {a.w}
            else Holders(s, b)
    ensures a.AskBreaker? ==> a.w !in Holders(s, b)
    ensures a.FreeSem? && s.workers[a.w].bidder == b ==> a.w in Holders(s, b)
  {
  }

  lemma AskersStep(c: Config, s: Sys, a: Action, b: nat)
    requires Enabled(c, s, a) && b < |c.bidders|
    ensures Askers(Do(c, s, a), b)
         == if a.TakeSem? && s.refreshes[a.r].phase.next == b then Askers(s, b) + {a.r}
            else if a.AskBreaker? && s.refreshes[a.r].phase.next == b && Breaker.Grants(s.circuits[b].breaker, a.now)
            then Askers(s, b) - {a.r}
            else if a.ReturnSem? && s.refreshes[a.r].phase.next == b then Askers(s, b) - {a.r}
            else Askers(s, b)
    ensures a.TakeSem? ==> a.r !in Askers(s, b)
    ensures (a.AskBreaker? || a.ReturnSem?) && s.refreshes[a.r].phase.next == b ==> a.r in Askers(s, b)
  {
    hide Result;
    hide Outcome;
    hide CacheKey;
  }

  lemma UnsentStep(c: Config, s: Sys, a: Action, r: nat)
    requires Enabled(c, s, a)
    ensures Unsent(Do(c, s, a), r)
         == if a.AskBreaker? && a.r == r && Breaker.Grants(s.circuits[s.refreshes[r].phase.next].breaker, a.now)
            then Unsent(s, r) + {a.w}
            else if a.Send? && s.workers[a.w].refresh == r then Unsent(s, r) - {a.w}
            else Unsent(s, r)
    ensures a.AskBreaker? ==> a.w !in Unsent(s, r)
    ensures a.Send? && s.workers[a.w].refresh == r ==> a.w in Unsent(s, r)
  {
  }

  lemma HomeStep(c: Config, s: Sys, a: Action)
    requires HomeInv(s) && Enabled(c, s, a)
    ensures HomeInv(Do(c, s, a))
  {
    hide Breaker.Grants;
    hide Breaker.Moved;
  }

  lemma StartedStep(c: Config, s: Sys, a: Action, r: nat)
    requires Enabled(c, s, a) && r in Do(c, s, a).refreshes
    requires if r in s.refreshes then StartedInv(c, s, r) else Unsent(s, r) == {}
    ensures StartedInv(c, Do(c, s, a), r)
  {
    if a.AskBreaker? || a.Send? {
      StartedOrSent(c, s, a, r);
    } else {
      NeitherStartedNorSent(c, s, a, r);
    }
  }

  lemma StartedOrSent(c: Config, s: Sys, a: Action, r: nat)
    requires Enabled(c, s, a) && (a.AskBreaker? || a.Send?)
    requires r in s.refreshes && StartedInv(c, s, r)
    ensures r in Do(c, s, a).refreshes && StartedInv(c, Do(c, s, a), r)
  {
    UnsentStep(c, s, a, r);
    StartedFields(c, s, a, r);
    hide Do;
    hide Unsent;
    hide Breaker.Grants;
  }

  lemma StartedFields(c: Config, s: Sys, a: Action, r: nat)
    requires Enabled(c, s, a) && (a.AskBreaker? || a.Send?) && r in s.refreshes
    ensures r in Do(c, s, a).refreshes
    ensures var f, f' := s.refreshes[r], Do(c, s, a).refreshes[r];
            var granted := a.AskBreaker? && a.r == r && Breaker.Grants(s.circuits[f.phase.next].breaker, a.now);
            && f'.started == f.started + (if granted then 1 else 0)
            && |f'.results| == |f.results| + (if a.Send? && s.workers[a.w].refresh == r then 1 else 0)
            && (a.AskBreaker? && a.r == r ==> f.phase.Asking? && (f'.phase.Looping? || (f'.phase.Denied? && !granted)))
            && (!(a.AskBreaker? && a.r == r) ==> f'.phase == f.phase)
  {
    hide Breaker.Grants;
    hide Breaker.Moved;
    hide CacheKey;
  }

  lemma NeitherStartedNorSent(c: Config, s: Sys, a: Action, r: nat)
    requires Enabled(c, s, a) && !a.AskBreaker? && !a.Send? && r in Do(c, s, a).refreshes
    requires if r in s.refreshes then StartedInv(c, s, r) else Unsent(s, r) == {}
    ensures StartedInv(c, Do(c, s, a), r)
  {
    UnsentStep(c, s, a, r);
    hide Unsent;
  }

  lemma FanoutStep(c: Config, s: Sys, a: Action)
    requires FanoutInv(c, s) && Enabled(c, s, a)
    ensures FanoutInv(c, Do(c, s, a))
  {
    HomeStep(c, s, a);
    forall r | r in Do(c, s, a).refreshes
      ensures StartedInv(c, Do(c, s, a), r)
    {
      if r !in s.refreshes {
        assert Unsent(s, r) == {};
      }
      StartedStep(c, s, a, r);
    }
    hide Do;
    hide StartedInv;
  }

  lemma CallsToStep(c: Config, s: Sys, a: Action, b: nat)
    requires Enabled(c, s, a) && b < |c.bidders|
    ensures CallsTo(Do(c, s, a), b)
         == if a.AskBreaker? && s.refreshes[a.r].phase.next == b && Breaker.Grants(s.circuits[b].breaker, a.now)
            then CallsTo(s, b) + {a.w}
            else if a.Report? && s.workers[a.w].bidder == b then CallsTo(s, b) - {a.w}
            else CallsTo(s, b)
    ensures a.AskBreaker? ==> a.w !in CallsTo(s, b)
    ensures a.Report? && s.workers[a.w].bidder == b ==> a.w in CallsTo(s, b)
  {
    hide Breaker.Grants;
    hide Breaker.Moved;
  }

  /** Who asks a breaker already holds one of the bidder's tokens, so another call may be out. */
  lemma RoomForACall(c: Config, s: Sys, r: nat, b: nat)
    requires Shaped(c, s) && b < |c.bidders| && SemBalance(c, s, b) && r in Askers(s, b)
    ensures |CallsTo(s, b)| < c.bidders[b].maxConcurrent
  {
    Within({r}, Askers(s, b));
    Within(CallsTo(s, b), Holders(s, b));
  }

  lemma CircuitAt(c: Config, s: Sys, a: Action, b: nat)
    requires Enabled(c, s, a) && b < |c.bidders|
    ensures Shaped(c, Do(c, s, a))
    ensures Do(c, s, a).circuits[b]
         == if a.AskBreaker? && s.refreshes[a.r].phase.next == b && Breaker.Grants(s.circuits[b].breaker, a.now)
            then Breaker.Moved(c.bidders[b].limits, s.circuits[b], Breaker.LetThrough(a.w, a.now))
            else if a.Report? && s.workers[a.w].bidder == b
            then Breaker.Moved(c.bidders[b].limits, s.circuits[b], Breaker.Report(a.w, a.answer.Some?, a.now))
            else s.circuits[b]
  {
    hide Breaker.Grants;
    hide Breaker.Moved;
    hide Result;
    hide Outcome;
    hide CacheKey;
  }

  /** Each circuit takes a step of its own, or none. */
  lemma CircuitMoves(c: Config, s: Sys, a: Action, b: nat) returns (moves: seq<Breaker.Move>)
    requires SemInv(c, s) && CircuitsInv(c, s) && Enabled(c, s, a) && b < |c.bidders|
    ensures Shaped(c, Do(c, s, a))
    ensures Breaker.Reaches(c.bidders[b].limits, c.bidders[b].maxConcurrent, s.circuits[b],
                            moves, Do(c, s, a).circuits[b])
    ensures Do(c, s, a).circuits[b].Out() == CallsTo(Do(c, s, a), b)
  {
    hide Breaker.CircuitInv;
    hide Breaker.Grants;
    hide Breaker.Moved;
    assert CircuitKnows(c, s, b);
    CircuitAt(c, s, a, b);
    CallsToStep(c, s, a, b);
    var l, limit, p := c.bidders[b].limits, c.bidders[b].maxConcurrent, s.circuits[b];
    if a.AskBreaker? && s.refreshes[a.r].phase.next == b && Breaker.Grants(p.breaker, a.now) {
      RoomToAsk(c, s, a.r, b);
      moves := [Breaker.LetThrough(a.w, a.now)];
      assert Breaker.Legal(limit, p, moves[0]);
      Breaker.OneMove(l, limit, p, moves[0]);
    } else if a.Report? && s.workers[a.w].bidder == b {
      moves := [Breaker.Report(a.w, a.answer.Some?, a.now)];
      Breaker.OneMove(l, limit, p, moves[0]);
    } else {
      moves := [];
    }
  }

  lemma RoomToAsk(c: Config, s: Sys, r: nat, b: nat)
    requires SemInv(c, s) && b < |c.bidders| && r in s.refreshes && s.refreshes[r].phase == Asking(b)
    ensures |CallsTo(s, b)| < c.bidders[b].maxConcurrent
  {
    assert SemBalance(c, s, b);
    assert r in Askers(s, b);
    RoomForACall(c, s, r, b);
  }

  lemma CircuitsStep(c: Config, s: Sys, a: Action)
    requires SemInv(c, s) && CircuitsInv(c, s) && Enabled(c, s, a)
    ensures CircuitsInv(c, Do(c, s, a))
  {
    InRangeStep(c, s, a);
    forall b: nat | b < |c.bidders|
      ensures CircuitKnows(c, Do(c, s, a), b)
    {
      assert CircuitKnows(c, s, b);
      var moves := CircuitMoves(c, s, a, b);
      Breaker.CircuitInvHolds(c.bidders[b].limits, c.bidders[b].maxConcurrent, s.circuits[b], moves,
                              Do(c, s, a).circuits[b]);
    }
    hide Do;
    hide Enabled;
    hide CircuitKnows;
  }

  lemma {:induction false} InvHolds(c: Config, states: seq<Sys>, acts: seq<Action>, k: nat)
    requires IsRun(c, states, acts) && states[0] == Init(c) && k < |states|
    ensures Inv(c, states[k])
  {
    if k == 0 {
      InitInv(c);
    } else {
      InvHolds(c, states, acts, k - 1);
      var s, a := states[k - 1], acts[k - 1];
      SlotStep(c, s, a);
      KeyStep(c, s, a);
      CacheStep(c, s, a);
      SemStep(c, s, a);
      FanoutStep(c, s, a);
      CircuitsStep(c, s, a);
    }
  }

  // ---------------------------------------------------------------------------
  // Safety
  // ---------------------------------------------------------------------------

  /** The goroutines that run the body of `refresh`. */
  predicate InBody(phase: Phase) {
    Spawning(phase) || phase.Waiting?
  }

  /** Limits that hold in every reachable state of every interleaving. */
  ghost predicate Safe(c: Config, s: Sys) {
    && Shaped(c, s)
    // refresh goroutines with a slot
    && |SlotHolders(s)| == s.slots <= c.maxRefreshes
    // one body per key
    && (forall r, r' | r in s.refreshes && r' in s.refreshes && InBody(s.refreshes[r].phase)
                       && InBody(s.refreshes[r'].phase) ::
          s.refreshes[r].key == s.refreshes[r'].key ==> r == r')
    // calls per bidder
    && (forall b: nat :: b < |c.bidders| ==> |CallsTo(s, b)| <= c.bidders[b].maxConcurrent)
    // workers started by one refresh
    && (forall r :: r in s.refreshes ==> s.refreshes[r].started <= c.maxFanout)
    // a worker that wants to send finds room in the channel
    && (forall w :: w in s.workers && s.workers[w].stage.Reported? ==> Enabled(c, s, Send(w)))
    // no latched half-open circuit: the call that got the probe is still out
    && (forall b: nat :: b < |c.bidders| && s.circuits[b].breaker.probeInFlight ==>
          s.circuits[b].holder.Some? && s.circuits[b].holder.value in CallsTo(s, b))
  }

  lemma CallsAreBounded(c: Config, s: Sys, b: nat)
    requires SemInv(c, s) && b < |c.bidders|
    ensures |CallsTo(s, b)| <= c.bidders[b].maxConcurrent
  {
    assert SemBalance(c, s, b);
    Within(CallsTo(s, b), Holders(s, b));
  }

  lemma SendsFit(c: Config, s: Sys, w: nat)
    requires Shaped(c, s) && FanoutInv(c, s) && w in s.workers && s.workers[w].stage.Reported?
    ensures Enabled(c, s, Send(w))
  {
    var r := s.workers[w].refresh;
    assert StartedInv(c, s, r);
    assert w in Unsent(s, r);
    Within({w}, Unsent(s, r));
  }

  lemma InvIsSafe(c: Config, s: Sys)
    requires Inv(c, s)
    ensures Safe(c, s)
  {
    hide Enabled;
    assert forall r :: r in s.refreshes ==> StartedInv(c, s, r);
    hide FanoutInv;
    forall b: nat | b < |c.bidders|
      ensures |CallsTo(s, b)| <= c.bidders[b].maxConcurrent
    {
      CallsAreBounded(c, s, b);
    }
    forall b: nat | b < |c.bidders| && s.circuits[b].breaker.probeInFlight
      ensures s.circuits[b].holder.Some? && s.circuits[b].holder.value in CallsTo(s, b)
    {
      assert CircuitKnows(c, s, b);
      assert s.circuits[b].holder.value in s.circuits[b].Out();
    }
    forall w | w in s.workers && s.workers[w].stage.Reported?
      ensures Enabled(c, s, Send(w))
    {
      SendsFit(c, s, w);
    }
    hide CallsTo;
  }

  lemma SafeAlways(c: Config, states: seq<Sys>, acts: seq<Action>, k: nat)
    requires IsRun(c, states, acts) && states[0] == Init(c) && k < |states|
    ensures Safe(c, states[k])
  {
    InvHolds(c, states, acts, k);
    InvIsSafe(c, states[k]);
  }
}
