/**
Two triggers for one key that both find no fresh entry before either of them
claims the key: the second refresh replaces the live entry of the first.
*/
module EngineWitness {
  import opened Types
  import opened Dynamic
  import opened DynamicCache
  import opened Engine
  import opened EngineRuns
  import Breaker

  /** The state that a list of actions leads to. */
  ghost predicate Leads(c: Config, s: Sys, acts: seq<Action>, s': Sys)
    decreases |acts|
  {
    if acts == [] then s == s'
    else Enabled(c, s, acts[0]) && Leads(c, Do(c, s, acts[0]), acts[1..], s')
  }

  lemma LeadsStep(c: Config, s: Sys, a: Action, rest: seq<Action>, s': Sys)
    requires Enabled(c, s, a) && Leads(c, Do(c, s, a), rest, s')
    ensures Leads(c, s, [a] + rest, s')
  {
    hide Do;
    hide Enabled;
    assert ([a] + rest)[1..] == rest;
  }

  lemma {:induction false} LeadsThen(c: Config, s: Sys, acts: seq<Action>, m: Sys, more: seq<Action>, s': Sys)
    requires Leads(c, s, acts, m) && Leads(c, m, more, s')
    ensures Leads(c, s, acts + more, s')
    decreases |acts|
  {
    hide Do;
    hide Enabled;
    if acts == [] {
      assert acts + more == more;
    } else {
      LeadsThen(c, Do(c, s, acts[0]), acts[1..], m, more, s');
      assert (acts + more)[1..] == acts[1..] + more;
    }
  }

  lemma {:induction false} LeadsIsRun(c: Config, s: Sys, acts: seq<Action>, s': Sys) returns (states: seq<Sys>)
    requires Leads(c, s, acts, s')
    ensures IsRun(c, states, acts) && states[0] == s && states[|acts|] == s'
    decreases |acts|
  {
    hide Do;
    hide Enabled;
    if acts == [] {
      states := [s];
    } else {
      var rest := LeadsIsRun(c, Do(c, s, acts[0]), acts[1..], s');
      states := [s] + rest;
      forall i | 0 <= i < |acts|
        ensures Enabled(c, states[i], acts[i]) && states[i + 1] == Do(c, states[i], acts[i])
      {
        if i > 0 {
          assert acts[i] == acts[1..][i - 1] && states[i] == rest[i - 1] && states[i + 1] == rest[i];
        }
      }
    }
  }

  lemma RunThen(c: Config, states: seq<Sys>, acts: seq<Action>, states': seq<Sys>, acts': seq<Action>)
    requires IsRun(c, states, acts) && IsRun(c, states', acts') && states[|acts|] == states'[0]
    ensures IsRun(c, states + states'[1..], acts + acts')
  {
    hide Do;
    hide Enabled;
    var all, allActs := states + states'[1..], acts + acts';
    forall i | 0 <= i < |allActs|
      ensures Enabled(c, all[i], allActs[i]) && all[i + 1] == Do(c, all[i], allActs[i])
    {
      if i < |acts| {
        assert all[i] == states[i] && all[i + 1] == states[i + 1] && allActs[i] == acts[i];
      } else {
        var j := i - |acts|;
        assert all[i] == states'[j] && all[i + 1] == states'[j + 1] && allActs[i] == acts'[j];
      }
    }
  }

  /** Nobody is in flight; the one bidder is idle and its circuit closed. */
  ghost predicate Ready(c: Config, s: Sys, r: nat) {
    && c.Valid() && |c.bidders| == 1
    && s.slots == 0 && s.inflight == {} && s.workers == map[] && s.sems == [0] && s.circuits == [Breaker.START]
    && r in s.refreshes
    && s.refreshes[r] == Refresh(s.refreshes[r].key, s.refreshes[r].request, Checked, 0, [], None)
  }

  const EMPTY_RESULT := BidderResult([], true)

  ghost function AfterAsk(s: Sys, r: nat): Sys
    requires r in s.refreshes
  {
    var f := s.refreshes[r];
    s.(inflight := {f.key}, slots := 1, sems := [1],
       refreshes := s.refreshes[r := f.(phase := Looping(1), started := 1, seen := Found(s, f.key))],
       workers := map[0 := Worker(r, 0, f.request, Calling)],
       circuits := [Breaker.Circuit(Breaker.CLOSED, None, {0}, {})])
  }

  /** The refresh holds the key and a slot. */
  ghost function AfterClaim(s: Sys, r: nat): Sys
    requires r in s.refreshes
  {
    var f := s.refreshes[r];
    s.(inflight := {f.key}, slots := 1, refreshes := s.refreshes[r := f.(phase := Looping(0), seen := Found(s, f.key))])
  }

  lemma CheckToClaim(c: Config, s: Sys, r: nat)
    requires Ready(c, s, r)
    ensures Leads(c, s, [Claim(r), TakeSlot(r)], AfterClaim(s, r))
  {
    var f, s2 := s.refreshes[r], AfterClaim(s, r);
    var s1 := s.(inflight := {f.key}, refreshes := s.refreshes[r := f.(phase := Claimed, seen := Found(s, f.key))]);
    assert Do(c, s, Claim(r)) == s1 && Do(c, s1, TakeSlot(r)) == s2;
    hide Do;
    hide AfterClaim;
    LeadsStep(c, s1, TakeSlot(r), [], s2);
    LeadsStep(c, s, Claim(r), [TakeSlot(r)], s2);
  }

  lemma ClaimToAsk(c: Config, s: Sys, r: nat)
    requires Ready(c, s, r)
    ensures Leads(c, AfterClaim(s, r), [TakeSem(r), AskBreaker(r, 0, 0)], AfterAsk(s, r))
  {
    var s2, s4 := AfterClaim(s, r), AfterAsk(s, r);
    var s3 := s2.(sems := [1], refreshes := s.refreshes[r := s2.refreshes[r].(phase := Asking(0))]);
    assert Do(c, s2, TakeSem(r)) == s3;
    assert Breaker.Moved(c.bidders[0].limits, Breaker.START, Breaker.LetThrough(0, 0)) == s4.circuits[0];
    assert Do(c, s3, AskBreaker(r, 0, 0)) == s4;
    hide Do;
    hide AfterClaim;
    hide AfterAsk;
    LeadsStep(c, s3, AskBreaker(r, 0, 0), [], s4);
    LeadsStep(c, s2, TakeSem(r), [AskBreaker(r, 0, 0)], s4);
  }

  /** The bidder has answered with no bids. */
  ghost function AfterReport(s: Sys, r: nat): Sys
    requires r in s.refreshes
  {
    var f := s.refreshes[r];
    s.(inflight := {f.key}, slots := 1, sems := [1],
       refreshes := s.refreshes[r := f.(phase := Waiting, started := 1, seen := Found(s, f.key))],
       workers := map[0 := Worker(r, 0, f.request, Reported(EMPTY_RESULT))])
  }

  lemma AskToReport(c: Config, s: Sys, r: nat)
    requires Ready(c, s, r)
    ensures Leads(c, AfterAsk(s, r), [StopLoop(r), Report(0, Some([]), 0)], AfterReport(s, r))
  {
    var s4, s6 := AfterAsk(s, r), AfterReport(s, r);
    var s5 := s4.(refreshes := s6.refreshes);
    assert Do(c, s4, StopLoop(r)) == s5;
    assert s5.circuits[0].Out() - {0} == {};
    assert Breaker.Moved(c.bidders[0].limits, s5.circuits[0], Breaker.Report(0, true, 0)) == Breaker.START;
    assert Do(c, s5, Report(0, Some([]), 0)) == s6;
    hide Do;
    hide AfterAsk;
    hide AfterReport;
    LeadsStep(c, s5, Report(0, Some([]), 0), [], s6);
    LeadsStep(c, s4, StopLoop(r), [Report(0, Some([]), 0)], s6);
  }

  /** Its worker is gone. */
  ghost function AfterCall(s: Sys, r: nat): Sys
    requires r in s.refreshes
  {
    var f := s.refreshes[r];
    s.(inflight := {f.key}, slots := 1,
       refreshes := s.refreshes[r := f.(phase := Waiting, started := 1, results := [EMPTY_RESULT],
                                          seen := Found(s, f.key))])
  }

  lemma ReportToCall(c: Config, s: Sys, r: nat)
    requires Ready(c, s, r)
    ensures Leads(c, AfterReport(s, r), [Send(0), FreeSem(0), Finish(0)], AfterCall(s, r))
  {
    var s6, s9 := AfterReport(s, r), AfterCall(s, r);
    var x := s6.workers[0];
    var s7 := s6.(workers := map[0 := x.(stage := Sent)], refreshes := s9.refreshes);
    assert s6.refreshes[r].results + [EMPTY_RESULT] == [EMPTY_RESULT];
    assert Do(c, s6, Send(0)) == s7;
    SendToCall(c, s7, x, s9);
    hide Do;
    hide AfterReport;
    hide AfterCall;
    LeadsStep(c, s6, Send(0), [FreeSem(0), Finish(0)], s9);
  }

  lemma SendToCall(c: Config, s: Sys, x: Worker, s': Sys)
    requires |c.bidders| == 1 && s.sems == [1] && s.workers == map[0 := x.(stage := Sent)] && x.bidder == 0
    requires |s.circuits| == 1 && s' == s.(workers := map[], sems := [0])
    ensures Leads(c, s, [FreeSem(0), Finish(0)], s')
  {
    var s8 := s.(workers := map[0 := x.(stage := Freed)], sems := [0]);
    assert Do(c, s, FreeSem(0)) == s8 && Do(c, s8, Finish(0)) == s';
    hide Do;
    LeadsStep(c, s8, Finish(0), [], s');
    LeadsStep(c, s, FreeSem(0), [Finish(0)], s');
  }

  /** The empty list is stored, everything is given back. */
  ghost function AfterRefresh(c: Config, s: Sys, r: nat): Sys
    requires r in s.refreshes
  {
    s.(cache := s.cache[s.refreshes[r].key := Entry([], s.clock + c.cacheTtl)], refreshes := s.refreshes - {r})
  }

  lemma EmptyEntry(c: Config, f: Refresh, now: int)
    requires f.results == [EMPTY_RESULT]
    ensures Result(c, f, now) == Entry([], now + c.cacheTtl)
  {
    assert EMPTY_RESULT in f.results;
    assert Merged([EMPTY_RESULT][..0]) == [];
  }

  lemma CallToRest(c: Config, s: Sys, r: nat)
    requires Ready(c, s, r)
    ensures Leads(c, AfterCall(s, r), [Store(r, true, s.clock), ReleaseKey(r), ReleaseSlot(r)], AfterRefresh(c, s, r))
  {
    var s9, s12 := AfterCall(s, r), AfterRefresh(c, s, r);
    var s10 := s9.(cache := s12.cache, refreshes := s.refreshes[r := s9.refreshes[r].(phase := Stored)]);
    EmptyEntry(c, s9.refreshes[r], s.clock);
    hide Result;
    assert Do(c, s9, Store(r, true, s.clock)) == s10;
    StoreToRest(c, s10, r, s12);
    hide Do;
    hide AfterCall;
    hide AfterRefresh;
    LeadsStep(c, s9, Store(r, true, s.clock), [ReleaseKey(r), ReleaseSlot(r)], s12);
  }

  lemma StoreToRest(c: Config, s: Sys, r: nat, s': Sys)
    requires Shaped(c, s) && r in s.refreshes && s.refreshes[r].phase.Stored? && s.slots == 1
    requires s.inflight == {s.refreshes[r].key} && s' == s.(inflight := {}, slots := 0, refreshes := s.refreshes - {r})
    ensures Leads(c, s, [ReleaseKey(r), ReleaseSlot(r)], s')
  {
    var s11 := s.(inflight := {}, refreshes := s.refreshes[r := s.refreshes[r].(phase := Unkeyed)]);
    assert Do(c, s, ReleaseKey(r)) == s11 && Do(c, s11, ReleaseSlot(r)) == s';
    hide Do;
    LeadsStep(c, s11, ReleaseSlot(r), [], s');
    LeadsStep(c, s, ReleaseKey(r), [ReleaseSlot(r)], s');
  }

  /** All the steps of one undisturbed refresh, from the claim on. */
  function WholeRefresh(r: nat, now: int): seq<Action> {
    [Claim(r), TakeSlot(r)]
    + [TakeSem(r), AskBreaker(r, 0, 0)]
    + [StopLoop(r), Report(0, Some([]), 0)]
    + [Send(0), FreeSem(0), Finish(0)]
    + [Store(r, true, now), ReleaseKey(r), ReleaseSlot(r)]
  }

  lemma RefreshRuns(c: Config, s: Sys, r: nat)
    requires Ready(c, s, r)
    ensures Leads(c, s, WholeRefresh(r, s.clock), AfterRefresh(c, s, r))
  {
    hide Leads;
    hide AfterClaim;
    hide AfterAsk;
    hide AfterReport;
    hide AfterCall;
    hide AfterRefresh;
    CheckToClaim(c, s, r);
    ClaimToAsk(c, s, r);
    AskToReport(c, s, r);
    ReportToCall(c, s, r);
    CallToRest(c, s, r);
    var claims, asks := [Claim(r), TakeSlot(r)], [TakeSem(r), AskBreaker(r, 0, 0)];
    var reports := [StopLoop(r), Report(0, Some([]), 0)];
    var sends := [Send(0), FreeSem(0), Finish(0)];
    var stores := [Store(r, true, s.clock), ReleaseKey(r), ReleaseSlot(r)];
    LeadsThen(c, s, claims, AfterClaim(s, r), asks, AfterAsk(s, r));
    LeadsThen(c, s, claims + asks, AfterAsk(s, r), reports, AfterReport(s, r));
    LeadsThen(c, s, claims + asks + reports, AfterReport(s, r), sends, AfterCall(s, r));
    LeadsThen(c, s, claims + asks + reports + sends, AfterCall(s, r), stores, AfterRefresh(c, s, r));
  }

  /** Both triggers have found nothing. */
  ghost function BothChecked(c: Config, request: AuctionRequest): Sys {
    var f := Refresh(CacheKey(request), request, Checked, 0, [], None);
    Init(c).(refreshes := map[0 := f, 1 := f])
  }

  lemma ChecksRun(c: Config, request: AuctionRequest)
    requires c.Valid() && |c.bidders| == 1
    ensures Leads(c, Init(c), [Check(0, request, 0), Check(1, request, 0)], BothChecked(c, request))
    ensures Ready(c, BothChecked(c, request), 0)
    ensures Ready(c, AfterRefresh(c, BothChecked(c, request), 0), 1)
    ensures AfterRefresh(c, BothChecked(c, request), 0).clock == 0
    ensures Found(AfterRefresh(c, BothChecked(c, request), 0), CacheKey(request)) == Some(Entry([], c.cacheTtl))
  {
    hide CacheKey;
    var f := Refresh(CacheKey(request), request, Checked, 0, [], None);
    var s1 := Init(c).(refreshes := map[0 := f]);
    assert Do(c, Init(c), Check(0, request, 0)) == s1;
    assert Do(c, s1, Check(1, request, 0)) == BothChecked(c, request);
    hide Do;
    LeadsStep(c, s1, Check(1, request, 0), [], BothChecked(c, request));
    LeadsStep(c, Init(c), Check(0, request, 0), [Check(1, request, 0)], BothChecked(c, request));
  }

  /** In every engine with one bidder, for every request: a live entry is replaced. */
  lemma LiveEntryIsReplaced(c: Config, request: AuctionRequest) returns (states: seq<Sys>, acts: seq<Action>)
    requires c.Valid() && |c.bidders| == 1
    ensures Lifetime(c, states, acts, 1, 1, 14, 23) && acts[1] == Check(1, request, 0)
    ensures Fresh(states[23], CacheKey(request), acts[23].now) && Stores(states[23], acts[23], CacheKey(request))
  {
    hide CacheKey;
    hide Leads;
    hide AfterRefresh;
    hide BothChecked;
    hide Do;
    hide Enabled;
    ChecksRun(c, request);
    var s2 := BothChecked(c, request);
    var s14 := AfterRefresh(c, s2, 0);
    RefreshRuns(c, s2, 0);
    RefreshRuns(c, s14, 1);
    var first := [Check(0, request, 0), Check(1, request, 0)] + WholeRefresh(0, s2.clock);
    LeadsThen(c, Init(c), [Check(0, request, 0), Check(1, request, 0)], s2, WholeRefresh(0, s2.clock), s14);
    var front := LeadsIsRun(c, Init(c), first, s14);
    var back := LeadsIsRun(c, s14, WholeRefresh(1, 0), AfterRefresh(c, s14, 1));
    RunThen(c, front, first, back, WholeRefresh(1, 0));
    states, acts := front + back[1..], first + WholeRefresh(1, 0);
    assert states[14] == s14;
    UntouchedSinceClaim(c, states, acts, 1, 1, 14, 23);
  }
}
