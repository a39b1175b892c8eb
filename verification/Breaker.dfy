/**
The circuit breaker of one bidder (circuitBreaker in dynamic_bidding.go), and
what it guarantees over every history of calls.
*/
module Breaker {
  import opened Types

  /** `openUntil` is None for Go's zero time. */
  datatype State = State(failures: nat, openUntil: Option<int>, probeInFlight: bool)

  datatype Limits = Limits(threshold: int, openFor: int)
  {
    predicate Valid() {
      threshold >= 1 && openFor > 0
    }
  }

  const CLOSED := State(0, None, false)

  function Grants(s: State, now: int): bool {
    s.openUntil.None? || (now >= s.openUntil.value && !s.probeInFlight)
  }

  function Asked(s: State, now: int): State {
    if s.openUntil.Some? && Grants(s, now) then s.(probeInFlight := true) else s
  }

  function Failed(l: Limits, s: State, now: int): State {
    State(s.failures + 1, if s.failures + 1 >= l.threshold then Some(now + l.openFor) else s.openUntil, false)
  }

  class CircuitBreaker {
    const limits: Limits
    var failures: nat
    var openUntil: Option<int>
    var probeInFlight: bool

    function View(): State
      reads this
    {
      State(failures, openUntil, probeInFlight)
    }

    /** Three failures and five seconds, in nanoseconds, stand in for limits that are not positive. */
    constructor (threshold: int, openFor: int)
      ensures limits.Valid() && View() == CLOSED
      ensures limits.threshold == (if threshold >= 1 then threshold else 3)
      ensures limits.openFor == (if openFor > 0 then openFor else 5_000_000_000)
    {
      limits := Limits(if threshold < 1 then 3 else threshold, if openFor <= 0 then 5_000_000_000 else openFor);
      failures, openUntil, probeInFlight := 0, None, false;
    }

    method Allow(now: int) returns (granted: bool)
      modifies this`probeInFlight
      ensures granted <==> openUntil.None? || (now >= openUntil.value && !old(probeInFlight))
      ensures probeInFlight <==> old(probeInFlight) || (granted && openUntil.Some?)
      ensures granted == Grants(old(View()), now) && View() == Asked(old(View()), now)
    {
      if openUntil.None? {
        return true;
      }
      if now < openUntil.value {
        return false;
      }
      if probeInFlight {
        return false;
      }
      probeInFlight := true;
      return true;
    }

    method Success()
      modifies this
      ensures View() == CLOSED
    {
      failures, openUntil, probeInFlight := 0, None, false;
    }

    method Failure(now: int)
      modifies this
      ensures failures == old(failures) + 1 && !probeInFlight
      ensures openUntil == if failures >= limits.threshold then Some(now + limits.openFor) else old(openUntil)
      ensures View() == Failed(limits, old(View()), now)
    {
      probeInFlight := false;
      failures := failures + 1;
      if failures >= limits.threshold {
        openUntil := Some(now + limits.openFor);
      }
    }
  }

  // ---------------------------------------------------------------------------
  // Histories, in the order in which the lock was taken
  // ---------------------------------------------------------------------------

  datatype Event = Ask(now: int) | Succeed(now: int) | Fail(now: int)

  function Step(l: Limits, s: State, e: Event): State {
    match e
    case Ask(now) => Asked(s, now)
    case Succeed(_) => CLOSED
    case Fail(now) => Failed(l, s, now)
  }

  function Run(l: Limits, events: seq<Event>): State {
    if events == [] then CLOSED
    else Step(l, Run(l, events[..|events| - 1]), events[|events| - 1])
  }

  ghost predicate TimeOrdered(events: seq<Event>) {
    forall i, j :: 0 <= i <= j < |events| ==> events[i].now <= events[j].now
  }

  /** The event at i asked and was let through. */
  predicate Granted(l: Limits, events: seq<Event>, i: nat)
    requires i < |events|
  {
    events[i].Ask? && Grants(Run(l, events[..i]), events[i].now)
  }

  predicate OpenAfter(l: Limits, events: seq<Event>, n: nat)
    requires n <= |events|
  {
    Run(l, events[..n]).openUntil.Some?
  }

  function FailuresSinceSuccess(events: seq<Event>): nat {
    if events == [] then 0
    else
      var before := FailuresSinceSuccess(events[..|events| - 1]);
      match events[|events| - 1]
      case Ask(_) => before
      case Succeed(_) => 0
      case Fail(_) => before + 1
  }

  lemma RunNext(l: Limits, events: seq<Event>, n: nat)
    requires n < |events|
    ensures Run(l, events[..n + 1]) == Step(l, Run(l, events[..n]), events[n])
  {
    assert events[..n + 1][..n] == events[..n];
  }

  /** The circuit is open exactly when `threshold` failures have happened since the last success. */
  lemma {:induction false} OpenIffEnoughFailures(l: Limits, events: seq<Event>)
    requires l.Valid()
    ensures Run(l, events).openUntil.Some? <==> FailuresSinceSuccess(events) >= l.threshold
    ensures Run(l, events).failures == FailuresSinceSuccess(events)
  {
    if events == [] {
    } else {
      OpenIffEnoughFailures(l, events[..|events| - 1]);
    }
  }

  lemma {:induction false} StaysOpen(l: Limits, events: seq<Event>, i: nat, n: nat)
    requires l.Valid() && TimeOrdered(events)
    requires i < n <= |events| && events[i].Fail? && OpenAfter(l, events, i + 1)
    requires forall m :: i < m < n ==> !events[m].Succeed?
    ensures var until := Run(l, events[..n]).openUntil; until.Some? && until.value >= events[i].now + l.openFor
    decreases n
  {
    RunNext(l, events, n - 1);
    if n == i + 1 {
      OpenIffEnoughFailures(l, events[..n]);
      OpenIffEnoughFailures(l, events[..i]);
      assert events[..n][..i] == events[..i];
    } else {
      StaysOpen(l, events, i, n - 1);
    }
  }

  /**
  After a failure that leaves the circuit open, nothing is let through for
  `openFor` unless a success comes first.
  */
  lemma NoGrantWhileOpen(l: Limits, events: seq<Event>, i: nat, j: nat)
    requires l.Valid() && TimeOrdered(events)
    requires i < j < |events| && events[i].Fail? && OpenAfter(l, events, i + 1)
    requires forall m :: i < m < j ==> !events[m].Succeed?
    requires Granted(l, events, j)
    ensures events[j].now >= events[i].now + l.openFor
  {
    StaysOpen(l, events, i, j);
  }

  lemma {:induction false} ProbeHeld(l: Limits, events: seq<Event>, i: nat, n: nat)
    requires i < n <= |events| && OpenAfter(l, events, i) && Granted(l, events, i)
    requires forall m :: i < m < n ==> events[m].Ask?
    ensures Run(l, events[..n]).openUntil.Some? && Run(l, events[..n]).probeInFlight
    decreases n
  {
    RunNext(l, events, n - 1);
    if n == i + 1 {
    } else {
      ProbeHeld(l, events, i, n - 1);
    }
  }

  /** Two calls let through in one open period have a reported outcome between them. */
  lemma OutcomeBetweenGrants(l: Limits, events: seq<Event>, i: nat, j: nat)
    requires i < j < |events| && OpenAfter(l, events, i) && Granted(l, events, i) && Granted(l, events, j)
    ensures exists m :: i < m < j && !events[m].Ask?
  {
    if forall m :: i < m < j ==> events[m].Ask? {
      ProbeHeld(l, events, i, j);
    }
  }

  /** The last outcome before j is the one at i. */
  ghost predicate LastOutcome(events: seq<Event>, i: nat, j: nat) {
    i < j <= |events| && !events[i].Ask? && forall m :: i < m < j ==> events[m].Ask?
  }

  ghost predicate GrantedBetween(l: Limits, events: seq<Event>, i: nat, n: nat)
    requires n <= |events|
  {
    exists m :: i < m < n && Granted(l, events, m)
  }

  /** Since an outcome at i only requests for calls: the state is what it left, but for the probe's flag. */
  lemma {:induction false} OnlyAsksSince(l: Limits, events: seq<Event>, i: nat, n: nat)
    requires i < n <= |events| && !events[i].Ask? && forall m :: i < m < n ==> events[m].Ask?
    ensures var s, s' := Run(l, events[..i + 1]), Run(l, events[..n]);
            && s' == s.(probeInFlight := s'.probeInFlight)
            && (s'.probeInFlight <==> s.openUntil.Some? && GrantedBetween(l, events, i, n))
    decreases n
  {
    RunNext(l, events, i);
    if n == i + 1 {
    } else {
      OnlyAsksSince(l, events, i, n - 1);
      RunNext(l, events, n - 1);
      assert GrantedBetween(l, events, i, n) <==> GrantedBetween(l, events, i, n - 1) || Granted(l, events, n - 1);
    }
  }

  lemma {:induction false} LastOutcomeOf(events: seq<Event>, j: nat) returns (i: nat)
    requires j <= |events| && exists m :: 0 <= m < j && !events[m].Ask?
    ensures LastOutcome(events, i, j)
    decreases j
  {
    if events[j - 1].Ask? {
      i := LastOutcomeOf(events, j - 1);
    } else {
      i := j - 1;
    }
  }

  lemma {:induction false} NoOutcomeNoFailure(l: Limits, events: seq<Event>)
    requires forall m :: 0 <= m < |events| ==> events[m].Ask?
    ensures FailuresSinceSuccess(events) == 0
  {
    if events == [] {
    } else {
      NoOutcomeNoFailure(l, events[..|events| - 1]);
    }
  }

  /** The last outcome before j is a failure from which `openFor` has passed, and nothing was let through since. */
  ghost predicate ProbeDue(l: Limits, events: seq<Event>, i: nat, j: nat)
    requires j < |events|
  {
    && LastOutcome(events, i, j) && events[i].Fail?
    && events[j].now >= events[i].now + l.openFor
    && forall m :: i < m < j ==> !Granted(l, events, m)
  }

  /**
  Exactly which calls are let through: all of them while fewer than `threshold`
  failures have happened since the last success; after that the first one for
  which `openFor` has passed since the last failure.
  */
  lemma GrantedIff(l: Limits, events: seq<Event>, j: nat)
    requires l.Valid() && j < |events| && events[j].Ask?
    ensures Granted(l, events, j) <==>
              FailuresSinceSuccess(events[..j]) < l.threshold || exists i: nat :: ProbeDue(l, events, i, j)
  {
    OpenIffEnoughFailures(l, events[..j]);
    if forall m :: 0 <= m < j ==> events[m].Ask? {
      NoOutcomeNoFailure(l, events[..j]);
    } else {
      var i := LastOutcomeOf(events, j);
      OnlyAsksSince(l, events, i, j);
      RunNext(l, events, i);
      OpenIffEnoughFailures(l, events[..i]);
      assert events[..j][..i] == events[..i];
      assert forall i': nat :: LastOutcome(events, i', j) ==> i' == i;
      assert ProbeDue(l, events, i, j) <==> (events[i].Fail? && events[j].now >= events[i].now + l.openFor
                                            && forall m :: i < m < j ==> !Granted(l, events, m));
    }
  }

  // ---------------------------------------------------------------------------
  // The breaker with the calls that are out
  // ---------------------------------------------------------------------------

  /**
  `early` were let through before the circuit opened (all of them while it is
  closed), `probes` since; none has reported yet. `holder` is the call that
  raised the flag.
  */
  datatype Circuit = Circuit(breaker: State, holder: Option<nat>, early: set<nat>, probes: set<nat>)
  {
    function Out(): set<nat> {
      early + probes
    }

    predicate IsOpen() {
      breaker.openUntil.Some?
    }
  }

  const START := Circuit(CLOSED, None, {}, {})

  datatype Move = LetThrough(call: nat, now: int) | Report(call: nat, success: bool, now: int)

  /** At most `limit` calls are out at once: the bidder's semaphore. */
  predicate Legal(limit: nat, p: Circuit, m: Move) {
    match m
    case LetThrough(call, now) => call !in p.Out() && |p.Out()| < limit && Grants(p.breaker, now)
    case Report(call, _, _) => call in p.Out()
  }

  function Moved(l: Limits, p: Circuit, m: Move): Circuit {
    match m
    case LetThrough(call, now) =>
      if p.IsOpen() then Circuit(Asked(p.breaker, now), Some(call), p.early, p.probes + {call})
      else p.(early := p.early + {call})
    case Report(call, success, now) =>
      if success then Circuit(CLOSED, None, p.Out() - {call}, {})
      else Circuit(Failed(l, p.breaker, now), None, p.early - {call}, p.probes - {call})
  }

  ghost predicate Reaches(l: Limits, limit: nat, p: Circuit, moves: seq<Move>, p': Circuit)
    decreases |moves|
  {
    if moves == [] then p == p'
    else Legal(limit, p, moves[0]) && Reaches(l, limit, Moved(l, p, moves[0]), moves[1..], p')
  }

  lemma ReachesStep(l: Limits, limit: nat, p: Circuit, m: Move, rest: seq<Move>, p': Circuit)
    requires Legal(limit, p, m) && Reaches(l, limit, Moved(l, p, m), rest, p')
    ensures Reaches(l, limit, p, [m] + rest, p')
  {
    assert ([m] + rest)[1..] == rest;
  }

  lemma OneMove(l: Limits, limit: nat, p: Circuit, m: Move)
    requires Legal(limit, p, m)
    ensures Reaches(l, limit, p, [m], Moved(l, p, m))
    ensures Moved(l, p, m).Out() == if m.LetThrough? then p.Out() + {m.call} else p.Out() - {m.call}
  {
    assert Reaches(l, limit, Moved(l, p, m), [m][1..], Moved(l, p, m));
  }

  lemma {:induction false} ReachesThen(l: Limits, limit: nat, p: Circuit, moves: seq<Move>, q: Circuit,
                                       more: seq<Move>, p': Circuit)
    requires Reaches(l, limit, p, moves, q) && Reaches(l, limit, q, more, p')
    ensures Reaches(l, limit, p, moves + more, p')
    decreases |moves|
  {
    hide Moved;
    hide Legal;
    if moves == [] {
      assert moves + more == more;
    } else {
      ReachesThen(l, limit, Moved(l, p, moves[0]), moves[1..], q, more, p');
      assert (moves + more)[1..] == moves[1..] + more;
    }
  }

  function EventOf(m: Move): Event {
    match m
    case LetThrough(_, now) => Ask(now)
    case Report(_, success, now) => if success then Succeed(now) else Fail(now)
  }

  function EventsOf(moves: seq<Move>): (events: seq<Event>)
    ensures |events| == |moves|
  {
    seq(|moves|, i requires 0 <= i < |moves| => EventOf(moves[i]))
  }

  /** The breaker in a circuit goes through the history that its calls make. */
  lemma {:induction false} CircuitIsHistory(l: Limits, limit: nat, before: seq<Event>, p: Circuit, moves: seq<Move>,
                                            p': Circuit)
    requires p.breaker == Run(l, before) && Reaches(l, limit, p, moves, p')
    ensures p'.breaker == Run(l, before + EventsOf(moves))
    decreases |moves|
  {
    if moves == [] {
      assert before + EventsOf(moves) == before;
    } else {
      var next := before + [EventOf(moves[0])];
      assert next[..|next| - 1] == before;
      CircuitIsHistory(l, limit, next, Moved(l, p, moves[0]), moves[1..], p');
      assert next + EventsOf(moves[1..]) == before + EventsOf(moves);
    }
  }

  /** The flag is up exactly while the probe that raised it is out; a closed circuit has no probes. */
  ghost predicate CircuitInv(limit: nat, p: Circuit) {
    && |p.Out()| <= limit
    && (p.breaker.probeInFlight <==> p.holder.Some?)
    && (p.holder.Some? ==> p.holder.value in p.probes)
    && (!p.IsOpen() ==> p.probes == {} && !p.breaker.probeInFlight)
  }

  lemma MoveKeepsInv(l: Limits, limit: nat, p: Circuit, m: Move)
    requires CircuitInv(limit, p) && Legal(limit, p, m)
    ensures CircuitInv(limit, Moved(l, p, m))
  {
    match m
    case LetThrough(call, _) => assert Moved(l, p, m).Out() == p.Out() + {call};
    case Report(call, _, _) =>
      assert Moved(l, p, m).Out() <= p.Out();
      assert |Moved(l, p, m).Out()| + |p.Out() - Moved(l, p, m).Out()| == |p.Out()|;
  }

  lemma {:induction false} CircuitInvHolds(l: Limits, limit: nat, p: Circuit, moves: seq<Move>, p': Circuit)
    requires CircuitInv(limit, p) && Reaches(l, limit, p, moves, p')
    ensures CircuitInv(limit, p')
    decreases |moves|
  {
    hide CircuitInv;
    hide Moved;
    if moves == [] {
    } else {
      MoveKeepsInv(l, limit, p, moves[0]);
      CircuitInvHolds(l, limit, Moved(l, p, moves[0]), moves[1..], p');
    }
  }

  // ---------------------------------------------------------------------------
  // Exactly when two probes can be out in one open period
  // ---------------------------------------------------------------------------

  /** A reachable closed circuit that the failure of this call opens. */
  ghost predicate Opens(l: Limits, limit: nat, p: Circuit, m: Move) {
    && (exists moves :: Reaches(l, limit, START, moves, p))
    && !p.IsOpen() && Legal(limit, p, m) && m.Report? && !m.success
    && Moved(l, p, m).IsOpen()
  }

  predicate NoSuccess(m: Move) {
    m.Report? ==> !m.success
  }

  /** A success ends the open period. */
  ghost predicate TwoProbesInPeriod(l: Limits, limit: nat, p: Circuit) {
    exists moves, p' ::
      Reaches(l, limit, p, moves, p') && (forall i :: 0 <= i < |moves| ==> NoSuccess(moves[i])) && |p'.probes| >= 2
  }

  ghost predicate SingleProbe(p: Circuit) {
    && p.IsOpen()
    && p.early == {}
    && |p.probes| <= 1
    && (p.breaker.probeInFlight <==> p.probes != {})
  }

  lemma {:induction false} SingleProbeHolds(l: Limits, limit: nat, p: Circuit, moves: seq<Move>, p': Circuit)
    requires SingleProbe(p) && Reaches(l, limit, p, moves, p')
    requires forall i :: 0 <= i < |moves| ==> NoSuccess(moves[i])
    ensures SingleProbe(p')
    decreases |moves|
  {
    if moves == [] {
    } else {
      var next := Moved(l, p, moves[0]);
      assert NoSuccess(moves[0]);
      assert SingleProbe(next) by {
        if p.probes != {} {
          var x :| x in p.probes;
          assert p.probes - {x} == {};
        }
      }
      SingleProbeHolds(l, limit, next, moves[1..], p');
    }
  }

  ghost function Above(used: set<nat>): (a: nat)
    ensures forall x :: x in used ==> x < a
  {
    if used == {} then 0
    else
      var x :| x in used;
      assert forall y :: y in used ==> y == x || y in used - {x};
      Max(x + 1, Above(used - {x}))
  }

  /** With an early call still out: a probe, the early call's failure, and a second probe after the wait. */
  lemma StragglerLetsTwoThrough(l: Limits, limit: nat, p: Circuit, straggler: nat)
    returns (moves: seq<Move>, p': Circuit)
    requires l.Valid() && p.IsOpen() && p.breaker.failures >= l.threshold && !p.breaker.probeInFlight && p.probes == {}
    requires straggler in p.early && |p.early| < limit
    ensures Reaches(l, limit, p, moves, p') && |p'.probes| == 2 && forall i :: 0 <= i < |moves| ==> NoSuccess(moves[i])
  {
    var t, a := p.breaker.openUntil.value, Above(p.early);
    var first, fails, second := LetThrough(a, t), Report(straggler, false, t), LetThrough(a + 1, t + l.openFor);
    var p1 := Moved(l, p, first);
    var p2 := Moved(l, p1, fails);
    p' := Moved(l, p2, second);
    assert p.Out() == p.early;
    assert p2.Out() == (p.early - {straggler}) + {a};
    assert p'.probes == {a, a + 1};
    hide Moved;
    ReachesStep(l, limit, p2, second, [], p');
    ReachesStep(l, limit, p1, fails, [second], p');
    ReachesStep(l, limit, p, first, [fails] + [second], p');
    moves := [first] + ([fails] + [second]);
  }

  lemma JustOpened(l: Limits, limit: nat, p: Circuit, m: Move)
    requires l.Valid() && Opens(l, limit, p, m)
    ensures var q := Moved(l, p, m);
            q.breaker.failures >= l.threshold && !q.breaker.probeInFlight && q.probes == {} && |q.early| < limit
  {
    var moves :| Reaches(l, limit, START, moves, p);
    CircuitInvHolds(l, limit, START, moves, p);
    assert Moved(l, p, m).early == p.Out() - {m.call};
  }

  /** Two probes come to be out together in an open period exactly when an earlier call is still out as it begins. */
  lemma TwoProbesIffStraggler(l: Limits, limit: nat, p: Circuit, m: Move)
    requires l.Valid() && Opens(l, limit, p, m)
    ensures TwoProbesInPeriod(l, limit, Moved(l, p, m)) <==> p.Out() - {m.call} != {}
  {
    JustOpened(l, limit, p, m);
    var q := Moved(l, p, m);
    var moves :| Reaches(l, limit, START, moves, p);
    CircuitInvHolds(l, limit, START, moves, p);
    assert q.early == p.Out() - {m.call};
    hide Moved;
    if q.early != {} {
      var straggler :| straggler in q.early;
      var more, p' := StragglerLetsTwoThrough(l, limit, q, straggler);
    } else {
      forall more, p' | Reaches(l, limit, q, more, p') && forall i :: 0 <= i < |more| ==> NoSuccess(more[i])
        ensures |p'.probes| <= 1
      {
        SingleProbeHolds(l, limit, q, more, p');
      }
    }
  }

  /** One call stays out while others fail, one after the other, until the circuit opens. */
  lemma {:induction false} FailUntilOpen(l: Limits, limit: nat, p: Circuit, left: nat)
    returns (moves: seq<Move>, p': Circuit)
    requires l.Valid() && limit >= 2 && left > 0 && p.breaker.failures + left == l.threshold
    requires !p.IsOpen() && !p.breaker.probeInFlight && p.early == {0} && p.probes == {}
    ensures Reaches(l, limit, p, moves, p')
    ensures p'.IsOpen() && p'.breaker.failures >= l.threshold && !p'.breaker.probeInFlight
    ensures p'.early == {0} && p'.probes == {}
    decreases left
  {
    var call, fail := LetThrough(1, 0), Report(1, false, 0);
    var p1 := Moved(l, p, call);
    var p2 := Moved(l, p1, fail);
    assert p.Out() == {0} && p1.Out() == {0, 1};
    assert p2.early == {0};
    var rest;
    if left == 1 {
      rest, p' := [], p2;
    } else {
      rest, p' := FailUntilOpen(l, limit, p2, left - 1);
    }
    hide Moved;
    ReachesStep(l, limit, p1, fail, rest, p');
    ReachesStep(l, limit, p, call, [fail] + rest, p');
    moves := [call] + ([fail] + rest);
  }

  ghost predicate TwoProbesReachable(l: Limits, limit: nat) {
    exists moves, p :: Reaches(l, limit, START, moves, p) && |p.probes| >= 2
  }

  /** From a closed circuit, two probes can come to be out together exactly when the bidder may have two calls out. */
  lemma TwoProbesReachableIff(l: Limits, limit: nat)
    requires l.Valid()
    ensures TwoProbesReachable(l, limit) <==> limit >= 2
  {
    if limit >= 2 {
      var p := Moved(l, START, LetThrough(0, 0));
      assert START.Out() == {} && p.early == {0};
      var fails, q := FailUntilOpen(l, limit, p, l.threshold);
      var more, p' := StragglerLetsTwoThrough(l, limit, q, 0);
      hide Moved;
      ReachesThen(l, limit, p, fails, q, more, p');
      ReachesStep(l, limit, START, LetThrough(0, 0), fails + more, p');
    } else {
      forall moves, p | Reaches(l, limit, START, moves, p)
        ensures |p.probes| <= 1
      {
        CircuitInvHolds(l, limit, START, moves, p);
        assert |p.Out()| == |p.probes| + |p.Out() - p.probes|;
      }
    }
  }
}
