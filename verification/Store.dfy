/**
The Redis client of the registry (store.go). Each Redis call is one atomic
step; an attempt may be answered, or be lost before or after Redis executed
it. In cluster mode a lost attempt is made once more, and other clients may
write between the two.
*/
module Store {
  import opened Types
  import opened LuaNumbers
  import opened Pricing
  import opened Registry
  import opened Snapshots

  datatype Attempt = Answered | Lost(executed: bool)
  {
    predicate Executes() {
      Answered? || executed
    }
  }

  /** How the first attempt of a call goes, and the second one if it is made. */
  datatype Tries = Tries(first: Attempt, second: Attempt)
  {
    predicate Succeeds(cluster: bool) {
      first.Answered? || (cluster && second.Answered?)
    }
  }

  /** The network during one mutation, and what other clients write before the script is retried. */
  datatype Network = Network(add: Tries, eval: Tries, publish: Tries, between: seq<Op>)

  datatype Outcome = Accepted | Rejected(error: BidError) | BadArguments | Unavailable | StaleRevision

  /** The rows, without the index. */
  ghost predicate SameRows(s: State, s': State) {
    s.active == s'.active && s.versions == s'.versions
  }

  /** The operation took effect at most once, and the other clients' operations as often as they ran. */
  ghost predicate AtMostOnce(s: State, s': State, op: Op, between: seq<Op>) {
    || SameRows(s', s)
    || SameRows(s', Mutate(s, op))
    || SameRows(s', Play(s, between))
    || SameRows(s', Play(Mutate(s, op), between))
    || SameRows(s', Mutate(Play(s, between), op))
  }

  /** The registry holds the operation: its payload or its tombstone, at its revision as the scripts see it. */
  ghost predicate Holds(s: State, op: Op) {
    && KeyOf(op).placement in s.placements
    && InEffect(op, s)
    && KeyOf(op) in s.versions && Double(s.versions[KeyOf(op)]) == Rank(op)
  }

  /** Which bids the registry takes, field by field. An omitted pacing is allowed. */
  predicate Storable(b: Bid) {
    && 1 <= |b.id| <= 128 && 1 <= |b.placementId| <= 128
    && OPEN_BRACE !in b.placementId && CLOSE_BRACE !in b.placementId
    && 1 <= b.revision <= INT64_MAX
    && b.campaignId != [] && b.creativeId != []
    && |b.markup| <= 65536 && |b.clickUrl| <= 4096 && |b.dealId| <= 128
    && b.priceMicros > 0 && 0 <= b.floorMicros <= b.priceMicros
    && (b.activeToUnix == 0 || b.activeFromUnix <= b.activeToUnix)
    && 0 <= b.priority <= 1000 && (b.priority > 0 ==> b.dealId != [])
    && 0 <= b.pacingBps <= 10_000
  }

  /** What is stored for a bid: an omitted pacing is full pacing. */
  function Stored(b: Bid): Bid {
    b.(pacingBps := if b.pacingBps == 0 then 10_000 else b.pacingBps)
  }

  lemma StorableIsValid(b: Bid)
    ensures Stored(b) == Normalize(b)
    ensures Storable(b) <==> Valid(Normalize(b))
  {
  }

  class RedisStore {
    const cluster: bool
    var active: map<Key, Bid>
    var versions: map<Key, Uint64>
    var placements: set<Text>
    var published: multiset<Text>

    ghost function View(): State
      reads this
    {
      State(active, versions, placements)
    }

    constructor (cluster: bool)
      ensures View() == EMPTY && Agreement(View()) && published == multiset{}
    {
      this.cluster := cluster;
      active, versions, placements, published := map[], map[], {}, multiset{};
    }

    /** upsertBidScript. */
    method EvalUpsert(bid: Bid) returns (reply: Reply)
      modifies this`active, this`versions
      ensures View() == Exec(old(View()), Put(bid)) && reply == ReplyTo(old(View()), Put(bid))
    {
      var field := Key(bid.placementId, bid.id);
      if field in versions {
        var revision, existing := Double(bid.revision), Double(versions[field]);
        if revision < existing {
          return StaleReply;
        }
        if revision == existing {
          if field in active && active[field] == bid {
            return Repeated;
          }
          return StaleReply;
        }
      }
      active := active[field := bid];
      versions := versions[field := bid.revision];
      return Applied;
    }

    /** deleteBidScript. */
    method EvalDelete(field: Key, argument: Uint64) returns (reply: Reply)
      modifies this`active, this`versions
      ensures View() == Exec(old(View()), Remove(field, argument))
              && reply == ReplyTo(old(View()), Remove(field, argument))
    {
      if field in versions {
        var revision, existing := Double(argument), Double(versions[field]);
        if revision < existing {
          return StaleReply;
        }
        if revision == existing {
          if field !in active {
            return Repeated;
          }
          return StaleReply;
        }
      }
      active := active - {field};
      versions := versions[field := argument];
      return Applied;
    }

    method Eval(op: Op) returns (reply: Reply)
      modifies this`active, this`versions
      ensures View() == Exec(old(View()), op) && reply == ReplyTo(old(View()), op)
    {
      match op
      case Put(bid) => reply := EvalUpsert(bid);
      case Remove(field, revision) => reply := EvalDelete(field, revision);
    }

    /** Other clients' mutations. */
    method Others(ops: seq<Op>)
      modifies this`active, this`versions, this`placements
      ensures View() == Play(old(View()), ops)
    {
      for i := 0 to |ops|
        invariant View() == Play(old(View()), ops[..i])
      {
        placements := placements + {KeyOf(ops[i]).placement};
        var _ := Eval(ops[i]);
        assert ops[..i + 1][..i] == ops[..i];
      }
      assert ops[..|ops|] == ops;
    }

    /** SADD with retryTopology. */
    method AddPlacement(placement: Text, tries: Tries) returns (ok: bool)
      modifies this`placements
      ensures ok == tries.Succeeds(cluster)
      ensures placements == old(placements) || placements == old(placements) + {placement}
      ensures ok ==> placement in placements
    {
      if tries.first.Executes() {
        placements := placements + {placement};
      }
      if tries.first.Answered? || !cluster {
        return tries.first.Answered?;
      }
      if tries.second.Executes() {
        placements := placements + {placement};
      }
      return tries.second.Answered?;
    }

    /** EVAL with retryTopology: the script may run twice, its effect happens once. */
    method EvalWithRetry(op: Op, tries: Tries, between: seq<Op>) returns (ok: bool, reply: Reply)
      requires KeyOf(op).placement in placements
      modifies this`active, this`versions, this`placements
      ensures ok == tries.Succeeds(cluster)
      ensures AtMostOnce(old(View()), View(), op, between)
      ensures ok && !reply.StaleReply? ==> Holds(View(), op)
      ensures ok && reply.StaleReply? ==> !Supersedes(op, View()) && !Holds(View(), op)
      ensures Agreement(old(View())) && WellFormed(op) && (forall o :: o in between ==> WellFormed(o)) ==>
                Agreement(View())
    {
      hide Exec;
      hide ReplyTo;
      hide Play;
      hide Agreement;
      ghost var s := View();
      ScriptsHappenOnce(s, op, between, tries, cluster);
      if Agreement(s) && WellFormed(op) && forall o :: o in between ==> WellFormed(o) {
        ScriptsKeepAgreement(s, op, between, tries, cluster);
      }
      reply := StaleReply;
      if tries.first.Executes() {
        reply := Eval(op);
        ScriptReply(s, op);
      }
      if tries.first.Answered? || !cluster {
        return tries.first.Answered?, reply;
      }
      Others(between);
      ghost var s' := View();
      ScriptReply(s', op);
      if tries.second.Executes() {
        reply := Eval(op);
      }
      return tries.second.Answered?, reply;
    }

    /** PUBLISH with retryTopology: a lost attempt may still have been delivered. */
    method Publish(placement: Text, tries: Tries) returns (ok: bool)
      modifies this`published
      ensures ok == tries.Succeeds(cluster)
      ensures old(published) <= published <= old(published) + multiset{placement, placement}
      ensures ok ==> old(published)[placement] < published[placement]
    {
      if tries.first.Executes() {
        published := published + multiset{placement};
      }
      if tries.first.Answered? || !cluster {
        return tries.first.Answered?;
      }
      if tries.second.Executes() {
        published := published + multiset{placement};
      }
      return tries.second.Answered?;
    }

    /** Index, script and announcement in this order: each is tried only after the one before has succeeded. */
    ghost predicate Announces(op: Op, net: Network, result: Outcome, before: multiset<Text>, after: multiset<Text>) {
      && (result.Accepted? || result.Unavailable? || result.StaleRevision?)
      && before <= after <= before + multiset{KeyOf(op).placement, KeyOf(op).placement}
      && var written := net.add.Succeeds(cluster) && net.eval.Succeeds(cluster);
         && (!written ==> result.Unavailable? && after == before)
         && (written && !result.StaleRevision? ==> (result.Accepted? <==> net.publish.Succeeds(cluster)))
    }

    method Mutation(op: Op, net: Network) returns (result: Outcome)
      requires WellFormed(op) && Agreement(View()) && forall o :: o in net.between ==> WellFormed(o)
      modifies this
      ensures Agreement(View())
      ensures AtMostOnce(old(View()), View(), op, net.between)
      ensures result.Accepted? ==>
                && Holds(View(), op)
                && old(published)[KeyOf(op).placement] < published[KeyOf(op).placement]
      ensures result.StaleRevision? ==> !Supersedes(op, View()) && !Holds(View(), op)
      ensures result.StaleRevision? ==> published == old(published)
      ensures Announces(op, net, result, old(published), published)
      ensures !net.add.Succeeds(cluster) ==> SameRows(View(), old(View()))
    {
      var placement := KeyOf(op).placement;
      ghost var s := View();
      var ok := AddPlacement(placement, net.add);
      if !ok {
        return Unavailable;
      }
      ghost var s' := View();
      assert Agreement(s');
      var reply;
      ok, reply := EvalWithRetry(op, net.eval, net.between);
      IndexingKeepsRows(s, s', op, net.between);
      if !ok {
        return Unavailable;
      }
      if reply.StaleReply? {
        return StaleRevision;
      }
      ok := Publish(placement, net.publish);
      return if ok then Accepted else Unavailable;
    }

    method Upsert(bid: Bid, net: Network) returns (result: Outcome)
      requires Agreement(View()) && forall o :: o in net.between ==> WellFormed(o)
      modifies this
      ensures Agreement(View())
      ensures result.Rejected? <==> !Storable(bid)
      ensures result.Rejected? ==>
                && result == Rejected(Check(Normalize(bid), true).value)
                && View() == old(View()) && published == old(published)
      ensures Storable(bid) ==>
                && AtMostOnce(old(View()), View(), Put(Stored(bid)), net.between)
                && Announces(Put(Stored(bid)), net, result, old(published), published)
                && (!net.add.Succeeds(cluster) ==> SameRows(View(), old(View())))
      ensures result.Accepted? ==>
                var k := Key(bid.placementId, bid.id);
                && bid.placementId in placements
                && k in active && active[k] == Stored(bid)
                && k in versions && Double(versions[k]) == Double(bid.revision)
                && old(published)[bid.placementId] < published[bid.placementId]
      ensures result.StaleRevision? ==>
                var k := Key(bid.placementId, bid.id);
                && k in versions && Double(bid.revision) <= Double(versions[k])
                && !(Double(bid.revision) == Double(versions[k]) && k in active && active[k] == Stored(bid))
                && published == old(published)
    {
      StorableIsValid(bid);
      var normal := Normalize(bid);
      var problem := Check(normal, true);
      if problem.Some? {
        return Rejected(problem.value);
      }
      result := Mutation(Put(normal), net);
    }

    method Delete(placement: Text, bidId: Text, revision: Uint64, net: Network) returns (result: Outcome)
      requires Agreement(View()) && forall o :: o in net.between ==> WellFormed(o)
      modifies this
      ensures var op := Remove(Key(placement, bidId), revision);
              && Agreement(View())
              && (result.BadArguments? <==> placement == [] || bidId == [] || revision == 0 || revision > INT64_MAX)
              && (result.BadArguments? ==> View() == old(View()) && published == old(published))
              && (!result.BadArguments? ==>
                    && AtMostOnce(old(View()), View(), op, net.between)
                    && Announces(op, net, result, old(published), published)
                    && (!net.add.Succeeds(cluster) ==> SameRows(View(), old(View()))))
      ensures result.Accepted? ==>
                var k := Key(placement, bidId);
                && placement in placements
                && k !in active
                && k in versions && Double(versions[k]) == Double(revision)
                && old(published)[placement] < published[placement]
      ensures result.StaleRevision? ==>
                var k := Key(placement, bidId);
                && k in versions && Double(revision) <= Double(versions[k])
                && !(Double(revision) == Double(versions[k]) && k !in active)
                && published == old(published)
    {
      if placement == [] || bidId == [] || revision == 0 || revision > INT64_MAX {
        return BadArguments;
      }
      result := Mutation(Remove(Key(placement, bidId), revision), net);
    }

    /** Reads the active hash in any order, keeps what validates, and sorts. None when Redis did not answer. */
    method Fetch(placement: Text, tries: Tries) returns (result: Option<seq<Bid>>)
      requires Agreement(View())
      ensures result == if tries.Succeeds(cluster) then Some(FetchOf(View(), placement)) else None
    {
      hide EffectivePrice;
      if !(tries.first.Answered? || (cluster && tries.second.Answered?)) {
        return None;
      }
      var values := map k | k in active && k.placement == placement :: active[k];
      var list := Decode(placement, values);
      ghost var bids := list[..];
      SortBids(list);
      ValuesAreLive(values, View(), placement);
      SortedIsListing(bids, list[..], Live(View(), placement));
      FetchListsLiveBids(View(), placement);
      return Some(list[..]);
    }

    /** Decodes the hash values in any order and keeps the valid bids of the placement. */
    method Decode(placement: Text, values: map<Key, Bid>) returns (list: array<Bid>)
      requires forall k :: k in values ==>
                 Valid(values[k]) && Key(values[k].placementId, values[k].id) == k && k.placement == placement
      ensures fresh(list) && DistinctIds(list[..])
      ensures forall b :: b in list[..] <==> b in values.Values
    {
      hide EffectivePrice;
      var bids: seq<Bid> := [];
      var rest := values.Keys;
      while rest != {}
        invariant rest <= values.Keys
        invariant DistinctIds(bids)
        invariant forall b :: b in bids <==>
                    Key(placement, b.id) in values.Keys - rest && values[Key(placement, b.id)] == b
        decreases |rest|
      {
        var k :| k in rest;
        var bid := Normalize(values[k]);
        assert bid == values[k] && Key(placement, bid.id) == k;
        if Valid(bid) && bid.placementId == placement {
          bids := bids + [bid];
        }
        rest := rest - {k};
      }
      list := new Bid[|bids|](i requires 0 <= i < |bids| => bids[i]);
      assert list[..] == bids;
      forall b
        ensures b in bids <==> b in values.Values
      {
        if b in values.Values {
          var k :| k in values && values[k] == b;
          assert k == Key(placement, b.id);
        }
      }
    }

    /** The placements to reconcile. None when Redis did not answer. */
    method Placements(tries: Tries) returns (result: Option<seq<Text>>)
      ensures result.Some? == tries.Succeeds(cluster)
      ensures result.Some? ==> (forall p :: p in result.value <==> p in placements) && Increasing(result.value)
    {
      if !(tries.first.Answered? || (cluster && tries.second.Answered?)) {
        return None;
      }
      var list: seq<Text> := [];
      var rest := placements;
      while rest != {}
        invariant rest <= placements
        invariant forall p :: p in list <==> p in placements && p !in rest
        invariant Increasing(list)
        decreases |rest|
      {
        var p :| p in rest;
        list := Place(list, p);
        rest := rest - {p};
      }
      return Some(list);
    }
  }

  /** In byte order, nothing twice. */
  ghost predicate Increasing(list: seq<Text>) {
    forall i, j :: 0 <= i < j < |list| ==> TextLess(list[i], list[j])
  }

  /** Members come in any order; each takes its place in a sorted list. */
  method Place(list: seq<Text>, p: Text) returns (longer: seq<Text>)
    requires Increasing(list) && p !in list
    ensures Increasing(longer) && forall q :: q in longer <==> q in list || q == p
  {
    var i := 0;
    while i < |list| && TextLess(list[i], p)
      invariant i <= |list| && forall k :: 0 <= k < i ==> TextLess(list[k], p)
    {
      i := i + 1;
    }
    forall k | i <= k < |list|
      ensures TextLess(p, list[k])
    {
      TextLessTotal(p, list[i]);
      if k > i {
        TextLessTransitive(p, list[i], list[k]);
      }
    }
    longer := list[..i] + [p] + list[i..];
    assert list == list[..i] + list[i..];
  }

  lemma ValuesAreLive(values: map<Key, Bid>, s: State, placement: Text)
    requires values == map k | k in s.active && k.placement == placement :: s.active[k]
    ensures forall b :: b in Live(s, placement) <==> b in values.Values
  {
    forall b
      ensures b in Live(s, placement) <==> b in values.Values
    {
      if b in Live(s, placement) {
        var k :| k in s.active && k.placement == placement && s.active[k] == b;
        assert k in values;
      }
      if b in values.Values {
        var k :| k in values && values[k] == b;
        assert k in s.active;
      }
    }
  }

  /** The registry after one script call, whose two attempts go as `tries` says. */
  ghost function AfterScript(s: State, op: Op, between: seq<Op>, tries: Tries, cluster: bool): State {
    var s1 := if tries.first.Executes() then Exec(s, op) else s;
    if tries.first.Answered? || !cluster then s1
    else
      var s2 := Play(s1, between);
      if tries.second.Executes() then Exec(s2, op) else s2
  }

  lemma ScriptReply(s: State, op: Op)
    ensures Exec(s, op).placements == s.placements
    ensures KeyOf(op).placement in s.placements && !ReplyTo(s, op).StaleReply? ==> Holds(Exec(s, op), op)
    ensures ReplyTo(s, op).StaleReply? ==> !Supersedes(op, Exec(s, op)) && !Holds(Exec(s, op), op)
  {
    hide Double;
  }

  lemma MutateIndexed(s: State, op: Op)
    requires KeyOf(op).placement in s.placements
    ensures Mutate(s, op) == Exec(s, op)
  {
    assert s.placements + {KeyOf(op).placement} == s.placements;
  }

  /** Running the script twice has the effect of running it once, whatever other clients write in between. */
  lemma ScriptsHappenOnce(s: State, op: Op, between: seq<Op>, tries: Tries, cluster: bool)
    requires KeyOf(op).placement in s.placements
    ensures AtMostOnce(s, AfterScript(s, op, between, tries, cluster), op, between)
    ensures KeyOf(op).placement in Play(s, between).placements
            && KeyOf(op).placement in Play(Exec(s, op), between).placements
  {
    IndexStays(s, op, between);
    hide Exec;
    hide Play;
    var s1 := if tries.first.Executes() then Exec(s, op) else s;
    MutateIndexed(s, op);
    MutateIndexed(Play(s1, between), op);
    RetryChangesNothing(s, op, between);
    hide Mutate;
  }

  lemma IndexStays(s: State, op: Op, between: seq<Op>)
    ensures s.placements <= Play(s, between).placements && s.placements <= Play(Exec(s, op), between).placements
  {
    PlayNoOlder(s, between);
    PlayNoOlder(Exec(s, op), between);
    assert Exec(s, op).placements == s.placements;
  }

  lemma ScriptsKeepAgreement(s: State, op: Op, between: seq<Op>, tries: Tries, cluster: bool)
    requires KeyOf(op).placement in s.placements
    requires Agreement(s) && WellFormed(op) && forall o :: o in between ==> WellFormed(o)
    ensures Agreement(AfterScript(s, op, between, tries, cluster))
  {
    IndexStays(s, op, between);
    hide Exec;
    hide Play;
    hide WellFormed;
    hide Agreement;
    var s1 := if tries.first.Executes() then Exec(s, op) else s;
    ExecKeepsAgreement(s, op);
    PlayKeepsAgreement(s1, between);
    ExecKeepsAgreement(Play(s1, between), op);
  }

  lemma {:induction false} PlayKeepsAgreement(s: State, ops: seq<Op>)
    requires Agreement(s) && forall op :: op in ops ==> WellFormed(op)
    ensures Agreement(Play(s, ops))
  {
    if ops == [] {
    } else {
      var n := |ops| - 1;
      assert forall op :: op in ops[..n] ==> op in ops;
      PlayKeepsAgreement(s, ops[..n]);
      ExecKeepsAgreement(Index(Play(s, ops[..n]), KeyOf(ops[n]).placement), ops[n]);
    }
  }

  lemma {:induction false} PlayIgnoresIndex(s: State, s': State, ops: seq<Op>)
    requires SameRows(s, s')
    ensures SameRows(Play(s, ops), Play(s', ops))
  {
    if ops == [] {
    } else {
      PlayIgnoresIndex(s, s', ops[..|ops| - 1]);
    }
  }

  lemma IndexingKeepsRows(s: State, s': State, op: Op, between: seq<Op>)
    requires SameRows(s, s')
    ensures forall t :: AtMostOnce(s', t, op, between) ==> AtMostOnce(s, t, op, between)
  {
    PlayIgnoresIndex(s, s', between);
    PlayIgnoresIndex(Mutate(s, op), Mutate(s', op), between);
  }
}
