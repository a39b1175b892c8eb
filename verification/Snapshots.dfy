/**
The list of bids that a server reads for one placement (Fetch and sortBids in
store.go): which bids are in it, and why its order leaves no choice.
*/
module Snapshots {
  import opened Types
  import opened Pricing
  import opened Registry

  /** The comparison of sortBids. */
  predicate SortsBefore(a: Bid, b: Bid) {
    if a.priority != b.priority then a.priority > b.priority
    else
      var left, right := EffectivePrice(a), EffectivePrice(b);
      if left != right then left > right else TextLess(a.id, b.id)
  }

  /** What a sort by that comparison promises. */
  ghost predicate Ordered(bids: seq<Bid>) {
    forall i, j :: 0 <= i < j < |bids| ==> !SortsBefore(bids[j], bids[i])
  }

  ghost predicate DistinctIds(bids: seq<Bid>) {
    forall i, j :: 0 <= i < j < |bids| ==> bids[i].id != bids[j].id
  }

  /** The list holds the bids of the set, each once, in order. */
  ghost predicate IsListing(bids: seq<Bid>, content: set<Bid>) {
    && Ordered(bids)
    && DistinctIds(bids)
    && forall b :: b in bids <==> b in content
  }

  /** The comparator of the sort is the rank of the auction. */
  lemma SortsBeforeIsRank(a: Bid, b: Bid)
    ensures SortsBefore(a, b) == RanksAhead(a, EffectivePrice(a), b, EffectivePrice(b))
    ensures !(SortsBefore(a, b) && SortsBefore(b, a))
    ensures SortsBefore(a, b) || SortsBefore(b, a) || a.id == b.id
  {
    hide EffectivePrice;
    RanksAheadAsymmetric(a, EffectivePrice(a), b, EffectivePrice(b));
  }

  lemma SortsBeforeWeakTransitive(a: Bid, b: Bid, c: Bid)
    requires SortsBefore(a, b) && !SortsBefore(c, b)
    ensures SortsBefore(a, c)
  {
    hide EffectivePrice;
    RanksAheadWeakTransitive(a, EffectivePrice(a), b, EffectivePrice(b), c, EffectivePrice(c));
  }

  // ---------------------------------------------------------------------------
  // There is one listing of a set of bids with distinct IDs
  // ---------------------------------------------------------------------------

  lemma {:induction false} ListingIsUnique(a: seq<Bid>, b: seq<Bid>, content: set<Bid>)
    requires IsListing(a, content) && IsListing(b, content)
    ensures a == b
    decreases |a|
  {
    hide SortsBefore;
    assert a != [] <==> b != [] by {
      if a != [] {
        assert a[0] in b;
      }
      if b != [] {
        assert b[0] in a;
      }
    }
    if a == [] {
    } else {
      var x, y := a[0], b[0];
      assert x in b && y in a;
      SortsBeforeIsRank(x, y);
      assert x.id == y.id;
      assert x == y;
      TailIsListing(a, content);
      TailIsListing(b, content);
      ListingIsUnique(a[1..], b[1..], content - {x});
      assert a == [x] + a[1..] && b == [y] + b[1..];
    }
  }

  lemma TailIsListing(a: seq<Bid>, content: set<Bid>)
    requires IsListing(a, content) && a != []
    ensures IsListing(a[1..], content - {a[0]})
  {
    hide SortsBefore;
    forall b
      ensures b in a[1..] <==> b in content - {a[0]}
    {
      assert b in a <==> b == a[0] || b in a[1..];
    }
  }

  // ---------------------------------------------------------------------------
  // Sorting
  // ---------------------------------------------------------------------------

  /** Sorts in place. The library's algorithm is open; this one keeps the same promise. */
  method SortBids(a: array<Bid>)
    modifies a
    ensures Ordered(a[..])
    ensures multiset(a[..]) == multiset(old(a[..]))
  {
    hide SortsBefore;
    for i := 0 to a.Length
      invariant Ordered(a[..i])
      invariant multiset(a[..]) == multiset(old(a[..]))
    {
      SiftDown(a, i);
    }
    assert a[..a.Length] == a[..];
  }

  method SiftDown(a: array<Bid>, i: nat)
    requires i < a.Length && Ordered(a[..i])
    modifies a
    ensures Ordered(a[..i + 1])
    ensures multiset(a[..]) == multiset(old(a[..]))
  {
    hide SortsBefore;
    var j := i;
    while j > 0 && SortsBefore(a[j], a[j - 1])
      invariant 0 <= j <= i
      invariant forall p, q :: 0 <= p < q <= i && q != j ==> !SortsBefore(a[q], a[p])
      invariant multiset(a[..]) == multiset(old(a[..]))
    {
      SortsBeforeIsRank(a[j], a[j - 1]);
      a[j], a[j - 1] := a[j - 1], a[j];
      j := j - 1;
    }
    forall p | 0 <= p < j
      ensures !SortsBefore(a[j], a[p])
    {
      if SortsBefore(a[j], a[p]) && p != j - 1 {
        SortsBeforeWeakTransitive(a[j], a[p], a[j - 1]);
      }
    }
  }

  lemma CountsUpToOne(bids: seq<Bid>, b: Bid)
    requires DistinctIds(bids)
    ensures multiset(bids)[b] <= 1
  {
    if b in bids {
      var i :| 0 <= i < |bids| && bids[i] == b;
      assert bids == bids[..i] + [b] + bids[i + 1..];
      assert b !in bids[..i] && b !in bids[i + 1..];
    }
  }

  /** A permutation of bids with distinct IDs has distinct IDs. */
  lemma DistinctIdsPermute(bids: seq<Bid>, bids': seq<Bid>)
    requires DistinctIds(bids) && multiset(bids) == multiset(bids')
    ensures DistinctIds(bids')
    ensures forall b :: b in bids' <==> b in bids
  {
    assert forall b :: b in bids <==> b in multiset(bids');
    forall i, j | 0 <= i < j < |bids'|
      ensures bids'[i].id != bids'[j].id
    {
      var x, y := bids'[i], bids'[j];
      if x == y {
        assert bids' == bids'[..j] + [y] + bids'[j + 1..];
        assert x in bids'[..j];
        CountsUpToOne(bids, x);
      }
      assert x in bids && y in bids;
    }
  }

  lemma SortedIsListing(bids: seq<Bid>, sorted: seq<Bid>, content: set<Bid>)
    requires Ordered(sorted) && multiset(sorted) == multiset(bids)
    requires DistinctIds(bids) && forall b :: b in bids <==> b in content
    ensures IsListing(sorted, content)
  {
    DistinctIdsPermute(bids, sorted);
  }

  // ---------------------------------------------------------------------------
  // The bids of a placement
  // ---------------------------------------------------------------------------

  /** The payloads in the active hash of the placement. */
  ghost function Live(s: State, placement: Text): set<Bid> {
    set k | k in s.active && k.placement == placement :: s.active[k]
  }

  /** Sorting puts a new bid behind every bid that is sorted before it. */
  ghost function Insert(b: Bid, bids: seq<Bid>): seq<Bid> {
    if bids == [] || SortsBefore(b, bids[0]) then [b] + bids
    else [bids[0]] + Insert(b, bids[1..])
  }

  ghost function ListOf(content: set<Bid>): seq<Bid> {
    if content == {} then []
    else
      var b :| b in content;
      Insert(b, ListOf(content - {b}))
  }

  /** The list that Fetch returns; `FetchListsLiveBids` says what it is. */
  ghost function FetchOf(s: State, placement: Text): seq<Bid> {
    ListOf(Live(s, placement))
  }

  lemma {:induction false} InsertKeepsListing(b: Bid, bids: seq<Bid>, content: set<Bid>)
    requires IsListing(bids, content) && forall x :: x in content ==> x.id != b.id
    ensures IsListing(Insert(b, bids), content + {b})
    decreases |bids|
  {
    hide SortsBefore;
    if bids == [] {
    } else if SortsBefore(b, bids[0]) {
      var all := [b] + bids;
      forall j | 1 <= j < |all|
        ensures !SortsBefore(all[j], b)
      {
        SortsBeforeIsRank(all[j], b);
        if all[j] != bids[0] {
          SortsBeforeWeakTransitive(b, bids[0], all[j]);
        }
      }
    } else {
      TailIsListing(bids, content);
      assert bids[0] in content;
      InsertKeepsListing(b, bids[1..], content - {bids[0]});
      var rest := Insert(b, bids[1..]);
      assert forall x :: x in rest ==> x == b || (x in bids[1..] && x in content);
      assert forall x :: x in [bids[0]] + rest <==> x == bids[0] || x in rest;
      forall x | x in rest
        ensures !SortsBefore(x, bids[0]) && x.id != bids[0].id
      {
        if x != b {
          var j :| 0 <= j < |bids[1..]| && bids[1..][j] == x;
          assert bids[j + 1] == x;
        }
      }
    }
  }

  lemma {:induction false} ListOfIsListing(content: set<Bid>)
    requires forall x, y :: x in content && y in content && x != y ==> x.id != y.id
    ensures IsListing(ListOf(content), content)
  {
    if content == {} {
    } else {
      var b :| b in content && ListOf(content) == Insert(b, ListOf(content - {b}));
      ListOfIsListing(content - {b});
      InsertKeepsListing(b, ListOf(content - {b}), content - {b});
      assert content - {b} + {b} == content;
    }
  }

  /** Fetch drops nothing: it lists exactly the active bids of the placement, in the one possible order. */
  lemma FetchListsLiveBids(s: State, placement: Text)
    requires Agreement(s)
    ensures IsListing(FetchOf(s, placement), Live(s, placement))
    ensures forall bids :: IsListing(bids, Live(s, placement)) ==> bids == FetchOf(s, placement)
    ensures forall b :: b in FetchOf(s, placement) ==> Valid(b) && b.placementId == placement && Normalize(b) == b
  {
    ListOfIsListing(Live(s, placement));
    forall bids | IsListing(bids, Live(s, placement))
      ensures bids == FetchOf(s, placement)
    {
      ListingIsUnique(bids, FetchOf(s, placement), Live(s, placement));
    }
  }

  /** Nothing was ever written for a placement that is not in the index. */
  lemma UnindexedIsEmpty(s: State, placement: Text)
    requires Agreement(s) && placement !in s.placements
    ensures FetchOf(s, placement) == []
  {
    assert Live(s, placement) == {};
  }
}
