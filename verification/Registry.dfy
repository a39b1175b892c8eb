/**
The versioned bid registry (store.go): what the two Lua scripts do to the
active hash and the revision hash, and what every order of them leaves behind.
JSON is an assumed injective codec, so a payload is the bid itself.
*/
module Registry {
  import opened Types
  import opened LuaNumbers

  datatype Key = Key(placement: Text, bidId: Text)

  /** The hashes of all placements, and the placement index. */
  datatype State = State(active: map<Key, Bid>, versions: map<Key, Uint64>, placements: set<Text>)

  const EMPTY := State(map[], map[], {})

  datatype Op = Put(bid: Bid) | Remove(key: Key, revision: Uint64)

  function KeyOf(op: Op): Key {
    match op
    case Put(bid) => Key(bid.placementId, bid.id)
    case Remove(key, _) => key
  }

  function Rev(op: Op): Uint64 {
    match op
    case Put(bid) => bid.revision
    case Remove(_, revision) => revision
  }

  /** What the revision looks like to the scripts. */
  function Rank(op: Op): nat {
    Double(Rev(op))
  }

  /** The operations that reach the scripts: their arguments passed the checks of Upsert and Delete. */
  predicate WellFormed(op: Op) {
    match op
    case Put(bid) => Valid(bid)
    case Remove(key, revision) => key.placement != [] && key.bidId != [] && 0 < revision <= INT64_MAX
  }

  // ---------------------------------------------------------------------------
  // One script run
  // ---------------------------------------------------------------------------

  datatype Reply = StaleReply | Applied | Repeated

  /** No revision is recorded, or the recorded one is lower. */
  predicate Supersedes(op: Op, s: State) {
    KeyOf(op) in s.versions ==> Rank(op) > Double(s.versions[KeyOf(op)])
  }

  /** The active hash holds for the operation's key what the operation puts there. */
  predicate InEffect(op: Op, s: State) {
    match op
    case Put(bid) => KeyOf(op) in s.active && s.active[KeyOf(op)] == bid
    case Remove(key, _) => key !in s.active
  }

  function Write(s: State, op: Op): State {
    s.(active := if op.Put? then s.active[KeyOf(op) := op.bid] else s.active - {KeyOf(op)},
       versions := s.versions[KeyOf(op) := Rev(op)])
  }

  function Exec(s: State, op: Op): State {
    if Supersedes(op, s) then Write(s, op) else s
  }

  function ReplyTo(s: State, op: Op): Reply {
    if Supersedes(op, s) then Applied
    else if Rank(op) == Double(s.versions[KeyOf(op)]) && InEffect(op, s) then Repeated
    else StaleReply
  }

  /** The placement enters the index before the script runs. */
  function Index(s: State, placement: Text): State {
    s.(placements := s.placements + {placement})
  }

  function Mutate(s: State, op: Op): State {
    Exec(Index(s, KeyOf(op).placement), op)
  }

  function Play(s: State, ops: seq<Op>): State {
    if ops == [] then s else Mutate(Play(s, ops[..|ops| - 1]), ops[|ops| - 1])
  }

  // ---------------------------------------------------------------------------
  // Retries
  // ---------------------------------------------------------------------------

  /** Revisions only grow, as doubles and as integers, and the index only grows. */
  ghost predicate NoOlder(s: State, s': State) {
    && s.placements <= s'.placements
    && forall k :: k in s.versions ==>
         k in s'.versions && s.versions[k] <= s'.versions[k] && Double(s.versions[k]) <= Double(s'.versions[k])
  }

  lemma MutateNoOlder(s: State, op: Op)
    ensures NoOlder(s, Mutate(s, op))
  {
    if KeyOf(op) in s.versions && s.versions[KeyOf(op)] > Rev(op) {
      DoubleMonotone(Rev(op), s.versions[KeyOf(op)]);
    }
  }

  lemma {:induction false} PlayNoOlder(s: State, ops: seq<Op>)
    ensures NoOlder(s, Play(s, ops))
  {
    if ops == [] {
    } else {
      var front := ops[..|ops| - 1];
      PlayNoOlder(s, front);
      MutateNoOlder(Play(s, front), ops[|ops| - 1]);
    }
  }

  /** Once an operation has run, running it again changes nothing, whatever ran in between. */
  lemma RetryChangesNothing(s: State, op: Op, between: seq<Op>)
    ensures var s' := Play(Mutate(s, op), between); Mutate(s', op) == s'
  {
    PlayNoOlder(Mutate(s, op), between);
    var s' := Play(Mutate(s, op), between);
    assert KeyOf(op) in Mutate(s, op).versions;
    assert Rank(op) <= Double(Mutate(s, op).versions[KeyOf(op)]);
    assert s'.placements == s'.placements + {KeyOf(op).placement};
  }

  /**
  An immediate retry reports success exactly when the first run did: nothing
  but a superseded or conflicting operation is reported stale.
  */
  lemma RetryIsAcknowledged(s: State, op: Op)
    ensures ReplyTo(s, op).StaleReply? <==> ReplyTo(Mutate(s, op), op).StaleReply?
    ensures !ReplyTo(s, op).StaleReply? ==> ReplyTo(Mutate(s, op), op) == Repeated && InEffect(op, Mutate(s, op))
    ensures !ReplyTo(s, op).StaleReply? ==> Double(Mutate(s, op).versions[KeyOf(op)]) == Rank(op)
  {
  }

  // ---------------------------------------------------------------------------
  // What a history leaves behind
  // ---------------------------------------------------------------------------

  /** Among the operations on key k, the one at i has the highest rank and came first with it. */
  ghost predicate LastWriter(ops: seq<Op>, k: Key, i: nat) {
    && i < |ops|
    && KeyOf(ops[i]) == k
    && (forall j :: 0 <= j < i && KeyOf(ops[j]) == k ==> Rank(ops[j]) < Rank(ops[i]))
    && (forall j :: i < j < |ops| && KeyOf(ops[j]) == k ==> Rank(ops[j]) <= Rank(ops[i]))
  }

  /** The row of key k is what this operation writes. */
  predicate RowIs(s: State, k: Key, op: Op) {
    && k in s.versions && s.versions[k] == Rev(op)
    && match op {
         case Put(bid) => k in s.active && s.active[k] == bid
         case Remove(_, _) => k !in s.active
       }
  }

  /** Where the history has its last writer for key k. */
  function WriterOf(ops: seq<Op>, k: Key): (w: Option<nat>)
    ensures w.Some? ==> w.value < |ops| && KeyOf(ops[w.value]) == k
  {
    if ops == [] then None
    else
      var n := |ops| - 1;
      var w := WriterOf(ops[..n], k);
      if KeyOf(ops[n]) == k && (w.Some? ==> Rank(ops[n]) > Rank(ops[w.value])) then Some(n) else w
  }

  lemma {:induction false} WriterIsLast(ops: seq<Op>, k: Key)
    ensures match WriterOf(ops, k)
            case None => forall op :: op in ops ==> KeyOf(op) != k
            case Some(i) => LastWriter(ops, k, i)
  {
    hide Double;
    if ops == [] {
    } else {
      var n := |ops| - 1;
      WriterIsLast(ops[..n], k);
      assert forall op :: op in ops <==> op in ops[..n] || op == ops[n];
    }
  }

  predicate RowOfHistory(s: State, ops: seq<Op>, k: Key) {
    match WriterOf(ops, k)
    case None => k !in s.versions && k !in s.active
    case Some(i) => RowIs(s, k, ops[i])
  }

  /** For every history, of any revisions, each row belongs to the first operation of the highest rank. */
  lemma {:induction false} HistoryDecidesRows(ops: seq<Op>, k: Key)
    ensures RowOfHistory(Play(EMPTY, ops), ops, k)
  {
    hide Double;
    if ops == [] {
    } else {
      HistoryDecidesRows(ops[..|ops| - 1], k);
    }
  }

  /** The register law: among all operations on a bid, in any history, the first of the highest rank decides. */
  lemma LastWriterWins(ops: seq<Op>, k: Key)
    ensures match WriterOf(ops, k)
            case None =>
              && (forall op :: op in ops ==> KeyOf(op) != k)
              && k !in Play(EMPTY, ops).versions && k !in Play(EMPTY, ops).active
            case Some(i) => LastWriter(ops, k, i) && RowIs(Play(EMPTY, ops), k, ops[i])
  {
    HistoryDecidesRows(ops, k);
    WriterIsLast(ops, k);
  }

  /** The index holds the placements that some operation named, and no others. */
  lemma {:induction false} HistoryDecidesIndex(ops: seq<Op>, placement: Text)
    ensures placement in Play(EMPTY, ops).placements <==> exists op :: op in ops && KeyOf(op).placement == placement
  {
    if ops == [] {
    } else {
      var n := |ops| - 1;
      HistoryDecidesIndex(ops[..n], placement);
      assert forall op :: op in ops <==> op in ops[..n] || op == ops[n];
    }
  }

  /** Operations on one bid whose revisions look equal to the scripts are the same operation. */
  ghost predicate NoConflicts(ops: seq<Op>) {
    forall a, b :: a in ops && b in ops && KeyOf(a) == KeyOf(b) && Rank(a) == Rank(b) ==> a == b
  }

  /** Two lists of the same operations, in any order and with any repetition. */
  ghost predicate SameOps(ops: seq<Op>, ops': seq<Op>) {
    forall op :: op in ops <==> op in ops'
  }

  /** The row is the same whichever of the two histories left it. */
  ghost predicate SameRow(s: State, s': State, k: Key) {
    && (k in s.versions <==> k in s'.versions)
    && (k in s.versions ==> s.versions[k] == s'.versions[k])
    && (k in s.active <==> k in s'.active)
    && (k in s.active ==> s.active[k] == s'.active[k])
  }

  lemma RowsAgree(s: State, s': State, ops: seq<Op>, ops': seq<Op>, k: Key)
    requires SameOps(ops, ops') && NoConflicts(ops)
    requires RowOfHistory(s, ops, k) && RowOfHistory(s', ops', k)
    ensures SameRow(s, s', k)
  {
    hide Double;
    hide WriterOf;
    WriterIsLast(ops, k);
    WriterIsLast(ops', k);
    var w, w' := WriterOf(ops, k), WriterOf(ops', k);
    if w.Some? && w'.Some? {
      var a, b := ops[w.value], ops'[w'.value];
      assert a in ops' && b in ops;
      assert Rank(a) == Rank(b);
    }
  }

  lemma SameRowsSameState(s: State, s': State)
    requires forall k :: SameRow(s, s', k)
    requires forall placement :: placement in s.placements <==> placement in s'.placements
    ensures s == s'
  {
    assert forall k {:trigger k in s.versions} {:trigger k in s.active} :: SameRow(s, s', k);
    assert s.versions == s'.versions;
    assert s.active == s'.active;
    assert s.placements == s'.placements;
  }

  /** Any order and any repetition of the operations ends in the same registry. */
  lemma OrderIndependence(ops: seq<Op>, ops': seq<Op>)
    requires SameOps(ops, ops') && NoConflicts(ops)
    ensures Play(EMPTY, ops) == Play(EMPTY, ops')
  {
    hide Play;
    var s, s' := Play(EMPTY, ops), Play(EMPTY, ops');
    forall k
      ensures SameRow(s, s', k)
    {
      HistoryDecidesRows(ops, k);
      HistoryDecidesRows(ops', k);
      RowsAgree(s, s', ops, ops', k);
    }
    forall placement
      ensures placement in s.placements <==> placement in s'.placements
    {
      HistoryDecidesIndex(ops, placement);
      HistoryDecidesIndex(ops', placement);
    }
    SameRowsSameState(s, s');
  }

  /** The documented rule: revisions up to 2^53, each used for one operation per bid. */
  lemma OrderIndependenceOfRevisions(ops: seq<Op>, ops': seq<Op>)
    requires SameOps(ops, ops')
    requires forall a :: a in ops ==> Rev(a) <= EXACT_LIMIT
    requires forall a, b :: a in ops && b in ops && KeyOf(a) == KeyOf(b) && Rev(a) == Rev(b) ==> a == b
    ensures Play(EMPTY, ops) == Play(EMPTY, ops')
  {
    forall a | a in ops
      ensures Rank(a) == Rev(a)
    {
      DoubleExact(Rev(a));
    }
    OrderIndependence(ops, ops');
  }

  lemma PlayPair(s: State, a: Op, b: Op)
    ensures Play(s, [a, b]) == Mutate(Mutate(s, a), b)
  {
    assert [a, b][..1] == [a] && [a][..0] == [];
    assert Play(s, [a]) == Mutate(s, a);
  }

  /** Exactly when two operations on one bid commute. */
  lemma PairCommutes(a: Op, b: Op)
    requires KeyOf(a) == KeyOf(b)
    ensures Play(EMPTY, [a, b]) == Play(EMPTY, [b, a]) <==> (Rank(a) != Rank(b) || a == b)
  {
    if Rank(a) != Rank(b) || a == b {
      assert SameOps([a, b], [b, a]) && NoConflicts([a, b]);
      OrderIndependence([a, b], [b, a]);
    } else {
      PlayPair(EMPTY, a, b);
      PlayPair(EMPTY, b, a);
      FirstOfEqualRankStays(a, b);
      FirstOfEqualRankStays(b, a);
    }
  }

  lemma FirstOfEqualRankStays(a: Op, b: Op)
    requires KeyOf(a) == KeyOf(b) && Rank(a) == Rank(b)
    ensures RowIs(Mutate(Mutate(EMPTY, a), b), KeyOf(a), a)
  {
  }

  /** Above 2^53 a newer revision can be refused as stale: the next one after 2^53 is. */
  lemma LargeRevisionRefused(bid: Bid)
    requires bid.revision == EXACT_LIMIT + 1
    ensures ReplyTo(Mutate(EMPTY, Put(bid.(revision := EXACT_LIMIT))), Put(bid)) == StaleReply
  {
    DoubleCollides();
  }

  // ---------------------------------------------------------------------------
  // Agreement of the two hashes and the index
  // ---------------------------------------------------------------------------

  /** Each active payload is valid and carries its own key and the recorded revision; each row is indexed. */
  ghost predicate Agreement(s: State) {
    && (forall k :: k in s.active ==>
          && k in s.versions && s.active[k].revision == s.versions[k]
          && Valid(s.active[k]) && Key(s.active[k].placementId, s.active[k].id) == k)
    && (forall k :: k in s.versions ==> k.placement in s.placements)
  }

  lemma ExecKeepsAgreement(s: State, op: Op)
    requires Agreement(s) && WellFormed(op) && KeyOf(op).placement in s.placements
    ensures Agreement(Exec(s, op))
  {
  }

  lemma {:induction false} AgreementHolds(ops: seq<Op>)
    requires forall op :: op in ops ==> WellFormed(op)
    ensures Agreement(Play(EMPTY, ops))
  {
    if ops == [] {
    } else {
      var n := |ops| - 1;
      assert forall op :: op in ops[..n] ==> op in ops;
      AgreementHolds(ops[..n]);
      ExecKeepsAgreement(Index(Play(EMPTY, ops[..n]), KeyOf(ops[n]).placement), ops[n]);
    }
  }
}
