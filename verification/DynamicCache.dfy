/**
The bounded cache of DSP results (DynamicBidCache in dynamic_bidding.go).

`accepted` is what an unbounded cache would hold: the last accepted entry of
every key. The bounded cache answers every `Get` as that one would.
*/
module DynamicCache {
  import opened Types
  import opened Auction

  datatype Entry = Entry(bids: seq<DynamicBid>, expires: int)

  /** What a cache without a key limit answers. */
  function Lookup(entries: map<Text, Entry>, key: Text, now: int): Option<seq<DynamicBid>> {
    if key in entries && now < entries[key].expires then Some(entries[key].bids) else None
  }

  class DynamicBidCache {
    var entries: map<Text, Entry>
    var count: int
    const maxKeys: int
    ghost var accepted: map<Text, Entry>
    ghost var clock: int               // the latest time at which an entry was evicted

    ghost predicate Valid()
      reads this
    {
      && count == |entries| <= maxKeys
      && (forall k :: k in entries ==> k in accepted && entries[k] == accepted[k])
      && (forall k :: k in accepted && k !in entries ==> accepted[k].expires <= clock)
    }

    constructor (maxKeys: int, ghost start: int)
      ensures Valid() && accepted == map[] && clock == start
      ensures this.maxKeys == if maxKeys < 1 then 10_000 else maxKeys
    {
      this.maxKeys := if maxKeys < 1 then 10_000 else maxKeys;
      entries, count := map[], 0;
      accepted, clock := map[], start;
    }

    /** The clock does not run backwards, so no entry evicted as expired can be live for the reader. */
    method Get(key: Text, now: int) returns (bids: seq<DynamicBid>, found: bool)
      requires Valid() && now >= clock
      ensures found <==> key in accepted && now < accepted[key].expires
      ensures bids == if found then accepted[key].bids else []
      ensures Lookup(accepted, key, now) == if found then Some(bids) else None
    {
      if key !in entries {
        return [], false;
      }
      var list := entries[key];
      if now >= list.expires {
        return [], false;
      }
      return list.bids, true;
    }

    /** `stamp` is the clock read before the lock, `now` the one read under it. */
    method Put(key: Text, bids: seq<DynamicBid>, ttl: int, stamp: int, now: int) returns (ok: bool)
      requires Valid() && now >= clock
      modifies this
      ensures Valid() && old(clock) <= clock <= now
      ensures ok <==> ttl > 0 && (key in old(entries) || |old(entries)| < maxKeys
                                  || exists k :: k in old(entries) && old(entries)[k].expires <= now)
      ensures accepted == if ok then old(accepted)[key := Entry(bids, stamp + ttl)] else old(accepted)
      ensures ok ==> key in entries
      ensures !ok ==> entries == old(entries)
      ensures !ok && ttl > 0 ==> |entries| == maxKeys && forall k :: k in entries ==> now < entries[k].expires
      ensures forall k :: k in old(entries) && k != key && k !in entries ==> old(entries)[k].expires <= now
    {
      if ttl <= 0 {
        return false;
      }
      var list := Entry(bids, stamp + ttl);
      if key in entries {
        entries := entries[key := list];
        accepted := accepted[key := list];
        assert entries.Keys == old(entries).Keys;
        return true;
      }
      if count >= maxKeys {
        MakeRoom(now);
      }
      if count >= maxKeys {
        return false;
      }
      Add(key, list);
      return true;
    }

    method Add(key: Text, list: Entry)
      requires Valid() && key !in entries && count < maxKeys
      modifies this`entries, this`count, this`accepted
      ensures Valid() && entries == old(entries)[key := list] && accepted == old(accepted)[key := list]
    {
      entries := entries[key := list];
      count := count + 1;
      accepted := accepted[key := list];
      assert entries.Keys == old(entries).Keys + {key};
    }

    method Evict(key: Text, now: int)
      requires Valid() && key in entries && entries[key].expires <= now && now >= clock
      modifies this`entries, this`count, this`clock
      ensures Valid() && entries == old(entries) - {key} && count == old(count) - 1 && clock == now
    {
      entries := entries - {key};
      count := count - 1;
      clock := now;
      assert entries.Keys == old(entries).Keys - {key};
    }

    /** What is left of the old entries when at most one, expired by `now`, has gone. */
    ghost predicate OneExpiredGone(before: map<Text, Entry>, now: int)
      reads this
    {
      exists k :: k in before && before[k].expires <= now && entries == before - {k}
    }

    /** Ranges over the entries in any order until an expired one makes room. */
    method MakeRoom(now: int)
      requires Valid() && count == maxKeys && now >= clock
      modifies this`entries, this`count, this`clock
      ensures Valid() && old(clock) <= clock <= now
      ensures if count < maxKeys then OneExpiredGone(old(entries), now)
              else entries == old(entries) && forall k :: k in entries ==> now < entries[k].expires
    {
      var rest := entries.Keys;
      while rest != {} && count >= maxKeys
        invariant Valid() && old(clock) <= clock <= now
        invariant rest <= old(entries).Keys
        invariant if count < maxKeys then OneExpiredGone(old(entries), now)
                  else entries == old(entries) && forall k :: k in entries && k !in rest ==> now < entries[k].expires
        decreases |rest|
      {
        var k :| k in rest;
        rest := rest - {k};
        if entries[k].expires <= now {
          Evict(k, now);
        }
      }
    }
  }
}
