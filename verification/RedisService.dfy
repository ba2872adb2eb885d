/**
 * The cache service. Errors are swallowed: a failed read looks like a miss, and the sender of a failed write
 * does not know whether Redis never carries it out (Dropped) or does so later (Late).
 */
module RedisService {

  import opened Wrappers
  import opened WriterProtocol

  class RedisService {
    var store: map<string, CacheValue>
    var lateSets: multiset<LateSet>

    constructor ()
      ensures store == map[] && lateSets == multiset{}
    {
      store, lateSets := map[], multiset{};
    }

    method Get(key: string, fails: bool) returns (value: Option<CacheValue>)
      ensures value == (if !fails && key in store then Some(store[key]) else None)
    {
      if fails || key !in store {
        return None;
      }
      return Some(store[key]);
    }

    method Set(key: string, value: CacheValue, outcome: Outcome)
      modifies this
      ensures store == if outcome.Applied? then old(store)[key := value] else old(store)
      ensures lateSets == if outcome.Late? then old(lateSets) + multiset{LateSet(key, value)} else old(lateSets)
    {
      match outcome
      case Applied => store := store[key := value];
      case Dropped =>
      case Late => lateSets := lateSets + multiset{LateSet(key, value)};
    }

    /** A delete that Redis carries out late is an Expire, which may hit any key at any time. */
    method Del(key: string, outcome: Outcome)
      modifies this
      ensures store == if outcome.Applied? then old(store) - {key} else old(store)
      ensures lateSets == old(lateSets)
    {
      if outcome.Applied? {
        store := store - {key};
      }
    }

    // ----- What Redis does on its own -----

    /** A key is gone: its TTL ran out, or Redis dropped it. */
    method Expire(key: string)
      modifies this
      ensures store == old(store) - {key} && lateSets == old(lateSets)
    {
      store := store - {key};
    }

    method Deliver(write: LateSet)
      requires write in lateSets
      modifies this
      ensures store == old(store)[write.key := write.value]
      ensures lateSets == old(lateSets) - multiset{write}
    {
      store, lateSets := store[write.key := write.value], lateSets - multiset{write};
    }
  }
}
