/** The lock keys of the wallets in Redis. */
module Locks {
  import opened Prelude

  const LOCK_SECONDS := 60

  /** No live key: set-if-absent would succeed. */
  predicate KeyFree(keys: map<Address, int>, key: Address, now: int) {
    key !in keys || keys[key] <= now
  }

  /** The keys after set-if-absent reached Redis at `now`, or did not. */
  function KeysAfterLock(keys: map<Address, int>, key: Address, now: int, reply: Delivery): map<Address, int> {
    if KeyFree(keys, key, now) && reply.TakesEffect() then keys[key := now + LOCK_SECONDS] else keys
  }

  /** Deleting a key does not ask who set it. */
  function KeysAfterUnlock(keys: map<Address, int>, key: Address, reply: Delivery): map<Address, int> {
    if reply.TakesEffect() then keys - {key} else keys
  }

  /** Each key with the moment it expires. */
  class LockStore {
    var keys: map<Address, int>

    constructor ()
      ensures keys == map[]
    {
      keys := map[];
    }

    /** A lost reply reads as a failure even if the key was set. */
    method Lock(key: Address, now: int, reply: Delivery) returns (locked: bool)
      modifies this
      ensures locked <==> reply.Delivered? && KeyFree(old(keys), key, now)
      ensures keys == KeysAfterLock(old(keys), key, now, reply)
    {
      var free := key !in keys || keys[key] <= now;
      if free && !reply.Refused? {
        keys := keys[key := now + LOCK_SECONDS];
      }
      locked := free && reply.Delivered?;
    }

    method Unlock(key: Address, reply: Delivery)
      modifies this
      ensures keys == KeysAfterUnlock(old(keys), key, reply)
    {
      if !reply.Refused? {
        keys := keys - {key};
      }
    }
  }
}
