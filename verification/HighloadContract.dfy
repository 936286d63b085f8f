/**
 * The replay memory of the highload wallet contract: two buckets of query ids
 * that rotate on the first message after a timeout. Times are integers in any unit.
 */
module HighloadContract {

  datatype Memory = Memory(queries: set<nat>, oldQueries: set<nat>, lastCleanTime: int)

  const EMPTY := Memory({}, {}, 0)

  function Clean(m: Memory, timeout: nat, now: int): Memory {
    if m.lastCleanTime < now - timeout then
      Memory({}, if m.lastCleanTime < now - 2 * timeout then {} else m.queries, now)
    else m
  }

  /** Whether a message carrying `id` is thrown out as already executed at `now`. */
  predicate Rejects(m: Memory, timeout: nat, id: nat, now: int) {
    var c := Clean(m, timeout, now);
    id in c.queries || id in c.oldQueries
  }

  /** A rejected message leaves the memory as it was, cleaning included. */
  function Process(m: Memory, timeout: nat, id: nat, now: int): Memory {
    if Rejects(m, timeout, id, now) then m
    else
      var c := Clean(m, timeout, now);
      c.(queries := c.queries + {id})
  }

  datatype Message = Message(id: nat, time: int)

  function Run(timeout: nat, h: seq<Message>): Memory {
    if h == [] then EMPTY
    else Process(Run(timeout, h[..|h| - 1]), timeout, h[|h| - 1].id, h[|h| - 1].time)
  }

  predicate Accepted(timeout: nat, h: seq<Message>, k: nat)
    requires k < |h|
  {
    !Rejects(Run(timeout, h[..k]), timeout, h[k].id, h[k].time)
  }

  ghost predicate Chronological(h: seq<Message>, now: int) {
    && (forall i, j :: 0 <= i < j < |h| ==> h[i].time <= h[j].time)
    && (forall i :: 0 <= i < |h| ==> 0 <= h[i].time <= now)
  }

  /**
   * What the buckets of a memory say about past acceptances, whatever recorded them:
   * an id in `queries` was used since the last clean, one in `oldQueries` at most two timeouts before it.
   */
  ghost predicate Justified(m: Memory, timeout: nat, used: (nat, int) -> bool) {
    && (forall id :: id in m.queries ==> exists t: int :: used(id, t) && m.lastCleanTime <= t)
    && (forall id :: id in m.oldQueries ==> exists t: int :: used(id, t) && m.lastCleanTime <= t + 2 * timeout)
  }

  /** A rejection at `now` is always caused by a use at most three timeouts ago. */
  lemma RejectionIsRecent(m: Memory, timeout: nat, used: (nat, int) -> bool, id: nat, now: int)
    requires Justified(m, timeout, used)
    requires Rejects(m, timeout, id, now)
    ensures exists t: int :: used(id, t) && now <= t + 3 * timeout
  {
  }

  /** Processing a message keeps the buckets justified by the uses so far plus, if accepted, this one. */
  lemma ProcessKeepsJustified(m: Memory, timeout: nat, used: (nat, int) -> bool, used': (nat, int) -> bool, id: nat,
                              now: int)
    requires Justified(m, timeout, used)
    requires m.lastCleanTime <= now
    requires forall i, t :: used(i, t) ==> used'(i, t)
    requires Rejects(m, timeout, id, now) || used'(id, now)
    ensures Justified(Process(m, timeout, id, now), timeout, used')
  {
  }

  ghost predicate AcceptedAt(timeout: nat, h: seq<Message>, id: nat, t: int) {
    exists k :: 0 <= k < |h| && h[k] == Message(id, t) && Accepted(timeout, h, k)
  }

  ghost function Acceptances(timeout: nat, h: seq<Message>): (nat, int) -> bool {
    (id: nat, t: int) => AcceptedAt(timeout, h, id, t)
  }

  /** A longer history keeps the acceptances of its prefix and adds its last message, if accepted. */
  lemma AcceptancesGrow(timeout: nat, h: seq<Message>)
    requires h != []
    ensures var n := |h| - 1;
            && (forall id: nat, t: int :: AcceptedAt(timeout, h[..n], id, t) ==> AcceptedAt(timeout, h, id, t))
            && (Accepted(timeout, h, n) ==> AcceptedAt(timeout, h, h[n].id, h[n].time))
  {
    hide Accepted;
    var n := |h| - 1;
    forall id: nat, t: int | AcceptedAt(timeout, h[..n], id, t) ensures AcceptedAt(timeout, h, id, t) {
      var k :| 0 <= k < n && h[..n][k] == Message(id, t) && Accepted(timeout, h[..n], k);
      SamePrefix(timeout, h, n, k);
      assert h[k] == Message(id, t);
    }
    assert h[n] == Message(h[n].id, h[n].time);
  }

  lemma SamePrefix(timeout: nat, h: seq<Message>, n: nat, k: nat)
    requires k < n <= |h|
    ensures Accepted(timeout, h[..n], k) == Accepted(timeout, h, k)
  {
    assert h[..n][..k] == h[..k];
  }

  lemma {:induction false} RunIsJustified(timeout: nat, h: seq<Message>, now: int)
    requires Chronological(h, now)
    requires 0 <= now
    ensures Justified(Run(timeout, h), timeout, Acceptances(timeout, h))
    ensures 0 <= Run(timeout, h).lastCleanTime <= now
  {
    if h != [] {
      hide Justified, Rejects, AcceptedAt;
      var n := |h| - 1;
      RunIsJustified(timeout, h[..n], h[n].time);
      AcceptancesGrow(timeout, h);
      ProcessKeepsJustified(Run(timeout, h[..n]), timeout, Acceptances(timeout, h[..n]), Acceptances(timeout, h),
                            h[n].id, h[n].time);
    }
  }

  /** In every history, an id rejected at `now` was accepted no more than three timeouts earlier. */
  lemma RejectionHasCause(timeout: nat, h: seq<Message>, id: nat, now: int)
    requires Chronological(h, now) && 0 <= now
    requires Rejects(Run(timeout, h), timeout, id, now)
    ensures exists t: int :: AcceptedAt(timeout, h, id, t) && now <= t + 3 * timeout
  {
    RunIsJustified(timeout, h, now);
    RejectionIsRecent(Run(timeout, h), timeout, Acceptances(timeout, h), id, now);
    var t: int :| Acceptances(timeout, h)(id, t) && now <= t + 3 * timeout;
    assert AcceptedAt(timeout, h, id, t);
  }

  /** Waiting at least `delay` after the last acceptance of an id makes it acceptable again, in every history. */
  ghost predicate SafeDelay(timeout: nat, delay: nat) {
    forall h: seq<Message>, id: nat, now: int ::
      Chronological(h, now) && 0 <= now && (forall t: int :: AcceptedAt(timeout, h, id, t) ==> t + delay <= now)
      ==> !Rejects(Run(timeout, h), timeout, id, now)
  }

  /** The history that keeps an id longest: a second message at 2T parks it in the old bucket until 3T. */
  lemma LongestMemory(timeout: nat)
    ensures var h := [Message(0, 0), Message(1, 2 * timeout)];
            && Chronological(h, 3 * timeout)
            && (forall t: int :: AcceptedAt(timeout, h, 0, t) ==> t == 0)
            && AcceptedAt(timeout, h, 0, 0)
            && Rejects(Run(timeout, h), timeout, 0, 3 * timeout)
  {
    var h := [Message(0, 0), Message(1, 2 * timeout)];
    assert h[..0] == [] && h[..1] == [Message(0, 0)] && [Message(0, 0)][..0] == [];
    assert Run(timeout, [Message(0, 0)]) == Memory({0}, {}, 0);
    assert h[0] == Message(0, 0) && Accepted(timeout, h, 0);
  }

  /** The exact bound: an id is safe to reuse strictly after three timeouts, and not sooner. */
  lemma SafeDelayIsThreeTimeouts(timeout: nat, delay: nat)
    ensures SafeDelay(timeout, delay) <==> delay > 3 * timeout
  {
    if delay > 3 * timeout {
      forall h: seq<Message>, id: nat, now: int
        | Chronological(h, now) && 0 <= now && (forall t: int :: AcceptedAt(timeout, h, id, t) ==> t + delay <= now)
        ensures !Rejects(Run(timeout, h), timeout, id, now)
      {
        if Rejects(Run(timeout, h), timeout, id, now) {
          RejectionHasCause(timeout, h, id, now);
        }
      }
    } else {
      LongestMemory(timeout);
    }
  }

  /**
   * A row that stays live through `multiplier` timeouts, the last instant included, is safe for every
   * timeout iff the multiplier is at least 3.
   */
  lemma ThreeIsTheLeastMultiplier(multiplier: nat)
    ensures (forall timeout: nat :: SafeDelay(timeout, multiplier * timeout + 1)) <==> multiplier >= 3
    ensures forall timeout: nat :: !SafeDelay(timeout, 3 * timeout)
  {
    forall timeout: nat ensures !SafeDelay(timeout, 3 * timeout) {
      SafeDelayIsThreeTimeouts(timeout, 3 * timeout);
    }
    if multiplier >= 3 {
      forall timeout: nat ensures SafeDelay(timeout, multiplier * timeout + 1) {
        assert multiplier * timeout >= 3 * timeout;
        SafeDelayIsThreeTimeouts(timeout, multiplier * timeout + 1);
      }
    } else {
      SafeDelayIsThreeTimeouts(1, multiplier * 1 + 1);
    }
  }
}
