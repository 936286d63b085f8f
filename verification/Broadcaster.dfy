/** Taking a wallet through the lock manager and sending one message with forced-shift retries. */
module Broadcaster {
  import opened Prelude
  import opened QueryId
  import opened QueryIdTable
  import opened Locks

  const MAX_RETRIES := 10

  datatype WalletConfig = WalletConfig(address: Address, timeout: nat)

  // ----- taking a wallet -----

  /** When a lock request reaches Redis and what becomes of it. */
  datatype Try = Try(now: int, reply: Delivery)

  /** The keys once the first `n` wallets have been tried; a lost reply leaves a key behind that nobody owns. */
  function KeysAfter(keys: map<Address, int>, wallets: seq<WalletConfig>, tries: nat -> Try, n: nat): map<Address, int>
    requires n <= |wallets|
  {
    if n == 0 then keys
    else
      var before := KeysAfter(keys, wallets, tries, n - 1);
      KeysAfterLock(before, wallets[n - 1].address, tries(n - 1).now, tries(n - 1).reply)
  }

  ghost predicate Obtainable(keys: map<Address, int>, wallets: seq<WalletConfig>, tries: nat -> Try, i: nat) {
    && i < |wallets| && tries(i).reply.Delivered?
    && KeyFree(KeysAfter(keys, wallets, tries, i), wallets[i].address, tries(i).now)
  }

  ghost predicate FirstObtainable(keys: map<Address, int>, wallets: seq<WalletConfig>, tries: nat -> Try, i: nat) {
    Obtainable(keys, wallets, tries, i) && forall j: nat :: j < i ==> !Obtainable(keys, wallets, tries, j)
  }

  /** Locks the first wallet it can, in iteration order, and tries none after it. */
  method Acquire(locks: LockStore, wallets: seq<WalletConfig>, tries: nat -> Try) returns (r: Option<nat>)
    modifies locks
    ensures r.Some? ==>
              && FirstObtainable(old(locks.keys), wallets, tries, r.value)
              && locks.keys == KeysAfter(old(locks.keys), wallets, tries, r.value + 1)
    ensures r.None? ==>
              && locks.keys == KeysAfter(old(locks.keys), wallets, tries, |wallets|)
              && forall i: nat :: !Obtainable(old(locks.keys), wallets, tries, i)
  {
    for i := 0 to |wallets|
      invariant locks.keys == KeysAfter(old(locks.keys), wallets, tries, i)
      invariant forall j: nat :: j < i ==> !Obtainable(old(locks.keys), wallets, tries, j)
    {
      var locked := locks.Lock(wallets[i].address, tries(i).now, tries(i).reply);
      if locked {
        return Some(i);
      }
    }
    r := None;
  }

  /** Wallets passed over are left alone unless a reply was lost. */
  lemma {:induction false} PassedOverUntouched(keys: map<Address, int>, wallets: seq<WalletConfig>, tries: nat -> Try,
                                               n: nat)
    requires n <= |wallets|
    requires forall j: nat :: j < n ==> !tries(j).reply.ReplyLost? && !Obtainable(keys, wallets, tries, j)
    ensures KeysAfter(keys, wallets, tries, n) == keys
  {
    if n > 0 {
      PassedOverUntouched(keys, wallets, tries, n - 1);
      assert !Obtainable(keys, wallets, tries, n - 1);
    }
  }

  /** A lost reply strands a free wallet: its key stays set for 60 seconds although no worker holds it. */
  lemma {:induction false} LostReplyStrands(keys: map<Address, int>, wallets: seq<WalletConfig>, tries: nat -> Try,
                                            j: nat, n: nat)
    requires j < n <= |wallets| && tries(j).reply.ReplyLost?
    requires KeyFree(KeysAfter(keys, wallets, tries, j), wallets[j].address, tries(j).now)
    requires forall k :: j < k < n ==> wallets[k].address != wallets[j].address
    ensures !Obtainable(keys, wallets, tries, j)
    ensures var after := KeysAfter(keys, wallets, tries, n);
            wallets[j].address in after && after[wallets[j].address] == tries(j).now + LOCK_SECONDS
    decreases n
  {
    if j < n - 1 {
      LostReplyStrands(keys, wallets, tries, j, n - 1);
    }
  }

  // ----- sending -----

  datatype Reply = Accepted(hash: string) | AlreadyExecuted | OtherFailure

  /**
   * Everything outside the broadcaster in one attempt: the database, message building and the node, which
   * may or may not pass the message on to the contract.
   */
  datatype Attempt = Attempt(call: Call, buildFails: bool, postedAt: int, arrives: bool, reply: Reply)

  datatype BroadcasterError =
    | QueryIdFailed(error: WrapperError) | BuildFailed | RpcFailed
    | NoAvailableWallet | PreparationFailed | InsufficientGas

  datatype Sent = Sent(result: Result<string, BroadcasterError>, posts: seq<HighLoadQueryId>, rows: map<Address, Row>)

  function Retries(left: Option<nat>): Option<nat> {
    match left
    case Some(r) => if r > 0 then Some(r - 1) else None
    case None => Some(MAX_RETRIES)
  }

  /** The attempt numbered `i` and those after it, with the ids posted in order. */
  function Send(rows: map<Address, Row>, w: WalletConfig, left: Option<nat>, env: nat -> Attempt, i: nat): Sent
    decreases left.None?, if left.Some? then left.value else 0
  {
    var at := env(i);
    var rows' := RowsAfter(rows, w.address, w.timeout, left.Some?, at.call);
    match Outcome(rows, w.address, left.Some?, at.call)
    case Err(e) => Sent(Err(QueryIdFailed(e)), [], rows')
    case Ok(q) =>
      if at.buildFails then Sent(Err(BuildFailed), [], rows')
      else if at.reply.Accepted? then Sent(Ok(at.reply.hash), [q], rows')
      else if at.reply.AlreadyExecuted? && Retries(left).Some? then
        var rest := Send(rows', w, Retries(left), env, i + 1);
        rest.(posts := [q] + rest.posts)
      else Sent(Err(RpcFailed), [q], rows')
  }

  method SendToChain(table: Table, w: WalletConfig, left: Option<nat>, env: nat -> Attempt, i: nat)
    returns (result: Result<string, BroadcasterError>, posts: seq<HighLoadQueryId>)
    modifies table
    ensures Send(old(table.rows), w, left, env, i) == Sent(result, posts, table.rows)
    decreases left.None?, if left.Some? then left.value else 0
  {
    var id := QueryIdTable.Next(table, w.address, w.timeout, left.Some?, env(i).call);
    if id.Err? {
      return Err(QueryIdFailed(id.error)), [];
    }
    if env(i).buildFails {
      return Err(BuildFailed), [];
    }
    posts := [id.value];
    match env(i).reply {
      case Accepted(hash) =>
        result := Ok(hash);
      case AlreadyExecuted =>
        var retries := Some(MAX_RETRIES);
        if left.Some? {
          retries := if left.value > 0 then Some(left.value - 1) else None;
        }
        if retries.Some? {
          var more;
          result, more := SendToChain(table, w, retries, env, i + 1);
          posts := posts + more;
        } else {
          result := Err(RpcFailed);
        }
      case OtherFailure =>
        result := Err(RpcFailed);
    }
  }

  // ----- what a send answers -----

  function Permitted(left: Option<nat>): nat {
    if left.Some? then left.value + 1 else 12
  }

  /** Attempt `n` of a send that starts with attempt `i`. */
  function Nth(env: nat -> Attempt, i: nat, n: nat): Attempt {
    env(i + n)
  }

  /** The table once `n` attempts have drawn their ids; only the first of a send can be unforced. */
  function RowsAt(rows: map<Address, Row>, w: WalletConfig, force: bool, env: nat -> Attempt, i: nat, n: nat)
    : map<Address, Row>
    decreases n
  {
    if n == 0 then rows
    else RowsAt(RowsAfter(rows, w.address, w.timeout, force, env(i).call), w, true, env, i + 1, n - 1)
  }

  /** The id drawn by attempt `n` of a send, counted from 0. */
  function DrawnAt(rows: map<Address, Row>, w: WalletConfig, force: bool, env: nat -> Attempt, i: nat, n: nat)
    : Result<HighLoadQueryId, WrapperError>
  {
    Outcome(RowsAt(rows, w, force, env, i, n), w.address, force || n > 0, Nth(env, i, n).call)
  }

  /** `answer` is the result of a send that made `n` posts: the last reply, or what stopped the attempt after it. */
  ghost predicate Answers(rows: map<Address, Row>, w: WalletConfig, left: Option<nat>, env: nat -> Attempt, i: nat,
                          n: nat, answer: Result<string, BroadcasterError>)
  {
    if n > 0 && Nth(env, i, n - 1).reply.Accepted? then answer == Ok(Nth(env, i, n - 1).reply.hash)
    else if n > 0 && Nth(env, i, n - 1).reply.OtherFailure? then answer == Err(RpcFailed)
    else if n == Permitted(left) then answer == Err(RpcFailed)
    else
      match DrawnAt(rows, w, left.Some?, env, i, n)
      case Err(e) => answer == Err(QueryIdFailed(e))
      case Ok(_) => Nth(env, i, n).buildFails && answer == Err(BuildFailed)
  }

  /** A send by its attempts: the posts are the ids drawn, and all but the last were answered "already executed". */
  ghost predicate Accounted(rows: map<Address, Row>, w: WalletConfig, left: Option<nat>, env: nat -> Attempt, i: nat,
                            sent: Sent)
  {
    && Answers(rows, w, left, env, i, |sent.posts|, sent.result)
    && (forall k :: 0 <= k < |sent.posts| ==>
          DrawnAt(rows, w, left.Some?, env, i, k) == Ok(sent.posts[k]) && !Nth(env, i, k).buildFails)
    && (forall k :: 0 <= k < |sent.posts| - 1 ==> Nth(env, i, k).reply.AlreadyExecuted?)
  }

  lemma NextAttempt(rows: map<Address, Row>, w: WalletConfig, force: bool, env: nat -> Attempt, i: nat, k: nat)
    ensures var rows' := RowsAfter(rows, w.address, w.timeout, force, env(i).call);
            DrawnAt(rows, w, force, env, i, k + 1) == DrawnAt(rows', w, true, env, i + 1, k)
  {
    hide Outcome, RowsAfter;
  }

  lemma FirstAttempt(rows: map<Address, Row>, w: WalletConfig, force: bool, env: nat -> Attempt, i: nat)
    ensures DrawnAt(rows, w, force, env, i, 0) == Outcome(rows, w.address, force, env(i).call)
  {
    hide Outcome, RowsAfter;
  }

  lemma AccountedInTurn(rows: map<Address, Row>, w: WalletConfig, left: Option<nat>, env: nat -> Attempt, i: nat,
                        q: HighLoadQueryId, rest: Sent)
    requires DrawnAt(rows, w, left.Some?, env, i, 0) == Ok(q) && !env(i).buildFails
    requires env(i).reply.AlreadyExecuted? && Retries(left).Some?
    requires Accounted(RowsAfter(rows, w.address, w.timeout, left.Some?, env(i).call), w, Retries(left), env, i + 1,
                       rest)
    ensures Accounted(rows, w, left, env, i, rest.(posts := [q] + rest.posts))
  {
    hide DrawnAt, RowsAfter;
    var rows', sent := RowsAfter(rows, w.address, w.timeout, left.Some?, env(i).call), rest.(posts := [q] + rest.posts);
    forall k | 0 <= k < |sent.posts|
      ensures DrawnAt(rows, w, left.Some?, env, i, k) == Ok(sent.posts[k]) && !Nth(env, i, k).buildFails
      ensures k < |sent.posts| - 1 ==> Nth(env, i, k).reply.AlreadyExecuted?
    {
      if k > 0 {
        NextAttempt(rows, w, left.Some?, env, i, k - 1);
        assert sent.posts[k] == rest.posts[k - 1] && Nth(env, i, k) == Nth(env, i + 1, k - 1);
      }
    }
    AnswersInTurn(rows, w, left, env, i, |rest.posts|, rest.result);
  }

  lemma AnswersInTurn(rows: map<Address, Row>, w: WalletConfig, left: Option<nat>, env: nat -> Attempt, i: nat,
                      n: nat, answer: Result<string, BroadcasterError>)
    requires env(i).reply.AlreadyExecuted? && Retries(left).Some?
    requires Answers(RowsAfter(rows, w.address, w.timeout, left.Some?, env(i).call), w, Retries(left), env, i + 1, n,
                     answer)
    ensures Answers(rows, w, left, env, i, n + 1, answer)
  {
    hide DrawnAt, RowsAfter;
    NextAttempt(rows, w, left.Some?, env, i, n);
  }

  /** The answer of a send is that of the last reply, or of the fault that stopped the attempt after it. */
  lemma {:induction false} SendAnswer(rows: map<Address, Row>, w: WalletConfig, left: Option<nat>, env: nat -> Attempt,
                                      i: nat)
    ensures Accounted(rows, w, left, env, i, Send(rows, w, left, env, i))
    decreases left.None?, if left.Some? then left.value else 0
  {
    hide Outcome, RowsAfter, DrawnAt;
    FirstAttempt(rows, w, left.Some?, env, i);
    var drawn := Outcome(rows, w.address, left.Some?, env(i).call);
    if drawn.Ok? && !env(i).buildFails && env(i).reply.AlreadyExecuted? && Retries(left).Some? {
      var rows' := RowsAfter(rows, w.address, w.timeout, left.Some?, env(i).call);
      hide Accounted;
      SendAnswer(rows', w, Retries(left), env, i + 1);
      AccountedInTurn(rows, w, left, env, i, drawn.value, Send(rows', w, Retries(left), env, i + 1));
    }
  }

  /** At most 12 posts, whatever the node answers. */
  lemma {:induction false} PostsAreBounded(rows: map<Address, Row>, w: WalletConfig, left: Option<nat>,
                                           env: nat -> Attempt, i: nat)
    ensures |Send(rows, w, left, env, i).posts| <= if left.Some? then left.value + 1 else 12
    decreases left.None?, if left.Some? then left.value else 0
  {
    if Retries(left).Some? {
      PostsAreBounded(RowsAfter(rows, w.address, w.timeout, left.Some?, env(i).call), w, Retries(left), env, i + 1);
    }
  }

  /** The expiry of the row once attempt `i` has drawn its id. */
  function ExpiryAfter(rows: map<Address, Row>, w: WalletConfig, c: Call): int {
    if Live(rows, w.address, c.readAt) then rows[w.address].expiresAt else c.writeAt + 3 * w.timeout
  }

  /** No later attempt reads the row after it has expired. */
  ghost predicate EpochLasts(rows: map<Address, Row>, w: WalletConfig, env: nat -> Attempt, i: nat) {
    forall n: nat :: n > i ==> env(n).call.readAt <= ExpiryAfter(rows, w, env(i).call)
  }

  /** A retry from `p` drew `q`: always a larger id and, below the last two shifts, a whole shift further. */
  ghost predicate Climbs(p: HighLoadQueryId, q: HighLoadQueryId) {
    && Id(p) < Id(q)
    && (p.shift <= 8189 ==> p.shift < q.shift && Id(p) + 1025 <= Id(q))
  }

  /** An id was drawn by call `c`; the next forced call, made before the row expires, climbs from it. */
  lemma ClimbStep(rows: map<Address, Row>, w: WalletConfig, force: bool, c: Call, c': Call)
    requires RowsInRange(rows) && Outcome(rows, w.address, force, c).Ok?
    requires c'.readAt <= ExpiryAfter(rows, w, c)
    ensures var rows' := RowsAfter(rows, w.address, w.timeout, force, c);
            && RowsInRange(rows')
            && ExpiryAfter(rows', w, c') == ExpiryAfter(rows, w, c)
            && (Outcome(rows', w.address, true, c').Ok? ==>
                  Climbs(Outcome(rows, w.address, force, c).value, Outcome(rows', w.address, true, c').value))
  {
    ExpiryMovesOnlyAtReset(rows, w.address, w.timeout, force, c);
    AdvanceExact(Look(RowsAfter(rows, w.address, w.timeout, force, c), w.address, c'.readAt), true);
  }

  lemma {:induction false} RetriesClimb(rows: map<Address, Row>, w: WalletConfig, left: Option<nat>,
                                        env: nat -> Attempt, i: nat)
    requires RowsInRange(rows) && EpochLasts(rows, w, env, i)
    ensures var posts := Send(rows, w, left, env, i).posts;
            && (forall k :: 0 < k < |posts| ==> Climbs(posts[k - 1], posts[k]))
            && (|posts| > 0 ==> Outcome(rows, w.address, left.Some?, env(i).call) == Ok(posts[0]))
    decreases left.None?, if left.Some? then left.value else 0
  {
    hide Outcome, RowsAfter, RowsInRange, ExpiryAfter, Climbs;
    var c, c' := env(i).call, env(i + 1).call;
    if Outcome(rows, w.address, left.Some?, c).Ok? && Retries(left).Some? {
      ClimbStep(rows, w, left.Some?, c, c');
      RetriesClimb(RowsAfter(rows, w.address, w.timeout, left.Some?, c), w, Retries(left), env, i + 1);
    }
  }

  lemma {:induction false} ClimbingIsIncreasing(posts: seq<HighLoadQueryId>, j: nat, k: nat)
    requires forall n :: 0 < n < |posts| ==> Climbs(posts[n - 1], posts[n])
    requires j < k < |posts|
    ensures Id(posts[j]) < Id(posts[k])
    decreases k
  {
    assert Climbs(posts[k - 1], posts[k]);
    if j < k - 1 {
      ClimbingIsIncreasing(posts, j, k - 1);
    }
  }

  /**
   * One send: at most 12 posts; while the row's epoch lasts every retry climbs, so no id is posted
   * twice, and all rows stay in range.
   */
  lemma SendIsSafe(rows: map<Address, Row>, w: WalletConfig, env: nat -> Attempt)
    requires RowsInRange(rows) && EpochLasts(rows, w, env, 0)
    ensures var posts := Send(rows, w, None, env, 0).posts;
            && |posts| <= 12
            && (forall k :: 0 < k < |posts| ==> Climbs(posts[k - 1], posts[k]))
            && (forall j, k :: 0 <= j < k < |posts| ==> Id(posts[j]) < Id(posts[k]))
  {
    PostsAreBounded(rows, w, None, env, 0);
    RetriesClimb(rows, w, None, env, 0);
    var posts := Send(rows, w, None, env, 0).posts;
    forall j, k | 0 <= j < k < |posts| ensures Id(posts[j]) < Id(posts[k]) {
      ClimbingIsIncreasing(posts, j, k);
    }
  }

  // ----- how many posts a rejecting node sees -----

  function AlwaysRejected(now: int): nat -> Attempt {
    (n: nat) => Attempt(Call(now, now, false, Delivered), false, now, true, AlreadyExecuted)
  }

  /** How many ids can still be drawn: on the last shift exactly this many, below it at least this many. */
  function Room(rows: map<Address, Row>, w: WalletConfig, now: int): int {
    if Live(rows, w.address, now) && rows[w.address].shift == MAX_SHIFT then 1020 - rows[w.address].bitnumber else 1021
  }

  /** Drawing on the last shift steps the bit number; drawing below it reaches the last shift only at its start. */
  lemma DrawNearTheEnd(v: View, force: bool)
    requires v == MISSING || InRange(v)
    ensures v.shift == MAX_SHIFT && v.bitnumber < 1020 ==> Advance(v, force) == Ok(Pair(MAX_SHIFT, v.bitnumber + 1))
    ensures v.shift < MAX_SHIFT ==>
              && Advance(v, force).Ok?
              && (Advance(v, force).value.shift == MAX_SHIFT ==> Advance(v, force).value.bitnumber == 0)
  {
  }

  lemma RoomStep(rows: map<Address, Row>, w: WalletConfig, force: bool, now: int)
    requires RowsInRange(rows)
    ensures var c := Call(now, now, false, Delivered);
            var r, rows' := Outcome(rows, w.address, force, c), RowsAfter(rows, w.address, w.timeout, force, c);
            && RowsInRange(rows') && Room(rows, w, now) >= 0
            && (Room(rows, w, now) == 0 ==> r == Err(ConstructionError))
            && (Room(rows, w, now) > 0 ==> r.Ok? && Room(rows', w, now) >= Room(rows, w, now) - 1)
            && (0 < Room(rows, w, now) <= 1020 ==> Room(rows', w, now) == Room(rows, w, now) - 1)
  {
    hide Advance;
    var c, v := Call(now, now, false, Delivered), Look(rows, w.address, now);
    AdvanceExact(v, force);
    DrawNearTheEnd(v, force);
    WrapperKeepsRange(rows, w.address, w.timeout, force, c);
  }

  /**
   * A node that always answers "already executed" sees every permitted post, 12 in a whole send, unless the
   * counter runs out first, which it does exactly if the row is live, on the last shift and too close to its end.
   */
  lemma {:induction false} RejectionsUseAllRetries(rows: map<Address, Row>, w: WalletConfig, left: Option<nat>,
                                                   now: int, i: nat)
    requires RowsInRange(rows)
    requires left.Some? ==> left.value <= 1020
    ensures var sent := Send(rows, w, left, AlwaysRejected(now), i);
            var permitted := if left.Some? then left.value + 1 else 12;
            if Live(rows, w.address, now) && rows[w.address].shift == 8191
              && 1020 < rows[w.address].bitnumber + permitted
            then |sent.posts| == 1020 - rows[w.address].bitnumber
              && sent.result == Err(QueryIdFailed(ConstructionError))
            else |sent.posts| == permitted && sent.result == Err(RpcFailed)
    decreases left.None?, if left.Some? then left.value else 0
  {
    hide Outcome, RowsAfter, RowsInRange;
    RoomStep(rows, w, left.Some?, now);
    if Room(rows, w, now) > 0 && Retries(left).Some? {
      var c := Call(now, now, false, Delivered);
      RejectionsUseAllRetries(RowsAfter(rows, w.address, w.timeout, left.Some?, c), w, Retries(left), now, i + 1);
    }
  }

  // ----- the broadcast methods -----

  /** Everything outside a broadcast that happens while it takes, uses and gives back a wallet. */
  datatype Outside = Outside(tries: nat -> Try, attempts: nat -> Attempt, unlock: Delivery)

  /** What a broadcast leaves behind; a send error is carried inside an Ok outcome. */
  datatype Aftermath = Aftermath(
    keys: map<Address, int>,
    rows: map<Address, Row>,
    outcome: Result<Result<string, BroadcasterError>, BroadcasterError>,
    posts: seq<HighLoadQueryId>)

  function WithWallet(keys: map<Address, int>, rows: map<Address, Row>, wallets: seq<WalletConfig>,
                      actionFails: bool, out: Outside, i: nat): Aftermath
    requires i < |wallets|
  {
    var keys' := KeysAfterUnlock(KeysAfter(keys, wallets, out.tries, i + 1), wallets[i].address, out.unlock);
    if actionFails then Aftermath(keys', rows, Err(PreparationFailed), [])
    else
      var sent := Send(rows, wallets[i], None, out.attempts, 0);
      Aftermath(keys', sent.rows, Ok(sent.result), sent.posts)
  }

  /** `b` is what a broadcast leaves behind, from acquire to release. */
  ghost predicate Broadcasts(keys: map<Address, int>, rows: map<Address, Row>, wallets: seq<WalletConfig>,
                             actionFails: bool, out: Outside, b: Aftermath) {
    if forall i: nat :: !Obtainable(keys, wallets, out.tries, i)
    then b == Aftermath(KeysAfter(keys, wallets, out.tries, |wallets|), rows, Err(NoAvailableWallet), [])
    else exists i: nat :: FirstObtainable(keys, wallets, out.tries, i)
                          && b == WithWallet(keys, rows, wallets, actionFails, out, i)
  }

  /** The common part of the three broadcast methods: acquire, build the action, send, release whatever failed. */
  method Broadcast(locks: LockStore, wallets: seq<WalletConfig>, table: Table, actionFails: bool, out: Outside)
    returns (r: Result<Result<string, BroadcasterError>, BroadcasterError>, posts: seq<HighLoadQueryId>)
    modifies locks, table
    ensures Broadcasts(old(locks.keys), old(table.rows), wallets, actionFails, out,
                       Aftermath(locks.keys, table.rows, r, posts))
  {
    hide KeysAfter, Send;
    var acquired := Acquire(locks, wallets, out.tries);
    if acquired.None? {
      return Err(NoAvailableWallet), [];
    }
    var w := wallets[acquired.value];
    if actionFails {
      r, posts := Err(PreparationFailed), [];
    } else {
      var result;
      result, posts := SendToChain(table, w, None, out.attempts, 0);
      r := Ok(result);
    }
    locks.Unlock(w.address, out.unlock);
    assert FirstObtainable(old(locks.keys), wallets, out.tries, acquired.value);
  }

  ghost predicate NoReplyLost(tries: nat -> Try) {
    forall j: nat :: !tries(j).reply.ReplyLost?
  }

  lemma TakenKey(keys: map<Address, int>, wallets: seq<WalletConfig>, tries: nat -> Try, i: nat)
    requires FirstObtainable(keys, wallets, tries, i) && NoReplyLost(tries)
    ensures KeysAfter(keys, wallets, tries, i + 1) == keys[wallets[i].address := tries(i).now + LOCK_SECONDS]
  {
    PassedOverUntouched(keys, wallets, tries, i);
  }

  /** `keys'` are `keys` with wallet `i` given back, or still locked if the delete did not take effect. */
  ghost predicate GivenBack(keys: map<Address, int>, wallets: seq<WalletConfig>, out: Outside, i: nat,
                            keys': map<Address, int>) {
    && FirstObtainable(keys, wallets, out.tries, i)
    && keys' == if out.unlock.TakesEffect() then keys - {wallets[i].address}
                else keys[wallets[i].address := out.tries(i).now + LOCK_SECONDS]
  }

  lemma TakenIsGivenBack(keys: map<Address, int>, rows: map<Address, Row>, wallets: seq<WalletConfig>,
                         actionFails: bool, out: Outside, i: nat)
    requires FirstObtainable(keys, wallets, out.tries, i) && NoReplyLost(out.tries)
    ensures GivenBack(keys, wallets, out, i, WithWallet(keys, rows, wallets, actionFails, out, i).keys)
    ensures WithWallet(keys, rows, wallets, actionFails, out, i).outcome != Err(NoAvailableWallet)
  {
    hide Send, KeysAfter, NoReplyLost;
    TakenKey(keys, wallets, out.tries, i);
  }

  /**
   * Whatever happens in between, the wallet taken is free again once the delete has taken effect, and if
   * no lock reply was lost no other key was touched.
   */
  lemma WalletIsGivenBack(keys: map<Address, int>, rows: map<Address, Row>, wallets: seq<WalletConfig>,
                          actionFails: bool, out: Outside, b: Aftermath)
    requires Broadcasts(keys, rows, wallets, actionFails, out, b) && NoReplyLost(out.tries)
    ensures b.outcome == Err(NoAvailableWallet) ==> b.keys == keys && b.rows == rows && b.posts == []
    ensures b.outcome != Err(NoAvailableWallet) ==> exists i: nat :: GivenBack(keys, wallets, out, i, b.keys)
  {
    hide WithWallet, KeysAfter, GivenBack;
    if forall i: nat :: !Obtainable(keys, wallets, out.tries, i) {
      PassedOverUntouched(keys, wallets, out.tries, |wallets|);
    } else {
      var i: nat :| FirstObtainable(keys, wallets, out.tries, i)
        && b == WithWallet(keys, rows, wallets, actionFails, out, i);
      TakenIsGivenBack(keys, rows, wallets, actionFails, out, i);
    }
  }

  /** What a broadcast reports of its send is the node's last reply. */
  lemma BroadcastAnswer(keys: map<Address, int>, rows: map<Address, Row>, wallets: seq<WalletConfig>,
                        actionFails: bool, out: Outside, b: Aftermath)
    requires Broadcasts(keys, rows, wallets, actionFails, out, b)
    ensures b.posts != [] ==>
              var last := out.attempts(|b.posts| - 1).reply;
              && (last.Accepted? ==> b.outcome == Ok(Ok(last.hash)))
              && (last.OtherFailure? ==> b.outcome == Ok(Err(RpcFailed)))
              && (b.outcome.Ok? && b.outcome.value.Ok? ==> last.Accepted?)
    ensures b.posts == [] ==> b.outcome.Err? || b.outcome.value.Err?
    ensures b.outcome == Err(PreparationFailed) <==>
              actionFails && exists i: nat :: Obtainable(keys, wallets, out.tries, i)
    ensures b.outcome.Err? ==> b.posts == [] && b.rows == rows
  {
    hide Send, KeysAfter, DrawnAt;
    if exists i: nat :: Obtainable(keys, wallets, out.tries, i) {
      var i: nat :| FirstObtainable(keys, wallets, out.tries, i)
                    && b == WithWallet(keys, rows, wallets, actionFails, out, i);
      SendAnswer(rows, wallets[i], None, out.attempts, 0);
    }
  }

  datatype BroadcastResult = BroadcastResult(txHash: string, status: Result<(), BroadcasterError>)

  /** The approval is decoded and built before a wallet is taken. */
  method BroadcastProverMessage(locks: LockStore, wallets: seq<WalletConfig>, table: Table, decodeFails: bool,
                                out: Outside)
    returns (r: Result<BroadcastResult, BroadcasterError>, posts: seq<HighLoadQueryId>)
    modifies locks, table
    ensures decodeFails ==>
              && r == Err(PreparationFailed) && posts == []
              && locks.keys == old(locks.keys) && table.rows == old(table.rows)
    ensures !decodeFails ==>
              exists o :: Broadcasts(old(locks.keys), old(table.rows), wallets, false, out,
                                     Aftermath(locks.keys, table.rows, o, posts))
                && r == match o
                        case Err(e) => Err(e)
                        case Ok(Err(e)) => Ok(BroadcastResult("", Err(e)))
                        case Ok(Ok(hash)) => Ok(BroadcastResult(hash, Ok(())))
  {
    if decodeFails {
      return Err(PreparationFailed), [];
    }
    var o;
    o, posts := Broadcast(locks, wallets, table, false, out);
    if o.Err? {
      r := Err(o.error);
    } else if o.value.Ok? {
      r := Ok(BroadcastResult(o.value.value, Ok(())));
    } else {
      r := Ok(BroadcastResult("", Err(o.value.error)));
    }
  }

  /** Too little gas is an answer, not an error, and takes no wallet; the message is built with the wallet in hand. */
  method BroadcastExecuteMessage(locks: LockStore, wallets: seq<WalletConfig>, table: Table, decodeFails: bool,
                                 availableGas: nat, requiredGas: nat, actionFails: bool, out: Outside)
    returns (r: Result<BroadcastResult, BroadcasterError>, posts: seq<HighLoadQueryId>)
    modifies locks, table
    ensures decodeFails || availableGas < requiredGas ==>
              && posts == [] && locks.keys == old(locks.keys) && table.rows == old(table.rows)
              && r == if decodeFails then Err(PreparationFailed) else Ok(BroadcastResult("", Err(InsufficientGas)))
    ensures !decodeFails && availableGas >= requiredGas ==>
              exists o :: Broadcasts(old(locks.keys), old(table.rows), wallets, actionFails, out,
                                     Aftermath(locks.keys, table.rows, o, posts))
                && r == match o
                        case Err(e) => Err(e)
                        case Ok(Err(e)) => Ok(BroadcastResult("", Err(e)))
                        case Ok(Ok(hash)) => Ok(BroadcastResult(hash, Ok(())))
  {
    if decodeFails {
      return Err(PreparationFailed), [];
    }
    if availableGas < requiredGas {
      return Ok(BroadcastResult("", Err(InsufficientGas))), [];
    }
    var o;
    o, posts := Broadcast(locks, wallets, table, actionFails, out);
    if o.Err? {
      r := Err(o.error);
    } else if o.value.Ok? {
      r := Ok(BroadcastResult(o.value.value, Ok(())));
    } else {
      r := Ok(BroadcastResult("", Err(o.value.error)));
    }
  }

  /** Too little gas is an error here, and a failed send is reported as success with an empty hash. */
  method BroadcastRefundMessage(locks: LockStore, wallets: seq<WalletConfig>, table: Table, decodeFails: bool,
                                amount: nat, gasEstimate: nat, encodeFails: bool, actionFails: bool, out: Outside)
    returns (r: Result<string, BroadcasterError>, posts: seq<HighLoadQueryId>)
    modifies locks, table
    ensures decodeFails || amount < gasEstimate || encodeFails ==>
              && posts == [] && locks.keys == old(locks.keys) && table.rows == old(table.rows)
              && r == Err(if !decodeFails && amount < gasEstimate then InsufficientGas else PreparationFailed)
    ensures !(decodeFails || amount < gasEstimate || encodeFails) ==>
              exists o :: Broadcasts(old(locks.keys), old(table.rows), wallets, actionFails, out,
                                     Aftermath(locks.keys, table.rows, o, posts))
                && r == match o
                        case Err(e) => Err(e)
                        case Ok(Err(_)) => Ok("")
                        case Ok(Ok(hash)) => Ok(hash)
  {
    if decodeFails {
      return Err(PreparationFailed), [];
    }
    if amount < gasEstimate {
      return Err(InsufficientGas), [];
    }
    if encodeFails {
      return Err(PreparationFailed), [];
    }
    var o;
    o, posts := Broadcast(locks, wallets, table, actionFails, out);
    r := if o.Ok? then Ok(if o.value.Ok? then o.value.value else "") else Err(o.error);
  }
}
