/**
 * A broadcast as a run of the wallet protocol: lock attempts, then reads, writes and posts, then the unlock.
 * What holds in every timely run thus holds of the broadcaster's own code.
 */
module BroadcastRuns {
  import opened Prelude
  import opened QueryId
  import opened QueryIdTable
  import opened WalletProtocol
  import opened Broadcaster

  function Until(now: int, t: int): nat {
    if now <= t then t - now else 0
  }

  lemma {:induction false} ExecAppend(s: State, xs: seq<Action>, ys: seq<Action>)
    ensures Exec(s, xs + ys) == Exec(Exec(s, xs), ys)
    decreases |xs|
  {
    hide Do;
    if xs == [] {
      assert xs + ys == ys;
    } else {
      assert (xs + ys)[1..] == xs[1..] + ys;
      ExecAppend(Do(s, xs[0]), xs[1..], ys);
    }
  }

  lemma ExecOne(s: State, x: Action)
    ensures Exec(s, [x]) == Do(s, x)
  {
    hide Do;
    assert [x][1..] == [];
  }

  lemma ExecTwo(s: State, x: Action, y: Action)
    ensures Exec(s, [x, y]) == Do(Do(s, x), y)
  {
    hide Do;
    assert [x, y][1..] == [y];
    ExecOne(Do(s, x), y);
  }

  // ----- one attempt -----

  /** Worker `p` holds a wallet and is between two attempts. */
  ghost predicate CanSend(s: State, p: Worker) {
    p in s.holds && s.holds[p].phase.Ready? && s.holds[p].wallet in s.wallets
  }

  ghost function Read(s: State, p: Worker, force: bool, at: Attempt): Result<HighLoadQueryId, WrapperError>
    requires p in s.holds
  {
    Advance(Look(s.rows, s.holds[p].wallet, at.call.readAt), force)
  }

  ghost predicate Writes(s: State, p: Worker, force: bool, at: Attempt)
    requires p in s.holds
  {
    !at.call.readFails && Read(s, p, force, at).Ok? && at.call.write.TakesEffect()
  }

  ghost predicate Posts(s: State, p: Worker, force: bool, at: Attempt)
    requires p in s.holds
  {
    Writes(s, p, force, at) && at.call.write.Delivered? && !at.buildFails
  }

  ghost function ReadSteps(s: State, p: Worker, force: bool, at: Attempt): seq<Action> {
    [Tick(Until(s.now, at.call.readAt)), ReadRow(p, force)]
  }

  ghost function WriteSteps(p: Worker, at: Attempt): seq<Action> {
    [Tick(Until(at.call.readAt, at.call.writeAt)), WriteRow(p)]
  }

  ghost function PostSteps(p: Worker, at: Attempt): seq<Action> {
    [Tick(Until(at.call.writeAt, at.postedAt)), if at.arrives then Post(p) else Abandon(p)]
  }

  /** The protocol steps of one attempt, as far as it gets. */
  ghost function AttemptSteps(s: State, p: Worker, force: bool, at: Attempt): seq<Action>
    requires p in s.holds
  {
    if at.call.readFails then []
    else if !Writes(s, p, force, at) then ReadSteps(s, p, force, at) + [Abandon(p)]
    else if !Posts(s, p, force, at) then ReadSteps(s, p, force, at) + WriteSteps(p, at) + [Abandon(p)]
    else ReadSteps(s, p, force, at) + WriteSteps(p, at) + PostSteps(p, at)
  }

  ghost predicate InOrder(at: Attempt) {
    at.call.readAt <= at.call.writeAt <= at.postedAt
  }

  /** The wallet `a` of `s` and the clock may have moved on, nothing else. */
  ghost predicate OnlyWallet(s: State, s': State, a: Address) {
    && s'.locks == s.locks && s'.holds == s.holds
    && a in s.wallets && a in s'.wallets && s'.wallets == s.wallets[a := s'.wallets[a]]
    && s'.wallets[a].timeout == s.wallets[a].timeout
  }

  /** The ids issued from `w` to `w'` are the posted ones in order and at most one that was never posted. */
  ghost predicate Issued(w: Wallet, w': Wallet, posts: seq<HighLoadQueryId>) {
    && w.issues <= w'.issues
    && |w.issues| + |posts| <= |w'.issues| <= |w.issues| + |posts| + 1
    && forall k :: 0 <= k < |posts| ==> w'.issues[|w.issues| + k].id == posts[k]
  }

  ghost function AttemptPosts(s: State, p: Worker, force: bool, at: Attempt): seq<HighLoadQueryId>
    requires p in s.holds
  {
    if Posts(s, p, force, at) then [Read(s, p, force, at).value] else []
  }

  /** What one attempt does to the shared state. */
  ghost predicate Attempted(s: State, p: Worker, force: bool, at: Attempt, s': State)
    requires CanSend(s, p)
  {
    var a := s.holds[p].wallet;
    && OnlyWallet(s, s', a) && s'.now <= (if s.now <= at.postedAt then at.postedAt else s.now)
    && s'.rows == RowsAfter(s.rows, a, s.wallets[a].timeout, force, at.call)
    && Issued(s.wallets[a], s'.wallets[a], AttemptPosts(s, p, force, at))
    && (Posts(s, p, force, at) ==> |s'.wallets[a].issues| == |s.wallets[a].issues| + 1 && s'.now == at.postedAt)
  }

  lemma AfterRead(s: State, p: Worker, force: bool, at: Attempt) returns (s': State)
    requires CanSend(s, p) && s.now <= at.call.readAt
    ensures s' == Exec(s, ReadSteps(s, p, force, at))
    ensures s' == SetPhase(s.(now := at.call.readAt), p, HasRow(Look(s.rows, s.holds[p].wallet, at.call.readAt), force))
  {
    hide Exec, Look;
    s' := Exec(s, ReadSteps(s, p, force, at));
    ExecTwo(s, Tick(Until(s.now, at.call.readAt)), ReadRow(p, force));
  }

  lemma AfterWrite(s: State, p: Worker, v: View, force: bool, at: Attempt) returns (s': State)
    requires p in s.holds && s.holds[p].phase == HasRow(v, force) && s.holds[p].wallet in s.wallets
    requires s.now == at.call.readAt <= at.call.writeAt && Advance(v, force).Ok?
    ensures s' == Exec(s, WriteSteps(p, at))
    ensures var a, q, now := s.holds[p].wallet, Advance(v, force).value, at.call.writeAt;
            s' == SetPhase(s, p, HasId(q)).(now := now, rows := Stored(s.rows, a, q, s.wallets[a].timeout, now),
                                            wallets := s.wallets[a := WithIssue(s.wallets[a], q, now)])
  {
    hide Exec, Advance, Stored, WithIssue;
    s' := Exec(s, WriteSteps(p, at));
    ExecTwo(s, Tick(Until(at.call.readAt, at.call.writeAt)), WriteRow(p));
  }

  lemma AfterPost(s: State, p: Worker, q: HighLoadQueryId, at: Attempt) returns (s': State)
    requires p in s.holds && s.holds[p].phase == HasId(q) && s.holds[p].wallet in s.wallets
    requires s.now == at.call.writeAt <= at.postedAt
    ensures s' == Exec(s, PostSteps(p, at))
    ensures var a := s.holds[p].wallet;
            var w := if at.arrives then WithPost(s.wallets[a], q, at.postedAt) else s.wallets[a];
            s' == SetPhase(s, p, Ready).(now := at.postedAt, wallets := s.wallets[a := w])
  {
    hide Exec, WithPost;
    s' := Exec(s, PostSteps(p, at));
    ExecTwo(s, Tick(Until(at.call.writeAt, at.postedAt)), if at.arrives then Post(p) else Abandon(p));
  }

  lemma AfterAbandon(s: State, p: Worker)
    requires p in s.holds
    ensures Exec(s, [Abandon(p)]) == SetPhase(s, p, Ready)
  {
    ExecOne(s, Abandon(p));
  }

  lemma StopsBeforeWriting(s: State, p: Worker, force: bool, at: Attempt)
    requires CanSend(s, p) && s.now <= at.call.readAt && InOrder(at)
    requires !at.call.readFails && !Writes(s, p, force, at)
    ensures Attempted(s, p, force, at, Exec(s, AttemptSteps(s, p, force, at)))
  {
    hide Exec, Look, Advance, Stored;
    var s1 := AfterRead(s, p, force, at);
    ExecAppend(s, ReadSteps(s, p, force, at), [Abandon(p)]);
    AfterAbandon(s1, p);
  }

  /** Reading and writing within one attempt. */
  lemma AfterReadAndWrite(s: State, p: Worker, force: bool, at: Attempt) returns (s': State)
    requires CanSend(s, p) && s.now <= at.call.readAt && InOrder(at) && Writes(s, p, force, at)
    ensures s' == Exec(s, ReadSteps(s, p, force, at) + WriteSteps(p, at))
    ensures var a, q, now := s.holds[p].wallet, Read(s, p, force, at).value, at.call.writeAt;
            s' == SetPhase(s, p, HasId(q)).(now := now, rows := Stored(s.rows, a, q, s.wallets[a].timeout, now),
                                            wallets := s.wallets[a := WithIssue(s.wallets[a], q, now)])
  {
    hide Exec, Look, Advance, Stored, WithIssue;
    s' := AfterRead(s, p, force, at);
    ExecAppend(s, ReadSteps(s, p, force, at), WriteSteps(p, at));
    s' := AfterWrite(s', p, s'.holds[p].phase.view, force, at);
  }

  lemma StopsBeforePosting(s: State, p: Worker, force: bool, at: Attempt)
    requires CanSend(s, p) && s.now <= at.call.readAt && InOrder(at)
    requires Writes(s, p, force, at) && !Posts(s, p, force, at)
    ensures Attempted(s, p, force, at, Exec(s, AttemptSteps(s, p, force, at)))
  {
    hide Exec, Look, Advance, Stored;
    var s2 := AfterReadAndWrite(s, p, force, at);
    ExecAppend(s, ReadSteps(s, p, force, at) + WriteSteps(p, at), [Abandon(p)]);
    AfterAbandon(s2, p);
  }

  lemma GetsToPost(s: State, p: Worker, force: bool, at: Attempt)
    requires CanSend(s, p) && s.now <= at.call.readAt && InOrder(at) && Posts(s, p, force, at)
    ensures Attempted(s, p, force, at, Exec(s, AttemptSteps(s, p, force, at)))
  {
    hide Exec, Look, Advance, Stored;
    var s2 := AfterReadAndWrite(s, p, force, at);
    ExecAppend(s, ReadSteps(s, p, force, at) + WriteSteps(p, at), PostSteps(p, at));
    var s3 := AfterPost(s2, p, Read(s, p, force, at).value, at);
  }

  /** One attempt's protocol steps do to the shared state what the wrapper call and the post do. */
  lemma AttemptIsARun(s: State, p: Worker, force: bool, at: Attempt)
    requires CanSend(s, p) && s.now <= at.call.readAt && InOrder(at)
    ensures Attempted(s, p, force, at, Exec(s, AttemptSteps(s, p, force, at)))
  {
    hide Attempted, Read;
    if at.call.readFails {
      ReadFails(s, p, force, at);
    } else if !Writes(s, p, force, at) {
      StopsBeforeWriting(s, p, force, at);
    } else if !Posts(s, p, force, at) {
      StopsBeforePosting(s, p, force, at);
    } else {
      GetsToPost(s, p, force, at);
    }
  }

  lemma ReadFails(s: State, p: Worker, force: bool, at: Attempt)
    requires CanSend(s, p) && at.call.readFails
    ensures Attempted(s, p, force, at, Exec(s, AttemptSteps(s, p, force, at)))
  {
    hide Advance;
  }

  // ----- a whole send -----

  ghost predicate Chronological(now: int, env: nat -> Attempt, i: nat) {
    && now <= env(i).call.readAt
    && forall n: nat :: n >= i ==> InOrder(env(n)) && env(n).postedAt <= env(n + 1).call.readAt
  }

  ghost predicate TriesAgain(s: State, p: Worker, left: Option<nat>, at: Attempt)
    requires p in s.holds
  {
    Posts(s, p, left.Some?, at) && at.reply.AlreadyExecuted? && Retries(left).Some?
  }

  /** The steps of attempt `i` and, after each rejection, those of the next. */
  ghost function SendSteps(s: State, p: Worker, left: Option<nat>, env: nat -> Attempt, i: nat): seq<Action>
    requires CanSend(s, p) && Chronological(s.now, env, i)
    decreases left.None?, if left.Some? then left.value else 0
  {
    var steps := AttemptSteps(s, p, left.Some?, env(i));
    AttemptIsARun(s, p, left.Some?, env(i));
    if TriesAgain(s, p, left, env(i)) then steps + SendSteps(Exec(s, steps), p, Retries(left), env, i + 1) else steps
  }

  /** `Send` in terms of one attempt. */
  lemma SendUnfolds(s: State, p: Worker, w: WalletConfig, left: Option<nat>, env: nat -> Attempt, i: nat)
    requires CanSend(s, p) && s.holds[p].wallet == w.address
    ensures var sent, force := Send(s.rows, w, left, env, i), left.Some?;
            var rows' := RowsAfter(s.rows, w.address, w.timeout, force, env(i).call);
            if TriesAgain(s, p, left, env(i))
            then
              var rest := Send(rows', w, Retries(left), env, i + 1);
              sent.rows == rest.rows && sent.posts == AttemptPosts(s, p, force, env(i)) + rest.posts
            else sent.rows == rows' && sent.posts == AttemptPosts(s, p, force, env(i))
  {
    hide Advance;
  }

  lemma IssuedInTurn(w: Wallet, w1: Wallet, w2: Wallet, q: HighLoadQueryId, posts: seq<HighLoadQueryId>)
    requires Issued(w, w1, [q]) && |w1.issues| == |w.issues| + 1 && Issued(w1, w2, posts)
    ensures Issued(w, w2, [q] + posts)
  {
    assert w1.issues[|w.issues|].id == [q][0];
  }

  /** The steps of a send do to rows and posts what the broadcaster's recursion does, and leave the locks alone. */
  lemma {:induction false} SendIsARun(s: State, p: Worker, w: WalletConfig, left: Option<nat>, env: nat -> Attempt,
                                      i: nat)
    requires CanSend(s, p) && Chronological(s.now, env, i)
    requires s.holds[p].wallet == w.address && s.wallets[w.address].timeout == w.timeout
    ensures var s' := Exec(s, SendSteps(s, p, left, env, i));
            var sent := Send(s.rows, w, left, env, i);
            && OnlyWallet(s, s', w.address) && s'.rows == sent.rows
            && Issued(s.wallets[w.address], s'.wallets[w.address], sent.posts)
    decreases left.None?, if left.Some? then left.value else 0
  {
    hide Exec, AttemptSteps, RowsAfter, Read, Send, Issued;
    var steps := AttemptSteps(s, p, left.Some?, env(i));
    var s1 := Exec(s, steps);
    AttemptIsARun(s, p, left.Some?, env(i));
    SendUnfolds(s, p, w, left, env, i);
    if TriesAgain(s, p, left, env(i)) {
      SendIsARun(s1, p, w, Retries(left), env, i + 1);
      ExecAppend(s, steps, SendSteps(s1, p, Retries(left), env, i + 1));
      var s2 := Exec(s1, SendSteps(s1, p, Retries(left), env, i + 1));
      IssuedInTurn(s.wallets[w.address], s1.wallets[w.address], s2.wallets[w.address],
                   Read(s, p, left.Some?, env(i)).value,
                   Send(s1.rows, w, Retries(left), env, i + 1).posts);
    }
  }

  // ----- taking a wallet -----

  ghost predicate Known(s: State, wallets: seq<WalletConfig>) {
    forall j :: 0 <= j < |wallets| ==>
      wallets[j].address in s.wallets && s.wallets[wallets[j].address].timeout == wallets[j].timeout
  }

  /** The clock when `n` wallets have been tried. */
  ghost function ClockAfter(now: int, tries: nat -> Try, n: nat): int {
    if n == 0 then now else tries(n - 1).now
  }

  ghost predicate TriesInOrder(now: int, tries: nat -> Try) {
    forall n: nat :: ClockAfter(now, tries, n) <= tries(n).now
  }

  ghost function AcquireSteps(now: int, wallets: seq<WalletConfig>, tries: nat -> Try, p: Worker, n: nat): seq<Action>
    requires n <= |wallets|
  {
    if n == 0 then []
    else
      AcquireSteps(now, wallets, tries, p, n - 1)
      + [Tick(Until(ClockAfter(now, tries, n - 1), tries(n - 1).now)),
         TryLock(p, wallets[n - 1].address, tries(n - 1).reply)]
  }

  /** The state once `n` wallets have been tried in vain. */
  ghost function PassedOver(s: State, wallets: seq<WalletConfig>, tries: nat -> Try, n: nat): State
    requires n <= |wallets|
  {
    s.(now := ClockAfter(s.now, tries, n), locks := KeysAfter(s.locks, wallets, tries, n))
  }

  /** The state once wallet `i` has been taken. */
  ghost function Taken(s: State, p: Worker, wallets: seq<WalletConfig>, tries: nat -> Try, i: nat): State
    requires i < |wallets|
  {
    PassedOver(s, wallets, tries, i + 1).(holds := s.holds[p := Hold(wallets[i].address, tries(i).now, Ready)])
  }

  lemma TickAndTry(s: State, p: Worker, a: Address, t: int, reply: Delivery)
    requires p !in s.holds && a in s.wallets && s.now <= t
    ensures var s', keys := s.(now := t), Locks.KeysAfterLock(s.locks, a, t, reply);
            Do(Do(s, Tick(Until(s.now, t))), TryLock(p, a, reply))
            == if Locks.KeyFree(s.locks, a, t) && reply.Delivered?
               then s'.(locks := keys, holds := s.holds[p := Hold(a, t, Ready)])
               else s'.(locks := keys)
  {
    hide Locks.KeysAfterLock;
  }

  lemma KeysAfterNext(keys: map<Address, int>, wallets: seq<WalletConfig>, tries: nat -> Try, n: nat)
    requires n < |wallets|
    ensures KeysAfter(keys, wallets, tries, n + 1)
         == Locks.KeysAfterLock(KeysAfter(keys, wallets, tries, n), wallets[n].address, tries(n).now, tries(n).reply)
  {
  }

  lemma TryIsAStep(s: State, p: Worker, wallets: seq<WalletConfig>, tries: nat -> Try, n: nat)
    requires p !in s.holds && Known(s, wallets) && TriesInOrder(s.now, tries) && n < |wallets|
    ensures var s1 := PassedOver(s, wallets, tries, n);
            var s2 := Do(Do(s1, Tick(Until(s1.now, tries(n).now))), TryLock(p, wallets[n].address, tries(n).reply));
            s2 == if Obtainable(s.locks, wallets, tries, n) then Taken(s, p, wallets, tries, n)
                  else PassedOver(s, wallets, tries, n + 1)
  {
    hide Do, KeysAfter, Locks.KeysAfterLock;
    assert ClockAfter(s.now, tries, n) <= tries(n).now;
    KeysAfterNext(s.locks, wallets, tries, n);
    TickAndTry(PassedOver(s, wallets, tries, n), p, wallets[n].address, tries(n).now, tries(n).reply);
  }

  lemma NoTryYet(s: State, p: Worker, wallets: seq<WalletConfig>, tries: nat -> Try)
    ensures Exec(s, AcquireSteps(s.now, wallets, tries, p, 0)) == PassedOver(s, wallets, tries, 0)
  {
  }

  lemma {:induction false} PassingOverIsARun(s: State, p: Worker, wallets: seq<WalletConfig>, tries: nat -> Try, n: nat)
    requires p !in s.holds && Known(s, wallets) && TriesInOrder(s.now, tries) && n <= |wallets|
    requires forall j: nat :: j < n ==> !Obtainable(s.locks, wallets, tries, j)
    ensures Exec(s, AcquireSteps(s.now, wallets, tries, p, n)) == PassedOver(s, wallets, tries, n)
  {
    hide Exec, AcquireSteps, PassedOver, Obtainable;
    if n > 0 {
      PassingOverIsARun(s, p, wallets, tries, n - 1);
      OneMoreTry(s, p, wallets, tries, n - 1);
    } else {
      NoTryYet(s, p, wallets, tries);
    }
  }

  lemma OneMoreTry(s: State, p: Worker, wallets: seq<WalletConfig>, tries: nat -> Try, n: nat)
    requires p !in s.holds && Known(s, wallets) && TriesInOrder(s.now, tries) && n < |wallets|
    requires Exec(s, AcquireSteps(s.now, wallets, tries, p, n)) == PassedOver(s, wallets, tries, n)
    ensures Exec(s, AcquireSteps(s.now, wallets, tries, p, n + 1))
         == if Obtainable(s.locks, wallets, tries, n) then Taken(s, p, wallets, tries, n)
            else PassedOver(s, wallets, tries, n + 1)
  {
    hide Exec, Do, KeysAfter, Known;
    var s1 := PassedOver(s, wallets, tries, n);
    var x, y := Tick(Until(s1.now, tries(n).now)), TryLock(p, wallets[n].address, tries(n).reply);
    ExecAppend(s, AcquireSteps(s.now, wallets, tries, p, n), [x, y]);
    ExecTwo(s1, x, y);
    TryIsAStep(s, p, wallets, tries, n);
  }

  lemma TakingIsARun(s: State, p: Worker, wallets: seq<WalletConfig>, tries: nat -> Try, i: nat)
    requires p !in s.holds && Known(s, wallets) && TriesInOrder(s.now, tries)
    requires FirstObtainable(s.locks, wallets, tries, i)
    ensures Exec(s, AcquireSteps(s.now, wallets, tries, p, i + 1)) == Taken(s, p, wallets, tries, i)
  {
    PassingOverIsARun(s, p, wallets, tries, i);
    OneMoreTry(s, p, wallets, tries, i);
  }

  // ----- timeliness -----

  lemma TimelyBefore(s: State, act: Action, a: Address)
    requires !act.Unlock? && Timely(Do(s, act), a)
    ensures Timely(s, a)
  {
    hide Look, Advance, Stored;
    forall p | p in s.holds && s.holds[p].wallet == a ensures s.now < s.holds[p].since + Locks.LOCK_SECONDS {
      var s' := Do(s, act);
      assert p in s'.holds && s'.holds[p].since == s.holds[p].since && s'.holds[p].wallet == a;
    }
  }

  /** Until somebody unlocks, a state can only be timely if all before it were. */
  lemma {:induction false} TimelyToTheEnd(s: State, acts: seq<Action>, a: Address)
    requires NoUnlock(acts) && Timely(Exec(s, acts), a)
    ensures TimelyRun(s, acts, a)
    decreases |acts|
  {
    hide Do;
    if acts != [] {
      TimelyToTheEnd(Do(s, acts[0]), acts[1..], a);
      TimelyBefore(s, acts[0], a);
    }
  }

  lemma {:induction false} ReachableRun(s: State, acts: seq<Action>, a: Address)
    requires Reachable(s, a) && TimelyRun(s, acts, a)
    ensures Reachable(Exec(s, acts), a)
    decreases |acts|
  {
    hide Do, Reachable, Timely;
    if acts != [] {
      var s' := ReachableStep(s, acts[0], a);
      ReachableRun(s', acts[1..], a);
    }
  }

  // ----- a whole broadcast -----

  ghost predicate InTime(s: State, out: Outside, i: nat) {
    TriesInOrder(s.now, out.tries) && Chronological(out.tries(i).now, out.attempts, 0)
  }

  /** Worker `p` can start a broadcast in `s` and will get wallet `i`. */
  ghost predicate CanBroadcast(s: State, p: Worker, wallets: seq<WalletConfig>, out: Outside, i: nat) {
    && p !in s.holds && Known(s, wallets) && InTime(s, out, i)
    && FirstObtainable(s.locks, wallets, out.tries, i)
  }

  /** From the first lock attempt to the end of the send. */
  ghost function WorkSteps(s: State, p: Worker, wallets: seq<WalletConfig>, actionFails: bool, out: Outside,
                           i: nat): seq<Action>
    requires CanBroadcast(s, p, wallets, out, i)
  {
    AcquireSteps(s.now, wallets, out.tries, p, i + 1)
    + if actionFails then [] else SendSteps(Taken(s, p, wallets, out.tries, i), p, None, out.attempts, 0)
  }

  ghost function BroadcastSteps(s: State, p: Worker, wallets: seq<WalletConfig>, actionFails: bool, out: Outside,
                                i: nat): seq<Action>
    requires CanBroadcast(s, p, wallets, out, i)
  {
    WorkSteps(s, p, wallets, actionFails, out, i) + [Unlock(p, out.unlock)]
  }

  /** Wallet `a` was issued the posted ids, and no other wallet changed. */
  ghost predicate IssuedTo(s: State, s': State, a: Address, posts: seq<HighLoadQueryId>) {
    && a in s.wallets && a in s'.wallets && s'.wallets == s.wallets[a := s'.wallets[a]]
    && Issued(s.wallets[a], s'.wallets[a], posts)
  }

  /** `s'` has the keys and rows of `b`, its posts were issued, and everybody holds what they held. */
  ghost predicate Mirrors(s: State, s': State, a: Address, b: Aftermath) {
    s'.locks == b.keys && s'.rows == b.rows && s'.holds == s.holds && IssuedTo(s, s', a, b.posts)
  }

  lemma WorkIsARun(s: State, p: Worker, wallets: seq<WalletConfig>, actionFails: bool, out: Outside, i: nat)
    returns (s': State)
    requires CanBroadcast(s, p, wallets, out, i)
    ensures s' == Exec(s, WorkSteps(s, p, wallets, actionFails, out, i))
    ensures var b := WithWallet(s.locks, s.rows, wallets, actionFails, out, i);
            && s'.holds == s.holds[p := Hold(wallets[i].address, out.tries(i).now, Ready)]
            && s'.locks == KeysAfter(s.locks, wallets, out.tries, i + 1)
            && s'.rows == b.rows && IssuedTo(s, s', wallets[i].address, b.posts)
  {
    hide Exec, KeysAfter, Send, SendSteps, AcquireSteps;
    s' := Exec(s, WorkSteps(s, p, wallets, actionFails, out, i));
    var s1 := Taken(s, p, wallets, out.tries, i);
    var acquire := AcquireSteps(s.now, wallets, out.tries, p, i + 1);
    TakingIsARun(s, p, wallets, out.tries, i);
    if actionFails {
      assert acquire + [] == acquire;
    } else {
      ExecAppend(s, acquire, SendSteps(s1, p, None, out.attempts, 0));
      SendIsARun(s1, p, wallets[i], None, out.attempts, 0);
    }
  }

  lemma UnlockIsAStep(s: State, s': State, p: Worker, h: Hold, reply: Delivery, b: Aftermath)
    requires p !in s.holds && s'.holds == s.holds[p := h]
    requires s'.rows == b.rows && b.keys == Locks.KeysAfterUnlock(s'.locks, h.wallet, reply)
    requires IssuedTo(s, s', h.wallet, b.posts)
    ensures Mirrors(s, Do(s', Unlock(p, reply)), h.wallet, b)
  {
    hide Issued, Locks.KeysAfterUnlock;
    assert s.holds[p := h] - {p} == s.holds;
  }

  lemma WithWalletIsARun(s: State, p: Worker, wallets: seq<WalletConfig>, actionFails: bool, out: Outside, i: nat)
    requires CanBroadcast(s, p, wallets, out, i)
    ensures Mirrors(s, Exec(s, BroadcastSteps(s, p, wallets, actionFails, out, i)), wallets[i].address,
                    WithWallet(s.locks, s.rows, wallets, actionFails, out, i))
  {
    hide Mirrors, WorkSteps, Do, Send, KeysAfter, IssuedTo, Known, InTime;
    var s' := WorkIsARun(s, p, wallets, actionFails, out, i);
    var h := Hold(wallets[i].address, out.tries(i).now, Ready);
    UnlockIsAStep(s, s', p, h, out.unlock, WithWallet(s.locks, s.rows, wallets, actionFails, out, i));
    ExecAppend(s, WorkSteps(s, p, wallets, actionFails, out, i), [Unlock(p, out.unlock)]);
    ExecOne(s', Unlock(p, out.unlock));
  }

  lemma OnlyOneIsFirst(keys: map<Address, int>, rows: map<Address, Row>, wallets: seq<WalletConfig>, actionFails: bool,
                       out: Outside, i: nat, b: Aftermath)
    requires FirstObtainable(keys, wallets, out.tries, i) && Broadcasts(keys, rows, wallets, actionFails, out, b)
    ensures b == WithWallet(keys, rows, wallets, actionFails, out, i)
  {
    hide WithWallet, KeysAfter;
    var j: nat :| FirstObtainable(keys, wallets, out.tries, j)
      && b == WithWallet(keys, rows, wallets, actionFails, out, j);
    assert i == j;
  }

  /**
   * A broadcast that gets a wallet is a run of the protocol with the same locks, rows and posts; for every
   * wallet `c` held in time until the work is done, the run is one the protocol's theorems are about.
   */
  lemma BroadcastIsARun(s: State, p: Worker, wallets: seq<WalletConfig>, actionFails: bool, out: Outside, i: nat,
                        b: Aftermath, c: Address)
    requires CanBroadcast(s, p, wallets, out, i) && Broadcasts(s.locks, s.rows, wallets, actionFails, out, b)
    ensures var s' := Exec(s, BroadcastSteps(s, p, wallets, actionFails, out, i));
            && Mirrors(s, s', wallets[i].address, b)
            && (Reachable(s, c) && Timely(Exec(s, WorkSteps(s, p, wallets, actionFails, out, i)), c) ==>
                Reachable(s', c))
  {
    hide Mirrors, WorkSteps, BroadcastSteps, WithWallet, Broadcasts, Obtainable, Timely, Reachable, Exec;
    OnlyOneIsFirst(s.locks, s.rows, wallets, actionFails, out, i, b);
    WithWalletIsARun(s, p, wallets, actionFails, out, i);
    if Reachable(s, c) && Timely(Exec(s, WorkSteps(s, p, wallets, actionFails, out, i)), c) {
      BroadcastIsReachable(s, p, wallets, actionFails, out, i, c);
    }
  }

  ghost predicate NoUnlock(acts: seq<Action>) {
    forall k :: 0 <= k < |acts| ==> !acts[k].Unlock?
  }

  lemma {:induction false} AcquireHasNoUnlock(now: int, wallets: seq<WalletConfig>, tries: nat -> Try, p: Worker,
                                              n: nat)
    requires n <= |wallets|
    ensures NoUnlock(AcquireSteps(now, wallets, tries, p, n))
  {
    if n > 0 {
      AcquireHasNoUnlock(now, wallets, tries, p, n - 1);
    }
  }

  lemma AttemptHasNoUnlock(s: State, p: Worker, force: bool, at: Attempt)
    requires p in s.holds
    ensures NoUnlock(AttemptSteps(s, p, force, at))
  {
    hide Writes, Posts;
  }

  lemma {:induction false} SendHasNoUnlock(s: State, p: Worker, left: Option<nat>, env: nat -> Attempt, i: nat)
    requires CanSend(s, p) && Chronological(s.now, env, i)
    ensures NoUnlock(SendSteps(s, p, left, env, i))
    decreases left.None?, if left.Some? then left.value else 0
  {
    hide Exec, AttemptSteps, Writes, RowsAfter, Read, Issued;
    AttemptHasNoUnlock(s, p, left.Some?, env(i));
    AttemptIsARun(s, p, left.Some?, env(i));
    if TriesAgain(s, p, left, env(i)) {
      SendHasNoUnlock(Exec(s, AttemptSteps(s, p, left.Some?, env(i))), p, Retries(left), env, i + 1);
    }
  }

  lemma WorkHasNoUnlock(s: State, p: Worker, wallets: seq<WalletConfig>, actionFails: bool, out: Outside, i: nat)
    requires CanBroadcast(s, p, wallets, out, i)
    ensures NoUnlock(WorkSteps(s, p, wallets, actionFails, out, i))
  {
    hide AcquireSteps, SendSteps, KeysAfter;
    AcquireHasNoUnlock(s.now, wallets, out.tries, p, i + 1);
    if !actionFails {
      SendHasNoUnlock(Taken(s, p, wallets, out.tries, i), p, None, out.attempts, 0);
    }
  }

  lemma ReachableUnlock(s: State, acts: seq<Action>, p: Worker, reply: Delivery, a: Address)
    requires Reachable(s, a) && NoUnlock(acts) && Timely(Exec(s, acts), a)
    ensures Reachable(Exec(s, acts + [Unlock(p, reply)]), a)
  {
    hide Reachable, Exec, TimelyRun;
    TimelyToTheEnd(s, acts, a);
    ReachableRun(s, acts, a);
    ExecAppend(s, acts, [Unlock(p, reply)]);
    ExecOne(Exec(s, acts), Unlock(p, reply));
    var s' := ReachableStep(Exec(s, acts), Unlock(p, reply), a);
  }

  lemma BroadcastIsReachable(s: State, p: Worker, wallets: seq<WalletConfig>, actionFails: bool, out: Outside, i: nat,
                             a: Address)
    requires CanBroadcast(s, p, wallets, out, i)
    requires Reachable(s, a) && Timely(Exec(s, WorkSteps(s, p, wallets, actionFails, out, i)), a)
    ensures Reachable(Exec(s, BroadcastSteps(s, p, wallets, actionFails, out, i)), a)
  {
    hide Reachable, Exec, WorkSteps, Timely, CanBroadcast;
    WorkHasNoUnlock(s, p, wallets, actionFails, out, i);
    ReachableUnlock(s, WorkSteps(s, p, wallets, actionFails, out, i), p, out.unlock, a);
  }

  /** A broadcast that finds no wallet is a run of failed lock attempts. */
  lemma {:induction false} NoWalletIsARun(s: State, p: Worker, wallets: seq<WalletConfig>, actionFails: bool,
                                          out: Outside, b: Aftermath, c: Address)
    requires p !in s.holds && Known(s, wallets) && TriesInOrder(s.now, out.tries)
    requires forall i: nat :: !Obtainable(s.locks, wallets, out.tries, i)
    requires Broadcasts(s.locks, s.rows, wallets, actionFails, out, b)
    ensures var s' := Exec(s, AcquireSteps(s.now, wallets, out.tries, p, |wallets|));
            && s' == s.(now := s'.now, locks := b.keys) && b.rows == s.rows && b.posts == []
            && (Reachable(s, c) && Timely(s', c) ==> Reachable(s', c))
  {
    hide Reachable, Exec, AcquireSteps, KeysAfter, TimelyRun, Timely, Do;
    var steps := AcquireSteps(s.now, wallets, out.tries, p, |wallets|);
    PassingOverIsARun(s, p, wallets, out.tries, |wallets|);
    AcquireHasNoUnlock(s.now, wallets, out.tries, p, |wallets|);
    if Reachable(s, c) && Timely(Exec(s, steps), c) {
      TimelyToTheEnd(s, steps, c);
      ReachableRun(s, steps, c);
    }
  }

  /** No id a broadcast posts was issued before in the same epoch, by whichever worker. */
  lemma PostedIdsAreNew(s: State, p: Worker, wallets: seq<WalletConfig>, actionFails: bool, out: Outside, i: nat,
                        b: Aftermath, j: nat, k: nat)
    requires CanBroadcast(s, p, wallets, out, i) && Broadcasts(s.locks, s.rows, wallets, actionFails, out, b)
    requires Reachable(s, wallets[i].address)
    requires Timely(Exec(s, WorkSteps(s, p, wallets, actionFails, out, i)), wallets[i].address)
    requires j < |s.wallets[wallets[i].address].issues| && k < |b.posts|
    ensures var s', a := Exec(s, BroadcastSteps(s, p, wallets, actionFails, out, i)), wallets[i].address;
            && a in s'.wallets && |s.wallets[a].issues| + k < |s'.wallets[a].issues|
            && var x, y := s.wallets[a].issues[j], s'.wallets[a].issues[|s.wallets[a].issues| + k];
               && y.id == b.posts[k] && x.epoch <= y.epoch
               && (x.epoch == y.epoch ==> Id(x.id) < Id(y.id))
  {
    hide WorkSteps, BroadcastSteps, Broadcasts, KeysAfter, InTime, Issued, Timely, Reachable, Exec;
    BroadcastIsARun(s, p, wallets, actionFails, out, i, b, wallets[i].address);
    NewIssuesFollow(s, Exec(s, BroadcastSteps(s, p, wallets, actionFails, out, i)), wallets[i].address, b.posts, j, k);
  }

  lemma NewIssuesFollow(s: State, s': State, a: Address, posts: seq<HighLoadQueryId>, j: nat, k: nat)
    requires Reachable(s', a) && IssuedTo(s, s', a, posts)
    requires j < |s.wallets[a].issues| && k < |posts|
    ensures |s.wallets[a].issues| + k < |s'.wallets[a].issues|
    ensures var x, y := s.wallets[a].issues[j], s'.wallets[a].issues[|s.wallets[a].issues| + k];
            y.id == posts[k] && x.epoch <= y.epoch && (x.epoch == y.epoch ==> Id(x.id) < Id(y.id))
  {
    hide Reachable;
    IdsIncreaseWithinEpoch(s', a, j, |s.wallets[a].issues| + k);
  }
}
