/**
 * Why forced retries help: an id on a higher shift than everything used in the epoch before is accepted, and each
 * retry is at least one shift higher.
 */
module ForcedRetries {
  import opened Prelude
  import opened QueryId
  import opened QueryIdTable
  import HighloadContract
  import opened WalletProtocol
  import opened Broadcaster
  import opened BroadcastRuns

  /** No id used in the epoch before the current one lies above shift `top`. */
  ghost predicate OldShiftsUpTo(w: Wallet, top: int) {
    forall k, q :: 0 <= k < |w.uses| && UsedInEpoch(w, w.uses[k], q, |w.starts| - 2) ==> q.shift <= top
  }

  /** In every timely run, a pending id on a higher shift than the epoch before ever used is accepted. */
  lemma HigherShiftAccepted(s: State, p: Worker, top: int)
    requires p in s.holds && Reachable(s, s.holds[p].wallet) && s.holds[p].phase.HasId?
    requires s.holds[p].wallet in s.wallets && OldShiftsUpTo(s.wallets[s.holds[p].wallet], top)
    requires s.holds[p].phase.id.shift > top
    ensures var w := s.wallets[s.holds[p].wallet]; !HighloadContract.Rejects(w.memory, w.timeout,
                                                                             Id(s.holds[p].phase.id), s.now)
  {
    hide Reachable, HighloadContract.Rejects;
    var w := s.wallets[s.holds[p].wallet];
    if HighloadContract.Rejects(w.memory, w.timeout, Id(s.holds[p].phase.id), s.now) {
      RejectionComesFromPreviousEpoch(s, p);
    }
  }

  // ----- a node that tells the truth -----

  ghost predicate Faultless(at: Attempt) {
    !at.call.readFails && at.call.write.Delivered? && !at.buildFails && at.arrives
  }

  /** Drawing an id leaves the contract's memory alone, so the post meets the memory of `s`. */
  ghost predicate Refuses(s: State, p: Worker, force: bool, at: Attempt)
    requires CanSend(s, p) && Read(s, p, force, at).Ok?
  {
    var w := s.wallets[s.holds[p].wallet];
    HighloadContract.Rejects(w.memory, w.timeout, Id(Read(s, p, force, at).value), at.postedAt)
  }

  /** The attempt has no fault, and the node answers "already executed" exactly if the contract rejects the id. */
  ghost predicate Truthful(s: State, p: Worker, force: bool, at: Attempt)
    requires CanSend(s, p)
  {
    && Faultless(at)
    && (Read(s, p, force, at).Ok? ==>
        if Refuses(s, p, force, at) then at.reply.AlreadyExecuted? else at.reply.Accepted?)
  }

  ghost predicate TruthfulNode(s: State, p: Worker, left: Option<nat>, env: nat -> Attempt, i: nat)
    requires CanSend(s, p) && Chronological(s.now, env, i)
    decreases left.None?, if left.Some? then left.value else 0
  {
    AttemptIsARun(s, p, left.Some?, env(i));
    && Truthful(s, p, left.Some?, env(i))
    && (TriesAgain(s, p, left, env(i)) ==>
          TruthfulNode(Exec(s, AttemptSteps(s, p, left.Some?, env(i))), p, Retries(left), env, i + 1))
  }

  // ----- one attempt -----

  /** The wallet once the attempt has drawn its id. */
  ghost function Drawn(s: State, p: Worker, force: bool, at: Attempt): Wallet
    requires CanSend(s, p) && Read(s, p, force, at).Ok?
  {
    WithIssue(s.wallets[s.holds[p].wallet], Read(s, p, force, at).value, at.call.writeAt)
  }

  ghost function DrawSteps(s: State, p: Worker, force: bool, at: Attempt): seq<Action> {
    ReadSteps(s, p, force, at) + WriteSteps(p, at) + [Tick(Until(at.call.writeAt, at.postedAt))]
  }

  lemma BeforePost(s: State, p: Worker, force: bool, at: Attempt) returns (s': State)
    requires CanSend(s, p) && s.now <= at.call.readAt && InOrder(at) && Posts(s, p, force, at)
    ensures s' == Exec(s, DrawSteps(s, p, force, at))
    ensures s'.now == at.postedAt && s'.wallets == s.wallets[s.holds[p].wallet := Drawn(s, p, force, at)]
    ensures s'.holds == s.holds[p := s.holds[p].(phase := HasId(Read(s, p, force, at).value))]
  {
    hide Exec, Look, Advance, Stored, WithIssue;
    s' := AfterReadAndWrite(s, p, force, at);
    ExecAppend(s, ReadSteps(s, p, force, at) + WriteSteps(p, at), [Tick(Until(at.call.writeAt, at.postedAt))]);
    ExecOne(s', Tick(Until(at.call.writeAt, at.postedAt)));
    s' := Do(s', Tick(Until(at.call.writeAt, at.postedAt)));
  }

  lemma AttemptEndsWithPost(s: State, p: Worker, force: bool, at: Attempt)
    requires CanSend(s, p) && Posts(s, p, force, at) && at.arrives
    ensures Exec(s, AttemptSteps(s, p, force, at)) == Do(Exec(s, DrawSteps(s, p, force, at)), Post(p))
  {
    hide Exec, Do;
    assert AttemptSteps(s, p, force, at) == DrawSteps(s, p, force, at) + [Post(p)];
    ExecAppend(s, DrawSteps(s, p, force, at), [Post(p)]);
    ExecOne(Exec(s, DrawSteps(s, p, force, at)), Post(p));
  }

  /** A refused id lies on a shift the epoch before has used. */
  lemma RefusedIsLow(s: State, p: Worker, force: bool, at: Attempt, top: int)
    requires CanSend(s, p) && s.now <= at.call.readAt && InOrder(at) && Posts(s, p, force, at) && at.arrives
    requires Reachable(s, s.holds[p].wallet)
    requires Timely(Exec(s, AttemptSteps(s, p, force, at)), s.holds[p].wallet)
    requires OldShiftsUpTo(Drawn(s, p, force, at), top) && Refuses(s, p, force, at)
    ensures Read(s, p, force, at).value.shift <= top
  {
    hide Reachable, Exec, Do, Timely, TimelyRun, OldShiftsUpTo, HighloadContract.Rejects, Look, Advance;
    var a, q := s.holds[p].wallet, Read(s, p, force, at).value;
    AttemptEndsWithPost(s, p, force, at);
    var s' := BeforePost(s, p, force, at);
    TimelyBefore(s', Post(p), a);
    TimelyToTheEnd(s, DrawSteps(s, p, force, at), a);
    ReachableRun(s, DrawSteps(s, p, force, at), a);
    if q.shift > top {
      HigherShiftAccepted(s', p, top);
    }
  }

  /** After a refused attempt the wallet is as the draw left it. */
  lemma AfterRefusal(s: State, p: Worker, force: bool, at: Attempt) returns (s': State)
    requires CanSend(s, p) && s.now <= at.call.readAt && InOrder(at) && Posts(s, p, force, at) && at.arrives
    requires Refuses(s, p, force, at)
    ensures s' == Exec(s, AttemptSteps(s, p, force, at))
    ensures s'.holds == s.holds && s.holds[p].wallet in s'.wallets
    ensures s'.wallets[s.holds[p].wallet] == Drawn(s, p, force, at)
  {
    hide Exec, HighloadContract.Rejects, Look, Advance;
    AttemptEndsWithPost(s, p, force, at);
    s' := BeforePost(s, p, force, at);
    s' := Do(s', Post(p));
  }

  /** A later draw in the same epoch changes nothing about the epoch before. */
  lemma SameOldShifts(w: Wallet, row: Option<Row>, q: HighLoadQueryId, now: int, t: int, top: int)
    requires WalletOk(w, row, now) && OldShiftsUpTo(w, top) && Id(q) != 0
    ensures OldShiftsUpTo(WithIssue(w, q, t), top)
  {
    hide MemoryOk, StartsOk, IssuesOk, RowOk;
    var w' := WithIssue(w, q, t);
    forall k, q' | 0 <= k < |w'.uses| && UsedInEpoch(w', w'.uses[k], q', |w'.starts| - 2) ensures q'.shift <= top {
      assert UseOk(w, w.uses[k], now);
      assert UsedInEpoch(w, w.uses[k], q', |w.starts| - 2);
    }
  }

  /** `Send` where the node accepts at once. */
  lemma AcceptedAtOnce(s: State, p: Worker, w: WalletConfig, left: Option<nat>, env: nat -> Attempt, i: nat)
    requires CanSend(s, p) && s.holds[p].wallet == w.address
    requires Posts(s, p, left.Some?, env(i)) && env(i).reply.Accepted?
    ensures var sent := Send(s.rows, w, left, env, i); sent.result.Ok? && |sent.posts| == 1
  {
    hide Advance;
  }

  /** `Send` where it refuses and there is a retry left. */
  lemma RefusedAtFirst(s: State, p: Worker, w: WalletConfig, left: Option<nat>, env: nat -> Attempt, i: nat)
    requires CanSend(s, p) && s.holds[p].wallet == w.address && TriesAgain(s, p, left, env(i))
    ensures var rows' := RowsAfter(s.rows, w.address, w.timeout, left.Some?, env(i).call);
            var sent, rest := Send(s.rows, w, left, env, i), Send(rows', w, Retries(left), env, i + 1);
            sent.result == rest.result && |sent.posts| == 1 + |rest.posts|
  {
    hide Advance;
  }

  /** What holds of a send in progress from attempt `i` on. */
  ghost predicate Sending(s: State, p: Worker, w: WalletConfig, left: Option<nat>, env: nat -> Attempt, i: nat) {
    && CanSend(s, p) && Chronological(s.now, env, i)
    && s.holds[p].wallet == w.address && s.wallets[w.address].timeout == w.timeout
    && Reachable(s, w.address) && Timely(Exec(s, SendSteps(s, p, left, env, i)), w.address)
    && TruthfulNode(s, p, left, env, i)
  }

  lemma TimelyAfterAttempt(s: State, p: Worker, w: WalletConfig, left: Option<nat>, env: nat -> Attempt, i: nat)
    requires Sending(s, p, w, left, env, i)
    ensures Timely(Exec(s, AttemptSteps(s, p, left.Some?, env(i))), w.address)
  {
    hide Exec, AttemptSteps, RowsAfter, Read, Reachable, TruthfulNode, Truthful, Issued, Timely, TimelyRun;
    var steps := AttemptSteps(s, p, left.Some?, env(i));
    AttemptIsARun(s, p, left.Some?, env(i));
    if TriesAgain(s, p, left, env(i)) {
      var rest := SendSteps(Exec(s, steps), p, Retries(left), env, i + 1);
      ExecAppend(s, steps, rest);
      SendHasNoUnlock(Exec(s, steps), p, Retries(left), env, i + 1);
      TimelyToTheEnd(Exec(s, steps), rest, w.address);
      TimelyNow(Exec(s, steps), rest, w.address);
    }
  }

  lemma TimelyNow(s: State, acts: seq<Action>, a: Address)
    requires TimelyRun(s, acts, a)
    ensures Timely(s, a)
  {
  }

  /** A send that tries again is a send in progress at the next attempt. */
  lemma SendingGoesOn(s: State, p: Worker, w: WalletConfig, left: Option<nat>, env: nat -> Attempt, i: nat)
    requires Sending(s, p, w, left, env, i) && TriesAgain(s, p, left, env(i))
    ensures Sending(Exec(s, AttemptSteps(s, p, left.Some?, env(i))), p, w, Retries(left), env, i + 1)
  {
    hide Exec, AttemptSteps, RowsAfter, Read, Reachable, Truthful, Issued, Timely, TimelyRun;
    var steps := AttemptSteps(s, p, left.Some?, env(i));
    AttemptIsARun(s, p, left.Some?, env(i));
    TimelyAfterAttempt(s, p, w, left, env, i);
    AttemptHasNoUnlock(s, p, left.Some?, env(i));
    TimelyToTheEnd(s, steps, w.address);
    ReachableRun(s, steps, w.address);
    ExecAppend(s, steps, SendSteps(Exec(s, steps), p, Retries(left), env, i + 1));
  }

  // ----- retries reach a free shift -----

  /** The row is live until the last read of the send. */
  ghost predicate RowLasts(rows: map<Address, Row>, a: Address, env: nat -> Attempt, i: nat) {
    a in rows && forall n: nat :: n >= i ==> env(n).call.readAt <= rows[a].expiresAt
  }

  /** A forced draw from a live row below the last two shifts. */
  lemma ForcedDraw(s: State, p: Worker, a: Address, at: Attempt)
    requires CanSend(s, p) && s.holds[p].wallet == a && Reachable(s, a) && Faultless(at)
    requires a in s.rows && at.call.readAt <= s.rows[a].expiresAt && s.rows[a].shift <= 8189
    ensures Read(s, p, true, at).Ok? && Posts(s, p, true, at)
    ensures var q := Read(s, p, true, at).value;
            var rows' := RowsAfter(s.rows, a, s.wallets[a].timeout, true, at.call);
            && Id(q) != 0 && s.rows[a].shift < q.shift
            && a in rows' && rows'[a] == Row(q.shift, q.bitnumber, s.rows[a].expiresAt)
  {
    hide Advance, Reachable;
    RowMirrorsHistory(s, a);
    AdvanceExact(Look(s.rows, a, at.call.readAt), true);
    IdOrder(PairOf(Look(s.rows, a, at.call.readAt)), Read(s, p, true, at).value);
  }

  lemma OldShiftsAfterDraw(s: State, p: Worker, a: Address, at: Attempt, top: int)
    requires CanSend(s, p) && s.holds[p].wallet == a && Reachable(s, a) && Read(s, p, true, at).Ok?
    requires Id(Read(s, p, true, at).value) != 0 && OldShiftsUpTo(s.wallets[a], top)
    ensures OldShiftsUpTo(Drawn(s, p, true, at), top)
  {
    hide Reachable, WalletOk, OldShiftsUpTo;
    ReachableInv(s, a);
    SameOldShifts(s.wallets[a], RowOf(s, a), Read(s, p, true, at).value, s.now, at.call.writeAt, top);
  }

  /**
   * One attempt of a send: the node accepts, or the id lies on a shift used before and the wallet is as the
   * draw left it.
   */
  lemma AcceptedOrLow(s: State, p: Worker, w: WalletConfig, left: Option<nat>, env: nat -> Attempt, i: nat, top: int)
    returns (s': State)
    requires Sending(s, p, w, left, env, i) && Posts(s, p, left.Some?, env(i))
    requires OldShiftsUpTo(Drawn(s, p, left.Some?, env(i)), top)
    ensures s' == Exec(s, AttemptSteps(s, p, left.Some?, env(i)))
    ensures var at, force := env(i), left.Some?;
            if at.reply.Accepted? then
              var sent := Send(s.rows, w, left, env, i); sent.result.Ok? && |sent.posts| == 1
            else
              && at.reply.AlreadyExecuted? && Read(s, p, force, at).value.shift <= top
              && w.address in s'.wallets && s'.wallets[w.address] == Drawn(s, p, force, at)
              && s'.rows == RowsAfter(s.rows, w.address, w.timeout, force, at.call)
  {
    hide Exec, SendSteps, AttemptSteps, RowsAfter, Read, Reachable, Issued, Timely, OldShiftsUpTo, Send, Drawn;
    s' := Exec(s, AttemptSteps(s, p, left.Some?, env(i)));
    if Refuses(s, p, left.Some?, env(i)) {
      TimelyAfterAttempt(s, p, w, left, env, i);
      RefusedIsLow(s, p, left.Some?, env(i), top);
      var t := AfterRefusal(s, p, left.Some?, env(i));
      AttemptIsARun(s, p, left.Some?, env(i));
    } else {
      AcceptedAtOnce(s, p, w, left, env, i);
    }
  }

  lemma {:induction false} RetriesSucceed(s: State, p: Worker, w: WalletConfig, left: nat, env: nat -> Attempt, i: nat,
                                          top: int)
    requires Sending(s, p, w, Some(left), env, i) && RowLasts(s.rows, w.address, env, i)
    requires OldShiftsUpTo(s.wallets[w.address], top)
    requires s.rows[w.address].shift <= top <= s.rows[w.address].shift + left && top <= 8189
    ensures var sent := Send(s.rows, w, Some(left), env, i);
            sent.result.Ok? && |sent.posts| <= top - s.rows[w.address].shift + 1
    decreases left
  {
    hide Exec, SendSteps, AttemptSteps, RowsAfter, Read, Reachable, Issued, Timely, OldShiftsUpTo, Send, Writes, Posts,
      Drawn, Chronological;
    ForcedDraw(s, p, w.address, env(i));
    OldShiftsAfterDraw(s, p, w.address, env(i), top);
    var s' := AcceptedOrLow(s, p, w, Some(left), env, i, top);
    if !env(i).reply.Accepted? {
      SendingGoesOn(s, p, w, Some(left), env, i);
      RefusedAtFirst(s, p, w, Some(left), env, i);
      RetriesSucceed(s', p, w, left - 1, env, i + 1, top);
    }
  }

  /**
   * With a faultless environment and a truthful node, a send whose first id lies at most 10 shifts below the
   * highest shift used in the epoch before succeeds, after at most two posts more than that distance.
   */
  lemma SendSucceeds(s: State, p: Worker, w: WalletConfig, env: nat -> Attempt, top: int)
    requires Sending(s, p, w, None, env, 0) && EpochLasts(s.rows, w, env, 0)
    requires Read(s, p, false, env(0)).Ok? && OldShiftsUpTo(Drawn(s, p, false, env(0)), top)
    requires top <= 8189 && top <= Read(s, p, false, env(0)).value.shift + 10
    ensures var sent, q := Send(s.rows, w, None, env, 0), Read(s, p, false, env(0)).value;
            sent.result.Ok? && |sent.posts| <= if q.shift <= top then top - q.shift + 2 else 1
  {
    hide Exec, SendSteps, AttemptSteps, Reachable, Issued, Timely, OldShiftsUpTo, Send, Drawn, Advance;
    var q := Read(s, p, false, env(0)).value;
    var s' := AcceptedOrLow(s, p, w, None, env, 0, top);
    if !env(0).reply.Accepted? {
      SendingGoesOn(s, p, w, None, env, 0);
      RefusedAtFirst(s, p, w, None, env, 0);
      FirstDraw(s, p, w, env);
      RetriesSucceed(s', p, w, 10, env, 1, top);
    }
  }

  /** The first draw stores its id in a row that lasts. */
  lemma FirstDraw(s: State, p: Worker, w: WalletConfig, env: nat -> Attempt)
    requires CanSend(s, p) && s.holds[p].wallet == w.address && Reachable(s, w.address)
    requires EpochLasts(s.rows, w, env, 0) && Read(s, p, false, env(0)).Ok? && Faultless(env(0))
    ensures var q := Read(s, p, false, env(0)).value;
            var rows' := RowsAfter(s.rows, w.address, w.timeout, false, env(0).call);
            RowLasts(rows', w.address, env, 1) && rows'[w.address].shift == q.shift
  {
    hide Advance, Reachable;
    RowMirrorsHistory(s, w.address);
    AdvanceExact(Look(s.rows, w.address, env(0).call.readAt), false);
  }
}
