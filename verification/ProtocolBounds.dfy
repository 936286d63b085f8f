/**
 * How sharp the guarantees of the wallet protocol are: the exact lag and the exact gap at which a fresh
 * id can be rejected, and what happens when a worker overstays its lock.
 */
module ProtocolBounds {
  import opened Prelude
  import opened QueryId
  import opened QueryIdTable
  import opened HighloadContract
  import opened WalletProtocol

  /** In some timely run, worker `p` is about to post an id of a wallet with this timeout. */
  ghost predicate AboutToPost(s: State, p: Worker, timeout: nat) {
    && p in s.holds && Reachable(s, s.holds[p].wallet) && s.holds[p].phase.HasId?
    && s.holds[p].wallet in s.wallets && s.wallets[s.holds[p].wallet].timeout == timeout
  }

  ghost function Target(s: State, p: Worker): Wallet
    requires p in s.holds && s.holds[p].wallet in s.wallets
  {
    s.wallets[s.holds[p].wallet]
  }

  ghost predicate WouldBeRejected(s: State, p: Worker)
    requires p in s.holds && s.holds[p].phase.HasId? && s.holds[p].wallet in s.wallets
  {
    Rejects(Target(s, p).memory, Target(s, p).timeout, Id(s.holds[p].phase.id), s.now)
  }

  /** Use `k` of the wallet is a use of id `q`. */
  ghost predicate IsUseOf(w: Wallet, k: nat, q: HighLoadQueryId) {
    k < |w.uses| && w.uses[k].issue < |w.issues| && w.issues[w.uses[k].issue].id == q
  }

  /** No id of a wallet's first epoch is ever rejected. */
  lemma FirstEpochNeverRejected(s: State, p: Worker, timeout: nat)
    requires AboutToPost(s, p, timeout) && |Target(s, p).starts| <= 1
    ensures !WouldBeRejected(s, p)
  {
    if WouldBeRejected(s, p) {
      RejectionComesFromPreviousEpoch(s, p);
    }
  }

  /** The use a rejection goes back to. */
  lemma RejectedUse(s: State, p: Worker, timeout: nat) returns (k: nat)
    requires AboutToPost(s, p, timeout) && WouldBeRejected(s, p)
    ensures var w, q := Target(s, p), s.holds[p].phase.id;
            && IsUseOf(w, k, q) && s.now <= w.uses[k].time + 3 * timeout
            && (q == Pair(0, 0) ==> w.issues[w.uses[k].issue].time < w.uses[k].time)
  {
    hide Rejects;
    var w, q := Target(s, p), s.holds[p].phase.id;
    RejectionComesFromPreviousEpoch(s, p);
    k :| 0 <= k < |w.uses| && UsedInEpoch(w, w.uses[k], q, |w.starts| - 2)
         && s.now <= w.uses[k].time + 3 * w.timeout
         && (Id(q) == 0 ==> w.issues[w.uses[k].issue].time < w.uses[k].time);
  }

  // ----- id 0: the exact lag -----

  /** Every id 0 accepted so far was posted at most `lag` after its row was written. */
  ghost predicate ZeroLagsAtMost(w: Wallet, lag: nat) {
    forall k: nat :: IsUseOf(w, k, Pair(0, 0)) ==> w.uses[k].time <= w.issues[w.uses[k].issue].time + lag
  }

  ghost predicate IdZeroSafe(timeout: nat, lag: nat) {
    forall s: State, p: Worker ::
      AboutToPost(s, p, timeout) && s.holds[p].phase.id == Pair(0, 0) && ZeroLagsAtMost(Target(s, p), lag)
      ==> !WouldBeRejected(s, p)
  }

  /** Id 0 is safe in all runs whose ids 0 are posted within `lag` of their write if and only if that lag is none. */
  lemma IdZeroSafeExact(timeout: nat, lag: nat)
    ensures IdZeroSafe(timeout, lag) <==> lag == 0
  {
    if lag == 0 {
      forall s: State, p: Worker
        | AboutToPost(s, p, timeout) && s.holds[p].phase.id == Pair(0, 0) && ZeroLagsAtMost(Target(s, p), lag)
        ensures !WouldBeRejected(s, p)
      {
        if WouldBeRejected(s, p) {
          var k := RejectedUse(s, p, timeout);
        }
      }
    } else {
      var s := LateIdZeroRejected("wallet", timeout);
      assert ZeroLagsAtMost(Target(s, 0), lag);
    }
  }

  // ----- any id: the exact gap -----

  ghost predicate UsesAreOld(s: State, p: Worker, gap: nat)
    requires p in s.holds && s.holds[p].phase.HasId? && s.holds[p].wallet in s.wallets
  {
    var w := Target(s, p);
    forall k: nat :: IsUseOf(w, k, s.holds[p].phase.id) ==> w.uses[k].time + gap <= s.now
  }

  /** Every accepted id was posted at the moment its row was written. */
  ghost predicate Prompt(w: Wallet) {
    forall k: nat :: k < |w.uses| && w.uses[k].issue < |w.issues| ==> w.uses[k].time == w.issues[w.uses[k].issue].time
  }

  ghost predicate GapSafe(timeout: nat, gap: nat) {
    forall s: State, p: Worker :: AboutToPost(s, p, timeout) && UsesAreOld(s, p, gap) ==> !WouldBeRejected(s, p)
  }

  /** The same, only for runs in which every post is prompt. */
  ghost predicate PromptGapSafe(timeout: nat, gap: nat) {
    forall s: State, p: Worker ::
      AboutToPost(s, p, timeout) && UsesAreOld(s, p, gap) && Prompt(Target(s, p)) ==> !WouldBeRejected(s, p)
  }

  /**
   * A fresh id whose earlier uses are all at least `gap` old is accepted in every run if and only if the
   * gap exceeds three timeouts; prompt posts do not help.
   */
  lemma SafeGapExact(timeout: nat, gap: nat)
    ensures GapSafe(timeout, gap) <==> gap > 3 * timeout
    ensures PromptGapSafe(timeout, gap) <==> gap > 3 * timeout
  {
    if gap > 3 * timeout {
      forall s: State, p: Worker | AboutToPost(s, p, timeout) && UsesAreOld(s, p, gap) ensures !WouldBeRejected(s, p) {
        if WouldBeRejected(s, p) {
          var k := RejectedUse(s, p, timeout);
        }
      }
    } else {
      var s := PromptReissueRejected("wallet", timeout);
      assert UsesAreOld(s, 0, gap);
    }
  }

  // ----- runs of one worker on one wallet -----

  function OneRow(a: Address, row: Option<Row>): map<Address, Row> {
    if row.Some? then map[a := row.value] else map[]
  }

  /** Nobody holds the only wallet, `a`. */
  function Idle(a: Address, now: int, row: Option<Row>, w: Wallet): State {
    State(now, map[], OneRow(a, row), map[a := w], map[])
  }

  /** Worker 0 holds it. */
  function Held(a: Address, since: int, now: int, row: Option<Row>, w: Wallet, phase: Phase): State {
    State(now, map[a := since + 60], OneRow(a, row), map[a := w], map[0 := Hold(a, since, phase)])
  }

  function Unused(timeout: nat): Wallet {
    Wallet(timeout, EMPTY, [], [], [])
  }

  lemma FreshIsReachable(a: Address, timeout: nat)
    ensures Reachable(Idle(a, 0, None, Unused(timeout)), a)
  {
    var s := Idle(a, 0, None, Unused(timeout));
    assert Initial(s) && TimelyRun(s, [], a) && s == Exec(s, []);
  }

  lemma Wait(a: Address, now: int, row: Option<Row>, w: Wallet, d: nat) returns (s: State)
    requires Reachable(Idle(a, now, row, w), a)
    ensures Reachable(s, a) && s == Idle(a, now + d, row, w)
  {
    hide Reachable;
    s := ReachableStep(Idle(a, now, row, w), Tick(d), a);
  }

  lemma LockAndRead(a: Address, now: int, row: Option<Row>, w: Wallet, v: View) returns (s: State)
    requires Reachable(Idle(a, now, row, w), a) && v == Look(OneRow(a, row), a, now)
    ensures Reachable(s, a) && s == Held(a, now, now, row, w, HasRow(v, false))
  {
    hide Reachable, Look;
    s := ReachableStep(Idle(a, now, row, w), TryLock(0, a, Delivered), a);
    assert s == Held(a, now, now, row, w, Ready);
    s := ReachableStep(s, ReadRow(0, false), a);
  }

  /** The worker takes the wallet, reads the row and, `pause` seconds later, writes the next id `q`. */
  lemma Draw(a: Address, now: int, row: Option<Row>, w: Wallet, v: View, pause: nat, q: HighLoadQueryId)
    returns (s: State)
    requires Reachable(Idle(a, now, row, w), a) && pause < 60
    requires v == Look(OneRow(a, row), a, now) && Advance(v, false) == Ok(q)
    ensures Reachable(s, a)
    ensures s == Held(a, now, now + pause, RowWritten(w, row, q, now + pause), WithIssue(w, q, now + pause), HasId(q))
  {
    hide Reachable, Look, Advance, WithIssue;
    s := LockAndRead(a, now, row, w, v);
    s := ReachableStep(s, Tick(pause), a);
    assert s == Held(a, now, now + pause, row, w, HasRow(v, false));
    s := ReachableStep(s, WriteRow(0), a);
  }

  /** The worker posts `lag` seconds later and gives the wallet back. */
  lemma PostAndLeave(a: Address, since: int, now: int, row: Option<Row>, w: Wallet, q: HighLoadQueryId, lag: nat)
    returns (s: State)
    requires Reachable(Held(a, since, now, row, w, HasId(q)), a) && now + lag < since + 60
    ensures Reachable(s, a) && s == Idle(a, now + lag, row, WithPost(w, q, now + lag))
  {
    hide Reachable, WithPost;
    s := ReachableStep(Held(a, since, now, row, w, HasId(q)), Tick(lag), a);
    assert s == Held(a, since, now + lag, row, w, HasId(q));
    s := ReachableStep(s, Post(0), a);
    assert s == Held(a, since, now + lag, row, WithPost(w, q, now + lag), Ready);
    s := ReachableStep(s, Unlock(0, Delivered), a);
  }

  /** One whole turn; the caller names the resulting row and wallet. */
  lemma Turn(a: Address, now: int, row: Option<Row>, w: Wallet, v: View, pause: nat, lag: nat, q: HighLoadQueryId,
             row': Option<Row>, w': Wallet)
    requires Reachable(Idle(a, now, row, w), a) && pause + lag < 60
    requires v == Look(OneRow(a, row), a, now) && Advance(v, false) == Ok(q)
    requires row' == RowWritten(w, row, q, now + pause)
    requires w' == WithPost(WithIssue(w, q, now + pause), q, now + pause + lag)
    ensures Reachable(Idle(a, now + pause + lag, row', w'), a)
  {
    hide Reachable, Look, Advance, WithIssue, WithPost, RowWritten;
    var s := Draw(a, now, row, w, v, pause, q);
    s := PostAndLeave(a, now, now + pause, row', WithIssue(w, q, now + pause), q, lag);
  }

  const ZERO: HighLoadQueryId := Pair(0, 0)
  const ONE: HighLoadQueryId := Pair(0, 1)
  const TWO: HighLoadQueryId := Pair(0, 2)

  /** Id 0 is written at `t + 1` and posted a second late. */
  lemma LateZero(a: Address, t: nat) returns (w: Wallet)
    ensures w == Wallet(t, Memory({0}, {}, t + 2), [t + 1], [Issue(0, ZERO, t + 1)], [Use(0, t + 2)])
    ensures Reachable(Idle(a, t + 2, Some(Row(0, 0, 4 * t + 1)), w), a)
  {
    hide Reachable;
    FreshIsReachable(a, t);
    var s := Wait(a, 0, None, Unused(t), t + 1);
    w := Wallet(t, Memory({0}, {}, t + 2), [t + 1], [Issue(0, ZERO, t + 1)], [Use(0, t + 2)]);
    Turn(a, t + 1, None, Unused(t), MISSING, 0, 1, ZERO, Some(Row(0, 0, 4 * t + 1)), w);
  }

  /** Two timeouts later id 1 moves it to the old bucket. */
  lemma LateZeroIsOld(a: Address, t: nat) returns (w: Wallet)
    requires t > 0
    ensures w == Wallet(t, Memory({1}, {0}, 3 * t + 2), [t + 1], [Issue(0, ZERO, t + 1), Issue(0, ONE, 3 * t + 2)],
                        [Use(0, t + 2), Use(1, 3 * t + 2)])
    ensures Reachable(Idle(a, 3 * t + 2, Some(Row(0, 1, 4 * t + 1)), w), a)
  {
    hide Reachable;
    var w1 := LateZero(a, t);
    var s := Wait(a, t + 2, Some(Row(0, 0, 4 * t + 1)), w1, 2 * t);
    w := Wallet(t, Memory({1}, {0}, 3 * t + 2), [t + 1], [Issue(0, ZERO, t + 1), Issue(0, ONE, 3 * t + 2)],
                [Use(0, t + 2), Use(1, 3 * t + 2)]);
    Turn(a, 3 * t + 2, Some(Row(0, 0, 4 * t + 1)), w1, View(0, 0), 0, 0, ONE, Some(Row(0, 1, 4 * t + 1)), w);
  }

  /** For every timeout, an id 0 posted one second after its write can make the next id 0 fail. */
  lemma LateIdZeroRejected(a: Address, timeout: nat) returns (s: State)
    ensures AboutToPost(s, 0, timeout) && s.holds[0].phase.id == ZERO && WouldBeRejected(s, 0)
    ensures ZeroLagsAtMost(Target(s, 0), 1)
  {
    hide Reachable;
    var t := timeout;
    if t == 0 {
      var w := LateZero(a, 0);
      s := Draw(a, 2, Some(Row(0, 0, 1)), w, MISSING, 0, ZERO);
    } else {
      var w := LateZeroIsOld(a, t);
      var s1 := Wait(a, 3 * t + 2, Some(Row(0, 1, 4 * t + 1)), w, t);
      s := Draw(a, 4 * t + 2, Some(Row(0, 1, 4 * t + 1)), w, MISSING, 0, ZERO);
    }
  }

  /**
   * For every timeout, a run with prompt posts only in which an id is rejected exactly three timeouts after
   * its last use.
   */
  lemma PromptReissueRejected(a: Address, timeout: nat) returns (s: State)
    ensures AboutToPost(s, 0, timeout) && WouldBeRejected(s, 0)
    ensures UsesAreOld(s, 0, 3 * timeout) && Prompt(Target(s, 0))
  {
    hide Reachable;
    if timeout == 0 {
      s := InstantReissueRejected(a);
    } else {
      s := DelayedReissueRejected(a, timeout);
    }
  }

  lemma InstantReissueRejected(a: Address) returns (s: State)
    ensures AboutToPost(s, 0, 0) && WouldBeRejected(s, 0)
    ensures UsesAreOld(s, 0, 0) && Prompt(Target(s, 0))
  {
    hide Reachable;
    FreshIsReachable(a, 0);
    var w1 := Wallet(0, Memory({0}, {}, 0), [0], [Issue(0, ZERO, 0)], [Use(0, 0)]);
    Turn(a, 0, None, Unused(0), MISSING, 0, 0, ZERO, Some(Row(0, 0, 0)), w1);
    var w2 := Wallet(0, Memory({1}, {}, 1), [0], [Issue(0, ZERO, 0), Issue(0, ONE, 1)], [Use(0, 0), Use(1, 1)]);
    Turn(a, 0, Some(Row(0, 0, 0)), w1, View(0, 0), 1, 0, ONE, Some(Row(0, 1, 0)), w2);
    var w3 := Wallet(0, Memory({1, 0}, {}, 1), [0, 1], [Issue(0, ZERO, 0), Issue(0, ONE, 1), Issue(1, ZERO, 1)],
                     [Use(0, 0), Use(1, 1), Use(2, 1)]);
    Turn(a, 1, Some(Row(0, 1, 0)), w2, MISSING, 0, 0, ZERO, Some(Row(0, 0, 1)), w3);
    s := Draw(a, 1, Some(Row(0, 0, 1)), w3, View(0, 0), 0, ONE);
  }

  /** Id 0 at `t`, id 1 a second later, id 2 two timeouts after that: id 1 is still in the old bucket. */
  lemma IdOneIsOld(a: Address, t: nat) returns (w: Wallet)
    requires t > 0
    ensures w == Wallet(t, Memory({2}, {1}, 3 * t + 1), [t],
                        [Issue(0, ZERO, t), Issue(0, ONE, t + 1), Issue(0, TWO, 3 * t + 1)],
                        [Use(0, t), Use(1, t + 1), Use(2, 3 * t + 1)])
    ensures Reachable(Idle(a, 3 * t + 1, Some(Row(0, 2, 4 * t)), w), a)
  {
    hide Reachable;
    var i0, i1, i2 := Issue(0, ZERO, t), Issue(0, ONE, t + 1), Issue(0, TWO, 3 * t + 1);
    FreshIsReachable(a, t);
    var s0 := Wait(a, 0, None, Unused(t), t);
    w := Wallet(t, Memory({0}, {}, 0), [t], [i0], [Use(0, t)]);
    Turn(a, t, None, Unused(t), MISSING, 0, 0, ZERO, Some(Row(0, 0, 4 * t)), w);
    var s1 := Wait(a, t, Some(Row(0, 0, 4 * t)), w, 1);
    var w2 := Wallet(t, Memory({1}, {0}, t + 1), [t], [i0, i1], [Use(0, t), Use(1, t + 1)]);
    Turn(a, t + 1, Some(Row(0, 0, 4 * t)), w, View(0, 0), 0, 0, ONE, Some(Row(0, 1, 4 * t)), w2);
    var s2 := Wait(a, t + 1, Some(Row(0, 1, 4 * t)), w2, 2 * t);
    w := Wallet(t, Memory({2}, {1}, 3 * t + 1), [t], [i0, i1, i2], [Use(0, t), Use(1, t + 1), Use(2, 3 * t + 1)]);
    Turn(a, 3 * t + 1, Some(Row(0, 1, 4 * t)), w2, View(0, 1), 0, 0, TWO, Some(Row(0, 2, 4 * t)), w);
  }

  /** A timeout later the row has expired: the reset posts id 0, and the id 1 behind it is rejected. */
  lemma DelayedReissueRejected(a: Address, t: nat) returns (s: State)
    requires t > 0
    ensures AboutToPost(s, 0, t) && WouldBeRejected(s, 0)
    ensures UsesAreOld(s, 0, 3 * t) && Prompt(Target(s, 0))
  {
    hide Reachable;
    var w := IdOneIsOld(a, t);
    var s0 := Wait(a, 3 * t + 1, Some(Row(0, 2, 4 * t)), w, t);
    var w' := Wallet(t, Memory({2, 0}, {1}, 3 * t + 1), [t, 4 * t + 1], w.issues + [Issue(1, ZERO, 4 * t + 1)],
                     w.uses + [Use(3, 4 * t + 1)]);
    Turn(a, 4 * t + 1, Some(Row(0, 2, 4 * t)), w, MISSING, 0, 0, ZERO, Some(Row(0, 0, 7 * t + 1)), w');
    s := Draw(a, 4 * t + 1, Some(Row(0, 0, 7 * t + 1)), w', View(0, 0), 0, ONE);
  }

  // ----- overstaying -----

  /** The state in which the key of `p`, who still holds its wallet, has just expired. */
  ghost function AtExpiry(s: State, p: Worker): State
    requires p in s.holds
  {
    var a := s.holds[p].wallet;
    Do(s, Tick(if a in s.locks && s.now <= s.locks[a] then s.locks[a] - s.now else 0))
  }

  /**
   * Without the 60-second bound exclusion is lost: once any holder stays to the expiry of its key, any idle
   * worker gets in.
   */
  lemma OverstayBreaksExclusion(s: State, p: Worker, q: Worker)
    requires p in s.holds && q !in s.holds && Reachable(s, s.holds[p].wallet)
    ensures var a, s' := s.holds[p].wallet, AtExpiry(s, p);
            && s'.now == s.holds[p].since + 60
            && !Timely(s', a) && !Exclusive(Do(s', TryLock(q, a, Delivered)), a)
  {
    hide WalletOk, PhaseOk;
    ReachableInv(s, s.holds[p].wallet);
    var a := s.holds[p].wallet;
    assert HoldOk(s, s.holds[p]);
    var s1 := AtExpiry(s, p);
    assert p in s1.holds;
    var s2 := Do(s1, TryLock(q, a, Delivered));
    assert p in s2.holds && q in s2.holds && s2.holds[p].wallet == a && s2.holds[q].wallet == a;
  }

  /**
   * Worse, its late unlock deletes the key of the worker that came after it, so that a third one gets in
   * beside a holder that is itself in time.
   */
  lemma LateUnlockLetsThirdIn(s: State, p: Worker, q: Worker, r: Worker)
    requires p in s.holds && q !in s.holds && r !in s.holds && q != r && Reachable(s, s.holds[p].wallet)
    ensures var a := s.holds[p].wallet;
            var s' := Do(Do(Do(AtExpiry(s, p), TryLock(q, a, Delivered)), Unlock(p, Delivered)),
                         TryLock(r, a, Delivered));
            Timely(s', a) && q in s'.holds && r in s'.holds && s'.holds[q].wallet == a && s'.holds[r].wallet == a
  {
    hide WalletOk, PhaseOk;
    var a := s.holds[p].wallet;
    ReachableInv(s, a);
    assert HoldOk(s, s.holds[p]);
    var s1 := Do(AtExpiry(s, p), TryLock(q, a, Delivered));
    assert s1.holds == s.holds[q := Hold(a, s1.now, Ready)] && s1.now == s.locks[a];
    var s2 := Do(s1, Unlock(p, Delivered));
    assert a !in s2.locks && r !in s2.holds;
  }

  /** And with exclusion the ids go too: two overlapping holders are handed the same id at the same moment. */
  lemma OverstayDuplicatesIds(a: Address, timeout: nat)
    ensures var s := Do(Do(Do(Idle(a, 0, None, Unused(timeout)), TryLock(0, a, Delivered)), ReadRow(0, false)),
                        Tick(60));
            var s' := Do(Do(Do(Do(s, TryLock(1, a, Delivered)), ReadRow(1, false)), WriteRow(0)), WriteRow(1));
            && a in s'.wallets && |s'.wallets[a].issues| == 2
            && s'.wallets[a].issues[0].id == s'.wallets[a].issues[1].id
            && s'.wallets[a].issues[0].time == s'.wallets[a].issues[1].time
  {
  }
}
