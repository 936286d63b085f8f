/**
 * A worker that holds a wallet works as if alone: in every timely run, what becomes of its wallet is decided by
 * its own steps and the clock. So a send does the same in every interleaving.
 */
module Interleavings {
  import opened Prelude
  import opened QueryIdTable
  import opened WalletProtocol
  import Locks
  import opened Broadcaster
  import opened BroadcastRuns

  predicate IsOwn(act: Action, p: Worker) {
    act.Tick? || act.worker == p
  }

  /** The steps of `p` and the ticks of a run. */
  function Own(acts: seq<Action>, p: Worker): seq<Action> {
    if acts == [] then [] else (if IsOwn(acts[0], p) then [acts[0]] else []) + Own(acts[1..], p)
  }

  /** The two states look the same to `p`: clock, hold, wallet and row. */
  ghost predicate Agree(s: State, t: State, p: Worker) {
    && s.now == t.now && p in s.holds && p in t.holds && s.holds[p] == t.holds[p]
    && var a := s.holds[p].wallet;
       a in s.wallets && a in t.wallets && s.wallets[a] == t.wallets[a] && RowOf(s, a) == RowOf(t, a)
  }

  lemma OwnReadAgrees(s: State, t: State, p: Worker, force: bool)
    requires Agree(s, t, p)
    ensures Agree(Do(s, ReadRow(p, force)), Do(t, ReadRow(p, force)), p)
  {
  }

  /** What a write does, as its own worker sees it. */
  lemma OwnWrite(s: State, p: Worker)
    requires p in s.holds && s.holds[p].wallet in s.wallets && s.holds[p].phase.HasRow?
    ensures var h, s' := s.holds[p], Do(s, WriteRow(p));
            var a, w := h.wallet, s.wallets[h.wallet];
            && s'.now == s.now && p in s'.holds && a in s'.wallets
            && match Advance(h.phase.view, h.phase.force)
               case Err(_) => s'.holds[p] == h.(phase := Ready) && s'.wallets[a] == w && RowOf(s', a) == RowOf(s, a)
               case Ok(q) =>
                 && s'.holds[p] == h.(phase := HasId(q)) && s'.wallets[a] == WithIssue(w, q, s.now)
                 && RowOf(s', a) == RowWritten(w, RowOf(s, a), q, s.now)
  {
    hide Advance, WithIssue;
  }

  lemma OwnWriteAgrees(s: State, t: State, p: Worker)
    requires Agree(s, t, p)
    ensures Agree(Do(s, WriteRow(p)), Do(t, WriteRow(p)), p)
  {
    hide Advance, WithIssue, RowWritten, Stored;
    if s.holds[p].phase.HasRow? {
      hide Do, RowOf;
      OwnWrite(s, p);
      OwnWrite(t, p);
    }
  }

  lemma OwnPostAgrees(s: State, t: State, p: Worker)
    requires Agree(s, t, p)
    ensures Agree(Do(s, Post(p)), Do(t, Post(p)), p)
  {
    hide WithPost;
  }

  lemma OwnStepAgrees(s: State, t: State, p: Worker, act: Action)
    requires Agree(s, t, p) && IsOwn(act, p) && !act.Unlock?
    ensures Agree(Do(s, act), Do(t, act), p) && Do(s, act).holds[p].wallet == s.holds[p].wallet
  {
    hide Look, Advance, Stored, WithIssue, WithPost, Locks.KeysAfterLock;
    match act
    case ReadRow(_, force) => OwnReadAgrees(s, t, p, force);
    case WriteRow(_) => OwnWriteAgrees(s, t, p);
    case Post(_) => OwnPostAgrees(s, t, p);
    case _ =>
  }

  /** Thanks to mutual exclusion nobody else touches a held wallet or its row. */
  lemma OthersStepAgrees(s: State, p: Worker, act: Action)
    requires p in s.holds && Exclusive(s, s.holds[p].wallet) && s.holds[p].wallet in s.wallets && !IsOwn(act, p)
    ensures Agree(Do(s, act), s, p)
  {
    hide Advance, Look, WithIssue, WithPost;
  }

  lemma {:induction false} OwnStepsDecide(s: State, t: State, p: Worker, acts: seq<Action>, a: Address)
    requires Agree(s, t, p) && s.holds[p].wallet == a && Inv(s, a) && TimelyRun(s, acts, a)
    requires NoUnlock(Own(acts, p))
    ensures Agree(Exec(s, acts), Exec(t, Own(acts, p)), p)
    decreases |acts|
  {
    hide Do, WalletOk, HoldOk, RowOf;
    if acts != [] {
      var act, rest := acts[0], Own(acts[1..], p);
      StepKeepsInv(s, act, a);
      if IsOwn(act, p) {
        assert Own(acts, p)[0] == act && Own(acts, p)[1..] == rest;
        OwnStepAgrees(s, t, p, act);
        OwnStepsDecide(Do(s, act), Do(t, act), p, acts[1..], a);
      } else {
        assert Own(acts, p) == rest;
        OthersDoNotMatter(s, t, p, act);
        OwnStepsDecide(Do(s, act), t, p, acts[1..], a);
      }
    }
  }

  lemma OthersDoNotMatter(s: State, t: State, p: Worker, act: Action)
    requires Agree(s, t, p) && Exclusive(s, s.holds[p].wallet) && !IsOwn(act, p)
    ensures Agree(Do(s, act), t, p) && Do(s, act).holds[p] == s.holds[p]
  {
    hide Do;
    OthersStepAgrees(s, p, act);
  }

  // ----- ticks may be split -----

  /** A run with neighbouring ticks joined and empty ones dropped. */
  function Joined(acts: seq<Action>): seq<Action> {
    if acts == [] then []
    else
      var act, rest := acts[0], Joined(acts[1..]);
      if !act.Tick? then [act] + rest
      else if act.seconds == 0 then rest
      else if rest != [] && rest[0].Tick? then [Tick(act.seconds + rest[0].seconds)] + rest[1..]
      else [act] + rest
  }

  lemma {:induction false} JoinedDoesTheSame(s: State, acts: seq<Action>)
    ensures Exec(s, Joined(acts)) == Exec(s, acts)
    decreases |acts|
  {
    hide Do;
    if acts != [] {
      var act, rest := acts[0], Joined(acts[1..]);
      JoinedDoesTheSame(Do(s, act), acts[1..]);
      JoinFirst(s, act, rest);
    }
  }

  lemma ExecCons(s: State, x: Action, rest: seq<Action>)
    ensures Exec(s, [x] + rest) == Exec(Do(s, x), rest)
  {
    hide Do;
    assert ([x] + rest)[1..] == rest;
  }

  lemma TwoTicks(s: State, d: nat, e: nat)
    ensures Do(Do(s, Tick(d)), Tick(e)) == Do(s, Tick(d + e)) && Do(s, Tick(0)) == s
  {
  }

  lemma JoinFirst(s: State, act: Action, rest: seq<Action>)
    ensures Exec(s, [act] + rest) == Exec(Do(s, act), rest)
    ensures act.Tick? && act.seconds == 0 ==> Do(s, act) == s
    ensures act.Tick? && rest != [] && rest[0].Tick? ==>
              Exec(s, [Tick(act.seconds + rest[0].seconds)] + rest[1..]) == Exec(Do(s, act), rest)
  {
    hide Do, Exec;
    ExecCons(s, act, rest);
    if act.Tick? && rest != [] && rest[0].Tick? {
      ExecCons(s, Tick(act.seconds + rest[0].seconds), rest[1..]);
      ExecCons(Do(s, act), rest[0], rest[1..]);
      assert [rest[0]] + rest[1..] == rest;
      TwoTicks(s, act.seconds, rest[0].seconds);
    } else if act.Tick? {
      TwoTicks(s, 0, 0);
    }
  }

  // ----- a send in every interleaving -----

  /**
   * However the steps of a send are interleaved with the steps of any other workers, in every timely run the
   * wallet's row ends as the broadcaster's recursion leaves it and the ids it posts are issued in order.
   */
  lemma InterleavedSend(s: State, p: Worker, w: WalletConfig, left: Option<nat>, env: nat -> Attempt, i: nat,
                        acts: seq<Action>)
    requires Reachable(s, w.address) && TimelyRun(s, acts, w.address)
    requires CanSend(s, p) && Chronological(s.now, env, i)
    requires s.holds[p].wallet == w.address && s.wallets[w.address].timeout == w.timeout
    requires NoUnlock(Own(acts, p)) && Joined(Own(acts, p)) == Joined(SendSteps(s, p, left, env, i))
    ensures var s', sent := Exec(s, acts), Send(s.rows, w, left, env, i);
            && p in s'.holds && s'.holds[p] == s.holds[p]
            && RowOf(s', w.address) == RowOf(s.(rows := sent.rows), w.address)
            && w.address in s'.wallets && Issued(s.wallets[w.address], s'.wallets[w.address], sent.posts)
  {
    hide Exec, TimelyRun, Inv, Reachable, Send, SendSteps, Own, Joined, Issued, Chronological;
    var alone := Exec(s, SendSteps(s, p, left, env, i));
    ReachableInv(s, w.address);
    OwnStepsDecide(s, s, p, acts, w.address);
    JoinedDoesTheSame(s, Own(acts, p));
    JoinedDoesTheSame(s, SendSteps(s, p, left, env, i));
    SendIsARun(s, p, w, left, env, i);
    assert Agree(Exec(s, acts), alone, p);
  }
}
