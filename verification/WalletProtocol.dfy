/**
 * Any number of workers sharing wallets: the Redis lock, the query-id row and the on-chain replay
 * memory as one state machine. A worker that holds a wallet reads the row, writes the next id and
 * posts it, as often as it likes, with clock ticks and steps of other workers in between.
 */
module WalletProtocol {
  import opened Prelude
  import opened QueryId
  import opened QueryIdTable
  import opened HighloadContract
  import Locks

  type Worker = nat

  /** One id handed out: the reset it follows, the id and the moment its row was written. */
  datatype Issue = Issue(epoch: nat, id: HighLoadQueryId, time: int)

  /** One issued id accepted by the contract. */
  datatype Use = Use(issue: nat, time: int)

  /** The contract's memory and the history of one wallet; `starts` holds the time of each reset to (0, 0). */
  datatype Wallet = Wallet(timeout: nat, memory: Memory, starts: seq<int>, issues: seq<Issue>, uses: seq<Use>)

  datatype Phase = Ready | HasRow(view: View, force: bool) | HasId(id: HighLoadQueryId)

  datatype Hold = Hold(wallet: Address, since: int, phase: Phase)

  datatype State = State(
    now: int,
    locks: map<Address, int>,     // lock key -> moment it expires
    rows: map<Address, Row>,
    wallets: map<Address, Wallet>,
    holds: map<Worker, Hold>)     // workers between `acquire` and `release`

  datatype Action =
    | Tick(seconds: nat)
    | TryLock(worker: Worker, wallet: Address, reply: Delivery)
    | ReadRow(worker: Worker, force: bool)
    | WriteRow(worker: Worker)
    | Post(worker: Worker)
    | Abandon(worker: Worker)     // an error between two steps of `send_to_chain`
    | Unlock(worker: Worker, reply: Delivery)

  predicate LockFree(s: State, a: Address) {
    Locks.KeyFree(s.locks, a, s.now)
  }

  function SetPhase(s: State, p: Worker, phase: Phase): State
    requires p in s.holds
  {
    s.(holds := s.holds[p := s.holds[p].(phase := phase)])
  }

  function WithIssue(w: Wallet, q: HighLoadQueryId, now: int): Wallet {
    if Id(q) == 0 then w.(starts := w.starts + [now], issues := w.issues + [Issue(|w.starts|, q, now)])
    else w.(issues := w.issues + [Issue(if w.starts == [] then 0 else |w.starts| - 1, q, now)])
  }

  function WithPost(w: Wallet, q: HighLoadQueryId, now: int): Wallet {
    var w' := w.(memory := Process(w.memory, w.timeout, Id(q), now));
    if Rejects(w.memory, w.timeout, Id(q), now) || w.issues == [] then w'
    else w'.(uses := w.uses + [Use(|w.issues| - 1, now)])
  }

  /** One step; a step that does not apply leaves the state alone. */
  function Do(s: State, act: Action): State {
    match act
    case Tick(d) => s.(now := s.now + d)
    case TryLock(p, a, reply) =>
      if p in s.holds || a !in s.wallets then s
      else
        var s' := s.(locks := Locks.KeysAfterLock(s.locks, a, s.now, reply));
        if LockFree(s, a) && reply.Delivered? then s'.(holds := s.holds[p := Hold(a, s.now, Ready)]) else s'
    case ReadRow(p, force) =>
      if p in s.holds && s.holds[p].phase.Ready? then
        SetPhase(s, p, HasRow(Look(s.rows, s.holds[p].wallet, s.now), force))
      else s
    case WriteRow(p) =>
      if p in s.holds && s.holds[p].phase.HasRow? && s.holds[p].wallet in s.wallets then
        var a := s.holds[p].wallet;
        match Advance(s.holds[p].phase.view, s.holds[p].phase.force)
        case Err(_) => SetPhase(s, p, Ready)
        case Ok(q) =>
          SetPhase(s, p, HasId(q)).(rows := Stored(s.rows, a, q, s.wallets[a].timeout, s.now),
                                    wallets := s.wallets[a := WithIssue(s.wallets[a], q, s.now)])
      else s
    case Post(p) =>
      if p in s.holds && s.holds[p].phase.HasId? && s.holds[p].wallet in s.wallets then
        var a := s.holds[p].wallet;
        SetPhase(s, p, Ready).(wallets := s.wallets[a := WithPost(s.wallets[a], s.holds[p].phase.id, s.now)])
      else s
    case Abandon(p) => if p in s.holds then SetPhase(s, p, Ready) else s
    case Unlock(p, reply) =>
      if p !in s.holds then s
      else s.(holds := s.holds - {p}, locks := Locks.KeysAfterUnlock(s.locks, s.holds[p].wallet, reply))
  }

  function Exec(s: State, acts: seq<Action>): State
    decreases |acts|
  {
    if acts == [] then s else Exec(Do(s, acts[0]), acts[1..])
  }

  /** Whoever holds wallet `a` has held it for less than the lock's lifetime; other wallets do not matter. */
  ghost predicate Timely(s: State, a: Address) {
    forall p :: p in s.holds && s.holds[p].wallet == a ==> s.now < s.holds[p].since + Locks.LOCK_SECONDS
  }

  ghost predicate TimelyRun(s: State, acts: seq<Action>, a: Address)
    decreases |acts|
  {
    Timely(s, a) && (acts != [] ==> TimelyRun(Do(s, acts[0]), acts[1..], a))
  }

  ghost predicate Initial(s: State) {
    && 0 <= s.now && s.locks == map[] && s.rows == map[] && s.holds == map[]
    && forall a :: a in s.wallets ==> s.wallets[a] == Wallet(s.wallets[a].timeout, EMPTY, [], [], [])
  }

  // ----- the invariant -----

  ghost predicate Before(x: Issue, y: Issue) {
    x.epoch < y.epoch || (x.epoch == y.epoch && Id(x.id) < Id(y.id))
  }

  /** `t` lies in epoch `e`: not before its reset and not after the next one. */
  ghost predicate InEpoch(w: Wallet, e: nat, t: int) {
    e < |w.starts| && w.starts[e] <= t && (e + 1 < |w.starts| ==> t <= w.starts[e + 1])
  }

  /** Consecutive resets are more than three timeouts apart. */
  ghost predicate StartsOk(w: Wallet, now: int) {
    && (forall i, j :: 0 <= i < j < |w.starts| ==> w.starts[i] + 3 * w.timeout < w.starts[j])
    && (forall i :: 0 <= i < |w.starts| ==> w.starts[i] <= now)
  }

  ghost predicate IssuesOk(w: Wallet, now: int) {
    && (forall i, j :: 0 <= i < j < |w.issues| ==> Before(w.issues[i], w.issues[j]))
    && (forall i :: 0 <= i < |w.issues| ==>
          && InEpoch(w, w.issues[i].epoch, w.issues[i].time) && w.issues[i].time <= now
          && Rank(w.issues[i].id) <= LAST_RANK
          && (Id(w.issues[i].id) == 0 ==> w.issues[i].time == w.starts[w.issues[i].epoch]))
  }

  ghost predicate UseOk(w: Wallet, u: Use, now: int) {
    u.issue < |w.issues| && w.issues[u.issue].time <= u.time <= now && InEpoch(w, w.issues[u.issue].epoch, u.time)
  }

  ghost predicate RowOk(w: Wallet, row: Option<Row>) {
    match row
    case None => w.starts == [] && w.issues == []
    case Some(r) =>
      && w.starts != [] && w.issues != []
      && InRange(View(r.shift, r.bitnumber))
      && w.issues[|w.issues| - 1].epoch == |w.starts| - 1
      && w.issues[|w.issues| - 1].id == PairOf(View(r.shift, r.bitnumber))
      && r.expiresAt == w.starts[|w.starts| - 1] + 3 * w.timeout
  }

  ghost predicate Used(w: Wallet, id: nat, t: int) {
    exists k :: 0 <= k < |w.uses| && w.uses[k].time == t && w.uses[k].issue < |w.issues|
      && Id(w.issues[w.uses[k].issue].id) == id
  }

  ghost function Uses(w: Wallet): (nat, int) -> bool {
    (id: nat, t: int) => Used(w, id, t)
  }

  ghost predicate HistoryOk(w: Wallet, row: Option<Row>, now: int) {
    && StartsOk(w, now) && IssuesOk(w, now) && RowOk(w, row)
    && (forall k :: 0 <= k < |w.uses| ==> UseOk(w, w.uses[k], now))
  }

  ghost predicate MemoryOk(w: Wallet, now: int) {
    w.memory.lastCleanTime <= now && Justified(w.memory, w.timeout, Uses(w))
  }

  ghost predicate WalletOk(w: Wallet, row: Option<Row>, now: int) {
    HistoryOk(w, row, now) && MemoryOk(w, now)
  }

  /** What the holder's local variables say about the shared state nobody else may change. */
  ghost predicate PhaseOk(phase: Phase, w: Wallet, row: Option<Row>, now: int) {
    match phase
    case Ready => true
    case HasRow(v, _) =>
      if v == MISSING then row.None? || row.value.expiresAt < now
      else row.Some? && v == View(row.value.shift, row.value.bitnumber)
    case HasId(q) =>
      && row.Some? && w.issues != [] && w.issues[|w.issues| - 1].id == q
      && forall k :: 0 <= k < |w.uses| ==> w.uses[k].issue < |w.issues| - 1
  }

  function RowOf(s: State, a: Address): Option<Row> {
    if a in s.rows then Some(s.rows[a]) else None
  }

  ghost predicate Exclusive(s: State, a: Address) {
    forall p, q :: p in s.holds && q in s.holds && s.holds[p].wallet == a && s.holds[q].wallet == a ==> p == q
  }

  ghost predicate HoldOk(s: State, h: Hold) {
    && h.wallet in s.wallets
    && h.wallet in s.locks && s.locks[h.wallet] == h.since + Locks.LOCK_SECONDS
    && PhaseOk(h.phase, s.wallets[h.wallet], RowOf(s, h.wallet), s.now)
  }

  /** What holds of wallet `a`, its key, its row and its holder. */
  ghost predicate Inv(s: State, a: Address) {
    && Exclusive(s, a)
    && (forall p :: p in s.holds && s.holds[p].wallet == a ==> HoldOk(s, s.holds[p]))
    && (a in s.wallets ==> WalletOk(s.wallets[a], RowOf(s, a), s.now))
  }

  // ----- each step keeps it -----

  lemma SameUses(w: Wallet, w': Wallet)
    requires w.issues <= w'.issues && w.uses <= w'.uses
    ensures forall id: nat, t: int :: Used(w, id, t) ==> Used(w', id, t)
  {
  }

  lemma SameJustified(w: Wallet, w': Wallet)
    requires w.issues <= w'.issues && w.uses <= w'.uses
    requires w.memory == w'.memory && w.timeout == w'.timeout
    requires Justified(w.memory, w.timeout, Uses(w))
    ensures Justified(w'.memory, w'.timeout, Uses(w'))
  {
    SameUses(w, w');
    forall id | id in w.memory.queries ensures exists t: int :: Uses(w')(id, t) && w.memory.lastCleanTime <= t {
      var t: int :| Uses(w)(id, t) && w.memory.lastCleanTime <= t;
      assert Uses(w')(id, t);
    }
    forall id | id in w.memory.oldQueries
      ensures exists t: int :: Uses(w')(id, t) && w.memory.lastCleanTime <= t + 2 * w.timeout
    {
      var t: int :| Uses(w)(id, t) && w.memory.lastCleanTime <= t + 2 * w.timeout;
      assert Uses(w')(id, t);
    }
  }

  lemma ResetStarts(w: Wallet, row: Option<Row>, now: int)
    requires StartsOk(w, now) && RowOk(w, row)
    requires row.None? || row.value.expiresAt < now
    ensures StartsOk(WithIssue(w, Pair(0, 0), now), now)
  {
  }

  /** Writing id 0 over a missing or expired row opens a new epoch. */
  lemma ResetKeeps(w: Wallet, row: Option<Row>, now: int)
    requires HistoryOk(w, row, now)
    requires row.None? || row.value.expiresAt < now
    ensures HistoryOk(WithIssue(w, Pair(0, 0), now), Some(Row(0, 0, now + 3 * w.timeout)), now)
  {
    hide StartsOk;
    var w' := WithIssue(w, Pair(0, 0), now);
    ResetStarts(w, row, now);
    forall e: nat, t: int | InEpoch(w, e, t) && t <= now ensures InEpoch(w', e, t) {
    }
    forall k | 0 <= k < |w'.uses| ensures UseOk(w', w'.uses[k], now) {
      assert UseOk(w, w.uses[k], now);
    }
    assert IssuesOk(w', now);
  }

  /** The issue a larger id adds: last in order, and in the current epoch. */
  ghost predicate Follows(w: Wallet, x: Issue, now: int) {
    && (forall i :: 0 <= i < |w.issues| ==> Before(w.issues[i], x))
    && InEpoch(w, x.epoch, x.time) && x.time <= now && Rank(x.id) <= LAST_RANK && Id(x.id) != 0
  }

  lemma LargerIdFollows(w: Wallet, r: Row, q: HighLoadQueryId, now: int)
    requires StartsOk(w, now) && IssuesOk(w, now) && RowOk(w, Some(r))
    requires Id(PairOf(View(r.shift, r.bitnumber))) < Id(q) && Rank(q) <= LAST_RANK
    ensures Follows(w, Issue(|w.starts| - 1, q, now), now)
  {
    var n := |w.issues|;
    var x := Issue(|w.starts| - 1, q, now);
    forall i | 0 <= i < n ensures Before(w.issues[i], x) {
      if i < n - 1 {
        assert Before(w.issues[i], w.issues[n - 1]);
      }
    }
  }

  lemma ExtendIssues(w: Wallet, w': Wallet, x: Issue, now: int)
    requires IssuesOk(w, now) && Follows(w, x, now)
    requires w'.starts == w.starts && w'.issues == w.issues + [x]
    ensures IssuesOk(w', now)
  {
    forall i, j | 0 <= i < j < |w'.issues| ensures Before(w'.issues[i], w'.issues[j]) {
    }
  }

  /** Writing a larger id over the row extends the current epoch upwards. */
  lemma ExtendKeeps(w: Wallet, r: Row, q: HighLoadQueryId, now: int)
    requires HistoryOk(w, Some(r), now)
    requires Id(PairOf(View(r.shift, r.bitnumber))) < Id(q) && Rank(q) <= LAST_RANK
    ensures HistoryOk(WithIssue(w, q, now), Some(Row(q.shift, q.bitnumber, r.expiresAt)), now)
  {
    hide IssuesOk, Follows;
    var w' := WithIssue(w, q, now);
    LargerIdFollows(w, r, q, now);
    ExtendIssues(w, w', Issue(|w.starts| - 1, q, now), now);
    forall k | 0 <= k < |w'.uses| ensures UseOk(w', w'.uses[k], now) {
      assert UseOk(w, w.uses[k], now);
    }
  }

  /** The conditions on resets, issues and row say nothing of memory and uses. */
  lemma SameHistory(w: Wallet, w': Wallet, row: Option<Row>, now: int)
    requires w'.starts == w.starts && w'.issues == w.issues && w'.timeout == w.timeout
    ensures StartsOk(w', now) == StartsOk(w, now)
    ensures IssuesOk(w', now) == IssuesOk(w, now)
    ensures RowOk(w', row) == RowOk(w, row)
  {
  }

  /** An accepted post adds a use of the pending issue; a rejected one changes nothing. */
  lemma PostKeeps(w: Wallet, row: Option<Row>, q: HighLoadQueryId, now: int)
    requires HistoryOk(w, row, now) && PhaseOk(HasId(q), w, row, now)
    ensures HistoryOk(WithPost(w, q, now), row, now)
  {
    hide Process, Rejects, StartsOk;
    var w' := WithPost(w, q, now);
    SameHistory(w, w', row, now);
    forall k | 0 <= k < |w'.uses| ensures UseOk(w', w'.uses[k], now) {
      if k < |w.uses| {
        assert UseOk(w, w.uses[k], now);
      }
    }
  }

  lemma PostKeepsMemory(w: Wallet, q: HighLoadQueryId, now: int)
    requires MemoryOk(w, now)
    requires w.issues != [] && w.issues[|w.issues| - 1].id == q
    ensures MemoryOk(WithPost(w, q, now), now)
  {
    var w' := WithPost(w, q, now);
    var n := |w.uses|;
    SameUses(w, w');
    if !Rejects(w.memory, w.timeout, Id(q), now) {
      assert w'.uses[n].time == now && Id(w'.issues[w'.uses[n].issue].id) == Id(q);
      assert Used(w', Id(q), now);
    }
    ProcessKeepsJustified(w.memory, w.timeout, Uses(w), Uses(w'), Id(q), now);
  }

  lemma TickKeeps(s: State, d: nat, a: Address)
    requires Inv(s, a)
    ensures Inv(Do(s, Tick(d)), a)
  {
    var s' := Do(s, Tick(d));
    if a in s.wallets {
      var w := s.wallets[a];
      assert WalletOk(w, RowOf(s, a), s.now);
      forall k | 0 <= k < |w.uses| ensures UseOk(w, w.uses[k], s'.now) {
        assert UseOk(w, w.uses[k], s.now);
      }
    }
    forall p | p in s'.holds && s'.holds[p].wallet == a ensures HoldOk(s', s'.holds[p]) {
      assert HoldOk(s, s.holds[p]);
    }
  }

  /** A step that leaves wallet `a`, its key and its row alone, and gives it no new holder. */
  lemma ElsewhereKeeps(s: State, s': State, a: Address)
    requires Inv(s, a) && s'.now == s.now && RowOf(s', a) == RowOf(s, a)
    requires a in s'.wallets <==> a in s.wallets
    requires a in s.wallets ==> s'.wallets[a] == s.wallets[a]
    requires a in s.locks ==> a in s'.locks && s'.locks[a] == s.locks[a]
    requires forall p :: p in s'.holds && s'.holds[p].wallet == a ==> p in s.holds && s'.holds[p] == s.holds[p]
    ensures Inv(s', a)
  {
    hide WalletOk, PhaseOk;
    forall p | p in s'.holds && s'.holds[p].wallet == a ensures HoldOk(s', s'.holds[p]) {
      assert HoldOk(s, s.holds[p]);
    }
  }

  /** A step of the holder `p` that only touches its own wallet, its row and its phase. */
  lemma HolderStepKeeps(s: State, s': State, p: Worker, a: Address)
    requires p in s.holds && s.holds[p].wallet == a && Inv(s, a) && p in s'.holds
    requires s'.now == s.now && s'.locks == s.locks && a in s'.wallets
    requires s'.holds == s.holds[p := s.holds[p].(phase := s'.holds[p].phase)]
    requires WalletOk(s'.wallets[a], RowOf(s', a), s.now)
    requires PhaseOk(s'.holds[p].phase, s'.wallets[a], RowOf(s', a), s.now)
    ensures Inv(s', a)
  {
    hide WalletOk, PhaseOk;
    assert HoldOk(s, s.holds[p]);
  }

  /** The row after a write, seen from its own wallet. */
  function RowWritten(w: Wallet, row: Option<Row>, q: HighLoadQueryId, now: int): Option<Row> {
    if Id(q) == 0 then Some(Row(q.shift, q.bitnumber, now + 3 * w.timeout))
    else if row.Some? then Some(Row(q.shift, q.bitnumber, row.value.expiresAt))
    else None
  }

  lemma WriteKeepsWallet(w: Wallet, row: Option<Row>, v: View, force: bool, now: int)
    requires WalletOk(w, row, now) && PhaseOk(HasRow(v, force), w, row, now)
    requires Advance(v, force).Ok?
    ensures var q := Advance(v, force).value;
            var w', row' := WithIssue(w, q, now), RowWritten(w, row, q, now);
            WalletOk(w', row', now) && PhaseOk(HasId(q), w', row', now)
  {
    var q := Advance(v, force).value;
    AdvanceExact(v, force);
    IdOrder(q, Pair(0, 0));
    if v == MISSING {
      ResetKeeps(w, row, now);
    } else {
      ExtendKeeps(w, row.value, q, now);
    }
    SameJustified(w, WithIssue(w, q, now));
    forall k | 0 <= k < |w.uses| ensures w.uses[k].issue < |w.issues| {
      assert UseOk(w, w.uses[k], now);
    }
  }

  lemma ReadyIsOk(w: Wallet, row: Option<Row>, now: int)
    ensures PhaseOk(Ready, w, row, now)
  {
  }

  lemma WriteKeeps(s: State, p: Worker, a: Address)
    requires p in s.holds && s.holds[p].wallet == a && Inv(s, a) && s.holds[p].phase.HasRow?
    ensures Inv(Do(s, WriteRow(p)), a)
  {
    hide WalletOk, PhaseOk, WithIssue, Advance;
    var h := s.holds[p];
    assert HoldOk(s, h);
    if Advance(h.phase.view, h.phase.force).Ok? {
      WriteKeepsWallet(s.wallets[a], RowOf(s, a), h.phase.view, h.phase.force, s.now);
    } else {
      ReadyIsOk(s.wallets[a], RowOf(s, a), s.now);
    }
    HolderStepKeeps(s, Do(s, WriteRow(p)), p, a);
  }

  lemma ReadKeeps(s: State, p: Worker, force: bool, a: Address)
    requires p in s.holds && s.holds[p].wallet == a && Inv(s, a) && s.holds[p].phase.Ready?
    ensures Inv(Do(s, ReadRow(p, force)), a)
  {
    hide StartsOk, IssuesOk, UseOk, MemoryOk;
    assert HoldOk(s, s.holds[p]) && WalletOk(s.wallets[a], RowOf(s, a), s.now);
    HolderStepKeeps(s, Do(s, ReadRow(p, force)), p, a);
  }

  lemma PostStepKeeps(s: State, p: Worker, a: Address)
    requires p in s.holds && s.holds[p].wallet == a && Inv(s, a) && s.holds[p].phase.HasId?
    ensures Inv(Do(s, Post(p)), a)
  {
    hide HistoryOk, MemoryOk, Process, Rejects;
    var h := s.holds[p];
    assert HoldOk(s, h) && WalletOk(s.wallets[a], RowOf(s, a), s.now);
    PostKeeps(s.wallets[a], RowOf(s, a), h.phase.id, s.now);
    PostKeepsMemory(s.wallets[a], h.phase.id, s.now);
    HolderStepKeeps(s, Do(s, Post(p)), p, a);
  }

  lemma AbandonKeeps(s: State, p: Worker, a: Address)
    requires p in s.holds && s.holds[p].wallet == a && Inv(s, a)
    ensures Inv(Do(s, Abandon(p)), a)
  {
    hide WalletOk;
    assert HoldOk(s, s.holds[p]);
    HolderStepKeeps(s, Do(s, Abandon(p)), p, a);
  }

  /** The lock: while its holder is timely the key is there, so nobody else gets in. */
  lemma LockKeeps(s: State, p: Worker, a: Address, reply: Delivery)
    requires Inv(s, a) && Timely(s, a)
    ensures Inv(Do(s, TryLock(p, a, reply)), a)
  {
    hide WalletOk;
    if LockFree(s, a) {
      forall q | q in s.holds ensures s.holds[q].wallet != a {
        assert s.holds[q].wallet == a ==> HoldOk(s, s.holds[q]);
      }
    }
  }

  lemma UnlockKeeps(s: State, p: Worker, reply: Delivery, a: Address)
    requires Inv(s, a)
    ensures Inv(Do(s, Unlock(p, reply)), a)
  {
    hide WalletOk, PhaseOk;
    var s' := Do(s, Unlock(p, reply));
    if p in s.holds && s.holds[p].wallet != a {
      ElsewhereKeeps(s, s', a);
    }
  }

  /** A step of a worker that holds another wallet, or none. */
  lemma OtherWalletKeeps(s: State, act: Action, a: Address)
    requires Inv(s, a) && (act.ReadRow? || act.WriteRow? || act.Post? || act.Abandon?)
    requires act.worker in s.holds ==> s.holds[act.worker].wallet != a
    ensures Inv(Do(s, act), a)
  {
    hide Inv, Advance, WithIssue, WithPost, Look;
    ElsewhereKeeps(s, Do(s, act), a);
  }

  lemma StepKeepsInv(s: State, act: Action, a: Address)
    requires Inv(s, a) && Timely(s, a)
    ensures Inv(Do(s, act), a)
  {
    hide Inv, Timely, Advance, WithIssue, WithPost, Look;
    match act
    case Tick(d) => TickKeeps(s, d, a);
    case TryLock(p, b, reply) =>
      if b == a {
        LockKeeps(s, p, a, reply);
      } else {
        ElsewhereKeeps(s, Do(s, act), a);
      }
    case Unlock(p, reply) => UnlockKeeps(s, p, reply, a);
    case _ =>
      if act.worker in s.holds && s.holds[act.worker].wallet == a {
        HoldersOwnStepKeeps(s, act, a);
      } else {
        OtherWalletKeeps(s, act, a);
      }
  }

  lemma HoldersOwnStepKeeps(s: State, act: Action, a: Address)
    requires Inv(s, a) && (act.ReadRow? || act.WriteRow? || act.Post? || act.Abandon?)
    requires act.worker in s.holds && s.holds[act.worker].wallet == a
    ensures Inv(Do(s, act), a)
  {
    hide Inv, Advance, WithIssue, WithPost, Look;
    var p, phase := act.worker, s.holds[act.worker].phase;
    match act
    case ReadRow(_, force) =>
      if phase.Ready? {
        ReadKeeps(s, p, force, a);
      }
    case WriteRow(_) =>
      if phase.HasRow? {
        WriteKeeps(s, p, a);
      }
    case Post(_) =>
      if phase.HasId? {
        PostStepKeeps(s, p, a);
      }
    case Abandon(_) => AbandonKeeps(s, p, a);
  }

  lemma {:induction false} RunKeepsInv(s: State, acts: seq<Action>, a: Address)
    requires Inv(s, a) && TimelyRun(s, acts, a)
    ensures Inv(Exec(s, acts), a) && Timely(Exec(s, acts), a)
    decreases |acts|
  {
    if acts != [] {
      StepKeepsInv(s, acts[0], a);
      RunKeepsInv(Do(s, acts[0]), acts[1..], a);
    }
  }

  // ----- what holds in every timely run from an empty start -----

  /** Some run from an empty start leads to `s`, with wallet `a` always given back in time. */
  ghost predicate Reachable(s: State, a: Address) {
    exists s0: State, acts: seq<Action> :: Initial(s0) && TimelyRun(s0, acts, a) && s == Exec(s0, acts)
  }

  lemma {:induction false} TimelyRunAppend(s: State, acts: seq<Action>, act: Action, a: Address)
    requires TimelyRun(s, acts, a) && Timely(Do(Exec(s, acts), act), a)
    ensures TimelyRun(s, acts + [act], a) && Exec(s, acts + [act]) == Do(Exec(s, acts), act)
    decreases |acts|
  {
    var all := acts + [act];
    if acts == [] {
      assert all[1..] == [];
      assert TimelyRun(Do(s, act), [], a);
    } else {
      assert all[1..] == acts[1..] + [act];
      TimelyRunAppend(Do(s, acts[0]), acts[1..], act, a);
    }
  }

  lemma ReachableStep(s: State, act: Action, a: Address) returns (s': State)
    requires Reachable(s, a) && Timely(Do(s, act), a)
    ensures Reachable(s', a) && s' == Do(s, act)
  {
    s' := Do(s, act);
    var s0: State, acts: seq<Action> :| Initial(s0) && TimelyRun(s0, acts, a) && s == Exec(s0, acts);
    TimelyRunAppend(s0, acts, act, a);
  }

  lemma ReachableInv(s: State, a: Address)
    requires Reachable(s, a)
    ensures Inv(s, a) && Timely(s, a)
  {
    var s0: State, acts: seq<Action> :| Initial(s0) && TimelyRun(s0, acts, a) && s == Exec(s0, acts);
    RunKeepsInv(s0, acts, a);
  }

  /** A wallet always given back in time never has two holders, and its holder's key is always in place. */
  lemma MutualExclusion(s: State, p: Worker, q: Worker, a: Address)
    requires Reachable(s, a)
    requires p in s.holds && q in s.holds && s.holds[p].wallet == a && s.holds[q].wallet == a
    ensures p == q
    ensures !LockFree(s, a)
  {
    ReachableInv(s, a);
    assert HoldOk(s, s.holds[p]);
  }

  /**
   * Within an epoch ids are issued in strictly increasing order, so none repeats; across epochs time
   * separates them.
   */
  lemma IdsIncreaseWithinEpoch(s: State, a: Address, i: nat, j: nat)
    requires Reachable(s, a) && a in s.wallets
    requires i < j < |s.wallets[a].issues|
    ensures var x, y := s.wallets[a].issues[i], s.wallets[a].issues[j];
            && x.epoch <= y.epoch
            && (x.epoch == y.epoch ==> Id(x.id) < Id(y.id))
            && Rank(x.id) <= LAST_RANK
  {
    ReachableInv(s, a);
    assert WalletOk(s.wallets[a], RowOf(s, a), s.now);
    assert Before(s.wallets[a].issues[i], s.wallets[a].issues[j]);
  }

  /**
   * The stored row mirrors the history: the id issued last, never beyond LAST, expiring three timeouts
   * after the last reset.
   */
  lemma RowMirrorsHistory(s: State, a: Address)
    requires Reachable(s, a) && a in s.wallets
    ensures var w := s.wallets[a];
            && (a in s.rows <==> w.starts != [])
            && (a in s.rows ==>
                  && InRange(View(s.rows[a].shift, s.rows[a].bitnumber))
                  && w.issues != [] && w.issues[|w.issues| - 1].id == PairOf(View(s.rows[a].shift, s.rows[a].bitnumber))
                  && s.rows[a].expiresAt == w.starts[|w.starts| - 1] + 3 * w.timeout)
  {
    ReachableInv(s, a);
    assert WalletOk(s.wallets[a], RowOf(s, a), s.now);
  }

  /** Reading and then writing, `d` seconds later, is one call of the wrapper on the shared table. */
  lemma WrapperCallIsTwoSteps(s: State, p: Worker, force: bool, d: nat)
    requires p in s.holds && Inv(s, s.holds[p].wallet) && s.holds[p].phase.Ready?
    ensures var a := s.holds[p].wallet;
            var s' := Do(Do(Do(s, ReadRow(p, force)), Tick(d)), WriteRow(p));
            var c := Call(s.now, s.now + d, false, Delivered);
            && a in s.wallets && a in s'.wallets && p in s'.holds
            && s'.rows == RowsAfter(s.rows, a, s.wallets[a].timeout, force, c)
            && match Outcome(s.rows, a, force, c)
               case Err(_) => s'.holds[p].phase == Ready && s'.wallets == s.wallets
               case Ok(q) => s'.holds[p].phase == HasId(q) && s'.wallets[a] == WithIssue(s.wallets[a], q, s.now + d)
  {
    hide WalletOk, PhaseOk, Exclusive, Advance, Look, Stored, WithIssue;
    assert HoldOk(s, s.holds[p]);
  }

  /** Resets of one wallet are more than three timeouts apart. */
  lemma ResetsAreFarApart(s: State, a: Address, i: nat, j: nat)
    requires Reachable(s, a) && a in s.wallets
    requires i < j < |s.wallets[a].starts|
    ensures s.wallets[a].starts[i] + 3 * s.wallets[a].timeout < s.wallets[a].starts[j]
  {
    ReachableInv(s, a);
    assert WalletOk(s.wallets[a], RowOf(s, a), s.now);
  }

  /** `u` used the id `q` in epoch `e`. */
  ghost predicate UsedInEpoch(w: Wallet, u: Use, q: HighLoadQueryId, e: int) {
    u.issue < |w.issues| && w.issues[u.issue].id == q && w.issues[u.issue].epoch == e
  }

  /** A rejected pending id was used before, no more than three timeouts ago. */
  lemma PastUse(w: Wallet, q: HighLoadQueryId, now: int) returns (k: nat)
    requires MemoryOk(w, now) && Rejects(w.memory, w.timeout, Id(q), now)
    ensures k < |w.uses| && w.uses[k].issue < |w.issues| && w.issues[w.uses[k].issue].id == q
    ensures now <= w.uses[k].time + 3 * w.timeout
  {
    hide Rejects, Justified;
    RejectionIsRecent(w.memory, w.timeout, Uses(w), Id(q), now);
    var t: int :| Uses(w)(Id(q), t) && now <= t + 3 * w.timeout;
    assert Used(w, Id(q), t);
    k :| 0 <= k < |w.uses| && w.uses[k].time == t && w.uses[k].issue < |w.issues|
      && Id(w.issues[w.uses[k].issue].id) == Id(q);
    IdOrder(w.issues[w.uses[k].issue].id, q);
  }

  /** That use lies in the epoch just before: the current epoch has no second use, older ones are too long ago. */
  lemma PastUseIsInPreviousEpoch(w: Wallet, row: Option<Row>, q: HighLoadQueryId, now: int, k: nat)
    requires HistoryOk(w, row, now) && PhaseOk(HasId(q), w, row, now)
    requires k < |w.uses| && w.uses[k].issue < |w.issues| && w.issues[w.uses[k].issue].id == q
    requires now <= w.uses[k].time + 3 * w.timeout
    ensures UsedInEpoch(w, w.uses[k], q, |w.starts| - 2)
    ensures Id(q) == 0 ==> w.issues[w.uses[k].issue].time < w.uses[k].time
  {
  }

  /**
   * A replay rejection of a freshly issued id always goes back to a use of the same id in the
   * epoch just before, at most three timeouts ago; for id 0, to one posted later than its row was written.
   */
  lemma RejectionComesFromPreviousEpoch(s: State, p: Worker)
    requires p in s.holds && Reachable(s, s.holds[p].wallet) && s.holds[p].phase.HasId?
    requires s.holds[p].wallet in s.wallets
    requires var w := s.wallets[s.holds[p].wallet]; Rejects(w.memory, w.timeout, Id(s.holds[p].phase.id), s.now)
    ensures var w, q := s.wallets[s.holds[p].wallet], s.holds[p].phase.id;
            exists k :: 0 <= k < |w.uses|
              && UsedInEpoch(w, w.uses[k], q, |w.starts| - 2)
              && s.now <= w.uses[k].time + 3 * w.timeout
              && (Id(q) == 0 ==> w.issues[w.uses[k].issue].time < w.uses[k].time)
  {
    hide HistoryOk, MemoryOk, Rejects;
    ReachableInv(s, s.holds[p].wallet);
    var h := s.holds[p];
    assert HoldOk(s, h) && WalletOk(s.wallets[h.wallet], RowOf(s, h.wallet), s.now);
    var k := PastUse(s.wallets[h.wallet], h.phase.id, s.now);
    PastUseIsInPreviousEpoch(s.wallets[h.wallet], RowOf(s, h.wallet), h.phase.id, s.now, k);
  }

  /** Of any three issues of one id, the first and the last are more than three timeouts apart. */
  lemma AtMostTwicePerWindow(s: State, a: Address, i: nat, j: nat, k: nat)
    requires Reachable(s, a) && a in s.wallets
    requires i < j < k < |s.wallets[a].issues|
    requires var w := s.wallets[a]; w.issues[i].id == w.issues[j].id == w.issues[k].id
    ensures var w := s.wallets[a]; w.issues[i].time + 3 * w.timeout < w.issues[k].time
  {
    ReachableInv(s, a);
    var w := s.wallets[a];
    assert WalletOk(w, RowOf(s, a), s.now);
    assert Before(w.issues[i], w.issues[j]) && Before(w.issues[j], w.issues[k]);
    var ei, ek := w.issues[i].epoch, w.issues[k].epoch;
    assert w.issues[i].time <= w.starts[ei + 1] && w.starts[ei + 1] + 3 * w.timeout < w.starts[ek];
  }
}
