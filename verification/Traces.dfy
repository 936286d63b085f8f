/**
 * The `ton_traces` table, the pollers over it, and every interleaving of their database calls:
 * which traces come out, how often, and how the retry budget is spent.
 */
module Traces {
  import opened Prelude

  type TraceId = string

  const RETRY_BUDGET := 10   // column default
  const FETCH_LIMIT := 100

  /** The columns an upsert compares and replaces. */
  datatype Version = Version(isIncomplete: bool, startLt: int, endLt: int, transactions: seq<string>)

  datatype Trace = Trace(id: TraceId, version: Version)

  datatype Row = Row(version: Version, retries: int)

  type Rows = map<TraceId, Row>

  predicate Changes(rows: Rows, t: Trace) {
    t.id !in rows || rows[t.id].version != t.version
  }

  /** An insert takes the default budget; an update never touches it. */
  function Upserted(rows: Rows, t: Trace): Rows {
    if t.id !in rows then rows[t.id := Row(t.version, RETRY_BUDGET)]
    else rows[t.id := rows[t.id].(version := t.version)]
  }

  function Decreased(rows: Rows, id: TraceId): Rows {
    if id in rows then rows[id := rows[id].(retries := rows[id].retries - 1)] else rows
  }

  predicate Eligible(rows: Rows, id: TraceId) {
    id in rows && rows[id].retries > 0 && rows[id].version.isIncomplete
  }

  /** The time a row was last changed, if ever; the database supplies it. */
  type Updates = TraceId -> Option<int>

  /** Never changed comes first, then the longest unchanged. */
  predicate NotAfter(at: Updates, x: TraceId, y: TraceId) {
    at(x).None? || (at(y).Some? && at(x).value <= at(y).value)
  }

  /** Eligible rows, each once, as many as the limit allows, the ones longest unchanged, in that order. */
  ghost predicate Fetched(rows: Rows, ids: seq<TraceId>, limit: nat, at: Updates) {
    && (forall i :: 0 <= i < |ids| ==> Eligible(rows, ids[i]))
    && (forall i, j :: 0 <= i < j < |ids| ==> ids[i] != ids[j] && NotAfter(at, ids[i], ids[j]))
    && |ids| <= limit && (|ids| < limit ==> forall id :: Eligible(rows, id) ==> id in ids)
    && (forall i, id :: 0 <= i < |ids| && Eligible(rows, id) && id !in ids ==> NotAfter(at, ids[i], id))
  }

  lemma {:induction false} EarliestExists(at: Updates, ids: set<TraceId>)
    requires ids != {}
    ensures exists id :: id in ids && forall x :: x in ids ==> NotAfter(at, id, x)
  {
    var y :| y in ids;
    if ids == {y} {
      assert forall x :: x in ids ==> NotAfter(at, y, x);
    } else {
      EarliestExists(at, ids - {y});
      var z :| z in ids - {y} && forall x :: x in ids - {y} ==> NotAfter(at, z, x);
      var first := if NotAfter(at, y, z) then y else z;
      assert forall x :: x in ids ==> x == y || x in ids - {y};
      assert first in ids && forall x :: x in ids ==> NotAfter(at, first, x);
    }
  }

  class TraceTable {
    var rows: Rows

    constructor ()
      ensures rows == map[]
    {
      rows := map[];
    }

    method UpsertAndReturnIfChanged(t: Trace) returns (changed: Option<Row>)
      modifies this
      ensures rows == Upserted(old(rows), t)
      ensures changed == if Changes(old(rows), t) then Some(rows[t.id]) else None
    {
      if t.id !in rows {
        rows := rows[t.id := Row(t.version, RETRY_BUDGET)];
        return Some(rows[t.id]);
      }
      var row := rows[t.id];
      if || row.version.isIncomplete != t.version.isIncomplete || row.version.startLt != t.version.startLt
         || row.version.endLt != t.version.endLt || row.version.transactions != t.version.transactions
      {
        rows := rows[t.id := row.(version := t.version)];
        return Some(rows[t.id]);
      }
      assert rows == Upserted(rows, t);
      changed := None;
    }

    method FetchRetry(limit: nat, at: Updates) returns (ids: seq<TraceId>)
      ensures Fetched(rows, ids, limit, at)
      ensures |ids| <= limit && forall i, j :: 0 <= i < j < |ids| ==> ids[i] != ids[j]
      ensures forall id :: id in ids ==> id in rows && rows[id].retries > 0 && rows[id].version.isIncomplete
      ensures |ids| < limit ==>
                forall id :: id in rows && rows[id].retries > 0 && rows[id].version.isIncomplete ==> id in ids
      ensures forall i, j :: 0 <= i < j < |ids| && at(ids[i]).Some? ==>
                at(ids[j]).Some? && at(ids[i]).value <= at(ids[j]).value
      ensures forall id :: id in rows && id !in ids && rows[id].retries > 0 && rows[id].version.isIncomplete ==>
                forall i :: 0 <= i < |ids| && at(ids[i]).Some? ==> at(id).Some? && at(ids[i]).value <= at(id).value
    {
      ids := [];
      var left := set id | id in rows && Eligible(rows, id);
      while left != {} && |ids| < limit
        invariant forall id :: id in left ==> Eligible(rows, id)
        invariant forall i :: 0 <= i < |ids| ==> Eligible(rows, ids[i]) && ids[i] !in left
        invariant forall i, j :: 0 <= i < j < |ids| ==> ids[i] != ids[j] && NotAfter(at, ids[i], ids[j])
        invariant forall i, id :: 0 <= i < |ids| && id in left ==> NotAfter(at, ids[i], id)
        invariant forall id :: Eligible(rows, id) ==> id in ids || id in left
        invariant |ids| <= limit
        decreases |left|
      {
        EarliestExists(at, left);
        var id :| id in left && forall x :: x in left ==> NotAfter(at, id, x);
        ids, left := ids + [id], left - {id};
      }
    }

    method DecreaseRetry(id: TraceId)
      modifies this
      ensures rows == Decreased(old(rows), id)
    {
      if id in rows {
        rows := rows[id := rows[id].(retries := rows[id].retries - 1)];
      }
    }
  }

  // ----- one poll on its own -----

  /** The call a poll makes for one trace of the reply; only the retry poll spends retries. */
  function StoredBy(rows: Rows, t: Trace, retry: bool): Rows {
    if retry && t.version.isIncomplete then Decreased(rows, t.id) else Upserted(rows, t)
  }

  function AllStored(rows: Rows, ts: seq<Trace>, retry: bool): Rows {
    if ts == [] then rows else StoredBy(AllStored(rows, ts[..|ts| - 1], retry), ts[|ts| - 1], retry)
  }

  /** The traces a poll pushes: complete, and changed by their own upsert. */
  function Unseen(rows: Rows, ts: seq<Trace>, retry: bool): seq<Trace> {
    if ts == [] then []
    else
      var n, t := |ts| - 1, ts[|ts| - 1];
      Unseen(rows, ts[..n], retry)
      + if !t.version.isIncomplete && Changes(AllStored(rows, ts[..n], retry), t) then [t] else []
  }

  /** The part of a reply that a poll gets through. */
  function Processed(ts: seq<Trace>, failAt: nat): seq<Trace> {
    if failAt < |ts| then ts[..failAt] else ts
  }

  datatype PollError = ClientError | DatabaseError

  method MaxEndLt(ts: seq<Trace>) returns (maxLt: int)
    requires ts != []
    ensures exists t :: t in ts && t.version.endLt == maxLt
    ensures forall t :: t in ts ==> t.version.endLt <= maxLt
  {
    maxLt := ts[0].version.endLt;
    for i := 1 to |ts|
      invariant exists t :: t in ts && t.version.endLt == maxLt
      invariant forall j :: 0 <= j < i ==> ts[j].version.endLt <= maxLt
    {
      if ts[i].version.endLt > maxLt {
        maxLt := ts[i].version.endLt;
      }
    }
  }

  /** The account pollers' loop over the node's reply. */
  method StoreTraces(table: TraceTable, ts: seq<Trace>, failAt: nat) returns (r: Result<seq<Trace>, PollError>)
    modifies table
    ensures r == if failAt < |ts| then Err(DatabaseError) else Ok(Unseen(old(table.rows), ts, false))
    ensures table.rows == AllStored(old(table.rows), Processed(ts, failAt), false)
  {
    var unseen := [];
    for i := 0 to |ts|
      invariant i <= failAt
      invariant table.rows == AllStored(old(table.rows), ts[..i], false)
      invariant unseen == Unseen(old(table.rows), ts[..i], false)
    {
      assert ts[..i + 1][..i] == ts[..i];
      if i == failAt {
        return Err(DatabaseError);
      }
      var changed := table.UpsertAndReturnIfChanged(ts[i]);
      if changed.Some? && !ts[i].version.isIncomplete {
        unseen := unseen + [ts[i]];
      }
    }
    assert ts[..|ts|] == ts;
    r := Ok(unseen);
  }

  class TONSubscriber {
    var latestLt: int

    constructor (height: Option<int>)
      ensures latestLt == if height.Some? then height.value else -1
    {
      latestLt := if height.Some? then height.value else -1;
    }

    /**
     * `reply` is the node's answer to the query from the cursor; the upsert numbered `failAt`, if any,
     * fails and takes the whole output of the poll with it.
     */
    method PollAccount(table: TraceTable, reply: Option<int> -> Result<seq<Trace>, PollError>, failAt: nat)
      returns (r: Result<seq<Trace>, PollError>)
      modifies this, table
      ensures var answer := reply(if old(latestLt) == -1 then None else Some(old(latestLt)));
              match answer
              case Err(e) => r == Err(e) && table.rows == old(table.rows) && latestLt == old(latestLt)
              case Ok(ts) =>
                && (ts == [] ==> latestLt == old(latestLt))
                && (ts != [] ==>
                      && (exists t :: t in ts && t.version.endLt == latestLt)
                      && forall t :: t in ts ==> t.version.endLt <= latestLt)
                && r == (if failAt < |ts| then Err(DatabaseError) else Ok(Unseen(old(table.rows), ts, false)))
                && table.rows == AllStored(old(table.rows), Processed(ts, failAt), false)
    {
      var startLt := if latestLt == -1 then None else Some(latestLt);
      var ts :- reply(startLt);
      if ts != [] {
        latestLt := MaxEndLt(ts);
      }
      r := StoreTraces(table, ts, failAt);
    }
  }

  ghost predicate BudgetOk(rows: Rows) {
    forall id :: id in rows ==> 0 <= rows[id].retries <= RETRY_BUDGET
  }

  /** The reply names only requested traces, each at most once. */
  ghost predicate Answers(ts: seq<Trace>, ids: seq<TraceId>) {
    && (forall i :: 0 <= i < |ts| ==> ts[i].id in ids)
    && (forall i, j :: 0 <= i < j < |ts| ==> ts[i].id != ts[j].id)
  }

  /** A retry poll over `ts` leaves a row for `id`: there was one, or some entry is complete. */
  ghost predicate Present(rows: Rows, ts: seq<Trace>, id: TraceId) {
    id in rows || exists i :: 0 <= i < |ts| && ts[i].id == id && !ts[i].version.isIncomplete
  }

  /** The retries such a row starts with. */
  function Budget(rows: Rows, id: TraceId): int {
    if id in rows then rows[id].retries else RETRY_BUDGET
  }

  /** How many entries of `ts` find the trace still incomplete, and in the table. */
  ghost function StillIncomplete(rows: Rows, ts: seq<Trace>, id: TraceId): nat {
    if ts == [] then 0
    else
      var n := |ts| - 1;
      StillIncomplete(rows, ts[..n], id)
      + if ts[n].id == id && ts[n].version.isIncomplete && Present(rows, ts[..n], id) then 1 else 0
  }

  lemma {:induction false} RetriesExact(rows: Rows, ts: seq<Trace>, id: TraceId)
    ensures id in AllStored(rows, ts, true) <==> Present(rows, ts, id)
    ensures Present(rows, ts, id) ==>
              AllStored(rows, ts, true)[id].retries == Budget(rows, id) - StillIncomplete(rows, ts, id)
    ensures !Present(rows, ts, id) ==> StillIncomplete(rows, ts, id) == 0
  {
    if ts != [] {
      var n := |ts| - 1;
      RetriesExact(rows, ts[..n], id);
      PresentStep(rows, ts, id);
    }
  }

  lemma PresentStep(rows: Rows, ts: seq<Trace>, id: TraceId)
    requires ts != []
    ensures var n := |ts| - 1;
            Present(rows, ts, id) <==> Present(rows, ts[..n], id) || (ts[n].id == id && !ts[n].version.isIncomplete)
  {
    var n := |ts| - 1;
    assert forall i :: 0 <= i < n ==> ts[..n][i] == ts[i];
  }

  /**
   * A retry poll over any reply keeps the budget exactly if no trace is found incomplete more often than
   * it has retries.
   */
  lemma BudgetExact(rows: Rows, ts: seq<Trace>)
    requires BudgetOk(rows)
    ensures BudgetOk(AllStored(rows, ts, true))
       <==> forall id :: Present(rows, ts, id) ==> StillIncomplete(rows, ts, id) <= Budget(rows, id)
  {
    hide Present, AllStored, StillIncomplete;
    var after := AllStored(rows, ts, true);
    forall id ensures id in after <==> Present(rows, ts, id)
      ensures id in after ==> after[id].retries == Budget(rows, id) - StillIncomplete(rows, ts, id)
    {
      RetriesExact(rows, ts, id);
    }
  }

  lemma {:induction false} AtMostOnce(rows: Rows, ts: seq<Trace>, id: TraceId)
    requires forall i, j :: 0 <= i < j < |ts| ==> ts[i].id != ts[j].id
    ensures StillIncomplete(rows, ts, id) <= 1
    ensures StillIncomplete(rows, ts, id) == 1 ==> exists i :: 0 <= i < |ts| && ts[i].id == id
  {
    if ts != [] {
      var n := |ts| - 1;
      AtMostOnce(rows, ts[..n], id);
      if StillIncomplete(rows, ts[..n], id) == 1 {
        var i :| 0 <= i < n && ts[..n][i].id == id;
        assert ts[i].id == id;
      }
    }
  }

  /** In particular, a reply that names requested traces only, each at most once, keeps the budget. */
  lemma AnswersKeepBudget(rows: Rows, ids: seq<TraceId>, ts: seq<Trace>)
    requires BudgetOk(rows) && Answers(ts, ids) && forall i :: 0 <= i < |ids| ==> Eligible(rows, ids[i])
    ensures BudgetOk(AllStored(rows, ts, true))
  {
    hide Present, AllStored, StillIncomplete;
    forall id | Present(rows, ts, id) ensures StillIncomplete(rows, ts, id) <= Budget(rows, id) {
      AtMostOnce(rows, ts, id);
      if StillIncomplete(rows, ts, id) == 1 {
        var i :| 0 <= i < |ts| && ts[i].id == id;
        assert ts[i].id in ids && Eligible(rows, id);
      }
    }
    BudgetExact(rows, ts);
  }

  /**
   * The retry poll: asks again for up to 100 eligible traces, spends one retry on each that is still
   * incomplete and upserts the others. The call numbered `failAt` fails, if any.
   */
  method PollRetries(table: TraceTable, at: Updates, reply: seq<TraceId> -> Result<seq<Trace>, PollError>, failAt: nat)
    returns (r: Result<seq<Trace>, PollError>)
    modifies table
    ensures exists ids: seq<TraceId> ::
              && Fetched(old(table.rows), ids, 100, at)
              && if ids == [] then r == Ok([]) && table.rows == old(table.rows)
                 else if reply(ids).Err? then r == Err(reply(ids).error) && table.rows == old(table.rows)
                 else
                   var ts := reply(ids).value;
                   && r == (if failAt < |ts| then Err(DatabaseError) else Ok(Unseen(old(table.rows), ts, true)))
                   && table.rows == AllStored(old(table.rows), Processed(ts, failAt), true)
                   && (BudgetOk(old(table.rows)) && Answers(ts, ids) ==> BudgetOk(table.rows))
  {
    hide BudgetOk, AllStored, Unseen;
    var ids := table.FetchRetry(FETCH_LIMIT, at);
    assert Fetched(old(table.rows), ids, FETCH_LIMIT, at);
    if ids == [] {
      return Ok([]);
    }
    var ts :- reply(ids);
    r := ProcessReply(table, ts, failAt);
    if BudgetOk(old(table.rows)) && Answers(ts, ids) {
      AnswersKeepBudget(old(table.rows), ids, Processed(ts, failAt));
    }
  }

  /** The loop over the node's reply. */
  method ProcessReply(table: TraceTable, ts: seq<Trace>, failAt: nat) returns (r: Result<seq<Trace>, PollError>)
    modifies table
    ensures r == if failAt < |ts| then Err(DatabaseError) else Ok(Unseen(old(table.rows), ts, true))
    ensures table.rows == AllStored(old(table.rows), Processed(ts, failAt), true)
  {
    var unseen := [];
    for i := 0 to |ts|
      invariant i <= failAt
      invariant table.rows == AllStored(old(table.rows), ts[..i], true)
      invariant unseen == Unseen(old(table.rows), ts[..i], true)
    {
      assert ts[..i + 1][..i] == ts[..i];
      if i == failAt {
        return Err(DatabaseError);
      }
      if ts[i].version.isIncomplete {
        table.DecreaseRetry(ts[i].id);
      } else {
        var changed := table.UpsertAndReturnIfChanged(ts[i]);
        if changed.Some? {
          unseen := unseen + [ts[i]];
        }
      }
    }
    assert ts[..|ts|] == ts;
    r := Ok(unseen);
  }

  // ----- every interleaving -----

  type Poll = nat

  /** A trace pushed by a poll. */
  datatype Entry = Entry(poll: Poll, trace: Trace)

  /**
   * `pending` are traces pushed by polls still running, `output` those of finished polls and `lost` those
   * of polls cut short by a failed call. `asked` are the traces of the retry poller's current round and
   * `named` those the reply has shown still incomplete. `applied` and `spent` log all upserts and decrements.
   */
  datatype State = State(
    rows: Rows, pending: seq<Entry>, output: seq<Entry>, lost: seq<Entry>,
    asked: set<TraceId>, named: multiset<TraceId>, applied: seq<Trace>, spent: seq<TraceId>)

  datatype Action =
    | Apply(poll: Poll, trace: Trace)   // an upsert, by any poller
    | Finish(poll: Poll)
    | Fail(poll: Poll)
    | Ask(ids: set<TraceId>)            // the one retry poller starts a round
    | Spend(id: TraceId)                // and the reply names a trace still incomplete

  function OfPoll(es: seq<Entry>, poll: Poll, mine: bool): seq<Entry> {
    if es == [] then []
    else OfPoll(es[..|es| - 1], poll, mine) + if (es[|es| - 1].poll == poll) == mine then [es[|es| - 1]] else []
  }

  function Do(s: State, act: Action): State {
    match act
    case Apply(poll, t) =>
      s.(rows := Upserted(s.rows, t), applied := s.applied + [t],
         pending := s.pending + if Changes(s.rows, t) && !t.version.isIncomplete then [Entry(poll, t)] else [])
    case Finish(poll) =>
      s.(pending := OfPoll(s.pending, poll, false), output := s.output + OfPoll(s.pending, poll, true))
    case Fail(poll) => s.(pending := OfPoll(s.pending, poll, false), lost := s.lost + OfPoll(s.pending, poll, true))
    case Ask(ids) => if forall id :: id in ids ==>
        Eligible(s.rows, id) then s.(asked := ids, named := multiset{}) else s
    case Spend(id) =>
      s.(rows := Decreased(s.rows, id), named := s.named + multiset{id},
         spent := s.spent + if id in s.rows then [id] else [])
  }

  function Exec(acts: seq<Action>): State {
    if acts == [] then State(map[], [], [], [], {}, multiset{}, [], [])
      else Do(Exec(acts[..|acts| - 1]), acts[|acts| - 1])
  }

  function Count(es: seq<Entry>, id: TraceId): nat {
    if es == [] then 0 else Count(es[..|es| - 1], id) + if es[|es| - 1].trace.id == id then 1 else 0
  }

  function Versions(ts: seq<Trace>, id: TraceId): seq<Version> {
    if ts == [] then [] else Versions(ts[..|ts| - 1], id) + if ts[|ts| - 1].id == id then [ts[|ts| - 1].version] else []
  }

  /** How often a complete version follows a different one, or comes first. */
  function CompleteChanges(vs: seq<Version>): nat {
    if vs == [] then 0
    else
      var n := |vs| - 1;
      CompleteChanges(vs[..n]) + if !vs[n].isIncomplete && (n == 0 || vs[n - 1] != vs[n]) then 1 else 0
  }

  function Spent(ids: seq<TraceId>, id: TraceId): nat {
    if ids == [] then 0 else Spent(ids[..|ids| - 1], id) + if ids[|ids| - 1] == id then 1 else 0
  }

  lemma {:induction false} CountAppend(xs: seq<Entry>, ys: seq<Entry>, id: TraceId)
    ensures Count(xs + ys, id) == Count(xs, id) + Count(ys, id)
    decreases |ys|
  {
    if ys == [] {
      assert xs + ys == xs;
    } else {
      assert (xs + ys)[..|xs + ys| - 1] == xs + ys[..|ys| - 1];
      CountAppend(xs, ys[..|ys| - 1], id);
    }
  }

  lemma {:induction false} CountSplit(es: seq<Entry>, poll: Poll, id: TraceId)
    ensures Count(OfPoll(es, poll, true), id) + Count(OfPoll(es, poll, false), id) == Count(es, id)
  {
    if es != [] {
      var n := |es| - 1;
      CountSplit(es[..n], poll, id);
      var e, mine, others := es[n], OfPoll(es[..n], poll, true), OfPoll(es[..n], poll, false);
      assert [e][..0] == [];
      if e.poll == poll {
        assert OfPoll(es, poll, true) == mine + [e] && OfPoll(es, poll, false) == others;
        CountAppend(mine, [e], id);
      } else {
        assert OfPoll(es, poll, true) == mine && OfPoll(es, poll, false) == others + [e];
        CountAppend(others, [e], id);
      }
    }
  }

  /** The row always holds the version applied last. */
  ghost predicate RowFollows(s: State, id: TraceId) {
    var vs := Versions(s.applied, id);
    && (id in s.rows <==> vs != [])
    && (id in s.rows ==> s.rows[id].version == vs[|vs| - 1])
  }

  ghost predicate Inv(s: State, id: TraceId) {
    && RowFollows(s, id)
    && Count(s.output, id) + Count(s.pending, id) + Count(s.lost, id) == CompleteChanges(Versions(s.applied, id))
    && (id in s.rows ==> s.rows[id].retries + Spent(s.spent, id) == RETRY_BUDGET)
    && (id !in s.rows ==> Spent(s.spent, id) == 0)
  }

  lemma OneMore(ts: seq<Trace>, t: Trace, vs: seq<Version>, es: seq<Entry>, e: Entry, id: TraceId)
    ensures Versions(ts + [t], id) == Versions(ts, id) + if t.id == id then [t.version] else []
    ensures CompleteChanges(vs + [t.version])
            == CompleteChanges(vs) + if !t.version.isIncomplete && (vs == [] || vs[|vs| - 1] != t.version) then 1 else 0
    ensures Count(es + [e], id) == Count(es, id) + if e.trace.id == id then 1 else 0
  {
    assert (ts + [t])[..|ts|] == ts && (vs + [t.version])[..|vs|] == vs && (es + [e])[..|es|] == es;
  }

  lemma ApplyKeeps(s: State, poll: Poll, t: Trace, id: TraceId)
    requires Inv(s, id)
    ensures Inv(Do(s, Apply(poll, t)), id)
  {
    hide Versions, CompleteChanges, Count;
    OneMore(s.applied, t, Versions(s.applied, id), s.pending, Entry(poll, t), id);
    assert s.pending + [] == s.pending && Versions(s.applied, id) + [] == Versions(s.applied, id);
  }

  lemma StepKeeps(s: State, act: Action, id: TraceId)
    requires Inv(s, id)
    ensures Inv(Do(s, act), id)
  {
    hide CompleteChanges, Versions, OfPoll, Count;
    match act
    case Apply(poll, t) => ApplyKeeps(s, poll, t, id);
    case Finish(poll) =>
      CountSplit(s.pending, poll, id);
      CountAppend(s.output, OfPoll(s.pending, poll, true), id);
    case Fail(poll) =>
      CountSplit(s.pending, poll, id);
      CountAppend(s.lost, OfPoll(s.pending, poll, true), id);
    case Ask(ids) =>
    case Spend(x) =>
      assert (s.spent + [x])[..|s.spent|] == s.spent && s.spent + [] == s.spent;
  }

  lemma {:induction false} RunKeeps(acts: seq<Action>, id: TraceId)
    ensures Inv(Exec(acts), id)
  {
    if acts != [] {
      RunKeeps(acts[..|acts| - 1], id);
      StepKeeps(Exec(acts[..|acts| - 1]), acts[|acts| - 1], id);
    }
  }

  /**
   * In every interleaving, a trace is pushed exactly once per complete version that differs from the one
   * applied before it.
   */
  lemma PushedOncePerCompleteChange(acts: seq<Action>, id: TraceId)
    ensures var s := Exec(acts);
            Count(s.output, id) + Count(s.pending, id) + Count(s.lost, id) == CompleteChanges(Versions(s.applied, id))
  {
    RunKeeps(acts, id);
  }

  lemma {:induction false} SettledChanges(vs: seq<Version>, k: nat, v: Version)
    requires k <= |vs| && !v.isIncomplete
    requires forall i :: 0 <= i < k ==> vs[i].isIncomplete
    requires forall i :: k <= i < |vs| ==> vs[i] == v
    ensures CompleteChanges(vs) == if k < |vs| then 1 else 0
  {
    if vs != [] {
      var n := |vs| - 1;
      SettledChanges(vs[..n], if k <= n then k else n, v);
    }
  }

  /**
   * A trace seen incomplete k times and then only in one complete version is output at most once by all
   * pollers together, and exactly once if that version was applied, every poll has finished and none lost it.
   */
  lemma OutputAtMostOnce(acts: seq<Action>, id: TraceId, k: nat, v: Version)
    requires var vs := Versions(Exec(acts).applied, id);
             && k <= |vs| && !v.isIncomplete
             && (forall i :: 0 <= i < k ==> vs[i].isIncomplete)
             && (forall i :: k <= i < |vs| ==> vs[i] == v)
    ensures Count(Exec(acts).output, id) <= 1
    ensures k < |Versions(Exec(acts).applied, id)| && Exec(acts).pending == [] && Exec(acts).lost == [] ==>
              Count(Exec(acts).output, id) == 1
  {
    RunKeeps(acts, id);
    SettledChanges(Versions(Exec(acts).applied, id), k, v);
  }

  // ----- the retry budget -----

  /** The budget is spent and never refilled: in every run what is left and what was spent add up to 10. */
  lemma BudgetIsConserved(acts: seq<Action>, id: TraceId)
    ensures var s := Exec(acts);
            && (id in s.rows ==> s.rows[id].retries + Spent(s.spent, id) == RETRY_BUDGET)
            && (id !in s.rows ==> Spent(s.spent, id) == 0)
  {
    RunKeeps(acts, id);
  }

  /** Every reply in the run names only traces asked for, each at most `m` times as still incomplete. */
  ghost predicate NamesAtMost(acts: seq<Action>, m: nat) {
    acts != [] ==>
      var n := |acts| - 1;
      && NamesAtMost(acts[..n], m)
      && (acts[n].Spend? ==> acts[n].id in Exec(acts[..n]).asked && Exec(acts[..n]).named[acts[n].id] < m)
  }

  /** A trace asked for and not yet named has a retry left. */
  ghost predicate Affordable(s: State, id: TraceId) {
    && (id in s.asked ==> id in s.rows)
    && (id in s.rows ==> s.rows[id].retries >= 0)
    && (id in s.asked && s.named[id] == 0 ==> s.rows[id].retries > 0)
  }

  lemma {:induction false} NamedOnceIsAffordable(acts: seq<Action>, id: TraceId)
    requires NamesAtMost(acts, 1)
    ensures Affordable(Exec(acts), id)
  {
    if acts != [] {
      NamedOnceIsAffordable(acts[..|acts| - 1], id);
    }
  }

  /** Named once per round, a trace is found incomplete at most 10 times, and its budget stays between 0 and 10. */
  lemma NamedOnceKeepsBudget(acts: seq<Action>, id: TraceId)
    requires NamesAtMost(acts, 1)
    ensures var s := Exec(acts);
            Spent(s.spent, id) <= RETRY_BUDGET && (id in s.rows ==> 0 <= s.rows[id].retries <= RETRY_BUDGET)
  {
    hide Exec;
    BudgetIsConserved(acts, id);
    NamedOnceIsAffordable(acts, id);
  }

  /** In all runs whose replies name a trace at most `m` times per round, no budget goes below zero. */
  ghost predicate BudgetSafe(m: nat) {
    forall acts: seq<Action>, id: TraceId ::
      NamesAtMost(acts, m) && id in Exec(acts).rows ==> Exec(acts).rows[id].retries >= 0
  }

  /** One is the most a reply may repeat itself. */
  lemma BudgetSafeExact(m: nat)
    ensures BudgetSafe(m) <==> m <= 1
  {
    hide Exec;
    if m <= 1 {
      forall acts: seq<Action>, id: TraceId | NamesAtMost(acts, m) && id in Exec(acts).rows
        ensures Exec(acts).rows[id].retries >= 0
      {
        NamesAtMostGrows(acts, m, 1);
        NamedOnceKeepsBudget(acts, id);
      }
    } else {
      NamedTwiceOverspends();
      NamesAtMostGrows(OVERSPENDING, 2, m);
    }
  }

  lemma {:induction false} NamesAtMostGrows(acts: seq<Action>, m: nat, n: nat)
    requires NamesAtMost(acts, m) && m <= n
    ensures NamesAtMost(acts, n)
  {
    hide Exec;
    if acts != [] {
      NamesAtMostGrows(acts[..|acts| - 1], m, n);
    }
  }

  const STUCK := Trace("t", Version(true, 0, 0, []))

  /** One incomplete trace, and `k` rounds that find it still incomplete. */
  function Rounds(k: nat): seq<Action> {
    if k == 0 then [Apply(0, STUCK)] else Rounds(k - 1) + [Ask({"t"})] + [Spend("t")]
  }

  /** Nine rounds, and a tenth whose reply names the trace twice. */
  const OVERSPENDING := Rounds(9) + [Ask({"t"})] + [Spend("t")] + [Spend("t")]

  lemma OneMoreStep(acts: seq<Action>, act: Action, m: nat)
    requires NamesAtMost(acts, m)
    requires act.Spend? ==> act.id in Exec(acts).asked && Exec(acts).named[act.id] < m
    ensures NamesAtMost(acts + [act], m) && Exec(acts + [act]) == Do(Exec(acts), act)
  {
    assert (acts + [act])[..|acts|] == acts;
  }

  lemma OneMoreRound(acts: seq<Action>, retries: nat)
    requires NamesAtMost(acts, 2) && retries > 0 && Exec(acts).rows == map["t" := Row(STUCK.version, retries)]
    ensures var round := acts + [Ask({"t"})] + [Spend("t")];
            && NamesAtMost(round, 2) && Exec(round).rows == map["t" := Row(STUCK.version, retries - 1)]
            && Exec(round).asked == {"t"} && Exec(round).named == multiset{"t"}
  {
    hide Exec;
    OneMoreStep(acts, Ask({"t"}), 2);
    OneMoreStep(acts + [Ask({"t"})], Spend("t"), 2);
  }

  lemma {:induction false} AfterRounds(k: nat)
    requires k < RETRY_BUDGET
    ensures NamesAtMost(Rounds(k), 2) && Exec(Rounds(k)).rows == map["t" := Row(STUCK.version, RETRY_BUDGET - k)]
  {
    hide Exec;
    if k == 0 {
      FirstApply();
    } else {
      AfterRounds(k - 1);
      OneMoreRound(Rounds(k - 1), RETRY_BUDGET - (k - 1));
    }
  }

  lemma FirstApply()
    ensures NamesAtMost([Apply(0, STUCK)], 2)
    ensures Exec([Apply(0, STUCK)]).rows == map["t" := Row(STUCK.version, RETRY_BUDGET)]
  {
    assert [Apply(0, STUCK)] == [] + [Apply(0, STUCK)];
    OneMoreStep([], Apply(0, STUCK), 2);
  }

  /** A reply that names a trace twice can take its last retry and one more. */
  lemma NamedTwiceOverspends()
    ensures NamesAtMost(OVERSPENDING, 2)
    ensures "t" in Exec(OVERSPENDING).rows && Exec(OVERSPENDING).rows["t"].retries == -1
  {
    hide Exec, Rounds;
    AfterRounds(9);
    OneMoreRound(Rounds(9), 1);
    OneMoreStep(Rounds(9) + [Ask({"t"})] + [Spend("t")], Spend("t"), 2);
  }

  // ----- a poll that nobody interrupts is one of these runs -----

  function CallFor(poll: Poll, t: Trace, retry: bool): Action {
    if retry && t.version.isIncomplete then Spend(t.id) else Apply(poll, t)
  }

  /** The state after the database calls of one poll, in order and undisturbed. */
  function AfterCalls(s: State, poll: Poll, ts: seq<Trace>, retry: bool): State {
    if ts == [] then s else Do(AfterCalls(s, poll, ts[..|ts| - 1], retry), CallFor(poll, ts[|ts| - 1], retry))
  }

  function Entries(poll: Poll, ts: seq<Trace>): seq<Entry> {
    if ts == [] then [] else Entries(poll, ts[..|ts| - 1]) + [Entry(poll, ts[|ts| - 1])]
  }

  lemma CallStep(s: State, poll: Poll, t: Trace, retry: bool, pushed: seq<Trace>)
    requires OfPoll(s.pending, poll, true) == Entries(poll, pushed)
    ensures var s' := Do(s, CallFor(poll, t, retry));
            && s'.rows == StoredBy(s.rows, t, retry) && s'.output == s.output
            && OfPoll(s'.pending, poll, true)
               == Entries(poll, pushed + if !t.version.isIncomplete && Changes(s.rows, t) then [t] else [])
  {
    assert (s.pending + [Entry(poll, t)])[..|s.pending|] == s.pending && s.pending + [] == s.pending;
    assert (pushed + [t])[..|pushed|] == pushed && pushed + [] == pushed;
  }

  lemma {:induction false} CallsOfOnePoll(s: State, poll: Poll, ts: seq<Trace>, retry: bool)
    requires OfPoll(s.pending, poll, true) == []
    ensures var s' := AfterCalls(s, poll, ts, retry);
            && s'.rows == AllStored(s.rows, ts, retry) && s'.output == s.output
            && OfPoll(s'.pending, poll, true) == Entries(poll, Unseen(s.rows, ts, retry))
  {
    if ts != [] {
      hide Do, OfPoll, Entries, StoredBy, CallFor;
      var n, t := |ts| - 1, ts[|ts| - 1];
      CallsOfOnePoll(s, poll, ts[..n], retry);
      CallStep(AfterCalls(s, poll, ts[..n], retry), poll, t, retry, Unseen(s.rows, ts[..n], retry));
    }
  }

  /** How a poll ends: finished, it has output exactly what it pushed; cut short, nothing. */
  lemma {:induction false} PollEnds(s: State, poll: Poll)
    ensures Do(s, Finish(poll)).output == s.output + OfPoll(s.pending, poll, true)
    ensures Do(s, Fail(poll)).output == s.output
    ensures OfPoll(Do(s, Finish(poll)).pending, poll, true) == []
    ensures OfPoll(Do(s, Fail(poll)).pending, poll, true) == []
    ensures Do(s, Finish(poll)).rows == s.rows && Do(s, Fail(poll)).rows == s.rows
  {
    NothingOfItsOwn(s.pending, poll);
  }

  lemma {:induction false} NothingOfItsOwn(es: seq<Entry>, poll: Poll)
    ensures OfPoll(OfPoll(es, poll, false), poll, true) == []
  {
    if es != [] {
      var n := |es| - 1;
      NothingOfItsOwn(es[..n], poll);
      var rest := OfPoll(es[..n], poll, false);
      if es[n].poll != poll {
        assert OfPoll(es, poll, false) == rest + [es[n]] && (rest + [es[n]])[..|rest|] == rest;
      } else {
        assert OfPoll(es, poll, false) == rest;
      }
    }
  }

  /**
   * What the poll methods return and store is what the corresponding steps output and store: all they pushed if
   * the poll finishes, nothing if a call fails.
   */
  lemma UninterruptedPoll(s: State, poll: Poll, ts: seq<Trace>, failAt: nat, retry: bool)
    requires OfPoll(s.pending, poll, true) == []
    ensures var s' := Do(AfterCalls(s, poll, Processed(ts, failAt), retry), if failAt < |ts| then Fail(poll)
                         else Finish(poll));
            && s'.rows == AllStored(s.rows, Processed(ts, failAt), retry) && OfPoll(s'.pending, poll, true) == []
            && s'.output == s.output + if failAt < |ts| then [] else Entries(poll, Unseen(s.rows, ts, retry))
  {
    hide Do, OfPoll, Entries, Unseen, AllStored, AfterCalls;
    CallsOfOnePoll(s, poll, Processed(ts, failAt), retry);
    PollEnds(AfterCalls(s, poll, Processed(ts, failAt), retry), poll);
    assert s.output + [] == s.output;
  }
}
