/** The `ton_wallet_query_id` table and the wrapper that advances one row of it. */
module QueryIdTable {
  import opened Prelude
  import opened QueryId

  datatype Row = Row(shift: int, bitnumber: int, expiresAt: int)

  /** What a select returns: the stored digits, or (-1, -1) for no live row. */
  datatype View = View(shift: int, bitnumber: int)

  const MISSING := View(-1, -1)
  const TIMEOUT_BUFFER_MULTIPLIER := 3

  datatype WrapperError = ConstructionError | NoNextQueryId | DatabaseError

  predicate Live(rows: map<Address, Row>, address: Address, now: int) {
    address in rows && rows[address].expiresAt >= now
  }

  function Look(rows: map<Address, Row>, address: Address, now: int): View {
    if Live(rows, address, now) then View(rows[address].shift, rows[address].bitnumber) else MISSING
  }

  class Table {
    var rows: map<Address, Row>

    constructor ()
      ensures rows == map[]
    {
      rows := map[];
    }

    method GetQueryId(address: Address, now: int) returns (v: View)
      ensures v == Look(rows, address, now)
      ensures address in rows && now <= rows[address].expiresAt ==>
                v == View(rows[address].shift, rows[address].bitnumber)
      ensures address !in rows || rows[address].expiresAt < now ==> v == View(-1, -1)
    {
      if address in rows && rows[address].expiresAt >= now {
        v := View(rows[address].shift, rows[address].bitnumber);
      } else {
        v := View(-1, -1);
      }
    }

    /** Never creates a row and never moves an expiry. */
    method UpdateQueryId(address: Address, shift: int, bitnumber: int)
      modifies this
      ensures rows.Keys == old(rows.Keys)
      ensures forall a :: a in rows && a != address ==> rows[a] == old(rows)[a]
      ensures address in rows ==> rows[address] == Row(shift, bitnumber, old(rows)[address].expiresAt)
    {
      if address in rows {
        rows := rows[address := rows[address].(shift := shift, bitnumber := bitnumber)];
      }
    }

    method UpsertQueryId(address: Address, shift: int, bitnumber: int, timeout: int, now: int)
      modifies this
      ensures rows == old(rows)[address := Row(shift, bitnumber, now + timeout)]
    {
      rows := rows[address := Row(shift, bitnumber, now + timeout)];
    }
  }

  /** The forced jump: one shift up, but never onto the last shift. */
  function Jumped(shift: int, force: bool): int {
    if !force then shift
    else
      var s := if shift < 0 then 1 else shift;
      if s + 1 < MAX_SHIFT then s + 1 else s
  }

  /** The id chosen after a row was read as `v`. */
  function Advance(v: View, force: bool): Result<HighLoadQueryId, WrapperError> {
    var shift := Jumped(v.shift, force);
    if shift < 0 || v.bitnumber < 0 then Ok(Pair(0, 0))
    else
      match FromShiftAndBitnumber(shift, v.bitnumber)
      case Err(_) => Err(ConstructionError)
      case Ok(p) =>
        if !HasNext(p) then Err(NoNextQueryId)
        else
          match Successor(p)
          case Err(_) => Err(ConstructionError)
          case Ok(q) => Ok(q)
  }

  /** The table after id `q` was written: only id 0 creates a row or sets an expiry. */
  function Stored(rows: map<Address, Row>, address: Address, q: HighLoadQueryId, timeout: nat,
                  now: int): map<Address, Row> {
    if Id(q) == 0 then rows[address := Row(q.shift, q.bitnumber, now + timeout * TIMEOUT_BUFFER_MULTIPLIER)]
    else if address in rows then rows[address := Row(q.shift, q.bitnumber, rows[address].expiresAt)]
    else rows
  }

  /** The two database statements of one wrapper call: when each runs and what becomes of it. */
  datatype Call = Call(readAt: int, writeAt: int, readFails: bool, write: Delivery)

  function Outcome(rows: map<Address, Row>, address: Address, force: bool,
                   c: Call): Result<HighLoadQueryId, WrapperError> {
    if c.readFails then Err(DatabaseError)
    else
      var q :- Advance(Look(rows, address, c.readAt), force);
      if c.write.Delivered? then Ok(q) else Err(DatabaseError)
  }

  function RowsAfter(rows: map<Address, Row>, address: Address, timeout: nat, force: bool, c: Call): map<Address, Row> {
    match Advance(Look(rows, address, c.readAt), force)
    case Ok(q) => if c.readFails || c.write.Refused? then rows else Stored(rows, address, q, timeout, c.writeAt)
    case Err(_) => rows
  }

  predicate InRange(v: View) {
    && 0 <= v.shift <= MAX_SHIFT
    && 0 <= v.bitnumber <= MAX_BITNUMBER
    && Rank(Pair(v.shift, v.bitnumber)) <= LAST_RANK
  }

  function PairOf(v: View): (p: HighLoadQueryId)
    requires InRange(v)
    ensures Rank(p) <= LAST_RANK && View(p.shift, p.bitnumber) == v
  {
    Pair(v.shift, v.bitnumber)
  }

  /** Every stored row is at most LAST; the table starts so and the wrapper keeps it so. */
  ghost predicate RowsInRange(rows: map<Address, Row>) {
    forall a :: a in rows ==> InRange(View(rows[a].shift, rows[a].bitnumber))
  }

  /** The part of the wrapper between its two database statements. */
  method ChooseId(v: View, force: bool) returns (r: Result<HighLoadQueryId, WrapperError>)
    ensures r == Advance(v, force)
  {
    hide Successor, HasNext;
    var shift := v.shift;
    if force {
      if shift < 0 {
        shift := 1;
      }
      if shift + 1 < MAX_SHIFT {
        shift := shift + 1;
      }
    }
    if shift < 0 || v.bitnumber < 0 {
      return Ok(Pair(0, 0));
    }
    var built := FromShiftAndBitnumber(shift, v.bitnumber);
    if built.Err? {
      return Err(ConstructionError);
    }
    if !HasNext(built.value) {
      return Err(NoNextQueryId);
    }
    var next := QueryId.Next(built.value);
    r := if next.Err? then Err(ConstructionError) else Ok(next.value);
  }

  method Next(table: Table, address: Address, timeout: nat, force: bool, c: Call)
    returns (r: Result<HighLoadQueryId, WrapperError>)
    modifies table
    ensures r == Outcome(old(table.rows), address, force, c)
    ensures table.rows == RowsAfter(old(table.rows), address, timeout, force, c)
    ensures RowsInRange(old(table.rows)) ==> RowsInRange(table.rows) && r != Err(NoNextQueryId)
  {
    hide Advance, RowsInRange;
    ghost var before := table.rows;
    if RowsInRange(before) {
      WrapperKeepsRange(before, address, timeout, force, c);
    }
    if c.readFails {
      return Err(DatabaseError);
    }
    var v := table.GetQueryId(address, c.readAt);
    var q :- ChooseId(v, force);
    if c.write.Refused? {
      return Err(DatabaseError);
    }
    if Id(q) == 0 {
      table.UpsertQueryId(address, q.shift, q.bitnumber, timeout * TIMEOUT_BUFFER_MULTIPLIER, c.writeAt);
    } else {
      table.UpdateQueryId(address, q.shift, q.bitnumber);
      assert table.rows == Stored(before, address, q, timeout, c.writeAt);
    }
    r := if c.write.ReplyLost? then Err(DatabaseError) else Ok(q);
  }

  /**
   * One call on a table in range: a missing or expired row restarts at id 0; a live row fails exactly
   * at LAST, as a construction error; otherwise the id grows, by one unforced and by a whole shift forced.
   */
  lemma AdvanceExact(v: View, force: bool)
    requires v == MISSING || InRange(v)
    ensures v == MISSING ==> Advance(v, force) == Ok(Pair(0, 0))
    ensures InRange(v) && PairOf(v) == LAST ==> Advance(v, force) == Err(ConstructionError)
    ensures InRange(v) && PairOf(v) != LAST ==>
              && Advance(v, force).Ok?
              && Id(PairOf(v)) < Id(Advance(v, force).value)
              && Rank(Advance(v, force).value) <= LAST_RANK
              && (!force ==> Rank(Advance(v, force).value) == Rank(PairOf(v)) + 1)
              && (force && v.shift <= 8189 ==>
                    v.shift < Advance(v, force).value.shift && Id(PairOf(v)) + 1025 <= Id(Advance(v, force).value))
  {
  }

  /**
   * How far one call goes: unforced one rank; forced one shift and one rank, except on the last two shifts, where
   * a forced call is an unforced one.
   */
  lemma AdvanceRank(v: View, force: bool)
    requires InRange(v) && PairOf(v) != LAST
    ensures Advance(v, force).Ok?
    ensures Rank(Advance(v, force).value) == Rank(PairOf(v)) + if force && v.shift <= 8189 then 1024 else 1
  {
  }

  /** Rows no call of the wrapper can leave behind: what is negative restarts, what is too large is an error. */
  lemma AdvanceOutOfRange(v: View, force: bool)
    ensures v.bitnumber < 0 || (v.shift < 0 && !force) ==> Advance(v, force) == Ok(Pair(0, 0))
    ensures v.shift < 0 && force && v.bitnumber >= 0 ==> Advance(v, force) == Advance(View(2, v.bitnumber), false)
    ensures v.shift > MAX_SHIFT && v.bitnumber >= 0 ==> Advance(v, force) == Err(ConstructionError)
    ensures v.shift >= 0 && v.bitnumber > MAX_BITNUMBER ==> Advance(v, force) == Err(ConstructionError)
    ensures v.shift == 8191 && 1021 <= v.bitnumber <= 1022 ==> Advance(v, force) == Err(NoNextQueryId)
  {
  }

  /** The wrapper keeps every row in range, and so never reports that there is no next id. */
  lemma WrapperKeepsRange(rows: map<Address, Row>, address: Address, timeout: nat, force: bool, c: Call)
    requires RowsInRange(rows)
    ensures RowsInRange(RowsAfter(rows, address, timeout, force, c))
    ensures Outcome(rows, address, force, c) != Err(NoNextQueryId)
  {
  }

  /** The id is 0, and so the expiry is rewritten, exactly when the row was missing or expired at the read. */
  lemma ExpiryMovesOnlyAtReset(rows: map<Address, Row>, address: Address, timeout: nat, force: bool, c: Call)
    requires RowsInRange(rows)
    requires Outcome(rows, address, force, c).Ok?
    ensures var q := Outcome(rows, address, force, c).value;
            var after := RowsAfter(rows, address, timeout, force, c);
            && address in after
            && View(after[address].shift, after[address].bitnumber) == View(q.shift, q.bitnumber)
            && (Id(q) == 0 <==> !Live(rows, address, c.readAt))
            && (Live(rows, address, c.readAt) ==> after[address].expiresAt == rows[address].expiresAt)
            && (!Live(rows, address, c.readAt) ==> after[address].expiresAt == c.writeAt + 3 * timeout)
            && RowsInRange(after)
            && forall a :: a != address ==> (a in after <==> a in rows) && (a in rows ==> after[a] == rows[a])
  {
  }

  /** A row at LAST is a dead end: no call changes the table until the row has expired. */
  lemma ExhaustedRowIsStuck(rows: map<Address, Row>, address: Address, timeout: nat, force: bool, c: Call)
    requires Live(rows, address, c.readAt)
    requires View(rows[address].shift, rows[address].bitnumber) == View(LAST.shift, LAST.bitnumber)
    ensures RowsAfter(rows, address, timeout, force, c) == rows
    ensures Outcome(rows, address, force, c) == Err(if c.readFails then DatabaseError else ConstructionError)
  {
  }

  /** The table after `n` unforced, faultless calls at the given times. */
  function AfterUnforced(rows: map<Address, Row>, address: Address, timeout: nat, at: nat -> int,
                         n: nat): map<Address, Row> {
    if n == 0 then rows
    else RowsAfter(AfterUnforced(rows, address, timeout, at, n - 1), address, timeout, false,
                   Call(at(n - 1), at(n - 1), false, Delivered))
  }

  ghost predicate AtRank(rows: map<Address, Row>, address: Address, expiry: int, rank: nat) {
    && address in rows && rows[address].expiresAt == expiry
    && InRange(View(rows[address].shift, rows[address].bitnumber))
    && Rank(PairOf(View(rows[address].shift, rows[address].bitnumber))) == rank
  }

  lemma UnforcedStep(rows: map<Address, Row>, address: Address, timeout: nat, now: int, rank: nat)
    requires address in rows && AtRank(rows, address, rows[address].expiresAt, rank) && now <= rows[address].expiresAt
    ensures var c := Call(now, now, false, Delivered);
            var r := Outcome(rows, address, false, c);
            var after := RowsAfter(rows, address, timeout, false, c);
            if rank < LAST_RANK
            then r.Ok? && Rank(r.value) == rank + 1 && AtRank(after, address, rows[address].expiresAt, rank + 1)
            else r == Err(ConstructionError) && after == rows
  {
  }

  lemma FirstCall(rows: map<Address, Row>, address: Address, timeout: nat, now: int)
    requires !Live(rows, address, now)
    ensures Outcome(rows, address, false, Call(now, now, false, Delivered)) == Ok(Pair(0, 0))
    ensures AtRank(RowsAfter(rows, address, timeout, false, Call(now, now, false, Delivered)), address,
                   now + 3 * timeout, 0)
  {
  }

  lemma {:induction false} RankAfterUnforced(rows: map<Address, Row>, address: Address, timeout: nat, at: nat -> int,
                                             n: nat)
    requires n > 0
    requires !Live(rows, address, at(0))
    requires forall k: nat :: at(0) <= at(k) <= at(0) + 3 * timeout
    ensures AtRank(AfterUnforced(rows, address, timeout, at, n), address, at(0) + 3 * timeout,
                   if n <= LAST_RANK then n - 1 else LAST_RANK)
  {
    if n == 1 {
      assert AfterUnforced(rows, address, timeout, at, 0) == rows;
      FirstCall(rows, address, timeout, at(0));
    } else {
      RankAfterUnforced(rows, address, timeout, at, n - 1);
      UnforcedStep(AfterUnforced(rows, address, timeout, at, n - 1), address, timeout, at(n - 1),
                   if n - 1 <= LAST_RANK then n - 2 else LAST_RANK);
    }
  }

  /** An unforced epoch issues the pairs of rank 0, 1, 2, ... up to LAST_RANK, then only construction errors. */
  lemma UnforcedEpoch(rows: map<Address, Row>, address: Address, timeout: nat, at: nat -> int, n: nat)
    requires !Live(rows, address, at(0))
    requires forall k: nat :: at(0) <= at(k) <= at(0) + 3 * timeout
    ensures var r := Outcome(AfterUnforced(rows, address, timeout, at, n), address, false,
                             Call(at(n), at(n), false, Delivered));
            if n <= LAST_RANK then r.Ok? && Rank(r.value) == n else r == Err(ConstructionError)
  {
    if n == 0 {
      FirstCall(rows, address, timeout, at(0));
    } else {
      RankAfterUnforced(rows, address, timeout, at, n);
      UnforcedStep(AfterUnforced(rows, address, timeout, at, n), address, timeout, at(n),
                   if n <= LAST_RANK then n - 1 else LAST_RANK);
    }
  }
}
