/**
 * The (shift, bitnumber) query id of a highload wallet: a two-digit counter whose
 * low digit has radix 1023 although it is stored in 10 bits.
 */
module QueryId {
  import opened Prelude

  const MAX_SHIFT: nat := 8191
  const MAX_BITNUMBER: nat := 1022
  const BITNUMBER_RANGE: nat := 1024  // 1 << BITNUMBER_SIZE

  datatype Pair = Pair(shift: nat, bitnumber: nat)

  predicate Valid(p: Pair) {
    p.shift <= MAX_SHIFT && p.bitnumber <= MAX_BITNUMBER
  }

  /** A pair that passed the range checks of the constructor. */
  type HighLoadQueryId = p: Pair | Valid(p) witness Pair(0, 0)

  datatype IdError = InvalidShift(max: nat) | InvalidBitnumber(max: nat) | EmergencyOverload | ShiftOverflow

  function FromShiftAndBitnumber(shift: nat, bitnumber: nat): (r: Result<HighLoadQueryId, IdError>)
    ensures r.Ok? <==> Valid(Pair(shift, bitnumber))
    ensures r.Ok? ==> r.value == Pair(shift, bitnumber)
    ensures r.Err? ==> r.error == if shift > MAX_SHIFT then InvalidShift(MAX_SHIFT) else InvalidBitnumber(MAX_BITNUMBER)
  {
    if shift > MAX_SHIFT then Err(InvalidShift(MAX_SHIFT))
    else if bitnumber > MAX_BITNUMBER then Err(InvalidBitnumber(MAX_BITNUMBER))
    else Ok(Pair(shift, bitnumber))
  }

  function Successor(p: HighLoadQueryId): Result<HighLoadQueryId, IdError> {
    if p.shift == MAX_SHIFT && p.bitnumber + 1 == MAX_BITNUMBER - 1 then Err(EmergencyOverload)
    else if p.bitnumber + 1 <= MAX_BITNUMBER then FromShiftAndBitnumber(p.shift, p.bitnumber + 1)
    else if p.shift + 1 > MAX_SHIFT then Err(ShiftOverflow)
    else FromShiftAndBitnumber(p.shift + 1, 0)
  }

  predicate HasNext(p: HighLoadQueryId) {
    !(p.bitnumber >= MAX_BITNUMBER - 1 && p.shift == MAX_SHIFT)
  }

  function Id(p: HighLoadQueryId): nat {
    p.shift * BITNUMBER_RANGE + p.bitnumber
  }

  /** How many valid pairs come before `p` in lexicographic order. */
  function Rank(p: HighLoadQueryId): nat {
    p.shift * (MAX_BITNUMBER + 1) + p.bitnumber
  }

  /** The last pair that `next` can produce from below, and how many pairs precede it. */
  const LAST: HighLoadQueryId := Pair(MAX_SHIFT, MAX_BITNUMBER - 2)
  const LAST_RANK: nat := 8380413

  /** `next` counts by one in rank, and stops exactly at two pairs. */
  method Next(p: HighLoadQueryId) returns (r: Result<HighLoadQueryId, IdError>)
    ensures r == Successor(p)
    ensures r.Ok? <==> p != LAST && p != Pair(MAX_SHIFT, MAX_BITNUMBER)
    ensures r.Ok? ==> Rank(r.value) == Rank(p) + 1
    ensures p == LAST ==> r == Err(EmergencyOverload)
    ensures p == Pair(MAX_SHIFT, MAX_BITNUMBER) ==> r == Err(ShiftOverflow)
  {
    var newBitnumber := p.bitnumber + 1;
    var newShift := p.shift;
    if newShift == MAX_SHIFT && newBitnumber == MAX_BITNUMBER - 1 {
      return Err(EmergencyOverload);
    }
    if newBitnumber > MAX_BITNUMBER {
      newBitnumber := 0;
      newShift := newShift + 1;
      if newShift > MAX_SHIFT {
        return Err(ShiftOverflow);
      }
    }
    r := FromShiftAndBitnumber(newShift, newBitnumber);
  }

  lemma SuccessorRank(p: HighLoadQueryId)
    ensures Successor(p).Ok? <==> p != LAST && p != Pair(MAX_SHIFT, MAX_BITNUMBER)
    ensures Successor(p).Ok? ==> Rank(Successor(p).value) == Rank(p) + 1 && Id(p) < Id(Successor(p).value)
  {
  }

  /** The numeric id orders pairs exactly as the counter does, so it is injective, and it fits 23 bits. */
  lemma IdOrder(p: HighLoadQueryId, q: HighLoadQueryId)
    ensures Id(p) < Id(q) <==> Rank(p) < Rank(q)
    ensures Id(p) == Id(q) <==> p == q
    ensures Rank(p) == Rank(q) <==> p == q
    ensures Id(p) < 0x80_0000
    ensures Id(p) == 0 <==> p == Pair(0, 0)
  {
  }

  /** `has_next` answers for `next` everywhere except at two pairs. */
  lemma HasNextExact(p: HighLoadQueryId)
    ensures (HasNext(p) <==> Successor(p).Ok?) <==> p != LAST && p != Pair(MAX_SHIFT, MAX_BITNUMBER - 1)
    ensures HasNext(LAST) && Successor(LAST).Err?
    ensures !HasNext(Pair(MAX_SHIFT, MAX_BITNUMBER - 1)) && Successor(Pair(MAX_SHIFT, MAX_BITNUMBER - 1)).Ok?
  {
  }

  /** The id reached by calling `next` n times from (0, 0). */
  function Iterate(n: nat): Result<HighLoadQueryId, IdError> {
    if n == 0 then Ok(Pair(0, 0))
    else
      var p :- Iterate(n - 1);
      Successor(p)
  }

  /** Counting from (0, 0) visits every pair up to LAST, each at its rank, and then stops for good. */
  lemma {:induction false} IterateExhausts(n: nat)
    ensures Iterate(n).Ok? <==> n <= LAST_RANK
    ensures Iterate(n).Ok? ==> Rank(Iterate(n).value) == n
    ensures Iterate(n).Ok? && n == LAST_RANK ==> Iterate(n).value == LAST
  {
    if n > 0 {
      IterateExhausts(n - 1);
      if n - 1 <= LAST_RANK {
        var p := Iterate(n - 1).value;
        SuccessorRank(p);
        IdOrder(p, LAST);
        IdOrder(p, Pair(MAX_SHIFT, MAX_BITNUMBER));
      }
    }
    if Iterate(n).Ok? && n == LAST_RANK {
      IdOrder(Iterate(n).value, LAST);
    }
  }

  /** Every pair of rank at most LAST_RANK is reached, exactly once, so an epoch holds 8380414 ids. */
  lemma EpochIsComplete(p: HighLoadQueryId)
    ensures (exists n: nat :: Iterate(n) == Ok(p)) <==> Rank(p) <= LAST_RANK
    ensures forall n: nat :: Iterate(n) == Ok(p) ==> n == Rank(p)
  {
    forall n: nat | Iterate(n) == Ok(p) ensures n == Rank(p) && n <= LAST_RANK {
      IterateExhausts(n);
    }
    if Rank(p) <= LAST_RANK {
      IterateExhausts(Rank(p));
      IdOrder(Iterate(Rank(p)).value, p);
    }
  }
}
