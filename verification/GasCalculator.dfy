/** What a trace cost the configured addresses. */
module GasCalculator {
  import opened Prelude

  /** A decimal field of the node's reply: absent, unreadable, or a number. */
  datatype Text = Number(n: int) | Malformed

  function Parsed(t: Option<Text>): int {
    if t.Some? && t.value.Number? then t.value.n else 0
  }

  datatype Message = Message(destination: Option<Address>, value: Option<Text>, fwdFee: Option<Text>)

  datatype Transaction = Transaction(account: Address, totalFees: nat, outMsgs: seq<Message>)

  function AddressSet(addresses: seq<Address>): set<Address> {
    set a | a in addresses
  }

  // ----- the flow formula: our fees, plus value leaving the set, minus value entering it -----

  function MessageFlow(ours: set<Address>, account: Address, m: Message): int {
    (if account in ours then Parsed(m.fwdFee) else 0)
    + if m.destination.None? then 0
      else if account in ours && m.destination.value !in ours then Parsed(m.value)
      else if account !in ours && m.destination.value in ours then -Parsed(m.value)
      else 0
  }

  function MessagesFlow(ours: set<Address>, account: Address, ms: seq<Message>): int {
    if ms == [] then 0
    else MessagesFlow(ours, account, ms[..|ms| - 1]) + MessageFlow(ours, account, ms[|ms| - 1])
  }

  function TransactionFlow(ours: set<Address>, tx: Transaction): int {
    (if tx.account in ours then tx.totalFees else 0) + MessagesFlow(ours, tx.account, tx.outMsgs)
  }

  function Flow(ours: set<Address>, txs: seq<Transaction>): int {
    if txs == [] then 0
    else Flow(ours, txs[..|txs| - 1]) + TransactionFlow(ours, txs[|txs| - 1])
  }

  // ----- the loop -----

  ghost function Sum(balances: map<Address, int>): int
    decreases |balances|
  {
    if balances == map[] then 0
    else
      var a :| a in balances;
      balances[a] + Sum(balances - {a})
  }

  /** The sum does not depend on which key is taken first. */
  lemma {:induction false} SumRemove(balances: map<Address, int>, a: Address)
    requires a in balances
    ensures Sum(balances) == balances[a] + Sum(balances - {a})
    decreases |balances|
  {
    var b :| b in balances && Sum(balances) == balances[b] + Sum(balances - {b});
    if a != b {
      SumRemove(balances - {b}, a);
      SumRemove(balances - {a}, b);
      assert (balances - {b}) - {a} == (balances - {a}) - {b};
    }
  }

  lemma SumAdd(balances: map<Address, int>, a: Address, cost: int)
    requires a in balances
    ensures Sum(balances[a := balances[a] + cost]) == Sum(balances) + cost
  {
    var after := balances[a := balances[a] + cost];
    SumRemove(balances, a);
    SumRemove(after, a);
    assert after - {a} == balances - {a};
  }

  lemma {:induction false} SumZero(balances: map<Address, int>)
    requires forall a :: a in balances ==> balances[a] == 0
    ensures Sum(balances) == 0
    decreases |balances|
  {
    if balances != map[] {
      var a :| a in balances;
      SumRemove(balances, a);
      SumZero(balances - {a});
    }
  }

  /** Adds `cost` to an entry; on a key that is there the key set stays and the sum moves by `cost`. */
  method AddCost(balances: map<Address, int>, account: Address, cost: int) returns (after: map<Address, int>)
    ensures account in balances ==> after.Keys == balances.Keys && Sum(after) == Sum(balances) + cost
    ensures after == balances[account := (if account in balances then balances[account] else 0) + cost]
  {
    after := balances;
    if account !in after {
      after := after[account := 0];
    }
    after := after[account := after[account] + cost];
    if account in balances {
      SumAdd(balances, account, cost);
    }
  }

  /** One out-message: the forward fee, and value crossing the border of the set. */
  method AddMessage(balances: map<Address, int>, account: Address, msg: Message) returns (after: map<Address, int>)
    ensures after.Keys == balances.Keys
    ensures Sum(after) == Sum(balances) + MessageFlow(balances.Keys, account, msg)
  {
    hide Sum;
    after := balances;
    if account in after {
      after := AddCost(after, account, Parsed(msg.fwdFee));
    }
    if msg.destination.Some? {
      var dest, value := msg.destination.value, Parsed(msg.value);
      if account in after && dest !in after {
        after := AddCost(after, account, value);
      }
      if account !in after && dest in after {
        after := AddCost(after, dest, 0 - value);
      }
    }
  }

  /** The map-updating loops compute the flow formula; they never add a key. */
  method Cost(ourAddresses: seq<Address>, txs: seq<Transaction>) returns (total: int)
    ensures total == Flow(AddressSet(ourAddresses), txs)
  {
    ghost var ours := AddressSet(ourAddresses);
    var balances: map<Address, int> := map a | a in ourAddresses :: 0;
    SumZero(balances);
    for i := 0 to |txs|
      invariant balances.Keys == ours
      invariant Sum(balances) == Flow(ours, txs[..i])
    {
      var tx := txs[i];
      assert txs[..i + 1][..i] == txs[..i];
      if tx.account in balances {
        balances := AddCost(balances, tx.account, tx.totalFees);
      }
      for j := 0 to |tx.outMsgs|
        invariant balances.Keys == ours
        invariant Sum(balances) == Flow(ours, txs[..i]) + (if tx.account in ours then tx.totalFees else 0)
                                   + MessagesFlow(ours, tx.account, tx.outMsgs[..j])
      {
        assert tx.outMsgs[..j + 1][..j] == tx.outMsgs[..j];
        balances := AddMessage(balances, tx.account, tx.outMsgs[j]);
      }
      assert tx.outMsgs[..|tx.outMsgs|] == tx.outMsgs;
    }
    assert txs[..|txs|] == txs;
    total := 0;
    var rest := balances;
    while rest != map[]
      invariant total + Sum(rest) == Sum(balances)
      decreases |rest|
    {
      var a :| a in rest;
      SumRemove(rest, a);
      total := total + rest[a];
      rest := rest - {a};
    }
  }

  // ----- laws of the cost -----

  lemma {:induction false} MessagesFlowAdditive(a: set<Address>, b: set<Address>, account: Address, ms: seq<Message>)
    requires a !! b
    ensures MessagesFlow(a + b, account, ms) == MessagesFlow(a, account, ms) + MessagesFlow(b, account, ms)
  {
    if ms != [] {
      MessagesFlowAdditive(a, b, account, ms[..|ms| - 1]);
    }
  }

  /** Disjoint sets of addresses share a cost without overlap: transfers between them cancel. */
  lemma {:induction false} CostAdditiveInAddresses(a: set<Address>, b: set<Address>, txs: seq<Transaction>)
    requires a !! b
    ensures Flow(a + b, txs) == Flow(a, txs) + Flow(b, txs)
  {
    if txs != [] {
      CostAdditiveInAddresses(a, b, txs[..|txs| - 1]);
      MessagesFlowAdditive(a, b, txs[|txs| - 1].account, txs[|txs| - 1].outMsgs);
    }
  }

  function MessageFees(ms: seq<Message>): int {
    if ms == [] then 0 else MessageFees(ms[..|ms| - 1]) + Parsed(ms[|ms| - 1].fwdFee)
  }

  function AllFees(txs: seq<Transaction>): int {
    if txs == [] then 0
    else AllFees(txs[..|txs| - 1]) + txs[|txs| - 1].totalFees + MessageFees(txs[|txs| - 1].outMsgs)
  }

  ghost predicate Covers(ours: set<Address>, txs: seq<Transaction>) {
    forall i :: 0 <= i < |txs| ==> txs[i].account in ours && CoversMessages(ours, txs[i].outMsgs)
  }

  ghost predicate CoversMessages(ours: set<Address>, ms: seq<Message>) {
    forall j :: 0 <= j < |ms| && ms[j].destination.Some? ==> ms[j].destination.value in ours
  }

  lemma {:induction false} ClosedMessages(ours: set<Address>, account: Address, ms: seq<Message>)
    requires account in ours && CoversMessages(ours, ms)
    ensures MessagesFlow(ours, account, ms) == MessageFees(ms)
  {
    if ms != [] {
      ClosedMessages(ours, account, ms[..|ms| - 1]);
    }
  }

  /** If the set covers every account and destination, nothing leaves it but fees. */
  lemma {:induction false} ClosedCostIsFees(ours: set<Address>, txs: seq<Transaction>)
    requires Covers(ours, txs)
    ensures Flow(ours, txs) == AllFees(txs)
  {
    if txs != [] {
      ClosedCostIsFees(ours, txs[..|txs| - 1]);
      ClosedMessages(ours, txs[|txs| - 1].account, txs[|txs| - 1].outMsgs);
    }
  }

  /** What we pay plus what everybody else in the trace pays is exactly the fees. */
  lemma CostsShareTheFees(ours: set<Address>, others: set<Address>, txs: seq<Transaction>)
    requires ours !! others && Covers(ours + others, txs)
    ensures Flow(ours, txs) + Flow(others, txs) == AllFees(txs)
  {
    CostAdditiveInAddresses(ours, others, txs);
    ClosedCostIsFees(ours + others, txs);
  }

  lemma {:induction false} CostAdditiveInTraces(ours: set<Address>, xs: seq<Transaction>, ys: seq<Transaction>)
    ensures Flow(ours, xs + ys) == Flow(ours, xs) + Flow(ours, ys)
    decreases |ys|
  {
    if ys == [] {
      assert xs + ys == xs;
    } else {
      assert (xs + ys)[..|xs + ys| - 1] == xs + ys[..|ys| - 1];
      CostAdditiveInTraces(ours, xs, ys[..|ys| - 1]);
    }
  }

  function Without<T>(xs: seq<T>, k: nat): seq<T>
    requires k < |xs|
  {
    xs[..k] + xs[k + 1..]
  }

  lemma WithoutMultiset<T>(xs: seq<T>, k: nat)
    requires k < |xs|
    ensures multiset(Without(xs, k)) == multiset(xs) - multiset{xs[k]}
  {
    assert xs == xs[..k] + [xs[k]] + xs[k + 1..];
  }

  lemma CostWithout(ours: set<Address>, txs: seq<Transaction>, k: nat)
    requires k < |txs|
    ensures Flow(ours, txs) == Flow(ours, Without(txs, k)) + TransactionFlow(ours, txs[k])
  {
    var before, tx, after := txs[..k], txs[k], txs[k + 1..];
    assert txs == before + [tx] + after;
    CostAdditiveInTraces(ours, before, after);
    CostAdditiveInTraces(ours, before, [tx]);
    CostAdditiveInTraces(ours, before + [tx], after);
    assert [tx][..0] == [];
  }

  /** The order of transactions does not matter. */
  lemma {:induction false} CostIgnoresOrder(ours: set<Address>, xs: seq<Transaction>, ys: seq<Transaction>)
    requires multiset(xs) == multiset(ys)
    ensures Flow(ours, xs) == Flow(ours, ys)
    decreases |xs|
  {
    if xs == [] {
      assert |multiset(ys)| == 0;
    } else {
      assert xs[0] in multiset(ys);
      var k :| 0 <= k < |ys| && ys[k] == xs[0];
      WithoutMultiset(xs, 0);
      WithoutMultiset(ys, k);
      CostIgnoresOrder(ours, Without(xs, 0), Without(ys, k));
      CostWithout(ours, xs, 0);
      CostWithout(ours, ys, k);
    }
  }

  /** What one more message means in numbers: its fees if it is ours, and its value if it crosses the border. */
  lemma OneMessageCosts(ours: set<Address>, txs: seq<Transaction>, a: Address, d: Address, fee: nat, n: int, f: int)
    ensures var msg := Message(Some(d), Some(Number(n)), Some(Number(f)));
            Flow(ours, txs + [Transaction(a, fee, [msg])])
            == Flow(ours, txs) + (if a in ours then fee + f else 0)
               + (if a in ours && d !in ours then n else if a !in ours && d in ours then -n else 0)
  {
    var msg := Message(Some(d), Some(Number(n)), Some(Number(f)));
    assert (txs + [Transaction(a, fee, [msg])])[..|txs|] == txs;
    assert [msg][..0] == [] && MessagesFlow(ours, a, []) == 0;
    assert MessagesFlow(ours, a, [msg]) == MessageFlow(ours, a, msg);
  }

  /** Fields that are absent or cannot be read count as zero, and a message without destination moves no value. */
  lemma UnreadableCostsNothing(ours: set<Address>, a: Address, m: Message)
    requires m.destination.None? || m.value.None? || m.value.value.Malformed?
    requires m.fwdFee.None? || m.fwdFee.value.Malformed?
    ensures MessageFlow(ours, a, m) == 0
  {
  }

  // ----- the two gas figures -----

  const U64 := 0x1_0000_0000_0000_0000

  /** A non-positive total is reported as 0; a positive one is cast to 64 bits. */
  function Clamped(total: int): (g: nat)
    ensures total < U64 ==> g == if total > 0 then total else 0
    ensures g < U64 && (total > 0 ==> (total - g) % U64 == 0)
  {
    if total > 0 then total % U64 else 0
  }

  method CalcMessageGas(ourAddresses: seq<Address>, txs: seq<Transaction>) returns (gas: nat)
    ensures gas == Clamped(Flow(AddressSet(ourAddresses), txs))
  {
    var total := Cost(ourAddresses, txs);
    gas := if total > 0 then total % U64 else 0;
  }

  /** The message whose value counts as the refund, if the trace has one. */
  predicate HasRefund(txs: seq<Transaction>) {
    |txs| > 2 && |txs[2].outMsgs| > 0
  }

  function WithoutRefundValue(txs: seq<Transaction>): seq<Transaction>
    requires HasRefund(txs)
  {
    txs[2 := txs[2].(outMsgs := txs[2].outMsgs[0 := txs[2].outMsgs[0].(value := Some(Number(0)))])]
  }

  method CalcMessageGasNativeGasRefunded(ourAddresses: seq<Address>, txs: seq<Transaction>) returns (gas: nat)
    ensures !HasRefund(txs) ==> gas == 0
    ensures HasRefund(txs) ==> gas == Clamped(Flow(AddressSet(ourAddresses), txs) - Parsed(txs[2].outMsgs[0].value))
    ensures HasRefund(txs) && RefundLeavesUs(AddressSet(ourAddresses), txs) ==>
              gas == Clamped(Flow(AddressSet(ourAddresses), WithoutRefundValue(txs)))
  {
    if |txs| <= 2 {
      return 0;
    }
    if |txs[2].outMsgs| == 0 {
      return 0;
    }
    var refund := Parsed(txs[2].outMsgs[0].value);
    var difference := Cost(ourAddresses, txs);
    var total := difference - refund;
    gas := if total > 0 then total % U64 else 0;
    RefundExact(AddressSet(ourAddresses), txs);
  }

  predicate RefundLeavesUs(ours: set<Address>, txs: seq<Transaction>)
    requires HasRefund(txs)
  {
    var m := txs[2].outMsgs[0];
    txs[2].account in ours && m.destination.Some? && m.destination.value !in ours
  }

  lemma {:induction false} MessagesFlowSplit(ours: set<Address>, account: Address, xs: seq<Message>, ys: seq<Message>)
    ensures MessagesFlow(ours, account, xs + ys) == MessagesFlow(ours, account, xs) + MessagesFlow(ours, account, ys)
    decreases |ys|
  {
    if ys == [] {
      assert xs + ys == xs;
    } else {
      assert (xs + ys)[..|xs + ys| - 1] == xs + ys[..|ys| - 1];
      MessagesFlowSplit(ours, account, xs, ys[..|ys| - 1]);
    }
  }

  /** Replacing one transaction moves the cost by the difference of the two. */
  lemma FlowReplace(ours: set<Address>, txs: seq<Transaction>, k: nat, tx: Transaction)
    requires k < |txs|
    ensures Flow(ours, txs[k := tx]) == Flow(ours, txs) - TransactionFlow(ours, txs[k]) + TransactionFlow(ours, tx)
  {
    CostWithout(ours, txs, k);
    CostWithout(ours, txs[k := tx], k);
    assert Without(txs, k) == Without(txs[k := tx], k);
  }

  lemma MessagesFlowReplace(ours: set<Address>, account: Address, ms: seq<Message>, m: Message)
    requires ms != []
    ensures MessagesFlow(ours, account, ms[0 := m])
            == MessagesFlow(ours, account, ms) - MessageFlow(ours, account, ms[0]) + MessageFlow(ours, account, m)
  {
    assert ms == [ms[0]] + ms[1..] && ms[0 := m] == [m] + ms[1..];
    MessagesFlowSplit(ours, account, [ms[0]], ms[1..]);
    MessagesFlowSplit(ours, account, [m], ms[1..]);
    assert [m][..0] == [] && [ms[0]][..0] == [];
  }

  /**
   * Subtracting the refund from the cost is the cost of the same trace without the refunded value
   * exactly when that value left our addresses, or was zero.
   */
  lemma RefundExact(ours: set<Address>, txs: seq<Transaction>)
    ensures HasRefund(txs) ==>
              var refund := Parsed(txs[2].outMsgs[0].value);
              (Flow(ours, txs) - refund == Flow(ours, WithoutRefundValue(txs))
               <==> RefundLeavesUs(ours, txs) || refund == 0)
  {
    if HasRefund(txs) {
      FlowReplace(ours, txs, 2, WithoutRefundValue(txs)[2]);
      MessagesFlowReplace(ours, txs[2].account, txs[2].outMsgs, WithoutRefundValue(txs)[2].outMsgs[0]);
    }
  }

  /** A refund that stays within our addresses costs nothing, yet is subtracted. */
  lemma RefundWithinUsMisleads()
    ensures var paid := Transaction("us", 0, [Message(Some("us"), Some(Number(5)), None)]);
            var ours, txs := {"us"}, [Transaction("them", 0, []), Transaction("them", 0, []), paid];
            HasRefund(txs) && Flow(ours, txs) - 5 != Flow(ours, WithoutRefundValue(txs))
  {
    var paid := Transaction("us", 0, [Message(Some("us"), Some(Number(5)), None)]);
    RefundExact({"us"}, [Transaction("them", 0, []), Transaction("them", 0, []), paid]);
  }

  /** Listing an address twice changes nothing. */
  lemma CostIgnoresDuplicates(xs: seq<Address>, ys: seq<Address>, txs: seq<Transaction>)
    requires forall a :: a in xs <==> a in ys
    ensures Flow(AddressSet(xs), txs) == Flow(AddressSet(ys), txs)
  {
    assert AddressSet(xs) == AddressSet(ys);
  }
}
