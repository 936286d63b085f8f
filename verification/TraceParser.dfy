/** From a trace to events: sorting transactions into buckets, pairing payments with calls, and rewriting costs. */
module TraceParser {
  import opened Prelude
  import GasCalculator

  type MessageId = string

  datatype Key = Key(destinationChain: string, destinationAddress: string, payloadHash: seq<int>)

  datatype ParsingError = BocParsing | MessageError | Gas | ITSWithoutPair | Generic

  /** A decimal string: a number, or text no number can be read from. */
  datatype Amount = Num(n: nat) | Unreadable(text: string)

  datatype Event =
    | Call(id: MessageId)
    | GasCredit(id: MessageId, tokenId: Option<string>, amount: Amount)
    | MessageApproved(cost: Amount)
    | MessageExecuted(cost: Amount)
    | GasRefunded(cost: Amount)
    | Its(parent: Option<MessageId>)
    | OtherEvent(text: string)

  datatype Kind =
    | CallContract | Executed | Approved | NativeGasPaid | NativeGasAdded | JettonGasAdded | JettonGasPaid
    | NativeGasRefunded | ItsTokenMetadata | ItsDeployment | ItsTransfer | ItsLinkToken | SignersRotated
    | ExecuteInsufficientGas

  datatype Bucket = CallBucket | CreditBucket | ItsBucket | PlainBucket

  function BucketOf(k: Kind): Bucket {
    match k
    case CallContract => CallBucket
    case NativeGasPaid | JettonGasPaid => CreditBucket
    case ItsTokenMetadata | ItsDeployment | ItsTransfer | ItsLinkToken => ItsBucket
    case _ => PlainBucket
  }

  /** A parser by what its calls answer. */
  datatype Parser = Parser(
    kind: Kind,
    key: Result<Key, ParsingError>,
    messageId: Result<Option<MessageId>, ParsingError>,
    event: Option<MessageId> -> Result<Event, ParsingError>)

  /** One parser type tried on one transaction. */
  datatype Probe = Probe(matches: Result<bool, ParsingError>, parsed: Result<bool, ParsingError>, parser: Parser)

  /** What the node reports of a transaction's fees and messages, and how each parser type answers on it. */
  datatype Transaction = Transaction(ledger: GasCalculator.Transaction, probe: Kind -> Probe)

  datatype Trace = Trace(insufficientGas: Probe, transactions: seq<Transaction>)

  /** The order in which parser types are tried on a transaction; the first match wins. */
  const ORDER: seq<Kind> := [
    CallContract, Executed, Approved, NativeGasPaid, NativeGasAdded, JettonGasAdded, JettonGasPaid,
    NativeGasRefunded, ItsTokenMetadata, ItsDeployment, ItsTransfer, ItsLinkToken, SignersRotated]

  predicate PassesOver(probe: Probe) {
    probe.matches.Ok? && !probe.matches.value
  }

  /** What a parser type answers on a transaction it does not pass over; payments must also have a key. */
  function Answer(probe: Probe): Result<Option<Parser>, ParsingError> {
    var _ :- probe.matches;
    var _ :- probe.parsed;
    if BucketOf(probe.parser.kind).CreditBucket? && probe.parser.key.Err? then Err(probe.parser.key.error)
    else Ok(Some(probe.parser))
  }

  function FirstMatch(tx: Transaction, k: nat): Result<Option<Parser>, ParsingError>
    requires k <= |ORDER|
    decreases |ORDER| - k
  {
    if k == |ORDER| then Ok(None)
    else if PassesOver(tx.probe(ORDER[k])) then FirstMatch(tx, k + 1)
    else Answer(tx.probe(ORDER[k]))
  }

  /** Parser type `n` is the first one that does not pass the transaction over; `|ORDER|` means all do. */
  ghost predicate Decides(tx: Transaction, n: nat) {
    && n <= |ORDER| && (n < |ORDER| ==> !PassesOver(tx.probe(ORDER[n])))
    && forall j :: 0 <= j < n ==> PassesOver(tx.probe(ORDER[j]))
  }

  /** A transaction is none of ours exactly if every type passes it over; else the first that does not decides alone. */
  lemma {:induction false} FirstMatchExact(tx: Transaction, n: nat)
    requires Decides(tx, n)
    ensures FirstMatch(tx, 0) == if n == |ORDER| then Ok(None) else Answer(tx.probe(ORDER[n]))
    ensures n < |ORDER| && FirstMatch(tx, 0).Ok? ==>
              var probe := tx.probe(ORDER[n]);
              probe.matches.Ok? && probe.matches.value && probe.parsed.Ok?
                && FirstMatch(tx, 0).value == Some(probe.parser)
    ensures n < |ORDER| ==>
              var probe := tx.probe(ORDER[n]);
              var payment := probe.parser.kind.NativeGasPaid? || probe.parser.kind.JettonGasPaid?;
              && (probe.matches.Err? ==> FirstMatch(tx, 0) == Err(probe.matches.error))
              && (probe.matches.Ok? && probe.parsed.Err? ==> FirstMatch(tx, 0) == Err(probe.parsed.error))
              && (probe.matches.Ok? && probe.parsed.Ok? ==>
                    FirstMatch(tx, 0) == if payment && probe.parser.key.Err? then Err(probe.parser.key.error)
                                         else Ok(Some(probe.parser)))
  {
    SkipsTo(tx, 0, n);
  }

  lemma {:induction false} SkipsTo(tx: Transaction, k: nat, n: nat)
    requires k <= n && Decides(tx, n)
    ensures FirstMatch(tx, k) == FirstMatch(tx, n)
    decreases n - k
  {
    if k < n {
      SkipsTo(tx, k + 1, n);
    }
  }

  lemma OneAttempt(tx: Transaction, k: nat)
    requires k < |ORDER|
    ensures var probe := tx.probe(ORDER[k]);
            FirstMatch(tx, k) == if PassesOver(probe) then FirstMatch(tx, k + 1) else Answer(probe)
  {
  }

  /** The thirteen parser types, in the order in which they are tried. */
  lemma AttemptsInOrder(tx: Transaction)
    ensures FirstMatch(tx, 0) ==
            if !PassesOver(tx.probe(CallContract)) then Answer(tx.probe(CallContract))
            else if !PassesOver(tx.probe(Executed)) then Answer(tx.probe(Executed))
            else if !PassesOver(tx.probe(Approved)) then Answer(tx.probe(Approved))
            else if !PassesOver(tx.probe(NativeGasPaid)) then Answer(tx.probe(NativeGasPaid))
            else if !PassesOver(tx.probe(NativeGasAdded)) then Answer(tx.probe(NativeGasAdded))
            else if !PassesOver(tx.probe(JettonGasAdded)) then Answer(tx.probe(JettonGasAdded))
            else if !PassesOver(tx.probe(JettonGasPaid)) then Answer(tx.probe(JettonGasPaid))
            else if !PassesOver(tx.probe(NativeGasRefunded)) then Answer(tx.probe(NativeGasRefunded))
            else if !PassesOver(tx.probe(ItsTokenMetadata)) then Answer(tx.probe(ItsTokenMetadata))
            else if !PassesOver(tx.probe(ItsDeployment)) then Answer(tx.probe(ItsDeployment))
            else if !PassesOver(tx.probe(ItsTransfer)) then Answer(tx.probe(ItsTransfer))
            else if !PassesOver(tx.probe(ItsLinkToken)) then Answer(tx.probe(ItsLinkToken))
            else if !PassesOver(tx.probe(SignersRotated)) then Answer(tx.probe(SignersRotated))
            else Ok(None)
  {
    hide FirstMatch, PassesOver, Answer;
    OneAttempt(tx, 0);
    OneAttempt(tx, 1);
    OneAttempt(tx, 2);
    OneAttempt(tx, 3);
    OneAttempt(tx, 4);
    OneAttempt(tx, 5);
    OneAttempt(tx, 6);
    OneAttempt(tx, 7);
    OneAttempt(tx, 8);
    OneAttempt(tx, 9);
    OneAttempt(tx, 10);
    OneAttempt(tx, 11);
    OneAttempt(tx, 12);
    NoAttemptLeft(tx);
  }

  lemma NoAttemptLeft(tx: Transaction)
    ensures |ORDER| == 13 && FirstMatch(tx, 13) == Ok(None)
  {
  }

  /** The thirteen attempts on one transaction. */
  method TryParsers(tx: Transaction) returns (r: Result<Option<Parser>, ParsingError>)
    ensures r == FirstMatch(tx, 0)
    ensures exists n: nat :: Decides(tx, n) && r == if n == |ORDER| then Ok(None) else Answer(tx.probe(ORDER[n]))
  {
    for k := 0 to |ORDER|
      invariant forall j :: 0 <= j < k ==> PassesOver(tx.probe(ORDER[j]))
    {
      var probe := tx.probe(ORDER[k]);
      if !PassesOver(probe) {
        FirstMatchExact(tx, k);
        if probe.matches.Err? {
          return Err(probe.matches.error);
        }
        if probe.parsed.Err? {
          return Err(probe.parsed.error);
        }
        if BucketOf(probe.parser.kind).CreditBucket? && probe.parser.key.Err? {
          return Err(probe.parser.key.error);
        }
        return Ok(Some(probe.parser));
      }
    }
    FirstMatchExact(tx, |ORDER|);
    r := Ok(None);
  }

  /** The parsers of a trace's transactions in order, or the first error met. */
  function Recognized(txs: seq<Transaction>): Result<seq<Parser>, ParsingError> {
    if txs == [] then Ok([])
    else
      var ps :- Recognized(txs[..|txs| - 1]);
      var p :- FirstMatch(txs[|txs| - 1], 0);
      Ok(ps + if p.Some? then [p.value] else [])
  }

  /** All transactions are answered, or the first one that fails gives the error. */
  lemma {:induction false} RecognizedExact(txs: seq<Transaction>)
    ensures Recognized(txs).Ok? <==> forall i :: 0 <= i < |txs| ==> FirstMatch(txs[i], 0).Ok?
    ensures Recognized(txs).Err? ==>
              exists i :: 0 <= i < |txs| && FirstMatch(txs[i], 0) == Err(Recognized(txs).error)
                && forall j :: 0 <= j < i ==> FirstMatch(txs[j], 0).Ok?
  {
    hide FirstMatch;
    if txs != [] {
      var n := |txs| - 1;
      RecognizedExact(txs[..n]);
      assert forall j :: 0 <= j < n ==> txs[..n][j] == txs[j];
      if Recognized(txs[..n]).Err? {
        var i :| 0 <= i < n && FirstMatch(txs[..n][i], 0) == Err(Recognized(txs[..n]).error)
                 && forall j :: 0 <= j < i ==> FirstMatch(txs[..n][j], 0).Ok?;
        assert FirstMatch(txs[i], 0) == Err(Recognized(txs).error);
      }
    }
  }

  /** The parser of a transaction stands behind those of the transactions before it. */
  lemma {:induction false} RecognizedInOrder(txs: seq<Transaction>, i: nat)
    requires i < |txs| && Recognized(txs).Ok?
    ensures Recognized(txs[..i]).Ok? && FirstMatch(txs[i], 0).Ok?
    ensures FirstMatch(txs[i], 0).value.Some? ==>
              var at := |Recognized(txs[..i]).value|;
              at < |Recognized(txs).value| && Recognized(txs).value[at] == FirstMatch(txs[i], 0).value.value
  {
    hide FirstMatch;
    var n := |txs| - 1;
    if i < n {
      RecognizedInOrder(txs[..n], i);
      assert txs[..n][..i] == txs[..i];
    }
  }

  function Select(ps: seq<Parser>, b: Bucket): seq<Parser> {
    if ps == [] then []
    else Select(ps[..|ps| - 1], b) + if BucketOf(ps[|ps| - 1].kind) == b then [ps[|ps| - 1]] else []
  }

  /** The buckets are a partition in order: a parser stands in its bucket behind the earlier ones of that bucket. */
  lemma {:induction false} BucketsPartition(ps: seq<Parser>, i: nat)
    requires i < |ps|
    ensures var b := BucketOf(ps[i].kind);
            |Select(ps[..i], b)| < |Select(ps, b)| && Select(ps, b)[|Select(ps[..i], b)|] == ps[i]
    ensures |Select(ps, CallBucket)| + |Select(ps, CreditBucket)| + |Select(ps, ItsBucket)|
            + |Select(ps, PlainBucket)| == |ps|
  {
    BucketSizes(ps);
    var n := |ps| - 1;
    if i < n {
      BucketsPartition(ps[..n], i);
      assert ps[..n][..i] == ps[..i];
    }
  }

  lemma {:induction false} BucketSizes(ps: seq<Parser>)
    ensures |Select(ps, CallBucket)| + |Select(ps, CreditBucket)| + |Select(ps, ItsBucket)|
            + |Select(ps, PlainBucket)| == |ps|
  {
    if ps != [] {
      BucketSizes(ps[..|ps| - 1]);
    }
  }

  predicate IsPayment(p: Parser) {
    BucketOf(p.kind).CreditBucket? && p.key.Ok?
  }

  /** Payments by key; a later one replaces an earlier one. */
  function Credits(ps: seq<Parser>): map<Key, Parser> {
    if ps == [] then map[]
    else
      var rest, p := Credits(ps[..|ps| - 1]), ps[|ps| - 1];
      if IsPayment(p) then rest[p.key.value := p] else rest
  }

  function ApprovedParsers(ps: seq<Parser>): nat {
    if ps == [] then 0 else ApprovedParsers(ps[..|ps| - 1]) + if ps[|ps| - 1].kind.Approved? then 1 else 0
  }

  datatype Buckets = Buckets(parsers: seq<Parser>, calls: seq<Parser>, credits: map<Key, Parser>, its: seq<Parser>,
                             approved: nat)

  function Sorted(trace: Trace): Result<Buckets, ParsingError> {
    var first :- trace.insufficientGas.matches;
    if first && trace.insufficientGas.parsed.Err? then Err(trace.insufficientGas.parsed.error)
    else
      var ps :- Recognized(trace.transactions);
      Ok(Buckets((if first then [trace.insufficientGas.parser] else []) + Select(ps, PlainBucket),
                 Select(ps, CallBucket), Credits(ps), Select(ps, ItsBucket), ApprovedParsers(ps)))
  }

  predicate IsIts(k: Kind) {
    k.ItsTokenMetadata? || k.ItsDeployment? || k.ItsTransfer? || k.ItsLinkToken?
  }

  predicate IsCredit(k: Kind) {
    k.NativeGasPaid? || k.JettonGasPaid?
  }

  lemma {:induction false} SelectKinds(ps: seq<Parser>, b: Bucket)
    ensures forall p :: p in Select(ps, b) <==> p in ps && BucketOf(p.kind) == b
  {
    if ps != [] {
      var n := |ps| - 1;
      SelectKinds(ps[..n], b);
      assert ps == ps[..n] + [ps[n]];
    }
  }

  /** Calls, ITS logs, payments with a key, and everything else: each recognised parser goes where its type says. */
  lemma KindsInBuckets(trace: Trace, p: Parser)
    requires Sorted(trace).Ok?
    ensures var b, ps := Sorted(trace).value, Recognized(trace.transactions).value;
            && (p in b.calls <==> p in ps && p.kind.CallContract?)
            && (p in b.its <==> p in ps && IsIts(p.kind))
            && (p in ps && IsCredit(p.kind) && p.key.Ok? ==>
                  p.key.value in b.credits && IsCredit(b.credits[p.key.value].kind))
            && (p in ps && !p.kind.CallContract? && !IsIts(p.kind) && !IsCredit(p.kind) ==> p in b.parsers)
            && (p in b.parsers && p != trace.insufficientGas.parser ==>
                  p in ps && !p.kind.CallContract? && !IsIts(p.kind) && !IsCredit(p.kind))
  {
    hide Recognized, Select, Credits;
    var ps := Recognized(trace.transactions).value;
    SelectKinds(ps, CallBucket);
    SelectKinds(ps, ItsBucket);
    SelectKinds(ps, PlainBucket);
    if p in ps && IsCredit(p.kind) && p.key.Ok? {
      LastPaymentWins(ps, p.key.value);
    }
  }

  /** Each transaction yields a parser of the type that was tried. */
  ghost predicate Typed(trace: Trace) {
    && trace.insufficientGas.parser.kind == ExecuteInsufficientGas
    && forall i, k :: 0 <= i < |trace.transactions| ==> trace.transactions[i].probe(k).parser.kind == k
  }

  lemma {:induction false} FirstMatchTyped(tx: Transaction, k: nat)
    requires k <= |ORDER| && forall kind :: tx.probe(kind).parser.kind == kind
    ensures var r := FirstMatch(tx, k);
            r.Ok? && r.value.Some? ==> BucketOf(r.value.value.kind).CreditBucket? ==> r.value.value.key.Ok?
    decreases |ORDER| - k
  {
    if k < |ORDER| {
      FirstMatchTyped(tx, k + 1);
    }
  }

  /** Where one more recognised parser goes. */
  lemma OneMoreParser(ps: seq<Parser>, p: Parser)
    ensures forall b :: Select(ps + [p], b) == Select(ps, b) + if BucketOf(p.kind) == b then [p] else []
    ensures Credits(ps + [p]) == if IsPayment(p) then Credits(ps)[p.key.value := p] else Credits(ps)
    ensures ApprovedParsers(ps + [p]) == ApprovedParsers(ps) + if p.kind.Approved? then 1 else 0
  {
    assert (ps + [p])[..|ps|] == ps;
  }

  lemma NoParserYet()
    ensures forall b :: Select([], b) == []
    ensures Credits([]) == map[] && ApprovedParsers([]) == 0
  {
  }

  method CreateParsers(trace: Trace) returns (r: Result<Buckets, ParsingError>)
    requires Typed(trace)
    ensures r == Sorted(trace)
    ensures var first := trace.insufficientGas;
            && (first.matches.Err? ==> r == Err(first.matches.error))
            && (first.matches.Ok? && first.matches.value && first.parsed.Err? ==> r == Err(first.parsed.error))
    ensures r.Ok? ==>
              && trace.insufficientGas.matches.Ok? && Recognized(trace.transactions).Ok?
              && var b, ps := r.value, Recognized(trace.transactions).value;
                 && b.parsers == (if trace.insufficientGas.matches.value then [trace.insufficientGas.parser] else [])
                                 + Select(ps, PlainBucket)
                 && b.calls == Select(ps, CallBucket) && b.its == Select(ps, ItsBucket) && b.credits == Credits(ps)
  {
    hide FirstMatch, Answer, Decides, Select, Credits, ApprovedParsers;
    NoParserYet();
    var parsers, calls, its, credits, approved := [], [], [], map[], 0;
    var first :- trace.insufficientGas.matches;
    if first {
      if trace.insufficientGas.parsed.Err? {
        return Err(trace.insufficientGas.parsed.error);
      }
      parsers := [trace.insufficientGas.parser];
    }
    ghost var prefix := parsers;
    ghost var ps: seq<Parser> := [];
    var txs := trace.transactions;
    for i := 0 to |txs|
      invariant Recognized(txs[..i]) == Ok(ps)
      invariant parsers == prefix + Select(ps, PlainBucket) && calls == Select(ps, CallBucket)
                && its == Select(ps, ItsBucket)
      invariant credits == Credits(ps) && approved == ApprovedParsers(ps)
    {
      RecognizedStep(txs, i);
      FirstMatchTyped(txs[i], 0);
      var attempt := TryParsers(txs[i]);
      var found :- attempt;
      if found.Some? {
        var p := found.value;
        OneMoreParser(ps, p);
        match BucketOf(p.kind) {
          case CallBucket => calls := calls + [p];
          case CreditBucket => credits := credits[p.key.value := p];
          case ItsBucket => its := its + [p];
          case PlainBucket => parsers := parsers + [p];
        }
        if p.kind.Approved? {
          approved := approved + 1;
        }
        ps := ps + [p];
      } else {
        assert ps + [] == ps;
      }
    }
    assert txs[..|txs|] == txs;
    r := Ok(Buckets(parsers, calls, credits, its, approved));
  }

  lemma {:induction false} RecognizedStep(txs: seq<Transaction>, i: nat)
    requires i < |txs|
    ensures Recognized(txs[..i + 1]) ==
            match Recognized(txs[..i])
            case Err(e) => Err(e)
            case Ok(ps) => match FirstMatch(txs[i], 0)
                           case Err(e) => Err(e)
                           case Ok(p) => Ok(ps + if p.Some? then [p.value] else [])
    ensures Recognized(txs[..i]).Err? || FirstMatch(txs[i], 0).Err? ==> Recognized(txs).Err?
    ensures Recognized(txs[..i]).Err? ==> Recognized(txs) == Err(Recognized(txs[..i]).error)
    ensures Recognized(txs[..i]).Ok? && FirstMatch(txs[i], 0).Err? ==>
              Recognized(txs) == Err(FirstMatch(txs[i], 0).error)
    decreases |txs|
  {
    assert txs[..i + 1][..i] == txs[..i];
    var n := |txs| - 1;
    if i < n {
      RecognizedStep(txs[..n], i);
      assert txs[..n][..i] == txs[..i] && txs[..n][..i + 1] == txs[..i + 1];
    } else {
      assert txs[..i + 1] == txs;
    }
  }

  /** The payment kept under a key is the last one recorded under it. */
  lemma {:induction false} LastPaymentWins(ps: seq<Parser>, key: Key)
    ensures key in Credits(ps) <==> exists i :: 0 <= i < |ps| && IsPayment(ps[i]) && ps[i].key == Ok(key)
    ensures key in Credits(ps) ==>
              exists i :: 0 <= i < |ps| && IsPayment(ps[i]) && ps[i].key == Ok(key) && Credits(ps)[key] == ps[i]
                && forall j :: i < j < |ps| && IsPayment(ps[j]) ==> ps[j].key != Ok(key)
  {
    if ps != [] {
      var n := |ps| - 1;
      LastPaymentWins(ps[..n], key);
      if IsPayment(ps[n]) && ps[n].key == Ok(key) {
        assert Credits(ps)[key] == ps[n];
      } else if key in Credits(ps[..n]) {
        var i :| 0 <= i < n && IsPayment(ps[..n][i]) && ps[..n][i].key == Ok(key) && Credits(ps[..n])[key] == ps[..n][i]
                 && forall j :: i < j < n && IsPayment(ps[..n][j]) ==> ps[..n][j].key != Ok(key);
        assert IsPayment(ps[i]) && ps[i].key == Ok(key) && Credits(ps)[key] == ps[i];
        forall j | i < j < |ps| && IsPayment(ps[j]) ensures ps[j].key != Ok(key) {
          if j < n {
            assert ps[..n][j] == ps[j];
          }
        }
      } else {
        forall i | 0 <= i < |ps| && IsPayment(ps[i]) ensures ps[i].key != Ok(key) {
          if i < n {
            assert ps[..n][i] == ps[i];
          }
        }
      }
    }
  }

  // ----- pairing, declaratively -----

  /** Call `i` gets the payment under its key: there is one, and no earlier call has the same key. */
  ghost predicate Credited(calls: seq<Parser>, credits: map<Key, Parser>, i: nat)
    requires i < |calls|
  {
    && calls[i].key.Ok? && calls[i].key.value in credits
    && forall j :: 0 <= j < i ==> calls[j].key != calls[i].key
  }

  ghost predicate CallOk(calls: seq<Parser>, credits: map<Key, Parser>, i: nat)
    requires i < |calls|
  {
    && calls[i].key.Ok? && calls[i].event(None).Ok?
    && (Credited(calls, credits, i) ==>
          && calls[i].messageId.Ok? && calls[i].messageId.value.Some?
          && credits[calls[i].key.value].event(calls[i].messageId.value).Ok?)
  }

  /** The events of call `i`: its own and, right behind it, its gas credit. */
  ghost function Block(calls: seq<Parser>, credits: map<Key, Parser>, i: nat): seq<Event>
    requires i < |calls| && CallOk(calls, credits, i)
  {
    [calls[i].event(None).value]
    + if Credited(calls, credits, i) then [credits[calls[i].key.value].event(calls[i].messageId.value).value] else []
  }

  ghost predicate CallsOk(calls: seq<Parser>, credits: map<Key, Parser>, n: nat) {
    n <= |calls| && forall i :: 0 <= i < n ==> CallOk(calls, credits, i)
  }

  ghost function Paired(calls: seq<Parser>, credits: map<Key, Parser>, n: nat): seq<Event>
    requires CallsOk(calls, credits, n)
  {
    if n == 0 then [] else Paired(calls, credits, n - 1) + Block(calls, credits, n - 1)
  }

  ghost function CallKeys(calls: seq<Parser>, n: nat): set<Key>
    requires n <= |calls|
  {
    set i | 0 <= i < n && calls[i].key.Ok? :: calls[i].key.value
  }

  /** Call `i` is the first that fails, with error `e`: at its key, its event, its message id or its credit. */
  ghost predicate CallFails(calls: seq<Parser>, credits: map<Key, Parser>, i: nat, e: ParsingError) {
    && i < |calls| && CallsOk(calls, credits, i)
    && var cc := calls[i];
       if cc.key.Err? then e == cc.key.error
       else if cc.event(None).Err? then e == cc.event(None).error
       else if !Credited(calls, credits, i) then false
       else if cc.messageId.Err? then e == cc.messageId.error
       else if cc.messageId.value.None? then e == MessageError
       else credits[cc.key.value].event(cc.messageId.value) == Err(e)
  }

  /** The pairing loop: removes each payment from the map when its first call takes it. */
  method PairCredits(calls: seq<Parser>, credits: map<Key, Parser>)
    returns (r: Result<seq<Event>, ParsingError>, left: map<Key, Parser>)
    ensures r.Ok? <==> CallsOk(calls, credits, |calls|)
    ensures r.Ok? ==> r.value == Paired(calls, credits, |calls|) && left == credits - CallKeys(calls, |calls|)
    ensures AllAnswer(calls, credits) ==> r.Ok?
    ensures r.Err? ==> exists i: nat :: CallFails(calls, credits, i, r.error)
  {
    var events := [];
    left := credits;
    for i := 0 to |calls|
      invariant CallsOk(calls, credits, i)
      invariant events == Paired(calls, credits, i)
      invariant left == credits - CallKeys(calls, i)
    {
      var cc := calls[i];
      assert CallsOk(calls, credits, |calls|) ==> CallOk(calls, credits, i);
      if cc.key.Err? {
        assert CallFails(calls, credits, i, cc.key.error);
        return Err(cc.key.error), left;
      }
      var key, event := cc.key.value, cc.event(None);
      if event.Err? {
        assert CallFails(calls, credits, i, event.error);
        return Err(event.error), left;
      }
      events := events + [event.value];
      assert key in left <==> Credited(calls, credits, i);
      assert CallKeys(calls, i + 1) == CallKeys(calls, i) + {key};
      if key in left {
        var parser := left[key];
        left := left - {key};
        if cc.messageId.Err? {
          assert CallFails(calls, credits, i, cc.messageId.error);
          return Err(cc.messageId.error), left;
        }
        if cc.messageId.value.None? {
          assert CallFails(calls, credits, i, MessageError);
          return Err(MessageError), left;
        }
        var credit := parser.event(cc.messageId.value);
        if credit.Err? {
          assert CallFails(calls, credits, i, credit.error);
          return Err(credit.error), left;
        }
        events := events + [credit.value];
      }
    }
    r := Ok(events);
  }

  /** Every call of a parser that the assembly may make succeeds. */
  ghost predicate AllAnswer(calls: seq<Parser>, credits: map<Key, Parser>) {
    && (forall i :: 0 <= i < |calls| ==>
          calls[i].key.Ok? && calls[i].event(None).Ok? && calls[i].messageId.Ok? && calls[i].messageId.value.Some?)
    && (forall k, id :: k in credits ==> credits[k].event(Some(id)).Ok?)
  }

  ghost function SharedKeys(calls: seq<Parser>, credits: map<Key, Parser>, n: nat): set<Key>
    requires n <= |calls|
  {
    set k | k in CallKeys(calls, n) && k in credits
  }

  /**
   * One event per call and exactly one credit per key that calls and payments share, so no payment is
   * credited twice.
   */
  lemma {:induction false} PairedLength(calls: seq<Parser>, credits: map<Key, Parser>, n: nat)
    requires CallsOk(calls, credits, n)
    ensures |Paired(calls, credits, n)| == n + |SharedKeys(calls, credits, n)|
  {
    if n > 0 {
      PairedLength(calls, credits, n - 1);
      assert CallOk(calls, credits, n - 1);
      var key := calls[n - 1].key.value;
      assert CallKeys(calls, n) == CallKeys(calls, n - 1) + {key};
      if Credited(calls, credits, n - 1) {
        assert SharedKeys(calls, credits, n) == SharedKeys(calls, credits, n - 1) + {key};
        assert key !in CallKeys(calls, n - 1);
      } else {
        assert SharedKeys(calls, credits, n) == SharedKeys(calls, credits, n - 1);
      }
    }
  }

  /**
   * The first call with a key, and only it, is immediately followed by the credit of the payment kept under
   * that key.
   */
  lemma {:induction false} CreditFollowsItsCall(calls: seq<Parser>, credits: map<Key, Parser>, n: nat, i: nat)
    requires CallsOk(calls, credits, n) && i < n
    ensures CallsOk(calls, credits, i)
    ensures var at, events := |Paired(calls, credits, i)|, Paired(calls, credits, n);
            && at + |Block(calls, credits, i)| <= |events|
            && events[at] == calls[i].event(None).value
            && (Credited(calls, credits, i) ==>
                  |Block(calls, credits, i)| == 2
                    && events[at + 1] == credits[calls[i].key.value].event(calls[i].messageId.value).value)
            && (!Credited(calls, credits, i) ==> |Block(calls, credits, i)| == 1)
            && (i + 1 < n ==> at + |Block(calls, credits, i)| == |Paired(calls, credits, i + 1)|)
    decreases n
  {
    if i + 1 < n {
      CreditFollowsItsCall(calls, credits, n - 1, i);
    }
  }

  // ----- the rest of the assembly -----

  ghost predicate ItsOk(its: seq<Parser>, calls: seq<Parser>, n: nat) {
    && n <= |its| && n <= |calls|
    && forall i :: 0 <= i < n ==> calls[i].messageId.Ok? && its[i].event(calls[i].messageId.value).Ok?
  }

  /** The i-th ITS event carries the message id of the i-th call. */
  ghost function ItsEvents(its: seq<Parser>, calls: seq<Parser>, n: nat): seq<Event>
    requires ItsOk(its, calls, n)
  {
    seq(n, i requires 0 <= i < n => its[i].event(calls[i].messageId.value).value)
  }

  ghost predicate PlainOk(parsers: seq<Parser>, n: nat) {
    n <= |parsers| && forall i :: 0 <= i < n ==> parsers[i].event(None).Ok?
  }

  ghost function PlainEvents(parsers: seq<Parser>, n: nat): seq<Event>
    requires PlainOk(parsers, n)
  {
    seq(n, i requires 0 <= i < n => parsers[i].event(None).value)
  }

  ghost predicate AssemblyOk(b: Buckets) {
    CallsOk(b.calls, b.credits, |b.calls|) && ItsOk(b.its, b.calls, |b.its|) && PlainOk(b.parsers, |b.parsers|)
  }

  ghost function Assembled(b: Buckets): seq<Event>
    requires AssemblyOk(b)
  {
    Paired(b.calls, b.credits, |b.calls|) + ItsEvents(b.its, b.calls, |b.its|) + PlainEvents(b.parsers, |b.parsers|)
  }

  /** Every answer the assembly asks of a parser is there. */
  ghost predicate EveryCallSucceeds(b: Buckets) {
    && AllAnswer(b.calls, b.credits)
    && (forall i, id :: 0 <= i < |b.its| ==> b.its[i].event(id).Ok?)
    && (forall i :: 0 <= i < |b.parsers| ==> b.parsers[i].event(None).Ok?)
  }

  /** ITS parser `i` is the first that fails, with error `e`: it has no call, or its call or it itself fails. */
  ghost predicate ItsFails(its: seq<Parser>, calls: seq<Parser>, i: nat, e: ParsingError) {
    && i < |its| && ItsOk(its, calls, i)
    && if i >= |calls| then e == ITSWithoutPair
       else if calls[i].messageId.Err? then e == calls[i].messageId.error
       else its[i].event(calls[i].messageId.value) == Err(e)
  }

  ghost predicate PlainFails(parsers: seq<Parser>, i: nat, e: ParsingError) {
    i < |parsers| && PlainOk(parsers, i) && parsers[i].event(None) == Err(e)
  }

  /** The first of the three loops that fails reports its error. */
  ghost predicate AssemblyFails(b: Buckets, e: ParsingError) {
    if !CallsOk(b.calls, b.credits, |b.calls|) then exists i: nat :: CallFails(b.calls, b.credits, i, e)
    else if !ItsOk(b.its, b.calls, |b.its|) then exists i: nat :: ItsFails(b.its, b.calls, i, e)
    else exists i: nat :: PlainFails(b.parsers, i, e)
  }

  method PairIts(its: seq<Parser>, calls: seq<Parser>) returns (r: Result<seq<Event>, ParsingError>)
    ensures r.Ok? <==> ItsOk(its, calls, |its|)
    ensures r.Ok? ==> r.value == ItsEvents(its, calls, |its|)
    ensures (forall i :: 0 <= i < |calls| ==> calls[i].messageId.Ok?)
            && (forall i, id :: 0 <= i < |its| ==> its[i].event(id).Ok?) ==>
              if |its| <= |calls| then r.Ok? else r == Err(ITSWithoutPair)
    ensures r.Err? ==> exists i: nat :: ItsFails(its, calls, i, r.error)
  {
    var events := [];
    for i := 0 to |its|
      invariant ItsOk(its, calls, i)
      invariant events == ItsEvents(its, calls, i)
    {
      if i >= |calls| {
        assert ItsFails(its, calls, i, ITSWithoutPair);
        return Err(ITSWithoutPair);
      }
      var id := calls[i].messageId;
      if id.Err? {
        assert ItsFails(its, calls, i, id.error);
        return Err(id.error);
      }
      var event := its[i].event(id.value);
      if event.Err? {
        assert ItsFails(its, calls, i, event.error);
        return Err(event.error);
      }
      events := events + [event.value];
    }
    r := Ok(events);
  }

  /** The three event loops of `parse_trace` over the sorted parsers. */
  method Assemble(b: Buckets) returns (r: Result<seq<Event>, ParsingError>)
    ensures r.Ok? <==> AssemblyOk(b)
    ensures r.Ok? ==> r.value == Assembled(b)
    ensures r.Ok? ==> |r.value| == |b.calls| + |SharedKeys(b.calls, b.credits, |b.calls|)| + |b.its| + |b.parsers|
    ensures r.Ok? ==>
              forall i :: 0 <= i < |b.parsers| ==>
                Ok(r.value[|r.value| - |b.parsers| + i]) == b.parsers[i].event(None)
    ensures EveryCallSucceeds(b) ==> if |b.its| <= |b.calls| then r.Ok? else r == Err(ITSWithoutPair)
    ensures r.Err? ==> AssemblyFails(b, r.error)
  {
    hide CallFails, ItsFails;
    var paired, left := PairCredits(b.calls, b.credits);
    if paired.Err? {
      return paired;
    }
    PairedLength(b.calls, b.credits, |b.calls|);
    var its := PairIts(b.its, b.calls);
    if its.Err? {
      return its;
    }
    var plain := [];
    for i := 0 to |b.parsers|
      invariant PlainOk(b.parsers, i)
      invariant plain == PlainEvents(b.parsers, i)
    {
      var event := b.parsers[i].event(None);
      if event.Err? {
        assert PlainFails(b.parsers, i, event.error);
        return Err(event.error);
      }
      plain := plain + [event.value];
    }
    r := Ok(paired.value + its.value + plain);
  }

  // ----- costs and conversion, in place -----

  /** The figures of one trace and the price conversion, which may fail. */
  datatype Costs = Costs(totalGas: nat, refundGas: nat, approved: nat, convert: (string, nat) -> Option<nat>)

  function PerApproved(c: Costs): nat {
    if c.approved == 0 then 0 else c.totalGas / c.approved
  }

  function Rewritten(e: Event, c: Costs): Result<Event, ParsingError> {
    match e
    case GasCredit(id, Some(token), amount) =>
      if amount.Unreadable? || c.convert(token, amount.n).None? then Err(Generic)
      else Ok(GasCredit(id, None, Num(c.convert(token, amount.n).value)))
    case MessageApproved(_) => Ok(MessageApproved(Num(PerApproved(c))))
    case MessageExecuted(_) => Ok(MessageExecuted(Num(c.totalGas)))
    case GasRefunded(_) => Ok(GasRefunded(Num(c.refundGas)))
    case _ => Ok(e)
  }

  /** What the pass makes of one event. */
  ghost predicate Priced(e: Event, e': Event, c: Costs) {
    match e
    case MessageExecuted(_) => e' == MessageExecuted(Num(c.totalGas))
    case GasRefunded(_) => e' == GasRefunded(Num(c.refundGas))
    case MessageApproved(_) =>
      && e'.MessageApproved? && e'.cost.Num?
      && (if c.approved == 0 then e'.cost.n == 0
          else c.approved * e'.cost.n <= c.totalGas < c.approved * (e'.cost.n + 1))
    case GasCredit(id, Some(token), amount) =>
      && amount.Num? && c.convert(token, amount.n).Some?
      && e' == GasCredit(id, None, Num(c.convert(token, amount.n).value))
    case _ => e' == e
  }

  lemma RewrittenIsPriced(e: Event, e': Event, c: Costs)
    requires Rewritten(e, c) == Ok(e')
    ensures Priced(e, e', c)
  {
    if c.approved > 0 {
      DivisionLosesLess(c.totalGas, c.approved);
    }
  }

  /** A credit in a token whose amount cannot be read or has no price. */
  predicate Inconvertible(e: Event, c: Costs) {
    e.GasCredit? && e.tokenId.Some? && (e.amount.Unreadable? || c.convert(e.tokenId.value, e.amount.n).None?)
  }

  method AddGasUsedAndConvert(events: array<Event>, c: Costs) returns (r: Result<(), ParsingError>)
    modifies events
    ensures r.Ok? ==> forall i :: 0 <= i < events.Length ==> Priced(old(events[i]), events[i], c)
    ensures r.Err? <==> exists i :: 0 <= i < events.Length && Inconvertible(old(events[i]), c)
    ensures r.Ok? <==> forall i :: 0 <= i < events.Length ==> Rewritten(old(events[i]), c).Ok?
    ensures r.Ok? ==> forall i :: 0 <= i < events.Length ==> Ok(events[i]) == Rewritten(old(events[i]), c)
    ensures r.Err? ==> r.error == Generic
  {
    for i := 0 to events.Length
      invariant forall j :: 0 <= j < i ==> Rewritten(old(events[j]), c) == Ok(events[j])
      invariant forall j :: i <= j < events.Length ==> events[j] == old(events[j])
    {
      match events[i] {
        case GasCredit(id, Some(token), amount) =>
          events[i] := GasCredit(id, None, amount);
          if amount.Unreadable? {
            return Err(Generic);
          }
          var native := c.convert(token, amount.n);
          if native.None? {
            return Err(Generic);
          }
          events[i] := GasCredit(id, None, Num(native.value));
        case MessageApproved(_) =>
          var per := if c.approved == 0 then 0 else c.totalGas / c.approved;
          events[i] := MessageApproved(Num(per));
        case MessageExecuted(_) =>
          events[i] := MessageExecuted(Num(c.totalGas));
        case GasRefunded(_) =>
          events[i] := GasRefunded(Num(c.refundGas));
        case _ =>
      }
    }
    forall i | 0 <= i < events.Length ensures Priced(old(events[i]), events[i], c) {
      RewrittenIsPriced(old(events[i]), events[i], c);
    }
    r := Ok(());
  }

  /** After one pass no credit names a token, and a second pass changes nothing. */
  lemma RewriteIsIdempotent(e: Event, c: Costs)
    requires Rewritten(e, c).Ok?
    ensures Rewritten(Rewritten(e, c).value, c) == Rewritten(e, c)
    ensures Rewritten(e, c).value.GasCredit? ==> Rewritten(e, c).value.tokenId.None?
  {
  }

  // ----- approved costs add up -----

  function ApprovedEvents(es: seq<Event>): nat {
    if es == [] then 0 else ApprovedEvents(es[..|es| - 1]) + if es[|es| - 1].MessageApproved? then 1 else 0
  }

  /** The sum of all approval costs that are numbers. */
  function ApprovedCost(es: seq<Event>): nat {
    if es == [] then 0
    else
      var e := es[|es| - 1];
      ApprovedCost(es[..|es| - 1]) + if e.MessageApproved? && e.cost.Num? then e.cost.n else 0
  }

  /** A parser emits events of its own kind only; a gas credit carries the message id it was given. */
  ghost predicate EmitsOwnKind(p: Parser) {
    forall id :: p.event(id).Ok? ==>
      && (p.event(id).value.MessageApproved? <==> p.kind.Approved?)
      && (BucketOf(p.kind).CreditBucket? ==>
          id.Some? && p.event(id).value.GasCredit? && p.event(id).value.id == id.value)
      && (BucketOf(p.kind).ItsBucket? ==> p.event(id).value == Its(id))
  }

  ghost predicate WellKinded(trace: Trace) {
    && Typed(trace)
    && EmitsOwnKind(trace.insufficientGas.parser)
    && forall i, k :: 0 <= i < |trace.transactions| ==> EmitsOwnKind(trace.transactions[i].probe(k).parser)
  }

  ghost predicate AllOf(ps: seq<Parser>, b: Bucket) {
    forall i :: 0 <= i < |ps| ==> BucketOf(ps[i].kind) == b && EmitsOwnKind(ps[i])
  }

  lemma {:induction false} FirstMatchEmits(tx: Transaction, k: nat)
    requires k <= |ORDER| && forall kind :: EmitsOwnKind(tx.probe(kind).parser)
    ensures var r := FirstMatch(tx, k); r.Ok? && r.value.Some? ==> EmitsOwnKind(r.value.value)
    decreases |ORDER| - k
  {
    if k < |ORDER| {
      FirstMatchEmits(tx, k + 1);
    }
  }

  lemma {:induction false} RecognizedEmit(txs: seq<Transaction>)
    requires forall i, k :: 0 <= i < |txs| ==> EmitsOwnKind(txs[i].probe(k).parser)
    requires Recognized(txs).Ok?
    ensures forall i :: 0 <= i < |Recognized(txs).value| ==> EmitsOwnKind(Recognized(txs).value[i])
  {
    if txs != [] {
      RecognizedEmit(txs[..|txs| - 1]);
      FirstMatchEmits(txs[|txs| - 1], 0);
    }
  }

  lemma {:induction false} SelectAllOf(ps: seq<Parser>, b: Bucket)
    requires forall i :: 0 <= i < |ps| ==> EmitsOwnKind(ps[i])
    ensures AllOf(Select(ps, b), b)
  {
    if ps != [] {
      SelectAllOf(ps[..|ps| - 1], b);
    }
  }

  lemma {:induction false} CreditsAllOf(ps: seq<Parser>)
    requires forall i :: 0 <= i < |ps| ==> EmitsOwnKind(ps[i])
    ensures AllCredits(Credits(ps))
  {
    if ps != [] {
      CreditsAllOf(ps[..|ps| - 1]);
    }
  }

  lemma {:induction false} ApprovedAppend(xs: seq<Event>, ys: seq<Event>)
    ensures ApprovedEvents(xs + ys) == ApprovedEvents(xs) + ApprovedEvents(ys)
    decreases |ys|
  {
    if ys == [] {
      assert xs + ys == xs;
    } else {
      assert (xs + ys)[..|xs + ys| - 1] == xs + ys[..|ys| - 1];
      ApprovedAppend(xs, ys[..|ys| - 1]);
    }
  }

  lemma {:induction false} NoneApproved(es: seq<Event>)
    requires forall i :: 0 <= i < |es| ==> !es[i].MessageApproved?
    ensures ApprovedEvents(es) == 0
  {
    if es != [] {
      NoneApproved(es[..|es| - 1]);
    }
  }

  ghost predicate AllCredits(credits: map<Key, Parser>) {
    forall k :: k in credits ==> BucketOf(credits[k].kind).CreditBucket? && EmitsOwnKind(credits[k])
  }

  lemma BlockNotApproved(calls: seq<Parser>, credits: map<Key, Parser>, i: nat)
    requires i < |calls| && CallOk(calls, credits, i) && AllOf(calls, CallBucket) && AllCredits(credits)
    ensures ApprovedEvents(Block(calls, credits, i)) == 0
  {
    assert EmitsOwnKind(calls[i]);
    NoneApproved(Block(calls, credits, i));
  }

  lemma {:induction false} PairedNotApproved(calls: seq<Parser>, credits: map<Key, Parser>, n: nat)
    requires CallsOk(calls, credits, n) && AllOf(calls, CallBucket) && AllCredits(credits)
    ensures ApprovedEvents(Paired(calls, credits, n)) == 0
  {
    hide Block, CallOk, AllOf, AllCredits, ApprovedEvents;
    if n == 0 {
      NoneApproved([]);
    } else {
      PairedNotApproved(calls, credits, n - 1);
      BlockNotApproved(calls, credits, n - 1);
      ApprovedAppend(Paired(calls, credits, n - 1), Block(calls, credits, n - 1));
    }
  }

  lemma {:induction false} PlainApproved(parsers: seq<Parser>, n: nat)
    requires PlainOk(parsers, n) && forall i :: 0 <= i < n ==> EmitsOwnKind(parsers[i])
    ensures ApprovedEvents(PlainEvents(parsers, n)) == ApprovedParsers(parsers[..n])
  {
    if n > 0 {
      PlainApproved(parsers, n - 1);
      assert PlainEvents(parsers, n)[..n - 1] == PlainEvents(parsers, n - 1);
      assert parsers[..n][..n - 1] == parsers[..n - 1];
    }
  }

  lemma ApprovedOneMore(ps: seq<Parser>, p: Parser)
    ensures ApprovedParsers(ps + [p]) == ApprovedParsers(ps) + if p.kind.Approved? then 1 else 0
  {
    assert (ps + [p])[..|ps|] == ps;
  }

  lemma {:induction false} ApprovedArePlain(prefix: seq<Parser>, ps: seq<Parser>)
    requires prefix == [] || (|prefix| == 1 && !prefix[0].kind.Approved?)
    ensures ApprovedParsers(prefix + Select(ps, PlainBucket)) == ApprovedParsers(ps)
  {
    if ps == [] {
      assert prefix + [] == prefix;
    } else {
      hide ApprovedParsers;
      var n, p := |ps| - 1, ps[|ps| - 1];
      ApprovedArePlain(prefix, ps[..n]);
      assert ps == ps[..n] + [p];
      ApprovedOneMore(ps[..n], p);
      var before := prefix + Select(ps[..n], PlainBucket);
      ApprovedOneMore(before, p);
      assert prefix + Select(ps, PlainBucket) == if BucketOf(p.kind).PlainBucket? then before + [p] else before;
    }
  }

  /** The counter of `create_parsers` is the number of approval events the trace produces. */
  lemma CounterCountsApprovals(trace: Trace)
    requires WellKinded(trace) && Sorted(trace).Ok? && AssemblyOk(Sorted(trace).value)
    ensures ApprovedEvents(Assembled(Sorted(trace).value)) == Sorted(trace).value.approved
  {
    var b, ps := Sorted(trace).value, Recognized(trace.transactions).value;
    RecognizedEmit(trace.transactions);
    SelectAllOf(ps, CallBucket);
    SelectAllOf(ps, ItsBucket);
    SelectAllOf(ps, PlainBucket);
    CreditsAllOf(ps);
    var paired, its := Paired(b.calls, b.credits, |b.calls|), ItsEvents(b.its, b.calls, |b.its|);
    var plain := PlainEvents(b.parsers, |b.parsers|);
    PairedNotApproved(b.calls, b.credits, |b.calls|);
    NoneApproved(its);
    PlainApproved(b.parsers, |b.parsers|);
    assert b.parsers[..|b.parsers|] == b.parsers;
    ApprovedArePlain(if trace.insufficientGas.matches.value then [trace.insufficientGas.parser] else [], ps);
    ApprovedAppend(paired, its);
    ApprovedAppend(paired + its, plain);
  }

  /** On the final events: the credit behind a call and the i-th ITS event carry the message id of their call. */
  ghost predicate CarriesIds(b: Buckets, out: seq<Event>)
    requires AssemblyOk(b)
  {
    && (forall i :: 0 <= i < |b.calls| && Credited(b.calls, b.credits, i) ==> IsCreditOf(b, out, i))
    && (forall i :: 0 <= i < |b.its| ==>
          var at := |Paired(b.calls, b.credits, |b.calls|)| + i;
          at < |out| && out[at] == Its(b.calls[i].messageId.value))
  }

  ghost predicate IsCreditOf(b: Buckets, out: seq<Event>, i: nat)
    requires AssemblyOk(b) && i < |b.calls|
  {
    var at := |Paired(b.calls, b.credits, i)| + 1;
    && at < |out| && out[at].GasCredit?
    && b.calls[i].messageId == Ok(Some(out[at].id)) && out[at].tokenId.None?
  }

  lemma CreditCarriesId(b: Buckets, out: seq<Event>, c: Costs, i: nat)
    requires AssemblyOk(b) && AllCredits(b.credits) && i < |b.calls| && Credited(b.calls, b.credits, i)
    requires |out| == |Assembled(b)| && forall j :: 0 <= j < |out| ==> Rewritten(Assembled(b)[j], c) == Ok(out[j])
    ensures IsCreditOf(b, out, i)
  {
    hide Paired, ItsEvents, PlainEvents;
    var at := |Paired(b.calls, b.credits, i)| + 1;
    CreditFollowsItsCall(b.calls, b.credits, |b.calls|, i);
    assert CallOk(b.calls, b.credits, i);
    var credit := b.credits[b.calls[i].key.value];
    assert EmitsOwnKind(credit) && BucketOf(credit.kind).CreditBucket?;
    assert Assembled(b)[at] == credit.event(b.calls[i].messageId.value).value;
    assert Rewritten(Assembled(b)[at], c) == Ok(out[at]);
  }

  lemma IdsAreCarried(b: Buckets, out: seq<Event>, c: Costs)
    requires AssemblyOk(b) && AllCredits(b.credits) && AllOf(b.its, ItsBucket)
    requires |out| == |Assembled(b)| && forall j :: 0 <= j < |out| ==> Rewritten(Assembled(b)[j], c) == Ok(out[j])
    ensures CarriesIds(b, out)
  {
    hide IsCreditOf, Paired, AllCredits, PlainEvents;
    forall i | 0 <= i < |b.calls| && Credited(b.calls, b.credits, i) ensures IsCreditOf(b, out, i) {
      CreditCarriesId(b, out, c, i);
    }
    var start := |Paired(b.calls, b.credits, |b.calls|)|;
    forall i | 0 <= i < |b.its| ensures start + i < |out| && out[start + i] == Its(b.calls[i].messageId.value) {
      assert EmitsOwnKind(b.its[i]) && BucketOf(b.its[i].kind).ItsBucket?;
      assert Assembled(b)[start + i] == b.its[i].event(b.calls[i].messageId.value).value;
      assert Rewritten(Assembled(b)[start + i], c) == Ok(out[start + i]);
    }
  }

  lemma SortedIsKinded(trace: Trace)
    requires WellKinded(trace) && Sorted(trace).Ok?
    ensures AllCredits(Sorted(trace).value.credits) && AllOf(Sorted(trace).value.its, ItsBucket)
  {
    var ps := Recognized(trace.transactions).value;
    RecognizedEmit(trace.transactions);
    SelectAllOf(ps, ItsBucket);
    CreditsAllOf(ps);
  }

  lemma {:induction false} ApprovedCostOfRewritten(es: seq<Event>, out: seq<Event>, c: Costs)
    requires |es| == |out| && forall i :: 0 <= i < |es| ==> Rewritten(es[i], c) == Ok(out[i])
    ensures ApprovedEvents(out) == ApprovedEvents(es)
    ensures ApprovedCost(out) == ApprovedEvents(es) * PerApproved(c)
  {
    if es != [] {
      var n := |es| - 1;
      ApprovedCostOfRewritten(es[..n], out[..n], c);
      assert Rewritten(es[n], c) == Ok(out[n]);
      var k, per := ApprovedEvents(es[..n]), PerApproved(c);
      assert (k + 1) * per == k * per + per;
    }
  }

  lemma DivisionLosesLess(total: nat, n: nat)
    requires n > 0
    ensures n * (total / n) <= total < n * (total / n) + n
  {
  }

  function Ledgers(trace: Trace): seq<GasCalculator.Transaction> {
    seq(|trace.transactions|, i requires 0 <= i < |trace.transactions| => trace.transactions[i].ledger)
  }

  /** The figures of a trace: its cost to our addresses, and that cost without the refunded value. */
  function TraceCosts(trace: Trace, ours: set<Address>, approved: nat,
                      convert: (string, nat) -> Option<nat>): Costs {
    var txs := Ledgers(trace);
    var total := GasCalculator.Flow(ours, txs);
    Costs(GasCalculator.Clamped(total),
          if !GasCalculator.HasRefund(txs) then 0
          else GasCalculator.Clamped(total - GasCalculator.Parsed(txs[2].outMsgs[0].value)),
          approved, convert)
  }

  /** `out` is a faithful account of a trace: every assembled event, rewritten, with ids and costs that add up. */
  ghost predicate Accounts(b: Buckets, c: Costs, out: seq<Event>)
    requires AssemblyOk(b)
  {
    && |out| == |Assembled(b)| && (forall i :: 0 <= i < |out| ==> Rewritten(Assembled(b)[i], c) == Ok(out[i]))
    && (forall i :: 0 <= i < |out| ==> Priced(Assembled(b)[i], out[i], c))
    && CarriesIds(b, out)
    && ApprovedEvents(out) == b.approved && ApprovedCost(out) <= c.totalGas
    && (b.approved > 0 ==> c.totalGas - ApprovedCost(out) < b.approved)
  }

  lemma RewrittenAccounts(trace: Trace, c: Costs, out: seq<Event>)
    requires WellKinded(trace) && Sorted(trace).Ok? && AssemblyOk(Sorted(trace).value)
    requires var es := Assembled(Sorted(trace).value);
             |out| == |es| && forall i :: 0 <= i < |out| ==> Rewritten(es[i], c) == Ok(out[i])
    requires c.approved == Sorted(trace).value.approved
    ensures Accounts(Sorted(trace).value, c, out)
  {
    hide Sorted, AssemblyOk, Assembled, CarriesIds, WellKinded, Priced, Rewritten;
    var b := Sorted(trace).value;
    forall i | 0 <= i < |out| ensures Priced(Assembled(b)[i], out[i], c) {
      RewrittenIsPriced(Assembled(b)[i], out[i], c);
    }
    CounterCountsApprovals(trace);
    ApprovedCostOfRewritten(Assembled(b), out, c);
    SortedIsKinded(trace);
    IdsAreCarried(b, out, c);
    if b.approved > 0 {
      DivisionLosesLess(c.totalGas, b.approved);
    }
  }

  /** Every execution costs the whole trace and every refund the refund figure. */
  ghost predicate CostsOf(out: seq<Event>, total: nat, refund: nat) {
    && (forall i :: 0 <= i < |out| && out[i].MessageExecuted? ==> out[i].cost == Num(total))
    && (forall i :: 0 <= i < |out| && out[i].GasRefunded? ==> out[i].cost == Num(refund))
  }

  lemma AccountedCosts(b: Buckets, c: Costs, out: seq<Event>)
    requires AssemblyOk(b) && Accounts(b, c, out)
    ensures CostsOf(out, c.totalGas, c.refundGas)
  {
    hide AssemblyOk, Assembled, CarriesIds, Rewritten;
    forall i | 0 <= i < |out|
      ensures out[i].MessageExecuted? ==> out[i].cost == Num(c.totalGas)
      ensures out[i].GasRefunded? ==> out[i].cost == Num(c.refundGas)
    {
      assert Priced(Assembled(b)[i], out[i], c);
    }
  }

  /**
   * The whole of `parse_trace`. The credit behind a call and the i-th ITS event carry their call's message id;
   * approval costs never exceed what the trace cost our addresses and, if there is an approval at all, miss it
   * by less than their number.
   */
  method ParseTrace(trace: Trace, ourAddresses: seq<Address>, convert: (string, nat) -> Option<nat>)
    returns (r: Result<seq<Event>, ParsingError>)
    requires WellKinded(trace)
    ensures r.Ok? ==>
              && Sorted(trace).Ok? && AssemblyOk(Sorted(trace).value)
              && var b := Sorted(trace).value;
                 Accounts(b, TraceCosts(trace, GasCalculator.AddressSet(ourAddresses), b.approved, convert), r.value)
    ensures var txs, ours := Ledgers(trace), GasCalculator.AddressSet(ourAddresses);
            r.Ok? ==>
              CostsOf(r.value, GasCalculator.Clamped(GasCalculator.Flow(ours, txs)),
                      if |txs| > 2 && |txs[2].outMsgs| > 0 then
                        GasCalculator.Clamped(GasCalculator.Flow(ours, txs)
                                              - GasCalculator.Parsed(txs[2].outMsgs[0].value))
                      else 0)
    ensures Sorted(trace).Err? ==> r == Err(Sorted(trace).error)
    ensures Sorted(trace).Ok? && r.Err? ==>
              var b := Sorted(trace).value;
              if AssemblyOk(b) then r.error == Generic else AssemblyFails(b, r.error)
    ensures Sorted(trace).Ok? && EveryCallSucceeds(Sorted(trace).value) ==>
              (|Sorted(trace).value.its| > |Sorted(trace).value.calls| <==> r == Err(ITSWithoutPair))
  {
    hide Sorted, Accounts, AssemblyOk, Assembled, EveryCallSucceeds, GasCalculator.Flow, GasCalculator.Clamped,
      Recognized, Select, Credits, Priced, Inconvertible, Rewritten, CostsOf, SharedKeys,
      AssemblyFails;
    var totalGas := GasCalculator.CalcMessageGas(ourAddresses, Ledgers(trace));
    var refundGas := GasCalculator.CalcMessageGasNativeGasRefunded(ourAddresses, Ledgers(trace));
    var buckets := CreateParsers(trace);
    if buckets.Err? {
      return Err(buckets.error);
    }
    var b := buckets.value;
    var assembled := Assemble(b);
    if assembled.Err? {
      return assembled;
    }
    var es := assembled.value;
    var events := new Event[|es|](i requires 0 <= i < |es| => es[i]);
    ghost var before := events[..];
    assert before == es;
    var c := Costs(totalGas, refundGas, b.approved, convert);
    var done := AddGasUsedAndConvert(events, c);
    if done.Err? {
      return Err(done.error);
    }
    var out := events[..];
    forall i | 0 <= i < |es| ensures Rewritten(es[i], c) == Ok(out[i]) {
      assert before[i] == es[i];
    }
    RewrittenAccounts(trace, c, out);
    AccountedCosts(b, c, out);
    r := Ok(out);
  }
}
