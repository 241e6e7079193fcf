/**
 * The consumer side of the pipeline (`spawn_consumer`, src/main.rs): every
 * transaction taken off the channel is decoded and turned into the record a
 * sink receives, in the order the channel hands them out.
 */
module Consumer {
  import opened Primitives
  import opened RouterCalls
  import opened Decoder
  import opened Action
  import opened Handoff
  import opened Ingestor

  /** Build the dispatch record for one transaction detected at `detectedAt`; a failed decode
      would skip the transaction, but decoding never fails. */
  function Prepare(tx: Transaction, detectedAt: Millis): (r: Option<TargetTransaction>)
    ensures r.Some?
  {
    match DecodeTransaction(tx.input, tx.value)
    case Err(_) => None
    case Ok(decoded) =>
      Some(TargetTransaction(
        tx.hash, tx.from, decoded.effectiveValue, decoded.methodName,
        decoded.amountOutMin, decoded.path, decoded.to, decoded.deadline, detectedAt))
  }

  /** The record keeps the transaction's hash and sender and the detection time, is worth at
      least the ETH sent, and carries one of the decoder's method tags. */
  lemma PrepareKeepsIdentity(tx: Transaction, detectedAt: Millis)
    ensures var t := Prepare(tx, detectedAt).value;
      && t.txHash == tx.hash && t.from == tx.from && t.detectedAt == detectedAt
      && t.value >= tx.value && t.methodName in METHOD_TAGS
  {
  }

  /** The record takes the value, method, minimum output, path, recipient and deadline from
      the decoded calldata, whatever the calldata is. */
  lemma PrepareCopiesDecoded(tx: Transaction, detectedAt: Millis)
    ensures var t := Prepare(tx, detectedAt).value;
      var d := DecodeTransaction(tx.input, tx.value).value;
      && t.value == d.effectiveValue && t.methodName == d.methodName && t.amountOutMin == d.amountOutMin
      && t.path == d.path && t.to == d.to && t.deadline == d.deadline
  {
  }

  /** A plain transfer is dispatched with its own value and nothing else. */
  lemma PrepareNativeTransfer(tx: Transaction, detectedAt: Millis)
    requires tx.input == []
    ensures Prepare(tx, detectedAt) == Some(TargetTransaction(
      tx.hash, tx.from, tx.value, "Native Transfer", 0, [], ZERO_ADDRESS, 0, detectedAt))
  {
  }

  /** A token-to-ETH swap is dispatched at the larger of the ETH sent and the tokens offered. */
  lemma PrepareSwapExactTokensForEth(tx: Transaction, c: SwapExactTokensCall, detectedAt: Millis)
    requires |c.path| < U256_LIMIT
    requires tx.input == SWAP_EXACT_TOKENS_FOR_ETH + EncodeSwapExactTokens(c)
    ensures Prepare(tx, detectedAt) == Some(TargetTransaction(
      tx.hash, tx.from, if tx.value > c.amountIn then tx.value else c.amountIn, "swapExactTokensForETH",
      c.amountOutMin, c.path, c.to, c.deadline, detectedAt))
  {
    DecodeSwapExactTokensForEth(c, tx.value);
  }

  /** The source's end-to-end case: a swapExactETHForTokens call with minimum output 1000, a
      two-hop path and deadline 1700143168 is decoded into exactly those fields, and the console
      sink accepts the record. */
  lemma EndToEndMockSwap(tx: Transaction, detectedAt: Millis)
    requires tx.input == SWAP_EXACT_ETH_FOR_TOKENS + EncodeSwapExactEthForTokens(SwapExactEthForTokensCall(
      1000,
      [0xc02aaa39b223fe8d0a0e5c4f27ead9083c756cc2, 0xdac17f958d2ee523a2206206994597c13d831ec7],
      0x742d35cc6634c0532925a3b844bc9e7595f0beb0,
      1700143168))
    ensures var t := Prepare(tx, detectedAt).value;
      && t.amountOutMin == 1000 && |t.path| == 2
      && t.path[0] == 0xc02aaa39b223fe8d0a0e5c4f27ead9083c756cc2
      && t.path[1] == 0xdac17f958d2ee523a2206206994597c13d831ec7
      && t.to == 0x742d35cc6634c0532925a3b844bc9e7595f0beb0
      && t.deadline == 1700143168
      && t.value == tx.value && t.methodName == "swapExactETHForTokens"
      && ConsoleExecute(t).Ok?
  {
    DecodeSwapExactEthForTokens(SwapExactEthForTokensCall(
      1000,
      [0xc02aaa39b223fe8d0a0e5c4f27ead9083c756cc2, 0xdac17f958d2ee523a2206206994597c13d831ec7],
      0x742d35cc6634c0532925a3b844bc9e7595f0beb0,
      1700143168), tx.value);
  }

  /** The records for a run of transactions, the i-th dispatched at the i-th clock reading. */
  function PrepareAll(txs: seq<Transaction>, clock: seq<Millis>): (rs: seq<TargetTransaction>)
    requires |clock| >= |txs|
    ensures |rs| == |txs|
  {
    if txs == [] then [] else PrepareAll(txs[..|txs| - 1], clock) + [Prepare(txs[|txs| - 1], clock[|txs| - 1]).value]
  }

  /** Each record is the one `Prepare` builds for its transaction and clock reading. */
  lemma {:induction false} PrepareAllIndexed(txs: seq<Transaction>, clock: seq<Millis>)
    requires |clock| >= |txs|
    ensures forall i | 0 <= i < |txs| :: Some(PrepareAll(txs, clock)[i]) == Prepare(txs[i], clock[i])
  {
    if txs != [] {
      var front := txs[..|txs| - 1];
      PrepareAllIndexed(front, clock);
      var rs := PrepareAll(txs, clock);
      assert rs == PrepareAll(front, clock) + [Prepare(txs[|txs| - 1], clock[|txs| - 1]).value];
      forall i | 0 <= i < |txs|
        ensures Some(rs[i]) == Prepare(txs[i], clock[i])
      {
        if i < |front| {
          assert rs[i] == PrepareAll(front, clock)[i] && txs[i] == front[i];
        }
      }
    }
  }

  /** Dispatching one more transaction extends the records by its own. */
  lemma PrepareAllStep(queued: seq<Transaction>, clock: seq<Millis>, n: nat, before: seq<TargetTransaction>, target: TargetTransaction)
    requires n < |queued| <= |clock|
    requires before == PrepareAll(queued[..n], clock)
    requires Some(target) == Prepare(queued[n], clock[n])
    ensures before + [target] == PrepareAll(queued[..n + 1], clock)
  {
    assert queued[..n + 1][..n] == queued[..n];
  }

  /** The consumer loop: take transactions off the channel until it yields nothing more,
      dispatching each with the next clock reading. */
  method RunConsumer(channel: Channel<Transaction>, clock: seq<Millis>) returns (dispatched: seq<TargetTransaction>)
    requires channel.Valid() && |clock| == |channel.buffer|
    modifies channel
    ensures channel.Valid() && channel.buffer == []
    ensures channel.senderOpen == old(channel.senderOpen) && channel.receiverOpen == old(channel.receiverOpen)
    ensures dispatched == PrepareAll(old(channel.buffer), clock)
    ensures forall i | 0 <= i < |dispatched| :: Some(dispatched[i]) == Prepare(old(channel.buffer)[i], clock[i])
  {
    ghost var queued := channel.buffer;
    dispatched := [];
    var stopped := false;
    while !stopped
      invariant channel.Valid()
      invariant channel.senderOpen == old(channel.senderOpen) && channel.receiverOpen == old(channel.receiverOpen)
      invariant |dispatched| + |channel.buffer| == |queued|
      invariant channel.buffer == queued[|dispatched|..]
      invariant dispatched == PrepareAll(queued[..|dispatched|], clock)
      invariant stopped ==> channel.buffer == []
      decreases |channel.buffer| + (if stopped then 0 else 1)
    {
      var r := channel.TryRecv();
      match r
      case Received(tx) =>
        var target := Prepare(tx, clock[|dispatched|]);
        PrepareAllStep(queued, clock, |dispatched|, dispatched, target.value);
        dispatched := dispatched + [target.value];
      case _ =>
        stopped := true;
    }
    assert queued[..|queued|] == queued;
    PrepareAllIndexed(queued, clock);
  }

  /** The program's wiring, with the two stages run one after the other: a channel of
      `CHANNEL_CAPACITY` slots, the ingestor over a script of node answers, then the
      consumer once the ingestor has stopped sending. Every transaction the ingestor queued
      is dispatched, in the order it was queued, and the channel never held more than its
      capacity. */
  method RunPipeline(attempts: seq<Attempt>, clock: seq<Millis>) returns (dispatched: seq<TargetTransaction>)
    requires |clock| >= |Ingest(attempts, CHANNEL_CAPACITY, true, []).buffer|
    ensures var queued := Ingest(attempts, CHANNEL_CAPACITY, true, []).buffer;
      && |queued| <= CHANNEL_CAPACITY
      && dispatched == PrepareAll(queued, clock[..|queued|])
  {
    var channel := new Channel<Transaction>(CHANNEL_CAPACITY);
    var _, _ := RunIngestor(attempts, channel);
    BufferStaysBounded(attempts, CHANNEL_CAPACITY, true, []);
    channel.DropSender();
    dispatched := RunConsumer(channel, clock[..|channel.buffer|]);
  }
}
