/**
 * The ingestor's control logic (`spawn_ingestor`, src/main.rs), run
 * sequentially over a finite script of what the node answers: the
 * reconnect backoff, the classification of error messages by the
 * substrings they contain, the progress counter, the `Lagged(n)` count
 * extraction, and the hand-off of every fetched transaction to the bounded
 * channel. The method `RunIngestor` updates the delay, the log and the
 * channel step by step; the function `Ingest` says what the whole run
 * produces, and the lemmas state the properties of that run.
 */
module Ingestor {
  import opened Primitives
  import opened Text
  import opened Decoder
  import opened Handoff

  // Reconnect backoff.

  const INITIAL_RETRY_DELAY: nat := 1
  const MAX_RETRY_DELAY: nat := 60

  /** The delay after one more failed subscribe: doubled, capped at a minute. */
  function NextDelay(delay: nat): (next: nat)
    ensures next <= MAX_RETRY_DELAY
    ensures next == MAX_RETRY_DELAY || next == 2 * delay
    ensures 1 <= delay ==> delay <= next || delay > MAX_RETRY_DELAY
  {
    if 2 * delay <= MAX_RETRY_DELAY then 2 * delay else MAX_RETRY_DELAY
  }

  /** The delay slept before the (k+1)-th consecutive retry. */
  function DelayAfterFailures(k: nat): (delay: nat)
  {
    if k == 0 then INITIAL_RETRY_DELAY else NextDelay(DelayAfterFailures(k - 1))
  }

  function Pow2(k: nat): (p: nat)
    ensures p >= 1
  {
    if k == 0 then 1 else 2 * Pow2(k - 1)
  }

  /** Consecutive failures double the delay from one second up to 32, then it stays at 60. */
  lemma {:induction false} BackoffSchedule(k: nat)
    ensures DelayAfterFailures(k) == if k <= 5 then Pow2(k) else MAX_RETRY_DELAY
  {
    if k > 0 {
      BackoffSchedule(k - 1);
      if k <= 5 {
        Pow2Small(k - 1);
      }
    }
  }

  lemma Pow2Small(k: nat)
    requires k <= 4
    ensures Pow2(k) <= 16
  {
  }

  /** The first eight delays. */
  lemma BackoffFirstDelays()
    ensures DelayAfterFailures(0) == 1 && DelayAfterFailures(1) == 2 && DelayAfterFailures(2) == 4
    ensures DelayAfterFailures(3) == 8 && DelayAfterFailures(4) == 16 && DelayAfterFailures(5) == 32
    ensures DelayAfterFailures(6) == 60 && DelayAfterFailures(7) == 60
  {
    BackoffSchedule(0); BackoffSchedule(1); BackoffSchedule(2); BackoffSchedule(3);
    BackoffSchedule(4); BackoffSchedule(5); BackoffSchedule(6); BackoffSchedule(7);
    assert Pow2(5) == 32;
  }

  // Error classification by substring, first match wins.

  /** The causes the ingestor tells apart in an error's debug text. */
  datatype ErrorCause = SubscriptionNotFound | ConnectionClosed | RateLimited | TimedOut | Lagged | Unclassified

  /** The message contains one of the substrings that identify the cause. */
  predicate Mentions(msg: string, c: ErrorCause)
  {
    match c
    case SubscriptionNotFound => Contains(msg, "subscription not found")
    case ConnectionClosed => Contains(msg, "connection closed") || Contains(msg, "ConnectionClosed")
    case RateLimited => Contains(msg, "rate limit") || Contains(msg, "429")
    case TimedOut => Contains(msg, "timeout") || Contains(msg, "Timeout")
    case Lagged => Contains(msg, "Lagged")
    case Unclassified => false
  }

  /** Reference reading of an if-else chain over causes: the first cause in `order` the
      message mentions, or `Unclassified` when it mentions none of them. */
  function FirstMatch(order: seq<ErrorCause>, msg: string): ErrorCause
  {
    if order == [] then Unclassified
    else if Mentions(msg, order[0]) then order[0]
    else FirstMatch(order[1..], msg)
  }

  /** The first match is mentioned, comes from the order, and no cause mentioned earlier in
      the order was passed over. */
  lemma {:induction false} FirstMatchIsFirst(order: seq<ErrorCause>, msg: string)
    requires Unclassified !in order
    ensures var c := FirstMatch(order, msg);
      && (c == Unclassified <==> forall i | 0 <= i < |order| :: !Mentions(msg, order[i]))
      && (c != Unclassified ==> exists k | 0 <= k < |order| :: order[k] == c && Mentions(msg, c)
                                  && forall i | 0 <= i < k :: !Mentions(msg, order[i]))
  {
    if order != [] && !Mentions(msg, order[0]) {
      var rest := order[1..];
      FirstMatchIsFirst(rest, msg);
      assert forall i | 1 <= i < |order| :: order[i] == rest[i - 1];
      var c := FirstMatch(order, msg);
      if c != Unclassified {
        var k :| 0 <= k < |rest| && rest[k] == c && Mentions(msg, c)
                 && forall i | 0 <= i < k :: !Mentions(msg, rest[i]);
        assert order[k + 1] == c;
      }
    }
  }

  /** The order in which a failed subscribe is diagnosed. */
  const SUBSCRIBE_ORDER: seq<ErrorCause> := [SubscriptionNotFound, ConnectionClosed, RateLimited, TimedOut]

  /** The order in which a failed stream read is diagnosed: lag first, and no timeout case. */
  const STREAM_ORDER: seq<ErrorCause> := [Lagged, SubscriptionNotFound, ConnectionClosed, RateLimited]

  /** The subscribe order spelled out as an if-else chain. */
  lemma SubscribeOrderUnrolled(msg: string)
    ensures FirstMatch(SUBSCRIBE_ORDER, msg) ==
      if Mentions(msg, SubscriptionNotFound) then SubscriptionNotFound
      else if Mentions(msg, ConnectionClosed) then ConnectionClosed
      else if Mentions(msg, RateLimited) then RateLimited
      else if Mentions(msg, TimedOut) then TimedOut
      else Unclassified
  {
    var o3: seq<ErrorCause> := [TimedOut];
    var o2: seq<ErrorCause> := [RateLimited, TimedOut];
    var o1: seq<ErrorCause> := [ConnectionClosed, RateLimited, TimedOut];
    assert o3[1..] == [] && o2[1..] == o3 && o1[1..] == o2 && SUBSCRIBE_ORDER[1..] == o1;
    assert FirstMatch(o3, msg) == if Mentions(msg, TimedOut) then TimedOut else Unclassified;
    assert FirstMatch(o2, msg) == if Mentions(msg, RateLimited) then RateLimited else FirstMatch(o3, msg);
    assert FirstMatch(o1, msg) == if Mentions(msg, ConnectionClosed) then ConnectionClosed else FirstMatch(o2, msg);
  }

  /** The stream order spelled out as an if-else chain. */
  lemma StreamOrderUnrolled(msg: string)
    ensures FirstMatch(STREAM_ORDER, msg) ==
      if Mentions(msg, Lagged) then Lagged
      else if Mentions(msg, SubscriptionNotFound) then SubscriptionNotFound
      else if Mentions(msg, ConnectionClosed) then ConnectionClosed
      else if Mentions(msg, RateLimited) then RateLimited
      else Unclassified
  {
    var o3: seq<ErrorCause> := [RateLimited];
    var o2: seq<ErrorCause> := [ConnectionClosed, RateLimited];
    var o1: seq<ErrorCause> := [SubscriptionNotFound, ConnectionClosed, RateLimited];
    assert o3[1..] == [] && o2[1..] == o3 && o1[1..] == o2 && STREAM_ORDER[1..] == o1;
    assert FirstMatch(o3, msg) == if Mentions(msg, RateLimited) then RateLimited else Unclassified;
    assert FirstMatch(o2, msg) == if Mentions(msg, ConnectionClosed) then ConnectionClosed else FirstMatch(o3, msg);
    assert FirstMatch(o1, msg) == if Mentions(msg, SubscriptionNotFound) then SubscriptionNotFound else FirstMatch(o2, msg);
  }

  /** The diagnosis logged when subscribing fails. */
  function ClassifySubscribeError(msg: string): (c: ErrorCause)
    ensures c == FirstMatch(SUBSCRIBE_ORDER, msg)
  {
    SubscribeOrderUnrolled(msg);
    if Contains(msg, "subscription not found") then SubscriptionNotFound
    else if Contains(msg, "connection closed") || Contains(msg, "ConnectionClosed") then ConnectionClosed
    else if Contains(msg, "rate limit") || Contains(msg, "429") then RateLimited
    else if Contains(msg, "timeout") || Contains(msg, "Timeout") then TimedOut
    else Unclassified
  }

  /** The diagnosis logged when reading the subscription fails. */
  function ClassifyStreamError(msg: string): (c: ErrorCause)
    ensures c == FirstMatch(STREAM_ORDER, msg)
  {
    StreamOrderUnrolled(msg);
    if Contains(msg, "Lagged") then Lagged
    else if Contains(msg, "subscription not found") then SubscriptionNotFound
    else if Contains(msg, "connection closed") || Contains(msg, "ConnectionClosed") then ConnectionClosed
    else if Contains(msg, "rate limit") || Contains(msg, "429") then RateLimited
    else Unclassified
  }

  /** Without a lag, a stream error is diagnosed as a subscribe error would be, except that a
      timeout goes unclassified. */
  lemma StreamDiagnosisMatchesSubscribe(msg: string)
    requires !Contains(msg, "Lagged")
    ensures ClassifyStreamError(msg) == (if ClassifySubscribeError(msg) == TimedOut then Unclassified
                                          else ClassifySubscribeError(msg))
  {
  }

  /** A message naming several causes gets the earliest one, e.g. a rate limit that also
      mentions a timeout is reported as a rate limit. */
  lemma SubscribePrecedence(msg: string, c: ErrorCause)
    requires c in SUBSCRIBE_ORDER && Mentions(msg, c)
    ensures ClassifySubscribeError(msg) != Unclassified
    ensures Mentions(msg, ClassifySubscribeError(msg))
    ensures Rank(ClassifySubscribeError(msg)) <= Rank(c)
  {
    SubscribeOrderUnrolled(msg);
  }

  /** Position in the subscribe diagnosis order. */
  function Rank(c: ErrorCause): nat
  {
    match c
    case SubscriptionNotFound => 0
    case ConnectionClosed => 1
    case RateLimited => 2
    case TimedOut => 3
    case _ => 4
  }

  // The `Lagged(n)` count.

  const LAGGED_OPEN: string := "Lagged("

  /** The text between the first "Lagged(" and the next ")" (or the next "Lagged(" or the end),
      or "?" when the message has no "Lagged(". */
  function LaggedCount(msg: string): (r: string)
    ensures IndexOf(msg, LAGGED_OPEN).None? ==> r == "?"
    ensures IndexOf(msg, LAGGED_OPEN).Some? ==>
      var tail := msg[IndexOf(msg, LAGGED_OPEN).value + |LAGGED_OPEN|..];
      && |r| <= |tail| && tail[..|r|] == r
      && (forall j | 0 <= j < |r| :: r[j] != ')' && !OccursAt(tail, LAGGED_OPEN, j))
      && (|r| < |tail| ==> tail[|r|] == ')' || OccursAt(tail, LAGGED_OPEN, |r|))
  {
    match IndexOf(msg, LAGGED_OPEN)
    case None => "?"
    case Some(i) =>
      var tail := msg[i + |LAGGED_OPEN|..];
      var rest := BeforeFirst(tail, LAGGED_OPEN);
      var r := BeforeFirst(rest, ")");
      LaggedCountEnds(tail, rest, r);
      r
  }

  /** The count ends at the first ")" or the next "Lagged(", whichever comes first, or at the end. */
  lemma LaggedCountEnds(tail: string, rest: string, r: string)
    requires rest == BeforeFirst(tail, LAGGED_OPEN) && r == BeforeFirst(rest, ")")
    ensures |r| <= |tail| && tail[..|r|] == r
    ensures forall j | 0 <= j < |r| :: r[j] != ')' && !OccursAt(tail, LAGGED_OPEN, j)
    ensures |r| < |tail| ==> tail[|r|] == ')' || OccursAt(tail, LAGGED_OPEN, |r|)
  {
    NoCloseBefore(rest, r);
    if |r| < |rest| {
      assert OccursAt(rest, ")", |r|);
      assert tail[|r|] == rest[|r|];
    }
  }

  /** The part before the first ")" holds no ")". */
  lemma NoCloseBefore(s: string, r: string)
    requires r == BeforeFirst(s, ")")
    ensures forall j | 0 <= j < |r| :: r[j] != ')'
  {
    forall j | 0 <= j < |r|
      ensures r[j] != ')'
    {
      assert !OccursAt(s, ")", j) && s[j..j + 1] == [r[j]];
    }
  }

  /** The debug text of a lag by `n` messages yields `n`'s digits. */
  lemma LaggedCountReadsBack(n: nat)
    ensures var msg := LAGGED_OPEN + Decimal(n) + ")";
      && AllDigits(LaggedCount(msg)) && DigitsValue(LaggedCount(msg)) == n
  {
    var digits := Decimal(n);
    var msg := LAGGED_OPEN + digits + ")";
    assert msg[..|LAGGED_OPEN|] == LAGGED_OPEN;
    assert IndexOf(msg, LAGGED_OPEN) == Some(0);
    var tail := msg[|LAGGED_OPEN|..];
    assert tail == digits + ")";
    assert IndexOf(tail, LAGGED_OPEN).None? by {
      forall j | 0 <= j
        ensures !OccursAt(tail, LAGGED_OPEN, j)
      {
        if j + |LAGGED_OPEN| <= |tail| {
          assert tail[j] == if j < |digits| then digits[j] else ')';
          assert tail[j..j + |LAGGED_OPEN|][0] != LAGGED_OPEN[0];
        }
      }
    }
    assert BeforeFirst(tail, LAGGED_OPEN) == tail;
    assert OccursAt(tail, ")", |digits|);
    match IndexOf(tail, ")")
    case Some(k) =>
      assert tail[k] == ')';
      assert k == |digits|;
    DecimalRoundTrip(n);
  }

  // The progress counter.

  /** What the ingestor logs: subscribe failures and retries, progress, hand-off outcomes
      and the end of a subscription. */
  datatype Log =
    | SubscribeFailed(cause: ErrorCause)
    | RetryingIn(secs: nat)
    | SubscribedToHashes
    | FullCaptureMode
    | TargetDetected(hash: Hash)
    | Scanned(count: nat)
    | Processed(count: nat)
    | DroppedFull(hash: Hash)
    | ChannelGone(hash: Hash)
    | TxNotFound(hash: Hash)
    | TxFetchFailed(hash: Hash)
    | Reconnecting(cause: ErrorCause, laggedBy: string)

  /** The progress lines for the `count`-th hash of a subscription. */
  function ProgressLogs(count: nat): (logs: seq<Log>)
    ensures Scanned(count) in logs <==> count % 10 == 0
    ensures Processed(count) in logs <==> count % 100 == 0
    ensures forall i | 0 <= i < |logs| :: logs[i] == Scanned(count) || logs[i] == Processed(count)
  {
    (if count % 10 == 0 then [Scanned(count)] else [])
      + (if count % 100 == 0 then [Processed(count)] else [])
  }

  function CountProcessed(log: seq<Log>): nat
  {
    if log == [] then 0
    else CountProcessed(log[..|log| - 1]) + if log[|log| - 1].Processed? then 1 else 0
  }

  function CountScanned(log: seq<Log>): nat
  {
    if log == [] then 0
    else CountScanned(log[..|log| - 1]) + if log[|log| - 1].Scanned? then 1 else 0
  }

  lemma {:induction false} CountsAdd(a: seq<Log>, b: seq<Log>)
    ensures CountProcessed(a + b) == CountProcessed(a) + CountProcessed(b)
    ensures CountScanned(a + b) == CountScanned(a) + CountScanned(b)
    decreases |b|
  {
    if b == [] {
      assert a + b == a;
    } else {
      assert (a + b)[..|a + b| - 1] == a + b[..|b| - 1];
      CountsAdd(a, b[..|b| - 1]);
    }
  }

  // One run of the ingestor over a script of node answers.

  /** What fetching a transaction by its hash gave. */
  datatype Fetch = Found(tx: Transaction) | Missing | FetchError(reason: string)

  /** One pending-transaction hash from the subscription, with the result of fetching it. */
  datatype Notice = Notice(hash: Hash, fetch: Fetch)

  /** One subscribe attempt: refused with an error, or a stream of hashes that ends with a read error. */
  datatype Attempt = Refused(error: string) | Streamed(notices: seq<Notice>, streamError: string)

  datatype IngestState = IngestState(delay: nat, log: seq<Log>, buffer: seq<Transaction>)

  /** The lines logged once a subscribe succeeds. */
  const SUBSCRIBED_LOGS: seq<Log> := [SubscribedToHashes, FullCaptureMode]

  /** The log line for a refused hand-off. */
  function SendLogs(outcome: SendOutcome, hash: Hash): seq<Log>
  {
    match outcome
    case Sent => []
    case Full => [DroppedFull(hash)]
    case Closed => [ChannelGone(hash)]
  }

  /** The fetch of one hash and the hand-off of what it found: the lines logged and the
      channel buffer afterwards. A found transaction joins the back of the buffer exactly when
      the receiver is open and there is room; nothing else changes the buffer. */
  function HandOff(buffer: seq<Transaction>, n: Notice, capacity: nat, receiverOpen: bool): (r: (seq<Log>, seq<Transaction>))
    ensures 1 <= |r.0| <= 2
    ensures forall i | 0 <= i < |r.0| ::
      (r.0[i].TargetDetected? || r.0[i].DroppedFull? || r.0[i].ChannelGone? || r.0[i].TxNotFound? || r.0[i].TxFetchFailed?)
      && r.0[i].hash == n.hash
    ensures r.0[0] == TargetDetected(n.hash) <==> n.fetch.Found?
    ensures n.fetch.Found? && !receiverOpen ==> r.0 == [TargetDetected(n.hash), ChannelGone(n.hash)]
    ensures n.fetch.Found? && receiverOpen && |buffer| >= capacity ==> r.0 == [TargetDetected(n.hash), DroppedFull(n.hash)]
    ensures n.fetch.Found? && receiverOpen && |buffer| < capacity ==> r.0 == [TargetDetected(n.hash)]
    ensures n.fetch.Missing? ==> r.0 == [TxNotFound(n.hash)]
    ensures n.fetch.FetchError? ==> r.0 == [TxFetchFailed(n.hash)]
    ensures n.fetch.Found? && receiverOpen && |buffer| < capacity ==> r.1 == buffer + [n.fetch.tx]
    ensures !(n.fetch.Found? && receiverOpen && |buffer| < capacity) ==> r.1 == buffer
  {
    match n.fetch
    case Found(tx) =>
      if !IsTargetTransaction(tx.input) then ([], buffer)
      else
        var (outcome, buffer') := Offer(buffer, capacity, receiverOpen, tx);
        ([TargetDetected(n.hash)] + SendLogs(outcome, n.hash), buffer')
    case Missing => ([TxNotFound(n.hash)], buffer)
    case FetchError(_) => ([TxFetchFailed(n.hash)], buffer)
  }

  /** Handle the `count`-th hash of a subscription: progress lines, then the fetch and hand-off. */
  function AfterNotice(s: IngestState, count: nat, n: Notice, capacity: nat, receiverOpen: bool): IngestState
  {
    var (logs, buffer) := HandOff(s.buffer, n, capacity, receiverOpen);
    IngestState(s.delay, s.log + ProgressLogs(count) + logs, buffer)
  }

  /** Handle a subscription's hashes in order; the counter starts from zero. */
  function AfterNotices(s: IngestState, ns: seq<Notice>, capacity: nat, receiverOpen: bool): IngestState
  {
    if ns == [] then s
    else AfterNotice(AfterNotices(s, ns[..|ns| - 1], capacity, receiverOpen), |ns|, ns[|ns| - 1], capacity, receiverOpen)
  }

  /** The lag count logged when a stream read fails, or nothing for other causes. */
  function LaggedBy(msg: string): string
  {
    if ClassifyStreamError(msg) == Lagged then LaggedCount(msg) else ""
  }

  /** One subscribe attempt: a refusal logs, sleeps the current delay and backs off; a
      subscription resets the delay, handles its hashes and reconnects on the read error. */
  function AfterAttempt(s: IngestState, a: Attempt, capacity: nat, receiverOpen: bool): IngestState
  {
    match a
    case Refused(error) =>
      IngestState(NextDelay(s.delay), s.log + [SubscribeFailed(ClassifySubscribeError(error)), RetryingIn(s.delay)], s.buffer)
    case Streamed(ns, error) =>
      var t := AfterNotices(IngestState(INITIAL_RETRY_DELAY, s.log + SUBSCRIBED_LOGS, s.buffer), ns, capacity, receiverOpen);
      t.(log := t.log + [Reconnecting(ClassifyStreamError(error), LaggedBy(error))])
  }

  /** The whole run from a fresh start, with `buffer` already queued in the channel. */
  function Ingest(attempts: seq<Attempt>, capacity: nat, receiverOpen: bool, buffer: seq<Transaction>): IngestState
  {
    if attempts == [] then IngestState(INITIAL_RETRY_DELAY, [], buffer)
    else AfterAttempt(Ingest(attempts[..|attempts| - 1], capacity, receiverOpen, buffer), attempts[|attempts| - 1], capacity, receiverOpen)
  }

  /** Fetch one announced hash and hand what was found to the channel. */
  method HandOffNotice(notice: Notice, channel: Channel<Transaction>) returns (logs: seq<Log>)
    requires channel.Valid() && channel.senderOpen
    modifies channel
    ensures channel.Valid() && channel.senderOpen && channel.receiverOpen == old(channel.receiverOpen)
    ensures (logs, channel.buffer) == HandOff(old(channel.buffer), notice, channel.capacity, channel.receiverOpen)
  {
    logs := [];
    match notice.fetch
    case Found(tx) =>
      if IsTargetTransaction(tx.input) {
        logs := [TargetDetected(notice.hash)];
        var outcome := channel.TrySend(tx);
        if outcome == Full {
          logs := logs + [DroppedFull(notice.hash)];
        } else if outcome == Closed {
          logs := logs + [ChannelGone(notice.hash)];
        }
        assert logs == [TargetDetected(notice.hash)] + SendLogs(outcome, notice.hash);
      }
    case Missing =>
      logs := [TxNotFound(notice.hash)];
    case FetchError(_) =>
      logs := [TxFetchFailed(notice.hash)];
  }

  /** The inner loop: count each announced hash, log progress, then hand the transaction off. */
  method RunSubscription(notices: seq<Notice>, channel: Channel<Transaction>, delay: nat, log0: seq<Log>)
    returns (log: seq<Log>)
    requires channel.Valid() && channel.senderOpen
    modifies channel
    ensures channel.Valid() && channel.senderOpen && channel.receiverOpen == old(channel.receiverOpen)
    ensures IngestState(delay, log, channel.buffer)
         == AfterNotices(IngestState(delay, log0, old(channel.buffer)), notices, channel.capacity, channel.receiverOpen)
  {
    ghost var start := IngestState(delay, log0, channel.buffer);
    ghost var capacity, receiverOpen := channel.capacity, channel.receiverOpen;
    log := log0;
    for count := 0 to |notices|
      invariant channel.Valid() && channel.senderOpen && channel.receiverOpen == receiverOpen
      invariant IngestState(delay, log, channel.buffer) == AfterNotices(start, notices[..count], capacity, receiverOpen)
    {
      ghost var before := IngestState(delay, log, channel.buffer);
      var seen := count + 1;
      if seen % 10 == 0 {
        log := log + [Scanned(seen)];
      }
      if seen % 100 == 0 {
        log := log + [Processed(seen)];
      }
      assert log == before.log + ProgressLogs(seen);
      var logs := HandOffNotice(notices[count], channel);
      log := log + logs;
      NoticesStep(start, notices, count, capacity, receiverOpen, before, IngestState(delay, log, channel.buffer));
    }
    assert notices[..|notices|] == notices;
  }

  /** One turn of the outer loop: subscribe, and either back off or drain the subscription. */
  method RunAttempt(attempt: Attempt, channel: Channel<Transaction>, delay0: nat, log0: seq<Log>)
    returns (delay: nat, log: seq<Log>)
    requires channel.Valid() && channel.senderOpen
    modifies channel
    ensures channel.Valid() && channel.senderOpen && channel.receiverOpen == old(channel.receiverOpen)
    ensures IngestState(delay, log, channel.buffer)
         == AfterAttempt(IngestState(delay0, log0, old(channel.buffer)), attempt, channel.capacity, channel.receiverOpen)
  {
    match attempt
    case Refused(error) =>
      log := log0 + [SubscribeFailed(ClassifySubscribeError(error)), RetryingIn(delay0)];
      delay := NextDelay(delay0);
    case Streamed(notices, error) =>
      delay := INITIAL_RETRY_DELAY;
      log := RunSubscription(notices, channel, delay, log0 + SUBSCRIBED_LOGS);
      var cause := ClassifyStreamError(error);
      var laggedBy := "";
      if cause == Lagged {
        laggedBy := LaggedCount(error);
      }
      log := log + [Reconnecting(cause, laggedBy)];
  }

  /** `spawn_ingestor` over the script `attempts`, handing transactions to `channel`. */
  method RunIngestor(attempts: seq<Attempt>, channel: Channel<Transaction>) returns (delay: nat, log: seq<Log>)
    requires channel.Valid() && channel.senderOpen
    modifies channel
    ensures channel.Valid() && channel.senderOpen && channel.receiverOpen == old(channel.receiverOpen)
    ensures IngestState(delay, log, channel.buffer) == Ingest(attempts, channel.capacity, channel.receiverOpen, old(channel.buffer))
  {
    ghost var buffer0 := channel.buffer;
    ghost var capacity, receiverOpen := channel.capacity, channel.receiverOpen;
    delay, log := INITIAL_RETRY_DELAY, [];
    for k := 0 to |attempts|
      invariant channel.Valid() && channel.senderOpen && channel.receiverOpen == receiverOpen
      invariant IngestState(delay, log, channel.buffer) == Ingest(attempts[..k], capacity, receiverOpen, buffer0)
    {
      ghost var before := IngestState(delay, log, channel.buffer);
      delay, log := RunAttempt(attempts[k], channel, delay, log);
      IngestStep(attempts, k, capacity, receiverOpen, buffer0, before, IngestState(delay, log, channel.buffer));
    }
    assert attempts[..|attempts|] == attempts;
  }

  /** Handling one more hash is one more step, with the counter at its position. */
  lemma NoticesStep(s: IngestState, ns: seq<Notice>, k: nat, capacity: nat, receiverOpen: bool,
                    before: IngestState, after: IngestState)
    requires k < |ns|
    requires before == AfterNotices(s, ns[..k], capacity, receiverOpen)
    requires after == AfterNotice(before, k + 1, ns[k], capacity, receiverOpen)
    ensures after == AfterNotices(s, ns[..k + 1], capacity, receiverOpen)
  {
    assert ns[..k + 1][..k] == ns[..k];
  }

  /** The run over one more attempt is one more step of the run. */
  lemma IngestStep(attempts: seq<Attempt>, k: nat, capacity: nat, receiverOpen: bool, buffer: seq<Transaction>,
                   before: IngestState, after: IngestState)
    requires k < |attempts|
    requires before == Ingest(attempts[..k], capacity, receiverOpen, buffer)
    requires after == AfterAttempt(before, attempts[k], capacity, receiverOpen)
    ensures after == Ingest(attempts[..k + 1], capacity, receiverOpen, buffer)
  {
    assert attempts[..k + 1][..k] == attempts[..k];
  }

  // Properties of a run.

  /** Handling hashes leaves the delay alone. */
  lemma {:induction false} NoticesKeepDelay(s: IngestState, ns: seq<Notice>, capacity: nat, receiverOpen: bool)
    ensures AfterNotices(s, ns, capacity, receiverOpen).delay == s.delay
  {
    if ns != [] {
      NoticesKeepDelay(s, ns[..|ns| - 1], capacity, receiverOpen);
    }
  }

  /** The delay is between one second and a minute, and so was every sleep so far. */
  predicate DelaysBounded(s: IngestState)
  {
    && 1 <= s.delay <= MAX_RETRY_DELAY
    && forall i | 0 <= i < |s.log| && s.log[i].RetryingIn? :: 1 <= s.log[i].secs <= MAX_RETRY_DELAY
  }

  /** Log lines other than retries keep the bound. */
  lemma AppendKeepsBounded(s: IngestState, extra: seq<Log>, buffer: seq<Transaction>)
    requires DelaysBounded(s)
    requires forall i | 0 <= i < |extra| :: !extra[i].RetryingIn?
    ensures DelaysBounded(IngestState(s.delay, s.log + extra, buffer))
  {
    var log := s.log + extra;
    assert forall i | |s.log| <= i < |log| :: log[i] == extra[i - |s.log|];
  }

  lemma {:induction false} NoticesKeepBounded(s: IngestState, ns: seq<Notice>, capacity: nat, receiverOpen: bool)
    requires DelaysBounded(s)
    ensures DelaysBounded(AfterNotices(s, ns, capacity, receiverOpen))
  {
    if ns != [] {
      NoticesKeepBounded(s, ns[..|ns| - 1], capacity, receiverOpen);
      var p := AfterNotices(s, ns[..|ns| - 1], capacity, receiverOpen);
      var r := HandOff(p.buffer, ns[|ns| - 1], capacity, receiverOpen);
      AppendKeepsBounded(p, ProgressLogs(|ns|), p.buffer);
      AppendKeepsBounded(IngestState(p.delay, p.log + ProgressLogs(|ns|), p.buffer), r.0, r.1);
    }
  }

  lemma AttemptKeepsDelaysBounded(s: IngestState, a: Attempt, capacity: nat, receiverOpen: bool)
    requires DelaysBounded(s)
    ensures DelaysBounded(AfterAttempt(s, a, capacity, receiverOpen))
  {
    match a
    case Refused(error) =>
      var log := s.log + [SubscribeFailed(ClassifySubscribeError(error)), RetryingIn(s.delay)];
      assert forall i | |s.log| <= i < |log| :: log[i].RetryingIn? ==> log[i].secs == s.delay;
    case Streamed(ns, error) =>
      var start := IngestState(INITIAL_RETRY_DELAY, s.log + SUBSCRIBED_LOGS, s.buffer);
      AppendKeepsBounded(IngestState(INITIAL_RETRY_DELAY, s.log, s.buffer), SUBSCRIBED_LOGS, s.buffer);
      NoticesKeepBounded(start, ns, capacity, receiverOpen);
      var u := AfterNotices(start, ns, capacity, receiverOpen);
      AppendKeepsBounded(u, [Reconnecting(ClassifyStreamError(error), LaggedBy(error))], u.buffer);
  }

  /** The delay stays between one second and a minute, and so does every sleep. */
  lemma {:induction false} DelayBounded(attempts: seq<Attempt>, capacity: nat, receiverOpen: bool, buffer: seq<Transaction>)
    ensures DelaysBounded(Ingest(attempts, capacity, receiverOpen, buffer))
  {
    if attempts != [] {
      DelayBounded(attempts[..|attempts| - 1], capacity, receiverOpen, buffer);
      AttemptKeepsDelaysBounded(Ingest(attempts[..|attempts| - 1], capacity, receiverOpen, buffer),
                                attempts[|attempts| - 1], capacity, receiverOpen);
    }
  }

  /** A successful subscribe resets the delay to one second. */
  lemma SubscribeResetsDelay(attempts: seq<Attempt>, ns: seq<Notice>, error: string,
                             capacity: nat, receiverOpen: bool, buffer: seq<Transaction>)
    ensures Ingest(attempts + [Streamed(ns, error)], capacity, receiverOpen, buffer).delay == INITIAL_RETRY_DELAY
  {
    var all := attempts + [Streamed(ns, error)];
    assert all[..|all| - 1] == attempts;
    var p := Ingest(attempts, capacity, receiverOpen, buffer);
    NoticesKeepDelay(IngestState(INITIAL_RETRY_DELAY, p.log + SUBSCRIBED_LOGS, p.buffer), ns, capacity, receiverOpen);
  }

  /** After a fresh start or a subscription, `k` refusals in a row leave the delay at the
      k-th step of the backoff schedule. */
  lemma {:induction false} RefusalsFollowSchedule(attempts: seq<Attempt>, refusals: seq<Attempt>,
                                                  capacity: nat, receiverOpen: bool, buffer: seq<Transaction>)
    requires attempts == [] || attempts[|attempts| - 1].Streamed?
    requires forall i | 0 <= i < |refusals| :: refusals[i].Refused?
    ensures Ingest(attempts + refusals, capacity, receiverOpen, buffer).delay == DelayAfterFailures(|refusals|)
    decreases |refusals|
  {
    if refusals == [] {
      assert attempts + refusals == attempts;
      if attempts != [] {
        var a := attempts[|attempts| - 1];
        assert attempts == attempts[..|attempts| - 1] + [a];
        SubscribeResetsDelay(attempts[..|attempts| - 1], a.notices, a.streamError, capacity, receiverOpen, buffer);
      }
    } else {
      var prev := refusals[..|refusals| - 1];
      assert (attempts + refusals)[..|attempts + refusals| - 1] == attempts + prev;
      RefusalsFollowSchedule(attempts, prev, capacity, receiverOpen, buffer);
    }
  }

  /** Within one subscription of `n` hashes the counter logs `n / 10` scan lines and
      `n / 100` progress lines. */
  lemma {:induction false} ProgressCadence(s: IngestState, ns: seq<Notice>, capacity: nat, receiverOpen: bool)
    ensures CountProcessed(AfterNotices(s, ns, capacity, receiverOpen).log) == CountProcessed(s.log) + |ns| / 100
    ensures CountScanned(AfterNotices(s, ns, capacity, receiverOpen).log) == CountScanned(s.log) + |ns| / 10
  {
    if ns != [] {
      var m := ns[..|ns| - 1];
      ProgressCadence(s, m, capacity, receiverOpen);
      var p := AfterNotices(s, m, capacity, receiverOpen);
      var logs := HandOff(p.buffer, ns[|ns| - 1], capacity, receiverOpen).0;
      NoProgressIn(logs);
      ProgressLogCounts(|ns|);
      CountsAdd(p.log + ProgressLogs(|ns|), logs);
      CountsAdd(p.log, ProgressLogs(|ns|));
    }
  }

  lemma ProgressLogCounts(count: nat)
    ensures CountProcessed(ProgressLogs(count)) == (if count % 100 == 0 then 1 else 0)
    ensures CountScanned(ProgressLogs(count)) == (if count % 10 == 0 then 1 else 0)
  {
    var scanned: seq<Log> := if count % 10 == 0 then [Scanned(count)] else [];
    var processed: seq<Log> := if count % 100 == 0 then [Processed(count)] else [];
    assert ProgressLogs(count) == scanned + processed;
    CountsAdd(scanned, processed);
    SingleCounts(Scanned(count));
    SingleCounts(Processed(count));
  }

  lemma SingleCounts(l: Log)
    ensures CountProcessed([l]) == (if l.Processed? then 1 else 0)
    ensures CountScanned([l]) == (if l.Scanned? then 1 else 0)
  {
    assert [l][..0] == [];
  }

  lemma {:induction false} NoProgressIn(log: seq<Log>)
    requires forall i | 0 <= i < |log| :: !log[i].Processed? && !log[i].Scanned?
    ensures CountProcessed(log) == 0 && CountScanned(log) == 0
  {
    if log != [] {
      NoProgressIn(log[..|log| - 1]);
    }
  }

  /** The channel never holds more than its capacity, keeps what was queued before the run
      in front, and gains nothing when its receiver is closed. */
  lemma {:induction false} BufferStaysBounded(attempts: seq<Attempt>, capacity: nat, receiverOpen: bool, buffer: seq<Transaction>)
    requires |buffer| <= capacity
    ensures var b := Ingest(attempts, capacity, receiverOpen, buffer).buffer;
      && |b| <= capacity && |buffer| <= |b| && b[..|buffer|] == buffer
      && (!receiverOpen ==> b == buffer)
  {
    if attempts != [] {
      var prev := attempts[..|attempts| - 1];
      BufferStaysBounded(prev, capacity, receiverOpen, buffer);
      var p := Ingest(prev, capacity, receiverOpen, buffer);
      match attempts[|attempts| - 1]
      case Refused(_) =>
      case Streamed(ns, _) =>
        NoticesKeepBuffer(IngestState(INITIAL_RETRY_DELAY, p.log + SUBSCRIBED_LOGS, p.buffer), ns, capacity, receiverOpen, buffer);
    }
  }

  lemma {:induction false} NoticesKeepBuffer(s: IngestState, ns: seq<Notice>, capacity: nat, receiverOpen: bool, front: seq<Transaction>)
    requires |s.buffer| <= capacity && |front| <= |s.buffer| && s.buffer[..|front|] == front
    requires !receiverOpen ==> s.buffer == front
    ensures var b := AfterNotices(s, ns, capacity, receiverOpen).buffer;
      && |b| <= capacity && |front| <= |b| && b[..|front|] == front
      && (!receiverOpen ==> b == front)
  {
    if ns != [] {
      NoticesKeepBuffer(s, ns[..|ns| - 1], capacity, receiverOpen, front);
      var p := AfterNotices(s, ns[..|ns| - 1], capacity, receiverOpen);
      var t := AfterNotices(s, ns, capacity, receiverOpen);
      if |t.buffer| > |p.buffer| {
        assert t.buffer[..|p.buffer|] == p.buffer;
      }
    }
  }
}
