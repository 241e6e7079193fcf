# mempool-sniper, modelled in Dafny

mempool-sniper watches an Ethereum node's pending-transaction stream. An
ingestor subscribes to the hashes of new transactions and reconnects with
exponential backoff when subscribing fails. It fetches each announced
transaction and hands it to a bounded channel without blocking. A consumer
drains the channel and decodes each transaction's calldata by its 4-byte
selector into a normalised record. It then passes the record to a sink: a
console logger, or a Discord webhook client behind a request-spacing rate
limiter.

This project models that core:

- `primitives.dfy`: bytes, U256, addresses, hashes, and the fetched
  transaction.
- `text.dfy`: decimal, zero-padded and lowercase-hex rendering, with their
  read-back functions, plus `contains`/`split` as substring search.
- `abi.dfy` and `router_calls.dfy`: the Solidity ABI layouts of the five
  router calls the decoder knows (32-byte big-endian words, head/tail
  offsets for `address[]` and `bytes`, static structs inline). Each layout
  has an encoder and a validating parser.
- `decoder.dfy`: `decode_transaction` and its fail-open policy.
- `action.dfy`: the dispatch record, `format_wei_to_eth`, and the console
  sink.
- `discord.dfy`:
  - the `RateLimiter` class over an explicit nanosecond clock;
  - the alert's text fields;
  - `send_alert`'s result, and `execute`, which swallows a failed send.
- `handoff.dfy`: the bounded `try_send`/`try_recv` channel, as a class.
- `ingestor.dfy`: `spawn_ingestor`, run over a finite script of node
  answers:
  - the backoff;
  - the first-match error classification;
  - the `Lagged(n)` extraction;
  - the progress counter;
  - the hand-off.
- `consumer.dfy`: `spawn_consumer`'s record construction and its drain of
  the channel.

Each ABI parser reads the head words and follows the offsets. It then
accepts only if re-encoding what it read gives back the input, as a decoder
in validating mode does. So each parser accepts exactly the canonical
encodings, and `Parse(body) == Some(c) <==> body == Encode(c)` is proved for
every layout.

Where the code and its own test disagree, the model follows the code:

- `is_target_transaction` returns true for every input (src/decoder.rs:90-92).
  The test at src/main.rs:451-467 expects four selectors to be rejected; the
  model returns true for them as well.
- `DiscordClient::new` names a stray `margin` field that the struct does not
  declare (src/discord.rs:47). The model's constructor sets the declared
  fields only.
- When `try_send` reports a closed channel, the ingestor logs that it is
  stopping (src/main.rs:108-110). But only that fetch task returns; the
  subscription loop goes on. The model keeps going too, logging
  `ChannelGone` for each such hash.

## Model

| member | source | states |
|---|---|---|
| Abi.BeRoundTrip | src/decoder.rs:6-58 | reading back the big-endian bytes of a number that fits the width gives the number |
| Abi.WordsAtWords | src/decoder.rs:6-58 | the words read at a position are exactly the words encoded there, whatever surrounds them |
| Abi.AddressesAtWords | src/decoder.rs:6-31 | address words encoded at a position are read back as the same addresses |
| Abi.AddressArrayAtEncoded | src/decoder.rs:6-31 | the tail of a dynamic `address[]` (length word, then one word per address) reads back as the same array |
| Abi.PadLength | src/decoder.rs:45-51 | the padding of a `bytes` tail is under one word and rounds the length up to a multiple of 32 |
| Abi.BytesAtEncoded | src/decoder.rs:45-51 | the tail of a dynamic `bytes` (length word, bytes, zero padding) reads back as the same bytes |
| RouterCalls.ParseSwapExactEthForTokens | src/decoder.rs:8-13 | a parse that succeeds returns a call whose canonical encoding is the input |
| RouterCalls.ParseSwapExactTokens | src/decoder.rs:15-29 | a parse that succeeds returns a call whose canonical encoding is the input; one layout serves both token swaps |
| RouterCalls.ParseExactInputSingle | src/decoder.rs:34-43 | a parse that succeeds returns parameters whose inline struct encoding is the input |
| RouterCalls.ParseExactInput | src/decoder.rs:45-51 | a parse that succeeds returns parameters whose encoding, with the struct behind an offset, is the input |
| RouterCalls.ParseSwapExactEthForTokensExact | src/decoder.rs:120-121 | the swapExactETHForTokens parser returns `c` if and only if the argument bytes are `c`'s canonical encoding |
| RouterCalls.ParseSwapExactTokensExact | src/decoder.rs:143-144 | the same if-and-only-if for swapExactTokensForETH and swapExactTokensForTokens |
| RouterCalls.ParseExactInputSingleExact | src/decoder.rs:189-190 | the same if-and-only-if for exactInputSingle |
| RouterCalls.ParseExactInputExact | src/decoder.rs:215-216 | the same if-and-only-if for exactInput |
| Decoder.IsTargetTransaction | src/decoder.rs:90-92 | the pre-filter accepts every input |
| Decoder.DecodeTransaction | src/decoder.rs:94-267 | decoding never fails; the effective value is at least the ETH sent; the method is one of the seven tags and never empty |
| Decoder.DecodeSelected | src/decoder.rs:117-251 | after a selector the method is never "Native Transfer", and the effective value is at least the ETH sent |
| Decoder.FromSwapExactEthForTokens | src/decoder.rs:120-141 | the swapExactETHForTokens arm values the call at the ETH sent; it is tagged only if the layout parses, and "Unknown" otherwise |
| Decoder.FromSwapExactTokens | src/decoder.rs:143-187 | the token-swap arms are worth at least the ETH sent; they are tagged only if the layout parses, and "Unknown" otherwise |
| Decoder.FromExactInputSingle | src/decoder.rs:189-213 | the exactInputSingle arm is worth at least the ETH sent; it is tagged only if the layout parses, and "Unknown" otherwise |
| Decoder.FromExactInput | src/decoder.rs:215-239 | the exactInput arm is worth at least the ETH sent; it is tagged only if the layout parses, and "Unknown" otherwise |
| Decoder.DecodeWithSelector | src/decoder.rs:106-119 | calldata of four bytes or more is decided by its first four bytes and the rest, taken separately |
| Decoder.DecodeEmpty | src/decoder.rs:95-104 | empty calldata gives the "Native Transfer" record: the ETH sent, an empty path, zero minimum, recipient and deadline |
| Decoder.DecodeShort | src/decoder.rs:106-115 | one to three bytes give the zeroed "Unknown" record carrying the ETH sent |
| Decoder.DecodeUnhandledSelector | src/decoder.rs:241-250 | any selector outside the five handled ones gives the zeroed "Unknown" record |
| Decoder.DeclaredButUnhandled | src/decoder.rs:76-88 | the five declared selectors without a match arm all give the "Unknown" record |
| Decoder.DecodeFailOpen | src/decoder.rs:94-251 | "Native Transfer" exactly for empty input; "Unknown" exactly when there is calldata and no layout parses it, and then it is the zeroed record |
| Decoder.DecodeTruncatedSwap | src/decoder.rs:335-344 | a known selector followed by two zero bytes gives "Unknown" with the ETH sent |
| Decoder.MalformedCalldataFailsOpen | src/main.rs:487-501 | the three malformed inputs of the source's check each decode to the "Unknown" record |
| Decoder.DecodeSwapExactEthForTokens | src/decoder.rs:120-129 | a canonical swapExactETHForTokens call decodes to its minimum, path, recipient and deadline, valued at the ETH sent |
| Decoder.DecodeSwapExactTokensForEth | src/decoder.rs:143-152 | a canonical swapExactTokensForETH call decodes to its fields, valued at the larger of the ETH sent and the input amount |
| Decoder.DecodeSwapExactTokensForTokens | src/decoder.rs:166-175 | the same for swapExactTokensForTokens |
| Decoder.DecodeExactInputSingle | src/decoder.rs:189-200 | a canonical exactInputSingle call decodes with path `[tokenIn, tokenOut]`, the recipient as `to`, and the larger value |
| Decoder.DecodeExactInput | src/decoder.rs:215-226 | a canonical exactInput call decodes with an empty path, even though the call has a route |
| Decoder.DecodeEthForTokensVector | src/decoder.rs:291-310 | the source's swapExactETHForTokens vector decodes to minimum 1000, valued at the one ether sent |
| Decoder.DecodeTokensForEthVector | src/decoder.rs:312-332 | the source's swapExactTokensForETH vector, with nothing sent, is valued at 5000 |
| Decoder.EffectiveValueIsMax | src/decoder.rs:253-257 | the effective value is `max(ETH sent, DeclaredAmountIn(input))`, where the declared amount is the `amountIn` of the token-swap, exactInputSingle or exactInput call that parses; transfers, "Unknown" records and swapExactETHForTokens carry exactly the ETH sent |
| Decoder.SelectedEffectiveValue | src/decoder.rs:119-257 | after the selector, the same maximum arm by arm |
| Action.FormatWeiToEth | src/action.rs:58-66 | the rendering has at least six characters, and the fifth from the end is the dot |
| Action.FractionFits | src/action.rs:61-63 | the scaled fraction stays below 10^22, far inside U256, and has at most four digits |
| Action.FormatWeiToEthReadsBack | src/action.rs:58-66 | before the dot is exactly `Decimal(wei / 10^18)`, the digits of the whole ethers with no leading zero; after it exactly four digits of `(wei % 10^18) * 10000 / 10^18`; together they are `wei / 10^14`, so the value is truncated, not rounded |
| Action.Truncation | src/action.rs:60-63 | whole ethers times 10000 plus the scaled fraction equals `wei / 10^14`, and the scaled fraction is below 10000 |
| Action.FormatOneEth | src/action.rs:74-75 | 10^18 wei renders as "1.0000" |
| Action.FormatHalfEth | src/action.rs:77-78 | 5·10^17 wei renders as "0.5000" |
| Action.FormatTenAndAQuarterEth | src/action.rs:80-81 | 1.025·10^19 wei renders as "10.2500" |
| Action.FormatSmallestUnit | src/action.rs:83-84 | 10^14 wei renders as "0.0001" |
| Action.PathDisplay | src/action.rs:38-42 | "N/A" exactly for an empty path, otherwise digits that read back as the path length |
| Action.ConsoleExecute | src/action.rs:35-55 | the console sink always succeeds |
| Discord.MinInterval | src/discord.rs:15-16 | the interval is a minute divided by the budget, truncated: `interval * rpm <= 60 s < (interval + 1) * rpm` |
| Discord.DefaultMinInterval | src/discord.rs:46 | with 25 requests per minute the interval is exactly 2.4 s |
| Discord.Elapsed | src/discord.rs:24 | the time since the last request, or zero if the clock reads earlier |
| Discord.WaitTime | src/discord.rs:24-28 | the wait is at most the interval; it is zero exactly when the interval has elapsed, and otherwise tops the elapsed time up to the interval |
| Discord.RateLimiter.constructor | src/discord.rs:15-21 | the interval is set from the budget, and the last request is back-dated by one interval |
| Discord.RateLimiter.Acquire | src/discord.rs:23-30 | waits exactly `WaitTime` for the previous state, then records the resume time as the last request |
| Discord.FirstAcquireNeverWaits | src/discord.rs:18-25 | the first acquire, at any time not before construction, does not sleep |
| Discord.SuccessiveAcquiresSpaced | src/discord.rs:24-29 | on a clock that does not run backwards, two successive acquires return at least the interval apart |
| Discord.ReleasesSpaced | src/discord.rs:23-30 | callers queued on the limiter, however closely they ask, return at least the interval apart, and none returns before it asked |
| Discord.AcquireAll | src/discord.rs:23-30 | a run of acquires returns at exactly the times `Releases` gives, so consecutive returns are at least the interval apart and none comes before its ask; afterwards the limiter's last request is the last return, or unchanged after an empty run |
| Discord.HashText | src/discord.rs:57 | a hash is shown as "0x" and 64 lowercase hex digits, which read back as the hash |
| Discord.AddressText | src/discord.rs:64 | an address is shown as "0x" and 40 lowercase hex digits, which read back as the address |
| Discord.ShortHash | src/discord.rs:58-60 | the shortened form is 21 characters; it needs a text of at least ten characters |
| Discord.TxDisplay | src/discord.rs:56-62 | the transaction field is `[`, the shortened hash, `](`, the explorer prefix, the full hash and `)`; the full hash's digits read back as the hash |
| Discord.ShortHashShowsEnds | src/discord.rs:57-60 | the shortened hash is "0x", the top 32 bits in hex, "...", and the bottom 32 bits in hex |
| Discord.TopHexDigits | src/discord.rs:59 | the first eight hex digits of a hash are its top 32 bits |
| Discord.BottomHexDigits | src/discord.rs:60 | the last eight hex digits of a hash are its bottom 32 bits |
| Discord.DetectedField | src/discord.rs:98 | the detected field is Discord's relative-time tag `<t:…:R>` |
| Discord.DetectedFieldReadsBack | src/discord.rs:98 | the tag's number is the detection time in whole seconds: `secs * 1000 <= detected_at < secs * 1000 + 1000` |
| Discord.AlertReadsBack | src/discord.rs:56-100 | from the alert a reader gets back the method (between backticks), the sender and recipient (40 hex digits that read back as the addresses), the shortened hash and the linked hash, and the detection time in whole seconds |
| Discord.SendResult | src/discord.rs:109-129 | a send succeeds exactly on a 2xx answer; otherwise it fails with the status and body, or with the transport error |
| Discord.DiscordClient.constructor | src/discord.rs:40-49 | the client keeps the webhook URL and gets a fresh limiter at 25 requests per minute |
| Discord.DiscordClient.SendAlert | src/discord.rs:51-130 | waits its turn on the limiter, builds exactly `Alert(tx)`, and returns `SendResult` of the answer |
| Discord.DiscordClient.Execute | src/discord.rs:135-148 | `execute` succeeds whatever the send returned |
| Handoff.Offer | src/main.rs:100-112 | a closed receiver refuses first, then a full buffer; only an accepted item joins the back, and otherwise the buffer is unchanged |
| Handoff.Channel.constructor | src/main.rs:280 | a fresh channel is empty, with both ends open |
| Handoff.Channel.TrySend | src/main.rs:286-290 | `try_send` changes the buffer exactly as `Offer` says and never exceeds the capacity |
| Handoff.Channel.TryRecv | src/main.rs:297 | `try_recv` takes the oldest item; on an empty buffer it reports empty or disconnected |
| Handoff.Channel.CloseReceiver | src/main.rs:108-110 | a closed receiver keeps what is buffered |
| Handoff.Channel.DropSender | src/main.rs:161-163 | dropping the sender keeps what is buffered |
| Handoff.OverflowScenario | src/main.rs:279-303 | pushing 0..total-1 into a fresh channel: the first `min(capacity, total)` are accepted, the rest are reported full, and the drain gives back exactly the accepted ones, in order, each once |
| Handoff.ChannelOverflowBehavior | src/main.rs:279-303 | capacity 4096 and 5000 pushes: 4096 sent, 904 dropped, 4096 received, all below 4096 |
| Ingestor.NextDelay | src/main.rs:60 | the next delay is doubled or capped at 60 s, never above 60 s, and never shorter than a delay of one second or more within the cap |
| Ingestor.BackoffSchedule | src/main.rs:33-34 | after k failures in a row the delay is 2^k for k <= 5, and 60 s from then on |
| Ingestor.BackoffFirstDelays | src/main.rs:57-60 | the slept delays run 1, 2, 4, 8, 16, 32, 60, 60 |
| Ingestor.FirstMatchIsFirst | src/main.rs:45-55 | the reference first-match diagnosis is unclassified exactly when no cause is mentioned; otherwise it is the earliest mentioned cause in the order |
| Ingestor.SubscribeOrderUnrolled | src/main.rs:45-55 | the first match in the subscribe order is the source's if-else chain, branch for branch |
| Ingestor.StreamOrderUnrolled | src/main.rs:126-139 | the first match in the stream order is the source's if-else chain, branch for branch |
| Ingestor.ClassifySubscribeError | src/main.rs:44-55 | the subscribe diagnosis is the first match in the order not found, connection closed, rate limit, timeout |
| Ingestor.ClassifyStreamError | src/main.rs:124-139 | the stream diagnosis is the first match in the order lag, not found, connection closed, rate limit |
| Ingestor.StreamDiagnosisMatchesSubscribe | src/main.rs:124-139 | without a lag a stream error is diagnosed as a subscribe error would be, except that a timeout is unclassified |
| Ingestor.SubscribePrecedence | src/main.rs:45-55 | a message naming several causes gets the earliest one, which it does mention |
| Ingestor.LaggedCount | src/main.rs:126-130 | "?" when there is no "Lagged("; otherwise the text right after the first "Lagged(", up to the first ")" or the next "Lagged(", whichever comes first, or to the end |
| Ingestor.LaggedCountReadsBack | src/main.rs:126-130 | for the text `Lagged(n)` the count shown is the digits of n |
| Ingestor.ProgressLogs | src/main.rs:72-80 | for the count-th hash a scan line appears exactly when `count % 10 == 0`, a progress line exactly when `count % 100 == 0`, and nothing else |
| Ingestor.CountsAdd | src/main.rs:72-80 | the progress lines of two logs add up |
| Ingestor.HandOff | src/main.rs:87-120 | one fetch logs one or two lines about that hash: "target detected" alone when the send succeeds, followed by "dropped" when the buffer is full or by "channel gone" when the receiver is closed; a missing transaction logs "not found" and a failed fetch logs "fetch failed"; the found transaction joins the back of the buffer if and only if the receiver is open and there is room, and otherwise the buffer is unchanged |
| Ingestor.HandOffNotice | src/main.rs:87-120 | the fetch-and-send step leaves exactly the logs and buffer that `HandOff` gives |
| Ingestor.RunSubscription | src/main.rs:67-122 | the inner loop, with the counter starting at zero, leaves exactly the state `AfterNotices` gives |
| Ingestor.RunAttempt | src/main.rs:36-144 | one turn of the outer loop leaves exactly the state `AfterAttempt` gives: a refusal logs, sleeps and backs off; a subscription resets the delay, handles its hashes and reconnects |
| Ingestor.RunIngestor | src/main.rs:25-146 | the whole run over a script of attempts leaves exactly the delay, log and channel that `Ingest` gives |
| Ingestor.NoticesKeepDelay | src/main.rs:67-122 | handling hashes never touches the retry delay |
| Ingestor.NoticesKeepBounded | src/main.rs:67-122 | handling hashes keeps the delay and every logged sleep within 1 to 60 seconds |
| Ingestor.AttemptKeepsDelaysBounded | src/main.rs:36-144 | one attempt keeps the delay and every logged sleep within 1 to 60 seconds |
| Ingestor.DelayBounded | src/main.rs:33-60 | the delay, and every logged sleep, stays between 1 and 60 seconds |
| Ingestor.SubscribeResetsDelay | src/main.rs:38-42 | after a successful subscribe the delay is back to one second |
| Ingestor.RefusalsFollowSchedule | src/main.rs:33-61 | after a fresh start or a subscription, k refusals in a row leave the delay at the k-th step of the schedule |
| Ingestor.ProgressCadence | src/main.rs:67-80 | a subscription of n hashes logs exactly n / 10 scan lines and n / 100 progress lines |
| Ingestor.ProgressLogCounts | src/main.rs:74-80 | one hash adds one progress line if `count % 100 == 0` and one scan line if `count % 10 == 0` |
| Ingestor.NoticesKeepBuffer | src/main.rs:87-120 | within one subscription the channel stays within capacity, keeps its front, and gains nothing once the receiver is closed |
| Ingestor.BufferStaysBounded | src/main.rs:100-112 | the channel never exceeds its capacity, keeps what was queued before in front, and gains nothing once the receiver is closed |
| Consumer.Prepare | src/main.rs:186-209 | the record always exists; decoding never makes the consumer skip a transaction |
| Consumer.PrepareKeepsIdentity | src/main.rs:199-209 | the record keeps the hash, the sender and the detection time; it is worth at least the ETH sent and carries a decoder tag |
| Consumer.PrepareCopiesDecoded | src/main.rs:202-207 | value, method, minimum, path, recipient and deadline are copied from the decoded record |
| Consumer.PrepareNativeTransfer | src/main.rs:388-401 | a plain transfer is dispatched with its own value and the "Native Transfer" tag |
| Consumer.PrepareSwapExactTokensForEth | src/main.rs:404-423 | a token-to-ETH swap is dispatched at the larger of the ETH sent and the tokens offered |
| Consumer.EndToEndMockSwap | src/main.rs:306-369 | the source's end-to-end calldata decodes to minimum 1000, the two-hop path, the recipient and deadline 1700143168, and the console sink accepts the record |
| Consumer.PrepareAll | src/main.rs:158-209 | one record per transaction taken off the channel |
| Consumer.RunPipeline | src/main.rs:254-260 | with a channel of `CHANNEL_CAPACITY` slots, the ingestor then the consumer: the channel never exceeds its capacity, and every queued transaction is dispatched in queue order |
| Consumer.PrepareAllIndexed | src/main.rs:158-209 | the i-th dispatched record is the one built from the i-th transaction at the i-th clock reading |
| Consumer.RunConsumer | src/main.rs:158-216 | the consumer drains the channel and dispatches every queued transaction, in FIFO order, as `PrepareAll` says; both ends of the channel stay as they were |
| Text.DecimalRoundTrip | src/action.rs:65 | the decimal rendering reads back as the number |
| Text.DecimalNoLeadingZero | src/action.rs:65 | the decimal rendering has no leading zero, except for zero itself |
| Text.DecimalLength | src/action.rs:65 | a number below 10^k has at most k decimal digits |
| Text.ZeroPaddedValue | src/action.rs:65 | zero padding keeps the value |
| Text.HexRoundTrip | src/discord.rs:57 | the hex rendering of a number that fits the width reads back as the number |
| Text.IndexOf | src/main.rs:45 | the search finds the first occurrence of the pattern, or reports that there is none |
| Text.BeforeFirst | src/main.rs:128-129 | the first piece of a split is a prefix that ends where the first separator starts, or the whole text |

## Left out

- Concurrency is not modelled. This covers the tokio tasks, the
  `Semaphore` permits, `tokio::spawn`, `select!` supervision and the mutex
  around the rate limiter. The ingestor's fetches are modelled as finishing
  one at a time, in the order their hashes arrived. Callers of the rate
  limiter are queued one after the other, as the mutex admits them.
  `RunPipeline` runs the ingestor to the end before the consumer starts, so
  it does not capture the two stages interleaving.
- Network and provider calls are not modelled: the WebSocket connection,
  `subscribe_pending_transactions` and `get_transaction_by_hash`. Their
  answers are the script that `RunIngestor` is given. src/ingestor.rs is not
  part of this model.
- The clock is a parameter. `Instant::now()` readings come in as integers in
  nanoseconds, `SystemTime::now()` readings as milliseconds, and the
  rate-limiter sleep as a resume time at least the wait past its start.
- The HTTP POST, the JSON embed envelope (title, colour, footer) and the
  `chrono` timestamp are not modelled. The webhook's answer is the
  `HttpOutcome` parameter.
- The float ETH amounts in the webhook alert and in the `execute` log line
  (`parse::<f64>() / 1e18` with `{:.4}`) are floating point and not
  modelled.
- Logging is modelled only as the ingestor's `Log` trace. It has one entry
  for each line the ingestor logs after "ingestor started"
  (src/main.rs:29), which is not modelled. The consumer's log lines, the
  tracing setup, the colour codes of the console line and the exact log
  wording are not modelled.
- Process bootstrap, environment and dotenv configuration, the allocator and
  the manual webhook script are I/O only and not modelled.
- The selectors are taken as given constants, not derived with Keccak.
- alloy's `abi_decode` is modelled by its observable contract in validating
  mode: it accepts exactly the canonical encoding. Its internal error
  reporting is not modelled, since the decoder discards it.
- `test_threshold_filtering` (src/main.rs:470-484) only compares
  constants. No production code uses a threshold.
- Discord.MinInterval: models `Duration::from_secs(60) / n` as a whole
  number of nanoseconds, truncated. The function itself asks only for
  `n > 0`. The `u32` argument range appears only in the limiter's
  constructor, as `0 < n < 2^32`.
- Discord.AcquireAll: the callers' clock is the script of ask times, and
  the amount each sleep overruns is a parameter. Each acquire starts at its
  ask, or when the previous acquire returned if that is later, because the
  mutex admits one caller at a time.
- Ingestor.RunIngestor: the source loops forever. The model runs over a
  finite script of attempts, and the per-subscription stream over a finite
  sequence of hashes that ends with a read error.
