/**
 * The webhook sink (src/discord.rs): the request-spacing rate limiter over an
 * explicit nanosecond clock, the strings computed for an alert (the shortened
 * hash link, the address renderings and the relative timestamp), and the
 * outcome of a send, which `execute` never lets escape.
 */
module Discord {
  import opened Primitives
  import opened Text
  import opened Action

  const NANOS_PER_SEC: nat := 1_000_000_000

  /** Sixty seconds in nanoseconds: the window `requests_per_minute` counts over. */
  const MINUTE_NANOS: nat := 60_000_000_000

  /** The webhook client's fixed budget. */
  const DEFAULT_REQUESTS_PER_MINUTE: nat := 25

  /** `Duration::from_secs(60) / requests_per_minute`: a minute split evenly, truncated to whole nanoseconds. */
  function MinInterval(requestsPerMinute: nat): (interval: nat)
    requires requestsPerMinute > 0
    ensures interval * requestsPerMinute <= MINUTE_NANOS < (interval + 1) * requestsPerMinute
  {
    MINUTE_NANOS / requestsPerMinute
  }

  /** With the default budget the spacing is exactly 2.4 seconds. */
  lemma DefaultMinInterval()
    ensures MinInterval(DEFAULT_REQUESTS_PER_MINUTE) == 2_400_000_000
  {
  }

  /** `Instant::elapsed`: time since `since`, saturating at zero for an instant in the future. */
  function Elapsed(since: int, now: int): (e: nat)
    ensures now >= since ==> e == now - since
    ensures now < since ==> e == 0
  {
    if now >= since then now - since else 0
  }

  /** How long `acquire` sleeps: the rest of the interval, or nothing once it has passed. */
  function WaitTime(lastRequest: int, minInterval: nat, now: int): (w: nat)
    ensures w <= minInterval
    ensures w == 0 <==> Elapsed(lastRequest, now) >= minInterval
    ensures w > 0 ==> Elapsed(lastRequest, now) + w == minInterval
  {
    var elapsed := Elapsed(lastRequest, now);
    if elapsed < minInterval then minInterval - elapsed else 0
  }

  /** Spaces webhook requests at least `minInterval` nanoseconds apart. */
  class RateLimiter {
    var lastRequest: int
    const minInterval: nat

    /** `RateLimiter::new`: back-dates the last request by one interval, so the first caller goes through. */
    constructor (requestsPerMinute: nat, now: int)
      requires 0 < requestsPerMinute < 0x1_0000_0000
      ensures minInterval == MinInterval(requestsPerMinute)
      ensures lastRequest == now - minInterval
    {
      minInterval := MinInterval(requestsPerMinute);
      lastRequest := now - MinInterval(requestsPerMinute);
    }

    /** `acquire`, called at clock reading `now`; `resumed` is the clock read after the sleep,
        so it lies at least the sleep past `now`. Records `resumed` as the latest request. */
    method Acquire(now: int, resumed: int) returns (waited: nat)
      requires resumed >= now + WaitTime(lastRequest, minInterval, now)
      modifies this
      ensures waited == WaitTime(old(lastRequest), minInterval, now)
      ensures lastRequest == resumed
    {
      var elapsed := Elapsed(lastRequest, now);
      waited := 0;
      if elapsed < minInterval {
        waited := minInterval - elapsed;
      }
      lastRequest := resumed;
    }
  }

  /** The first acquire after construction, at any time not before it, never sleeps. */
  lemma FirstAcquireNeverWaits(requestsPerMinute: nat, created: int, now: int)
    requires requestsPerMinute > 0 && now >= created
    ensures WaitTime(created - MinInterval(requestsPerMinute), MinInterval(requestsPerMinute), now) == 0
  {
  }

  /** On a clock that does not run backwards, a request released at `first` and the next one,
      asked for at `now` and released at `resumed`, are at least the interval apart. */
  lemma SuccessiveAcquiresSpaced(first: int, minInterval: nat, now: int, resumed: int)
    requires now >= first
    requires resumed >= now + WaitTime(first, minInterval, now)
    ensures resumed - first >= minInterval
  {
  }

  /** Callers queue on the limiter's mutex: the i-th caller asks at `asks[i]` and its
      `acquire` starts then, or when the previous caller's acquire returned if that is later.
      It sleeps `WaitTime` and wakes `lates[i]` after the sleep ends. `Releases` gives the
      clock reading at which each acquire returns, starting from a limiter whose last request
      was at `last`. */
  function Releases(last: int, minInterval: nat, asks: seq<int>, lates: seq<nat>): (released: seq<int>)
    requires |lates| == |asks|
    ensures |released| == |asks|
  {
    if asks == [] then []
    else
      var n := |asks| - 1;
      var front := Releases(last, minInterval, asks[..n], lates[..n]);
      var previous := if n == 0 then last else front[n - 1];
      var start := if n == 0 || asks[n] >= previous then asks[n] else previous;
      front + [start + WaitTime(previous, minInterval, start) + lates[n]]
  }

  /** However closely the callers ask, consecutive acquires return at least the interval
      apart, and no acquire returns before it was asked for. */
  lemma {:induction false} ReleasesSpaced(last: int, minInterval: nat, asks: seq<int>, lates: seq<nat>)
    requires |lates| == |asks|
    ensures var r := Releases(last, minInterval, asks, lates);
      && (forall i | 0 < i < |r| :: r[i] - r[i - 1] >= minInterval)
      && (forall i | 0 <= i < |r| :: asks[i] <= r[i])
  {
    if asks != [] {
      var n := |asks| - 1;
      ReleasesSpaced(last, minInterval, asks[..n], lates[..n]);
      var front := Releases(last, minInterval, asks[..n], lates[..n]);
      var r := Releases(last, minInterval, asks, lates);
      assert r[..n] == front;
      if n > 0 {
        var start := if asks[n] >= front[n - 1] then asks[n] else front[n - 1];
        SuccessiveAcquiresSpaced(front[n - 1], minInterval, start, r[n] - lates[n]);
      }
    }
  }

  /** A run of acquires on one limiter, each started as `Releases` describes. */
  method AcquireAll(limiter: RateLimiter, asks: seq<int>, lates: seq<nat>) returns (released: seq<int>)
    requires |lates| == |asks|
    modifies limiter
    ensures released == Releases(old(limiter.lastRequest), limiter.minInterval, asks, lates)
    ensures forall i | 0 < i < |released| :: released[i] - released[i - 1] >= limiter.minInterval
    ensures forall i | 0 <= i < |released| :: asks[i] <= released[i]
    ensures |asks| > 0 ==> limiter.lastRequest == released[|asks| - 1]
    ensures |asks| == 0 ==> limiter.lastRequest == old(limiter.lastRequest)
  {
    ghost var last := limiter.lastRequest;
    released := [];
    for k := 0 to |asks|
      invariant released == Releases(last, limiter.minInterval, asks[..k], lates[..k])
      invariant k > 0 ==> limiter.lastRequest == released[k - 1]
      invariant k == 0 ==> limiter.lastRequest == last
    {
      var start := asks[k];
      if k > 0 && asks[k] < limiter.lastRequest {
        start := limiter.lastRequest;
      }
      var wait := WaitTime(limiter.lastRequest, limiter.minInterval, start);
      var resumed := start + wait + lates[k];
      var _ := limiter.Acquire(start, resumed);
      ReleasesStep(last, limiter.minInterval, asks, lates, k, released, resumed);
      released := released + [resumed];
    }
    assert asks[..|asks|] == asks && lates[..|lates|] == lates;
    ReleasesSpaced(last, limiter.minInterval, asks, lates);
  }

  /** One more acquire extends the releases by its own. */
  lemma ReleasesStep(last: int, minInterval: nat, asks: seq<int>, lates: seq<nat>, k: nat,
                     before: seq<int>, resumed: int)
    requires |lates| == |asks| && k < |asks|
    requires before == Releases(last, minInterval, asks[..k], lates[..k])
    requires var previous := if k == 0 then last else before[k - 1];
      var start := if k == 0 || asks[k] >= previous then asks[k] else previous;
      resumed == start + WaitTime(previous, minInterval, start) + lates[k]
    ensures before + [resumed] == Releases(last, minInterval, asks[..k + 1], lates[..k + 1])
  {
    assert asks[..k + 1][..k] == asks[..k] && lates[..k + 1][..k] == lates[..k];
  }

  // The strings an alert carries.

  /** Eight hex digits hold 32 bits. */
  lemma HexWidth8()
    ensures Pow16(8) == 0x1_0000_0000
  {
    assert Pow16(4) == 0x1_0000;
    Pow16Add(4, 4);
  }

  /** Forty hex digits hold an address. */
  lemma HexWidth40()
    ensures Pow16(40) == ADDRESS_LIMIT
  {
    HexWidth32();
    Pow16Add(32, 8);
  }

  /** Fifty-six hex digits hold 224 bits. */
  lemma HexWidth56()
    ensures Pow16(56) == 0x1_0000_0000_0000_0000_0000_0000_0000_0000_0000_0000_0000_0000_0000_0000
  {
    HexWidth32();
    Pow16Add(32, 16);
    Pow16Add(48, 8);
  }

  /** Sixty-four hex digits hold a hash. */
  lemma HexWidth64()
    ensures Pow16(64) == U256_LIMIT
  {
    HexWidth32();
    Pow16Add(32, 32);
  }

  lemma HexWidth32()
    ensures Pow16(8) == 0x1_0000_0000
    ensures Pow16(16) == 0x1_0000_0000_0000_0000
    ensures Pow16(32) == 0x1_0000_0000_0000_0000_0000_0000_0000_0000
  {
    HexWidth8();
    Pow16Add(8, 8);
    Pow16Add(16, 16);
  }

  /** `{:?}` of a hash: "0x" and all 64 lowercase hex digits. */
  function HashText(h: Hash): (s: string)
    ensures |s| == 66 && s[..2] == "0x" && AllHex(s[2..])
    ensures HexValue(s[2..]) == h
  {
    HexWidth64();
    HexRoundTrip(h, 64);
    var s := "0x" + Hex(h, 64);
    assert s[2..] == Hex(h, 64);
    s
  }

  /** `{:#x}` of an address: "0x" and all 40 lowercase hex digits. */
  function AddressText(a: Address): (s: string)
    ensures |s| == 42 && s[..2] == "0x" && AllHex(s[2..])
    ensures HexValue(s[2..]) == a
  {
    HexWidth40();
    HexRoundTrip(a, 40);
    var s := "0x" + Hex(a, 40);
    assert s[2..] == Hex(a, 40);
    s
  }

  /** The first ten characters, an ellipsis, then the last eight; both slices need ten characters. */
  function ShortHash(text: string): (s: string)
    requires |text| >= 10
    ensures |s| == 21
  {
    text[..10] + "..." + text[|text| - 8..]
  }

  const EXPLORER_TX_PREFIX: string := "https://sepolia.etherscan.io/tx/"

  /** The "transaction" field: the shortened hash as a markdown link to the block explorer.
      The link text is the shortened hash and the link target is the explorer's page for the
      full hash, whose digits read back as the hash. */
  function TxDisplay(h: Hash): (s: string)
    ensures |s| == 1 + 21 + 2 + |EXPLORER_TX_PREFIX| + 66 + 1
    ensures s[0] == '[' && s[1..22] == ShortHash(HashText(h)) && s[22..24] == "]("
    ensures s[24..24 + |EXPLORER_TX_PREFIX|] == EXPLORER_TX_PREFIX && s[|s| - 1] == ')'
    ensures var full := s[24 + |EXPLORER_TX_PREFIX|..|s| - 1];
      full[..2] == "0x" && AllHex(full[2..]) && HexValue(full[2..]) == h
  {
    var text := HashText(h);
    var s := "[" + ShortHash(text) + "](" + EXPLORER_TX_PREFIX + text + ")";
    assert s[24 + |EXPLORER_TX_PREFIX|..|s| - 1] == text;
    s
  }

  /** The shortened hash keeps "0x", the top 32 bits and the bottom 32 bits of the hash. */
  lemma ShortHashShowsEnds(h: Hash)
    ensures var s := ShortHash(HashText(h));
      && s[..2] == "0x" && s[10..13] == "..."
      && AllHex(s[2..10]) && AllHex(s[13..])
      && HexValue(s[2..10]) == h / 0x1_0000_0000_0000_0000_0000_0000_0000_0000_0000_0000_0000_0000_0000_0000
      && HexValue(s[13..]) == h % 0x1_0000_0000
  {
    var digits := Hex(h, 64);
    var text := HashText(h);
    assert text == "0x" + digits;
    ShortHashParts(text);
    assert text[2..10] == digits[..8];
    assert text[|text| - 8..] == digits[56..];
    TopHexDigits(h);
    BottomHexDigits(h);
  }

  /** Where the pieces of the shortened form come from. */
  lemma ShortHashParts(text: string)
    requires |text| >= 10
    ensures var s := ShortHash(text);
      s[..10] == text[..10] && s[10..13] == "..." && s[13..] == text[|text| - 8..]
  {
  }

  /** The first eight of the 64 hex digits are the hash's top 32 bits. */
  lemma TopHexDigits(h: Hash)
    ensures HexValue(Hex(h, 64)[..8]) == h / 0x1_0000_0000_0000_0000_0000_0000_0000_0000_0000_0000_0000_0000_0000_0000
  {
    HexWidth64();
    HexWidth56();
    var digits := Hex(h, 64);
    HexRoundTrip(h, 64);
    assert digits == digits[..8] + digits[8..];
    HexValueConcat(digits[..8], digits[8..]);
    DivisionByParts(h, HexValue(digits[..8]), Pow16(56), HexValue(digits[8..]));
  }

  /** The last eight of the 64 hex digits are the hash's bottom 32 bits. */
  lemma BottomHexDigits(h: Hash)
    ensures HexValue(Hex(h, 64)[56..]) == h % 0x1_0000_0000
  {
    HexWidth64();
    HexWidth8();
    var digits := Hex(h, 64);
    HexRoundTrip(h, 64);
    assert digits == digits[..56] + digits[56..];
    HexValueConcat(digits[..56], digits[56..]);
    DivisionByParts(h, HexValue(digits[..56]), Pow16(8), HexValue(digits[56..]));
  }

  /** A number split as a multiple of `d` plus something below `d`. */
  lemma DivisionByParts(n: nat, q: nat, d: nat, r: nat)
    requires n == q * d + r && r < d
    ensures n / d == q && n % d == r
  {
    var k := q - n / d;
    assert k * d == n % d - r;
    MultipleBounds(k, d);
  }

  lemma MultipleBounds(k: int, d: nat)
    ensures k >= 1 ==> k * d >= d
    ensures k <= -1 ==> k * d <= -(d as int)
  {
  }

  /** The "detected" field: Discord's relative-time tag on whole seconds, `detected_at / 1000`. */
  function DetectedField(detectedAt: Millis): (s: string)
    ensures |s| >= 7 && s[..3] == "<t:" && s[|s| - 3..] == ":R>"
  {
    "<t:" + Decimal(detectedAt / 1000) + ":R>"
  }

  /** The tag reads back as the detection time truncated to the second. */
  lemma DetectedFieldReadsBack(detectedAt: Millis)
    ensures var s := DetectedField(detectedAt);
      var secs := s[3..|s| - 3];
      && AllDigits(secs)
      && DigitsValue(secs) * 1000 <= detectedAt < DigitsValue(secs) * 1000 + 1000
  {
    var seconds := detectedAt / 1000;
    var s := DetectedField(detectedAt);
    assert s[3..|s| - 3] == Decimal(seconds);
    DecimalRoundTrip(seconds);
  }

  /** The text fields an alert embeds, in the order the embed lists them (the ether amount,
      a float rendering, is not part of this model). */
  datatype AlertFields = AlertFields(methodName: string, transaction: string, from: string, to: string, detected: string)

  function Alert(tx: TargetTransaction): AlertFields
  {
    AlertFields("`" + tx.methodName + "`", TxDisplay(tx.txHash),
      "`" + AddressText(tx.from) + "`", "`" + AddressText(tx.to) + "`", DetectedField(tx.detectedAt))
  }

  /** A field holding an address in backticks: "0x" and 40 hex digits that read back as `a`. */
  predicate ShowsAddress(field: string, a: Address)
  {
    |field| == 44 && field[0] == '`' && field[43] == '`' && field[1..3] == "0x"
    && AllHex(field[3..43]) && HexValue(field[3..43]) == a
  }

  /** What a reader of the alert recovers: the method in backticks, the sender and recipient
      addresses, the link to the transaction (shortened hash as text) and the detection time
      in whole seconds. */
  lemma AlertReadsBack(tx: TargetTransaction)
    ensures var a := Alert(tx);
      && |a.methodName| == |tx.methodName| + 2 && a.methodName[0] == '`' && a.methodName[|a.methodName| - 1] == '`'
      && a.methodName[1..|a.methodName| - 1] == tx.methodName
      && ShowsAddress(a.from, tx.from) && ShowsAddress(a.to, tx.to)
      && a.transaction[1..22] == ShortHash(HashText(tx.txHash))
      && HexValue(a.transaction[26 + |EXPLORER_TX_PREFIX|..|a.transaction| - 1]) == tx.txHash
      && var secs := a.detected[3..|a.detected| - 3];
         AllDigits(secs) && DigitsValue(secs) == tx.detectedAt / 1000
  {
    var a := Alert(tx);
    AddressField(tx.from);
    AddressField(tx.to);
    var t := a.transaction;
    var full := t[24 + |EXPLORER_TX_PREFIX|..|t| - 1];
    assert full[2..] == t[26 + |EXPLORER_TX_PREFIX|..|t| - 1];
    DetectedFieldReadsBack(tx.detectedAt);
  }

  lemma AddressField(a: Address)
    ensures ShowsAddress("`" + AddressText(a) + "`", a)
  {
    var text := AddressText(a);
    var field := "`" + text + "`";
    assert field[1..3] == text[..2] && field[3..43] == text[2..];
  }

  /** What the webhook POST came back with. */
  datatype HttpOutcome = Response(status: nat, body: string) | TransportFailure(reason: string)

  datatype SendError = WebhookFailed(status: nat, body: string) | SendFailed(reason: string)

  predicate IsSuccess(status: nat) { 200 <= status < 300 }

  /** The result of `send_alert` once the request has been made. */
  function SendResult(outcome: HttpOutcome): (r: Result<(), SendError>)
    ensures r.Ok? <==> outcome.Response? && IsSuccess(outcome.status)
    ensures r.Err? && outcome.Response? ==> r.error == WebhookFailed(outcome.status, outcome.body)
    ensures outcome.TransportFailure? ==> r == Err(SendFailed(outcome.reason))
  {
    match outcome
    case TransportFailure(reason) => Err(SendFailed(reason))
    case Response(status, body) =>
      if IsSuccess(status) then Ok(()) else Err(WebhookFailed(status, body))
  }

  /** The webhook sink: where alerts go and the limiter that paces them. */
  class DiscordClient {
    const webhookUrl: string
    const rateLimiter: RateLimiter

    /** `DiscordClient::new`: the given webhook and a limiter at the default budget. */
    constructor (url: string, now: int)
      ensures webhookUrl == url
      ensures fresh(rateLimiter)
      ensures rateLimiter.minInterval == MinInterval(DEFAULT_REQUESTS_PER_MINUTE)
      ensures rateLimiter.lastRequest == now - rateLimiter.minInterval
    {
      webhookUrl := url;
      rateLimiter := new RateLimiter(DEFAULT_REQUESTS_PER_MINUTE, now);
    }

    /** `send_alert`: waits its turn, builds the alert, posts it, and fails exactly when the
        post fails or is answered with a status outside 2xx. */
    method SendAlert(tx: TargetTransaction, now: int, resumed: int, outcome: HttpOutcome)
      returns (alert: AlertFields, r: Result<(), SendError>)
      requires resumed >= now + WaitTime(rateLimiter.lastRequest, rateLimiter.minInterval, now)
      modifies rateLimiter
      ensures rateLimiter.lastRequest == resumed
      ensures alert == Alert(tx)
      ensures r == SendResult(outcome)
    {
      var _ := rateLimiter.Acquire(now, resumed);
      alert := Alert(tx);
      r := SendResult(outcome);
    }

    /** `execute`: logs and swallows a failed send, so it always succeeds. */
    method Execute(tx: TargetTransaction, now: int, resumed: int, outcome: HttpOutcome)
      returns (r: Result<(), SendError>)
      requires resumed >= now + WaitTime(rateLimiter.lastRequest, rateLimiter.minInterval, now)
      modifies rateLimiter
      ensures rateLimiter.lastRequest == resumed
      ensures r.Ok?
    {
      var _, sent := SendAlert(tx, now, resumed, outcome);
      r := Ok(());
    }
  }
}
