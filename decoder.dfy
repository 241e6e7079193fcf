/**
 * Selector-driven calldata decoder (src/decoder.rs): the decoded record, the
 * selector table, the permissive pre-filter and `decode_transaction`, whose
 * fail-open policy turns every input into a record.
 */
module Decoder {
  import opened Primitives
  import opened RouterCalls

  /** The normalised result of decoding one transaction's calldata. */
  datatype DecodedTx = DecodedTx(
    amountOutMin: U256,
    path: seq<Address>,
    to: Address,
    deadline: U256,
    effectiveValue: U256,
    methodName: string)

  // Selectors: the first four bytes of calldata.
  const SWAP_EXACT_ETH_FOR_TOKENS: seq<byte> := [0x7f, 0xf3, 0x6a, 0xb5]
  const SWAP_EXACT_TOKENS_FOR_ETH: seq<byte> := [0x18, 0xcb, 0xaf, 0xe5]
  const SWAP_EXACT_TOKENS_FOR_TOKENS: seq<byte> := [0x38, 0xed, 0x17, 0x39]
  const SWAP_ETH_FOR_EXACT_TOKENS: seq<byte> := [0xfb, 0x3b, 0xdb, 0x41]
  const EXACT_INPUT_SINGLE: seq<byte> := [0x41, 0x4b, 0xf3, 0x89]
  const EXACT_INPUT: seq<byte> := [0xc0, 0x4b, 0x8d, 0x59]
  const MULTICALL_V3: seq<byte> := [0x5a, 0xe4, 0x01, 0xdc]
  const EXECUTE_V3: seq<byte> := [0x24, 0x85, 0x62, 0x29]
  const AGGREGATOR_SWAP: seq<byte> := [0x12, 0xaa, 0x3c, 0xaf]
  const UNISWAP_V3_SWAP_TO: seq<byte> := [0xbc, 0x65, 0x1e, 0x96]

  /** The selectors `decode_transaction` has a layout for. */
  const HANDLED_SELECTORS: set<seq<byte>> :=
    {SWAP_EXACT_ETH_FOR_TOKENS, SWAP_EXACT_TOKENS_FOR_ETH, SWAP_EXACT_TOKENS_FOR_TOKENS, EXACT_INPUT_SINGLE, EXACT_INPUT}

  /** Selectors that are declared but have no layout, so they decode to "Unknown". */
  const UNHANDLED_SELECTORS: set<seq<byte>> :=
    {SWAP_ETH_FOR_EXACT_TOKENS, MULTICALL_V3, EXECUTE_V3, AGGREGATOR_SWAP, UNISWAP_V3_SWAP_TO}

  /** Every method tag a decoded record can carry. */
  const METHOD_TAGS: set<string> := {
    "Native Transfer", "Unknown", "swapExactETHForTokens", "swapExactTokensForETH",
    "swapExactTokensForTokens", "exactInputSingle", "exactInput"}

  /** The cheap pre-filter: full-capture mode accepts every transaction. */
  function IsTargetTransaction(input: seq<byte>): (r: bool)
    ensures r
  {
    true
  }

  /** The zeroed record carrying only the observed value, under the given tag. */
  function Fallback(methodName: string, txValue: U256): DecodedTx
  {
    DecodedTx(0, [], ZERO_ADDRESS, 0, txValue, methodName)
  }

  /** A successfully parsed call, with the larger of the observed and the declared input amount. */
  function Parsed(amountOutMin: U256, path: seq<Address>, to: Address, deadline: U256,
                  amountIn: U256, methodName: string, txValue: U256): DecodedTx
  {
    var effectiveValue := if txValue > amountIn then txValue else amountIn;
    DecodedTx(amountOutMin, path, to, deadline, effectiveValue, methodName)
  }

  /** `decode_transaction`: never fails; a layout that does not parse falls back to "Unknown". */
  function DecodeTransaction(input: seq<byte>, txValue: U256): (r: Result<DecodedTx, string>)
    ensures r.Ok?
    ensures r.value.effectiveValue >= txValue
    ensures r.value.methodName in METHOD_TAGS && r.value.methodName != ""
  {
    if |input| == 0 then Ok(Fallback("Native Transfer", txValue))
    else if |input| < 4 then Ok(Fallback("Unknown", txValue))
    else Ok(DecodeSelected(input[..4], input[4..], txValue))
  }

  /** The match on the selector: each handled selector applies its layout to the argument bytes. */
  function DecodeSelected(selector: seq<byte>, body: seq<byte>, txValue: U256): (d: DecodedTx)
    ensures d.effectiveValue >= txValue
    ensures d.methodName in METHOD_TAGS && d.methodName != "Native Transfer"
  {
    if selector == SWAP_EXACT_ETH_FOR_TOKENS then FromSwapExactEthForTokens(body, txValue)
    else if selector == SWAP_EXACT_TOKENS_FOR_ETH then FromSwapExactTokens(body, "swapExactTokensForETH", txValue)
    else if selector == SWAP_EXACT_TOKENS_FOR_TOKENS then FromSwapExactTokens(body, "swapExactTokensForTokens", txValue)
    else if selector == EXACT_INPUT_SINGLE then FromExactInputSingle(body, txValue)
    else if selector == EXACT_INPUT then FromExactInput(body, txValue)
    else Fallback("Unknown", txValue)
  }

  /** The swapExactETHForTokens arm: the ETH sent is the only input amount. */
  function FromSwapExactEthForTokens(body: seq<byte>, txValue: U256): (d: DecodedTx)
    ensures d.effectiveValue == txValue
    ensures d.methodName == (if ParseSwapExactEthForTokens(body).Some? then "swapExactETHForTokens" else "Unknown")
  {
    match ParseSwapExactEthForTokens(body)
    case Some(c) => Parsed(c.amountOutMin, c.path, c.to, c.deadline, 0, "swapExactETHForTokens", txValue)
    case None => Fallback("Unknown", txValue)
  }

  /** The swapExactTokensForETH and swapExactTokensForTokens arms, which share a layout. */
  function FromSwapExactTokens(body: seq<byte>, methodName: string, txValue: U256): (d: DecodedTx)
    ensures d.effectiveValue >= txValue
    ensures d.methodName == (if ParseSwapExactTokens(body).Some? then methodName else "Unknown")
  {
    match ParseSwapExactTokens(body)
    case Some(c) => Parsed(c.amountOutMin, c.path, c.to, c.deadline, c.amountIn, methodName, txValue)
    case None => Fallback("Unknown", txValue)
  }

  /** The exactInputSingle arm: the path is the two tokens of the single pool. */
  function FromExactInputSingle(body: seq<byte>, txValue: U256): (d: DecodedTx)
    ensures d.effectiveValue >= txValue
    ensures d.methodName == (if ParseExactInputSingle(body).Some? then "exactInputSingle" else "Unknown")
  {
    match ParseExactInputSingle(body)
    case Some(p) =>
      Parsed(p.amountOutMinimum, [p.tokenIn, p.tokenOut], p.recipient, p.deadline, p.amountIn, "exactInputSingle", txValue)
    case None => Fallback("Unknown", txValue)
  }

  /** The exactInput arm: the packed route is not unpacked, so the path stays empty. */
  function FromExactInput(body: seq<byte>, txValue: U256): (d: DecodedTx)
    ensures d.effectiveValue >= txValue
    ensures d.methodName == (if ParseExactInput(body).Some? then "exactInput" else "Unknown")
  {
    match ParseExactInput(body)
    case Some(p) => Parsed(p.amountOutMinimum, [], p.recipient, p.deadline, p.amountIn, "exactInput", txValue)
    case None => Fallback("Unknown", txValue)
  }

  // Fail-open cases.

  /** Empty calldata is a plain value transfer. */
  lemma DecodeEmpty(txValue: U256)
    ensures DecodeTransaction([], txValue)
         == Ok(DecodedTx(0, [], ZERO_ADDRESS, 0, txValue, "Native Transfer"))
  {
  }

  /** One to three bytes of calldata cannot hold a selector. */
  lemma DecodeShort(input: seq<byte>, txValue: U256)
    requires 1 <= |input| < 4
    ensures DecodeTransaction(input, txValue) == Ok(DecodedTx(0, [], ZERO_ADDRESS, 0, txValue, "Unknown"))
  {
  }

  /** A selector without a layout, declared or not, yields the "Unknown" default. */
  lemma DecodeUnhandledSelector(input: seq<byte>, txValue: U256)
    requires |input| >= 4 && input[..4] !in HANDLED_SELECTORS
    ensures DecodeTransaction(input, txValue) == Ok(DecodedTx(0, [], ZERO_ADDRESS, 0, txValue, "Unknown"))
  {
  }

  /** In particular the five declared selectors with no match arm all decode to "Unknown". */
  lemma DeclaredButUnhandled(input: seq<byte>, txValue: U256)
    requires |input| >= 4 && input[..4] in UNHANDLED_SELECTORS
    ensures DecodeTransaction(input, txValue) == Ok(DecodedTx(0, [], ZERO_ADDRESS, 0, txValue, "Unknown"))
  {
    assert UNHANDLED_SELECTORS !! HANDLED_SELECTORS;
    DecodeUnhandledSelector(input, txValue);
  }

  /** The layout the decoder applies to the bytes after a handled selector parses. */
  predicate LayoutParses(selector: seq<byte>, body: seq<byte>)
  {
    if selector == SWAP_EXACT_ETH_FOR_TOKENS then ParseSwapExactEthForTokens(body).Some?
    else if selector == SWAP_EXACT_TOKENS_FOR_ETH || selector == SWAP_EXACT_TOKENS_FOR_TOKENS then ParseSwapExactTokens(body).Some?
    else if selector == EXACT_INPUT_SINGLE then ParseExactInputSingle(body).Some?
    else if selector == EXACT_INPUT then ParseExactInput(body).Some?
    else false
  }

  /** The result is "Unknown" exactly when the input has calldata and no layout parses it, and then it
      is the zeroed default; "Native Transfer" is exactly the empty input. */
  lemma DecodeFailOpen(input: seq<byte>, txValue: U256)
    ensures var d := DecodeTransaction(input, txValue).value;
      && (d.methodName == "Native Transfer" <==> input == [])
      && (d.methodName == "Unknown" <==> input != [] && (|input| < 4 || !LayoutParses(input[..4], input[4..])))
      && (d.methodName in {"Native Transfer", "Unknown"} ==> d == Fallback(d.methodName, txValue))
  {
    if |input| >= 4 {
      var selector, body := input[..4], input[4..];
      if selector == SWAP_EXACT_ETH_FOR_TOKENS {
        assert LayoutParses(selector, body) == ParseSwapExactEthForTokens(body).Some?;
      } else if selector == SWAP_EXACT_TOKENS_FOR_ETH || selector == SWAP_EXACT_TOKENS_FOR_TOKENS {
        assert LayoutParses(selector, body) == ParseSwapExactTokens(body).Some?;
      } else if selector == EXACT_INPUT_SINGLE {
        assert LayoutParses(selector, body) == ParseExactInputSingle(body).Some?;
      } else if selector == EXACT_INPUT {
        assert LayoutParses(selector, body) == ParseExactInput(body).Some?;
      } else {
        assert !LayoutParses(selector, body);
      }
    }
  }

  /** The matched-but-malformed example: a known selector followed by two zero bytes. */
  lemma DecodeTruncatedSwap(txValue: U256)
    ensures DecodeTransaction([0x7f, 0xf3, 0x6a, 0xb5, 0x00, 0x00], txValue)
         == Ok(DecodedTx(0, [], ZERO_ADDRESS, 0, txValue, "Unknown"))
  {
    var input: seq<byte> := [0x7f, 0xf3, 0x6a, 0xb5, 0x00, 0x00];
    assert input[..4] == SWAP_EXACT_ETH_FOR_TOKENS;
    assert ParseSwapExactEthForTokens(input[4..]).None?;
  }

  /** The source's malformed inputs: a cut-off selector, a bare selector and a selector with two
      argument bytes all come back as the "Unknown" default. */
  lemma MalformedCalldataFailsOpen(txValue: U256)
    ensures DecodeTransaction([0x7f, 0xf3, 0x6a], txValue) == Ok(Fallback("Unknown", txValue))
    ensures DecodeTransaction([0x7f, 0xf3, 0x6a, 0xb5], txValue) == Ok(Fallback("Unknown", txValue))
    ensures DecodeTransaction([0x7f, 0xf3, 0x6a, 0xb5, 0x00, 0x00], txValue) == Ok(Fallback("Unknown", txValue))
  {
    var bare: seq<byte> := [0x7f, 0xf3, 0x6a, 0xb5];
    assert bare[..4] == SWAP_EXACT_ETH_FOR_TOKENS && bare[4..] == [];
    assert ParseSwapExactEthForTokens([]).None?;
    DecodeTruncatedSwap(txValue);
  }

  // Successful decodes, one per layout: the calldata is the selector followed by the canonical
  // argument encoding.

  lemma DecodeSwapExactEthForTokens(c: SwapExactEthForTokensCall, txValue: U256)
    requires |c.path| < U256_LIMIT
    ensures DecodeTransaction(SWAP_EXACT_ETH_FOR_TOKENS + EncodeSwapExactEthForTokens(c), txValue)
         == Ok(DecodedTx(c.amountOutMin, c.path, c.to, c.deadline, txValue, "swapExactETHForTokens"))
  {
    var input := SWAP_EXACT_ETH_FOR_TOKENS + EncodeSwapExactEthForTokens(c);
    assert input[..4] == SWAP_EXACT_ETH_FOR_TOKENS && input[4..] == EncodeSwapExactEthForTokens(c);
    ParseSwapExactEthForTokensExact(input[4..], c);
  }

  lemma DecodeSwapExactTokensForEth(c: SwapExactTokensCall, txValue: U256)
    requires |c.path| < U256_LIMIT
    ensures DecodeTransaction(SWAP_EXACT_TOKENS_FOR_ETH + EncodeSwapExactTokens(c), txValue)
         == Ok(DecodedTx(c.amountOutMin, c.path, c.to, c.deadline,
                         if txValue > c.amountIn then txValue else c.amountIn, "swapExactTokensForETH"))
  {
    var input := SWAP_EXACT_TOKENS_FOR_ETH + EncodeSwapExactTokens(c);
    assert input[..4] == SWAP_EXACT_TOKENS_FOR_ETH && input[4..] == EncodeSwapExactTokens(c);
    ParseSwapExactTokensExact(input[4..], c);
  }

  lemma DecodeSwapExactTokensForTokens(c: SwapExactTokensCall, txValue: U256)
    requires |c.path| < U256_LIMIT
    ensures DecodeTransaction(SWAP_EXACT_TOKENS_FOR_TOKENS + EncodeSwapExactTokens(c), txValue)
         == Ok(DecodedTx(c.amountOutMin, c.path, c.to, c.deadline,
                         if txValue > c.amountIn then txValue else c.amountIn, "swapExactTokensForTokens"))
  {
    var input := SWAP_EXACT_TOKENS_FOR_TOKENS + EncodeSwapExactTokens(c);
    assert input[..4] == SWAP_EXACT_TOKENS_FOR_TOKENS && input[4..] == EncodeSwapExactTokens(c);
    ParseSwapExactTokensExact(input[4..], c);
  }

  lemma DecodeExactInputSingle(p: ExactInputSingleParams, txValue: U256)
    ensures DecodeTransaction(EXACT_INPUT_SINGLE + EncodeExactInputSingle(p), txValue)
         == Ok(DecodedTx(p.amountOutMinimum, [p.tokenIn, p.tokenOut], p.recipient, p.deadline,
                         if txValue > p.amountIn then txValue else p.amountIn, "exactInputSingle"))
  {
    var input := EXACT_INPUT_SINGLE + EncodeExactInputSingle(p);
    assert input[..4] == EXACT_INPUT_SINGLE && input[4..] == EncodeExactInputSingle(p);
    ParseExactInputSingleExact(input[4..], p);
  }

  /** exactInput carries its route as packed `bytes`; the decoded path is left empty. */
  lemma DecodeExactInput(p: ExactInputParams, txValue: U256)
    requires |p.path| < U256_LIMIT
    ensures DecodeTransaction(EXACT_INPUT + EncodeExactInput(p), txValue)
         == Ok(DecodedTx(p.amountOutMinimum, [], p.recipient, p.deadline,
                         if txValue > p.amountIn then txValue else p.amountIn, "exactInput"))
  {
    var body := EncodeExactInput(p);
    ParseExactInputExact(body, p);
    DecodeExactInputBody(body, p, txValue);
  }

  lemma DecodeExactInputBody(body: seq<byte>, p: ExactInputParams, txValue: U256)
    requires ParseExactInput(body) == Some(p)
    ensures DecodeTransaction(EXACT_INPUT + body, txValue)
         == Ok(DecodedTx(p.amountOutMinimum, [], p.recipient, p.deadline,
                         if txValue > p.amountIn then txValue else p.amountIn, "exactInput"))
  {
    DecodeWithSelector(EXACT_INPUT, body, txValue);
    SelectsExactInput(body, txValue);
  }

  lemma SelectsExactInput(body: seq<byte>, txValue: U256)
    ensures DecodeSelected(EXACT_INPUT, body, txValue) == FromExactInput(body, txValue)
  {
    assert EXACT_INPUT[0] == 0xc0;
  }

  /** Calldata made of a selector and argument bytes is decoded by the selector's arm. */
  lemma DecodeWithSelector(selector: seq<byte>, body: seq<byte>, txValue: U256)
    requires |selector| == 4
    ensures DecodeTransaction(selector + body, txValue) == Ok(DecodeSelected(selector, body, txValue))
  {
    var input := selector + body;
    assert input[..4] == selector && input[4..] == body;
  }

  /** The source's swapExactETHForTokens vector: one ether sent, minimum output 1000. */
  lemma DecodeEthForTokensVector()
    ensures var d := DecodeTransaction(SWAP_EXACT_ETH_FOR_TOKENS + EncodeSwapExactEthForTokens(SwapExactEthForTokensCall(
        1000,
        [0xc02aaa39b223fe8d0a0e5c4f27ead9083c756cc2, 0xdac17f958d2ee523a2206206994597c13d831ec7],
        0x742d35cc6634c0532925a3b844bc9e7595f0beb0,
        0x6555a3a0)), 1_000_000_000_000_000_000).value;
      d.effectiveValue == 1_000_000_000_000_000_000 && d.amountOutMin == 1000 && d.methodName == "swapExactETHForTokens"
  {
    DecodeSwapExactEthForTokens(SwapExactEthForTokensCall(
      1000,
      [0xc02aaa39b223fe8d0a0e5c4f27ead9083c756cc2, 0xdac17f958d2ee523a2206206994597c13d831ec7],
      0x742d35cc6634c0532925a3b844bc9e7595f0beb0,
      0x6555a3a0), 1_000_000_000_000_000_000);
  }

  /** The source's swapExactTokensForETH vector: nothing sent, 5000 tokens offered. */
  lemma DecodeTokensForEthVector()
    ensures var d := DecodeTransaction(SWAP_EXACT_TOKENS_FOR_ETH + EncodeSwapExactTokens(SwapExactTokensCall(
        5000, 1000,
        [0xdac17f958d2ee523a2206206994597c13d831ec7, 0xc02aaa39b223fe8d0a0e5c4f27ead9083c756cc2],
        0x742d35cc6634c0532925a3b844bc9e7595f0beb0,
        0x6555a3a0)), 0).value;
      d.effectiveValue == 5000 && d.methodName == "swapExactTokensForETH"
  {
    DecodeSwapExactTokensForEth(SwapExactTokensCall(
      5000, 1000,
      [0xdac17f958d2ee523a2206206994597c13d831ec7, 0xc02aaa39b223fe8d0a0e5c4f27ead9083c756cc2],
      0x742d35cc6634c0532925a3b844bc9e7595f0beb0,
      0x6555a3a0), 0);
  }

  /** The input amount the calldata declares: `amountIn` of a token swap, exactInputSingle or
      exactInput call that parses, and zero for everything else (no calldata, an unhandled
      selector, a body that does not parse, and swapExactETHForTokens, whose input is the ETH sent). */
  function DeclaredAmountIn(input: seq<byte>): U256
  {
    if |input| < 4 then 0 else SelectedAmountIn(input[..4], input[4..])
  }

  function SelectedAmountIn(selector: seq<byte>, body: seq<byte>): U256
  {
    if (selector == SWAP_EXACT_TOKENS_FOR_ETH || selector == SWAP_EXACT_TOKENS_FOR_TOKENS)
       && ParseSwapExactTokens(body).Some? then ParseSwapExactTokens(body).value.amountIn
    else if selector == EXACT_INPUT_SINGLE && ParseExactInputSingle(body).Some? then ParseExactInputSingle(body).value.amountIn
    else if selector == EXACT_INPUT && ParseExactInput(body).Some? then ParseExactInput(body).value.amountIn
    else 0
  }

  /** The effective value is the larger of the ETH sent and the amount the parsed call
      declares; a native transfer, an "Unknown" record and swapExactETHForTokens carry the ETH sent. */
  lemma EffectiveValueIsMax(input: seq<byte>, txValue: U256)
    ensures var d := DecodeTransaction(input, txValue).value;
      && d.effectiveValue == Max(txValue, DeclaredAmountIn(input))
      && (d.methodName in {"Native Transfer", "Unknown", "swapExactETHForTokens"} ==> d.effectiveValue == txValue)
  {
    if |input| >= 4 {
      var selector, body := input[..4], input[4..];
      assert input == selector + body;
      DecodeWithSelector(selector, body, txValue);
      SelectedEffectiveValue(selector, body, txValue);
    }
  }

  lemma SelectedEffectiveValue(selector: seq<byte>, body: seq<byte>, txValue: U256)
    ensures var d := DecodeSelected(selector, body, txValue);
      && d.effectiveValue == Max(txValue, SelectedAmountIn(selector, body))
      && (d.methodName in {"Unknown", "swapExactETHForTokens"} ==> d.effectiveValue == txValue)
  {
    if selector == SWAP_EXACT_ETH_FOR_TOKENS {
      AmountInOfEthForTokens(body);
    } else if selector == SWAP_EXACT_TOKENS_FOR_ETH {
      AmountInOfTokens(SWAP_EXACT_TOKENS_FOR_ETH, body);
    } else if selector == SWAP_EXACT_TOKENS_FOR_TOKENS {
      SelectsTokensForTokens(body, txValue);
      AmountInOfTokens(SWAP_EXACT_TOKENS_FOR_TOKENS, body);
    } else if selector == EXACT_INPUT_SINGLE {
      SelectsExactInputSingle(body, txValue);
      AmountInOfExactInputSingle(body);
    } else if selector == EXACT_INPUT {
      SelectsExactInput(body, txValue);
      AmountInOfExactInput(body);
    }
  }

  lemma SelectsTokensForTokens(body: seq<byte>, txValue: U256)
    ensures DecodeSelected(SWAP_EXACT_TOKENS_FOR_TOKENS, body, txValue)
         == FromSwapExactTokens(body, "swapExactTokensForTokens", txValue)
  {
    assert SWAP_EXACT_TOKENS_FOR_TOKENS[0] == 0x38;
  }

  lemma SelectsExactInputSingle(body: seq<byte>, txValue: U256)
    ensures DecodeSelected(EXACT_INPUT_SINGLE, body, txValue) == FromExactInputSingle(body, txValue)
  {
    assert EXACT_INPUT_SINGLE[0] == 0x41;
  }

  lemma AmountInOfEthForTokens(body: seq<byte>)
    ensures SelectedAmountIn(SWAP_EXACT_ETH_FOR_TOKENS, body) == 0
  {
    assert SWAP_EXACT_ETH_FOR_TOKENS[0] == 0x7f;
  }

  lemma AmountInOfTokens(selector: seq<byte>, body: seq<byte>)
    requires selector == SWAP_EXACT_TOKENS_FOR_ETH || selector == SWAP_EXACT_TOKENS_FOR_TOKENS
    ensures SelectedAmountIn(selector, body)
         == if ParseSwapExactTokens(body).Some? then ParseSwapExactTokens(body).value.amountIn else 0
  {
  }

  lemma AmountInOfExactInputSingle(body: seq<byte>)
    ensures SelectedAmountIn(EXACT_INPUT_SINGLE, body)
         == if ParseExactInputSingle(body).Some? then ParseExactInputSingle(body).value.amountIn else 0
  {
    assert EXACT_INPUT_SINGLE[0] == 0x41;
  }

  lemma AmountInOfExactInput(body: seq<byte>)
    ensures SelectedAmountIn(EXACT_INPUT, body)
         == if ParseExactInput(body).Some? then ParseExactInput(body).value.amountIn else 0
  {
    assert EXACT_INPUT[0] == 0xc0;
  }

  function Max(a: U256, b: U256): U256
  {
    if a > b then a else b
  }
}
