/**
 * The argument layouts of the five router calls the decoder understands
 * (the `sol!` interfaces at the top of src/decoder.rs), each with its
 * canonical ABI encoder and its validating parser. A parser reads the head
 * words, follows the offsets of dynamic parts, and then accepts only if
 * re-encoding what it read reproduces the input exactly, as a validating ABI
 * decoder does; so every parser accepts exactly the canonical encodings.
 */
module RouterCalls {
  import opened Primitives
  import opened Abi

  type Uint24 = n: nat | n < 0x100_0000
  type Uint160 = n: nat | n < ADDRESS_LIMIT

  /** swapExactETHForTokens(uint amountOutMin, address[] path, address to, uint deadline) */
  datatype SwapExactEthForTokensCall =
    SwapExactEthForTokensCall(amountOutMin: U256, path: seq<Address>, to: Address, deadline: U256)

  /** swapExactTokensForETH and swapExactTokensForTokens share this parameter list:
      (uint amountIn, uint amountOutMin, address[] path, address to, uint deadline) */
  datatype SwapExactTokensCall =
    SwapExactTokensCall(amountIn: U256, amountOutMin: U256, path: seq<Address>, to: Address, deadline: U256)

  /** exactInputSingle(ExactInputSingleParams): a static struct, encoded inline. */
  datatype ExactInputSingleParams = ExactInputSingleParams(
    tokenIn: Address, tokenOut: Address, fee: Uint24, recipient: Address,
    deadline: U256, amountIn: U256, amountOutMinimum: U256, sqrtPriceLimitX96: Uint160)

  /** exactInput(ExactInputParams): a struct holding dynamic `bytes`, so encoded behind an offset. */
  datatype ExactInputParams = ExactInputParams(
    path: seq<byte>, recipient: Address, deadline: U256, amountIn: U256, amountOutMinimum: U256)

  // Encoders. The offset of a dynamic part counts from the start of its enclosing tuple.

  function EncodeSwapExactEthForTokens(c: SwapExactEthForTokensCall): (b: seq<byte>)
    requires |c.path| < U256_LIMIT
    ensures |b| == 160 + 32 * |c.path|
  {
    Words([c.amountOutMin, 4 * 32, c.to, c.deadline]) + EncodeAddresses(c.path)
  }

  function EncodeSwapExactTokens(c: SwapExactTokensCall): (b: seq<byte>)
    requires |c.path| < U256_LIMIT
    ensures |b| == 192 + 32 * |c.path|
  {
    Words([c.amountIn, c.amountOutMin, 5 * 32, c.to, c.deadline]) + EncodeAddresses(c.path)
  }

  function EncodeExactInputSingle(p: ExactInputSingleParams): (b: seq<byte>)
    ensures |b| == 8 * 32
  {
    Words([p.tokenIn, p.tokenOut, p.fee, p.recipient, p.deadline, p.amountIn, p.amountOutMinimum, p.sqrtPriceLimitX96])
  }

  function EncodeExactInput(p: ExactInputParams): (b: seq<byte>)
    requires |p.path| < U256_LIMIT
  {
    Words([32]) + Words([5 * 32, p.recipient, p.deadline, p.amountIn, p.amountOutMinimum]) + EncodeBytes(p.path)
  }

  // Validating parsers of the argument bytes that follow the 4-byte selector.

  function ParseSwapExactEthForTokens(body: seq<byte>): (r: Option<SwapExactEthForTokensCall>)
    ensures r.Some? ==> |r.value.path| < U256_LIMIT && EncodeSwapExactEthForTokens(r.value) == body
  {
    var head :- WordsAt(body, 0, 4);
    if head[2] >= ADDRESS_LIMIT then None
    else
      var path :- AddressArrayAt(body, head[1]);
      var call := SwapExactEthForTokensCall(head[0], path, head[2], head[3]);
      if EncodeSwapExactEthForTokens(call) == body then Some(call) else None
  }

  function ParseSwapExactTokens(body: seq<byte>): (r: Option<SwapExactTokensCall>)
    ensures r.Some? ==> |r.value.path| < U256_LIMIT && EncodeSwapExactTokens(r.value) == body
  {
    var head :- WordsAt(body, 0, 5);
    if head[3] >= ADDRESS_LIMIT then None
    else
      var path :- AddressArrayAt(body, head[2]);
      var call := SwapExactTokensCall(head[0], head[1], path, head[3], head[4]);
      if EncodeSwapExactTokens(call) == body then Some(call) else None
  }

  function ParseExactInputSingle(body: seq<byte>): (r: Option<ExactInputSingleParams>)
    ensures r.Some? ==> EncodeExactInputSingle(r.value) == body
  {
    var w :- WordsAt(body, 0, 8);
    if w[0] >= ADDRESS_LIMIT || w[1] >= ADDRESS_LIMIT || w[2] >= 0x100_0000
       || w[3] >= ADDRESS_LIMIT || w[7] >= ADDRESS_LIMIT then None
    else
      var params := ExactInputSingleParams(w[0], w[1], w[2], w[3], w[4], w[5], w[6], w[7]);
      if EncodeExactInputSingle(params) == body then Some(params) else None
  }

  function ParseExactInput(body: seq<byte>): (r: Option<ExactInputParams>)
    ensures r.Some? ==> |r.value.path| < U256_LIMIT && EncodeExactInput(r.value) == body
  {
    var outer :- WordsAt(body, 0, 1);
    var start := outer[0];
    var head :- WordsAt(body, start, 5);
    if head[1] >= ADDRESS_LIMIT then None
    else
      var tailAt: nat := start as nat + head[0] as nat;
      var path :- BytesAt(body, tailAt);
      var params := ExactInputParams(path, head[1], head[2], head[3], head[4]);
      if EncodeExactInput(params) == body then Some(params) else None
  }

  // Each parser accepts exactly its encoder's output.

  lemma ParseSwapExactEthForTokensExact(body: seq<byte>, c: SwapExactEthForTokensCall)
    requires |c.path| < U256_LIMIT
    ensures ParseSwapExactEthForTokens(body) == Some(c) <==> body == EncodeSwapExactEthForTokens(c)
  {
    if body == EncodeSwapExactEthForTokens(c) {
      var head := [c.amountOutMin, 4 * 32, c.to, c.deadline];
      var tail := EncodeAddresses(c.path);
      assert body == [] + Words(head) + tail;
      WordsAtWords([], head, tail);
      assert body == Words(head) + tail + [];
      AddressArrayAtEncoded(Words(head), c.path, []);
    }
  }

  lemma ParseSwapExactTokensExact(body: seq<byte>, c: SwapExactTokensCall)
    requires |c.path| < U256_LIMIT
    ensures ParseSwapExactTokens(body) == Some(c) <==> body == EncodeSwapExactTokens(c)
  {
    if body == EncodeSwapExactTokens(c) {
      var head := [c.amountIn, c.amountOutMin, 5 * 32, c.to, c.deadline];
      var tail := EncodeAddresses(c.path);
      assert body == [] + Words(head) + tail;
      WordsAtWords([], head, tail);
      assert body == Words(head) + tail + [];
      AddressArrayAtEncoded(Words(head), c.path, []);
    }
  }

  lemma ParseExactInputSingleExact(body: seq<byte>, p: ExactInputSingleParams)
    ensures ParseExactInputSingle(body) == Some(p) <==> body == EncodeExactInputSingle(p)
  {
    if body == EncodeExactInputSingle(p) {
      var w := [p.tokenIn, p.tokenOut, p.fee, p.recipient, p.deadline, p.amountIn, p.amountOutMinimum, p.sqrtPriceLimitX96];
      assert body == [] + Words(w) + [];
      WordsAtWords([], w, []);
    }
  }

  lemma ParseExactInputExact(body: seq<byte>, p: ExactInputParams)
    requires |p.path| < U256_LIMIT
    ensures ParseExactInput(body) == Some(p) <==> body == EncodeExactInput(p)
  {
    if body == EncodeExactInput(p) {
      ExactInputOuterWord(p);
      ExactInputHead(p);
      ExactInputTail(p);
      ParseExactInputFromParts(body, p);
    }
  }

  /** The parser's three reads, once each of them is known to succeed on `body`. */
  lemma ParseExactInputFromParts(body: seq<byte>, p: ExactInputParams)
    requires |p.path| < U256_LIMIT && body == EncodeExactInput(p)
    requires WordsAt(body, 0, 1) == Some([32])
    requires WordsAt(body, 32, 5) == Some([5 * 32, p.recipient, p.deadline, p.amountIn, p.amountOutMinimum])
    requires BytesAt(body, 32 + 5 * 32) == Some(p.path)
    ensures ParseExactInput(body) == Some(p)
  {
  }

  lemma ExactInputOuterWord(p: ExactInputParams)
    requires |p.path| < U256_LIMIT
    ensures WordsAt(EncodeExactInput(p), 0, 1) == Some([32])
  {
    var head := Words([5 * 32, p.recipient, p.deadline, p.amountIn, p.amountOutMinimum]);
    assert EncodeExactInput(p) == [] + Words([32]) + (head + EncodeBytes(p.path));
    WordsAtWords([], [32], head + EncodeBytes(p.path));
  }

  lemma ExactInputHead(p: ExactInputParams)
    requires |p.path| < U256_LIMIT
    ensures WordsAt(EncodeExactInput(p), 32, 5) == Some([5 * 32, p.recipient, p.deadline, p.amountIn, p.amountOutMinimum])
  {
    WordsAtWords(Words([32]), [5 * 32, p.recipient, p.deadline, p.amountIn, p.amountOutMinimum], EncodeBytes(p.path));
  }

  lemma ExactInputTail(p: ExactInputParams)
    requires |p.path| < U256_LIMIT
    ensures BytesAt(EncodeExactInput(p), 32 + 5 * 32) == Some(p.path)
  {
    var front := Words([32]) + Words([5 * 32, p.recipient, p.deadline, p.amountIn, p.amountOutMinimum]);
    assert EncodeExactInput(p) == front + EncodeBytes(p.path) + [];
    BytesAtEncoded(front, p.path, []);
  }
}
