/**
 * The dispatch record and the console sink (src/action.rs): the fixed-point
 * wei-to-ether rendering and the path-length display.
 */
module Action {
  import opened Primitives
  import opened Text

  /** The normalised record handed to a sink. */
  datatype TargetTransaction = TargetTransaction(
    txHash: Hash,
    from: Address,
    value: U256,
    methodName: string,
    amountOutMin: U256,
    path: seq<Address>,
    to: Address,
    deadline: U256,
    detectedAt: Millis)

  const WEI_PER_ETH: nat := 1_000_000_000_000_000_000

  /** One ten-thousandth of an ether, the resolution of the rendering. */
  const WEI_PER_TENTH_MILLI_ETH: nat := 100_000_000_000_000

  /** `format_wei_to_eth`: whole ethers, a dot, then four zero-padded decimals, truncated. */
  function FormatWeiToEth(wei: U256): (s: string)
    ensures |s| >= 6 && s[|s| - 5] == '.'
  {
    var whole := wei / WEI_PER_ETH;
    var fraction := wei % WEI_PER_ETH;
    var product: U256 := fraction * 10000;
    var fractionScaled := product / WEI_PER_ETH;
    FractionFits(fraction);
    Decimal(whole) + "." + ZeroPadded(fractionScaled, 4)
  }

  /** The scaled fraction fits U256 with room to spare and always has at most four digits. */
  lemma FractionFits(fraction: nat)
    requires fraction < WEI_PER_ETH
    ensures fraction * 10000 < 10_000_000_000_000_000_000_000 < U256_LIMIT
    ensures |Decimal(fraction * 10000 / WEI_PER_ETH)| <= 4
  {
    DecimalLength(fraction * 10000 / WEI_PER_ETH, 4, Pow10(4));
  }

  /** The rendering reads back: the digits before the dot are the whole ethers, the four after it the
      truncated ten-thousandths, and together they are the wei amount divided by 10^14. */
  lemma FormatWeiToEthReadsBack(wei: U256)
    ensures var s := FormatWeiToEth(wei);
      var k := |s| - 5;
      && AllDigits(s[..k]) && AllDigits(s[k + 1..])
      && s[..k] == Decimal(wei / WEI_PER_ETH)
      && (k > 1 ==> s[0] != '0')
      && DigitsValue(s[..k]) == wei / WEI_PER_ETH
      && |s[k + 1..]| == 4
      && DigitsValue(s[k + 1..]) == (wei % WEI_PER_ETH) * 10000 / WEI_PER_ETH
      && DigitsValue(s[k + 1..]) < 10000
      && DigitsValue(s[..k]) * 10000 + DigitsValue(s[k + 1..]) == wei / WEI_PER_TENTH_MILLI_ETH
  {
    var whole := wei / WEI_PER_ETH;
    var fraction := wei % WEI_PER_ETH;
    var scaled := fraction * 10000 / WEI_PER_ETH;
    FractionFits(fraction);
    DottedParts(whole, scaled);
    Truncation(wei);
  }

  /** "<whole>.<four digits>" splits at the dot back into the two renderings, and each reads back. */
  lemma DottedParts(whole: nat, scaled: nat)
    requires scaled < 10000
    ensures var s := Decimal(whole) + "." + ZeroPadded(scaled, 4);
      var k := |s| - 5;
      && s[..k] == Decimal(whole) && s[k + 1..] == ZeroPadded(scaled, 4)
      && AllDigits(s[..k]) && AllDigits(s[k + 1..])
      && (k > 1 ==> s[0] != '0')
      && DigitsValue(s[..k]) == whole
      && |s[k + 1..]| == 4 && DigitsValue(s[k + 1..]) == scaled
  {
    DecimalLength(scaled, 4, Pow10(4));
    var s := Decimal(whole) + "." + ZeroPadded(scaled, 4);
    var k := |s| - 5;
    assert s[..k] == Decimal(whole);
    assert s[k + 1..] == ZeroPadded(scaled, 4);
    if k > 1 {
      assert Decimal(0) == "0";
      DecimalNoLeadingZero(whole);
      assert s[0] == Decimal(whole)[0];
    }
    DecimalRoundTrip(whole);
    ZeroPaddedValue(scaled, 4);
  }

  /** Whole ethers and truncated ten-thousandths recombine to the wei amount in ten-thousandths. */
  lemma Truncation(wei: nat)
    ensures (wei / WEI_PER_ETH) * 10000 + (wei % WEI_PER_ETH) * 10000 / WEI_PER_ETH == wei / WEI_PER_TENTH_MILLI_ETH
    ensures (wei % WEI_PER_ETH) * 10000 / WEI_PER_ETH < 10000
  {
    var whole, fraction := wei / WEI_PER_ETH, wei % WEI_PER_ETH;
    var scaled := fraction / WEI_PER_TENTH_MILLI_ETH;
    assert fraction * 10000 / WEI_PER_ETH == scaled;
    assert wei == (whole * 10000 + scaled) * WEI_PER_TENTH_MILLI_ETH + fraction % WEI_PER_TENTH_MILLI_ETH;
  }

  // The concrete renderings the source's own checks expect.

  lemma FormatOneEth()
    ensures FormatWeiToEth(1_000_000_000_000_000_000) == "1.0000"
  {
    assert ZeroPadded(0, 4) == "0000";
  }

  lemma FormatHalfEth()
    ensures FormatWeiToEth(500_000_000_000_000_000) == "0.5000"
  {
    assert Decimal(5000) == "5000";
    assert ZeroPadded(5000, 4) == "5000";
  }

  lemma FormatTenAndAQuarterEth()
    ensures FormatWeiToEth(10_250_000_000_000_000_000) == "10.2500"
  {
    assert Decimal(10) == "10";
    assert Decimal(2500) == "2500";
    assert ZeroPadded(2500, 4) == "2500";
  }

  lemma FormatSmallestUnit()
    ensures FormatWeiToEth(100_000_000_000_000) == "0.0001"
  {
    assert ZeroPadded(1, 4) == "0001";
  }

  /** The "Path Len" column: "N/A" for an empty path, otherwise the number of hops in decimal. */
  function PathDisplay(path: seq<Address>): (s: string)
    ensures s == "N/A" <==> path == []
    ensures path != [] ==> AllDigits(s) && DigitsValue(s) == |path|
  {
    if path == [] then "N/A"
    else
      DecimalRoundTrip(|path|);
      Decimal(|path|)
  }

  /** What the console sink computes for its log line. */
  datatype ConsoleLine = ConsoleLine(txHash: Hash, valueEth: string, methodName: string, to: Address, pathLength: string)

  /** `ConsoleLogger::execute`: renders the record and succeeds unconditionally. */
  function ConsoleExecute(tx: TargetTransaction): (r: Result<ConsoleLine, string>)
    ensures r.Ok?
  {
    Ok(ConsoleLine(tx.txHash, FormatWeiToEth(tx.value), tx.methodName, tx.to, PathDisplay(tx.path)))
  }
}
