/**
 * The pieces of the Solidity Contract ABI encoding that the router calls use
 * ("Formal Specification of the Encoding" in the Solidity documentation):
 * 32-byte big-endian words, dynamic `address[]` arrays and dynamic `bytes`
 * behind an offset word. Each encoder has a reader, and every reader reads its
 * encoder's output back exactly.
 */
module Abi {
  import opened Primitives

  /** `n` as `len` big-endian bytes. */
  function BeBytes(n: nat, len: nat): (b: seq<byte>)
    requires n < Pow256(len)
    ensures |b| == len
  {
    if len == 0 then [] else BeBytes(n / 256, len - 1) + [n % 256]
  }

  /** The number that big-endian bytes denote. */
  function BeValue(b: seq<byte>): (n: nat)
    ensures n < Pow256(|b|)
  {
    if b == [] then 0 else BeValue(b[..|b| - 1]) * 256 + b[|b| - 1]
  }

  lemma {:induction false} BeRoundTrip(n: nat, len: nat)
    requires n < Pow256(len)
    ensures BeValue(BeBytes(n, len)) == n
  {
    if len > 0 {
      BeRoundTrip(n / 256, len - 1);
      var b := BeBytes(n, len);
      assert b[..|b| - 1] == BeBytes(n / 256, len - 1);
    }
  }

  /** A value as one 32-byte ABI word (`uint<M>` and `address` are all left-padded with zeros). */
  function Word(n: U256): (w: seq<byte>)
    ensures |w| == 32
  {
    WordWidthIsU256();
    BeBytes(n, 32)
  }

  /** The word starting at byte `pos`, if the data is long enough. */
  function WordAt(d: seq<byte>, pos: nat): (r: Option<U256>)
    ensures r.Some? <==> pos + 32 <= |d|
  {
    if pos + 32 <= |d| then
      WordWidthIsU256();
      Some(BeValue(d[pos..pos + 32]))
    else None
  }

  lemma WordAtWord(pre: seq<byte>, n: U256, post: seq<byte>)
    ensures WordAt(pre + Word(n) + post, |pre|) == Some(n)
  {
    var d := pre + Word(n) + post;
    assert d[|pre|..|pre| + 32] == Word(n);
    WordWidthIsU256();
    BeRoundTrip(n, 32);
  }

  /** Consecutive words. */
  function Words(ns: seq<U256>): (b: seq<byte>)
    ensures |b| == 32 * |ns|
  {
    if ns == [] then [] else Word(ns[0]) + Words(ns[1..])
  }

  /** `count` consecutive words from byte `pos`. */
  function WordsAt(d: seq<byte>, pos: nat, count: nat): (r: Option<seq<U256>>)
    ensures r.Some? ==> |r.value| == count
    decreases count
  {
    if count == 0 then Some([])
    else
      var w :- WordAt(d, pos);
      var rest :- WordsAt(d, pos + 32, count - 1);
      Some([w] + rest)
  }

  lemma {:induction false} WordsAtWords(pre: seq<byte>, ns: seq<U256>, post: seq<byte>)
    ensures WordsAt(pre + Words(ns) + post, |pre|, |ns|) == Some(ns)
    decreases |ns|
  {
    if ns != [] {
      var d := pre + Words(ns) + post;
      assert d == pre + Word(ns[0]) + (Words(ns[1..]) + post);
      WordAtWord(pre, ns[0], Words(ns[1..]) + post);
      assert d == (pre + Word(ns[0])) + Words(ns[1..]) + post;
      WordsAtWords(pre + Word(ns[0]), ns[1..], post);
      assert [ns[0]] + ns[1..] == ns;
    }
  }

  /** `count` consecutive address words from byte `pos`; a word with any of its top 12 bytes set is no address. */
  function AddressesAt(d: seq<byte>, pos: nat, count: nat): (r: Option<seq<Address>>)
    ensures r.Some? ==> |r.value| == count
    decreases count
  {
    if count == 0 then Some([])
    else
      var w :- WordAt(d, pos);
      if w >= ADDRESS_LIMIT then None
      else
        var a: Address := w;
        var rest :- AddressesAt(d, pos + 32, count - 1);
        Some([a] + rest)
  }

  lemma {:induction false} AddressesAtWords(pre: seq<byte>, p: seq<Address>, post: seq<byte>)
    ensures AddressesAt(pre + Words(p) + post, |pre|, |p|) == Some(p)
    decreases |p|
  {
    if p != [] {
      var d := pre + Words(p) + post;
      assert d == pre + Word(p[0]) + (Words(p[1..]) + post);
      WordAtWord(pre, p[0], Words(p[1..]) + post);
      assert d == (pre + Word(p[0])) + Words(p[1..]) + post;
      AddressesAtWords(pre + Word(p[0]), p[1..], post);
      assert [p[0]] + p[1..] == p;
    }
  }

  /** Tail of a dynamic `address[]`: its length word, then one word per element. */
  function EncodeAddresses(p: seq<Address>): (b: seq<byte>)
    requires |p| < U256_LIMIT
    ensures |b| == 32 + 32 * |p|
  {
    Word(|p|) + Words(p)
  }

  /** The dynamic `address[]` whose tail starts at byte `offset`. */
  function AddressArrayAt(d: seq<byte>, offset: nat): (r: Option<seq<Address>>)
    ensures r.Some? ==> |r.value| < U256_LIMIT
  {
    var count :- WordAt(d, offset);
    AddressesAt(d, offset + 32, count)
  }

  lemma AddressArrayAtEncoded(pre: seq<byte>, p: seq<Address>, post: seq<byte>)
    requires |p| < U256_LIMIT
    ensures AddressArrayAt(pre + EncodeAddresses(p) + post, |pre|) == Some(p)
  {
    var d := pre + EncodeAddresses(p) + post;
    assert d == pre + Word(|p|) + (Words(p) + post);
    WordAtWord(pre, |p|, Words(p) + post);
    assert d == (pre + Word(|p|)) + Words(p) + post;
    AddressesAtWords(pre + Word(|p|), p, post);
  }

  /** Zero bytes that round a dynamic `bytes` value up to a whole number of words. */
  function PadLength(n: nat): (k: nat)
    ensures k < 32 && (n + k) % 32 == 0
  {
    (32 - n % 32) % 32
  }

  /** Tail of a dynamic `bytes`: its length word, the bytes, then zero padding. */
  function EncodeBytes(b: seq<byte>): (e: seq<byte>)
    requires |b| < U256_LIMIT
    ensures |e| == 32 + |b| + PadLength(|b|)
  {
    Word(|b|) + b + seq(PadLength(|b|), _ => 0)
  }

  /** The dynamic `bytes` whose tail starts at byte `offset`. */
  function BytesAt(d: seq<byte>, offset: nat): (r: Option<seq<byte>>)
    ensures r.Some? ==> |r.value| < U256_LIMIT
  {
    var count :- WordAt(d, offset);
    if offset + 32 + count <= |d| then Some(d[offset + 32..offset + 32 + count]) else None
  }

  lemma BytesAtEncoded(pre: seq<byte>, b: seq<byte>, post: seq<byte>)
    requires |b| < U256_LIMIT
    ensures BytesAt(pre + EncodeBytes(b) + post, |pre|) == Some(b)
  {
    var d := pre + EncodeBytes(b) + post;
    var pad: seq<byte> := seq(PadLength(|b|), _ => 0);
    assert d == pre + Word(|b|) + (b + pad + post);
    WordAtWord(pre, |b|, b + pad + post);
    assert d[|pre| + 32..|pre| + 32 + |b|] == b;
  }
}
