/**
 * Value types shared by the whole pipeline: bytes, 256-bit unsigned integers,
 * 160-bit addresses, transaction hashes, the fetched transaction record, and
 * the Option/Result wrappers used for parse failures and error returns.
 */
module Primitives {

  /** One byte of calldata. */
  type byte = b: int | 0 <= b < 256

  /** 256 raised to the k-th power: the number of values k bytes can hold. */
  function Pow256(k: nat): (p: nat)
    ensures p >= 1
  {
    if k == 0 then 1 else 256 * Pow256(k - 1)
  }

  /** 2^256, one more than the largest U256. */
  const U256_LIMIT: nat := 0x1_0000000000000000000000000000000000000000000000000000000000000000

  /** 2^160, one more than the largest address. */
  const ADDRESS_LIMIT: nat := 0x1_0000000000000000000000000000000000000000

  /** Unsigned 256-bit integer (alloy's U256). */
  type U256 = n: nat | n < U256_LIMIT

  /** A 20-byte account address, read as a big-endian number. */
  type Address = n: nat | n < ADDRESS_LIMIT

  /** A 32-byte transaction hash, read as a big-endian number. */
  type Hash = U256

  /** Milliseconds since the Unix epoch, truncated to 64 bits as `as u64` does. */
  type Millis = n: nat | n < 0x1_0000_0000_0000_0000

  const ZERO_ADDRESS: Address := 0

  /** The transaction record fetched by hash: the fields the pipeline reads. */
  datatype Transaction = Transaction(hash: Hash, from: Address, input: seq<byte>, value: U256)

  datatype Option<+T> = None | Some(value: T) {
    predicate IsFailure() { None? }

    function PropagateFailure<U>(): Option<U>
      requires None?
    {
      None
    }

    function Extract(): T
      requires Some?
    {
      value
    }
  }

  datatype Result<+T, +E> = Ok(value: T) | Err(error: E)

  /** Laws of Pow256 used to relate byte widths to the U256 and address limits. */
  lemma {:induction false} Pow256Add(a: nat, b: nat)
    ensures Pow256(a + b) == Pow256(a) * Pow256(b)
  {
    if b > 0 {
      Pow256Add(a, b - 1);
      assert Pow256(a + b) == 256 * Pow256(a + b - 1);
    }
  }

  /** A 32-byte word holds exactly the U256 values. */
  lemma WordWidthIsU256()
    ensures Pow256(32) == U256_LIMIT
  {
    assert Pow256(4) == 0x1_0000_0000;
    Pow256Add(4, 4);
    Pow256Add(8, 8);
    Pow256Add(16, 16);
  }
}
