/** Types and byte-level encodings shared by the models. */
module Prelude {

  datatype Option<+T> = None | Some(value: T)

  datatype Result<+T, +E> = Ok(value: T) | Err(error: E)

  type Byte = b: int | 0 <= b < 256

  type Bytes = seq<Byte>

  const TWO_TO_THE_32: nat := 0x1_0000_0000

  /** Conversion to uint32, which wraps. */
  function Wrap32(n: nat): (c: nat)
    ensures c < TWO_TO_THE_32
    ensures n < TWO_TO_THE_32 ==> c == n
  {
    n % 0x1_0000_0000
  }

  lemma Wrap32Succ(n: nat)
    ensures Wrap32(Wrap32(n) + 1) == Wrap32(n + 1)
  {
  }

  /** The four big-endian bytes of a uint32. */
  function BigEndian32(n: nat): (b: Bytes)
    requires n < TWO_TO_THE_32
    ensures |b| == 4 && FromBigEndian32(b) == n
  {
    var high, low := n / 0x1_0000, n % 0x1_0000;
    [high / 256, high % 256, low / 256, low % 256]
  }

  function FromBigEndian32(b: Bytes): (n: nat)
    requires |b| == 4
    ensures n < TWO_TO_THE_32
  {
    (b[0] as int * 256 + b[1] as int) * 0x1_0000 + (b[2] as int * 256 + b[3] as int)
  }

  lemma BigEndian32Onto(b: Bytes)
    requires |b| == 4
    ensures BigEndian32(FromBigEndian32(b)) == b
  {
    var high, low := b[0] as int * 256 + b[1] as int, b[2] as int * 256 + b[3] as int;
    var n := FromBigEndian32(b);
    assert n / 0x1_0000 == high && n % 0x1_0000 == low;
  }
}
