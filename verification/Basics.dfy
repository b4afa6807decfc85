/** Types shared by the whole model: bytes, the 32-bit counters of the wire format, and options. */
module Basics {

  type byte = b: int | 0 <= b < 0x100
  type Bytes = seq<byte>

  const U32_MOD: int := 0x1_0000_0000
  type u32 = x: int | 0 <= x < 0x1_0000_0000
  const MAX_SEQ: u32 := 0xFFFF_FFFF

  /** `x++` on a Go uint32: the largest value wraps to zero. */
  function Inc(x: u32): u32 {
    if x == MAX_SEQ then 0 else x + 1
  }

  datatype Option<+T> = None | Some(value: T)

  /** The i-th of a (finite) number of consecutive uint32 values counted up from zero. */
  function Wrap(n: nat): u32 {
    n % U32_MOD
  }

  function Flatten(chunks: seq<Bytes>): Bytes {
    if chunks == [] then [] else chunks[0] + Flatten(chunks[1..])
  }

  lemma {:induction false} FlattenConcat(a: seq<Bytes>, b: seq<Bytes>)
    ensures Flatten(a + b) == Flatten(a) + Flatten(b)
  {
    if a == [] {
      assert a + b == b;
    } else {
      FlattenConcat(a[1..], b);
      assert (a + b)[1..] == a[1..] + b;
    }
  }

  lemma {:induction false} FlattenSnoc(chunks: seq<Bytes>, data: Bytes)
    ensures Flatten(chunks + [data]) == Flatten(chunks) + data
  {
    FlattenConcat(chunks, [data]);
    assert Flatten([data]) == data + Flatten([]);
  }

  lemma {:induction false} SizeSnoc(chunks: seq<Bytes>, data: Bytes)
    ensures |Flatten(chunks + [data])| == |Flatten(chunks)| + |data|
  {
    FlattenSnoc(chunks, data);
  }
}
