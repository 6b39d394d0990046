/** Big-endian words, as both the record marker and XDR use them. */
module BigEndian {
  import opened Sequences

  const U32_BOUND: nat := 0x1_0000_0000
  const U64_BOUND: nat := 0x1_0000_0000_0000_0000

  type u32 = n: int | 0 <= n < U32_BOUND
  type u64 = n: int | 0 <= n < U64_BOUND

  function Be32(n: u32): (b: seq<byte>)
    ensures |b| == 4
  {
    [n / 0x100_0000, n / 0x1_0000 % 0x100, n / 0x100 % 0x100, n % 0x100]
  }

  function FromBe32(b: seq<byte>): u32
    requires |b| == 4
  {
    b[0] as int * 0x100_0000 + b[1] as int * 0x1_0000 + b[2] as int * 0x100 + b[3] as int
  }

  lemma Be32RoundTrip(n: u32)
    ensures FromBe32(Be32(n)) == n
  {
    var n3, n2, n1 := n / 0x100, n / 0x1_0000, n / 0x100_0000;
    assert n == n3 * 0x100 + n % 0x100;
    assert n3 / 0x100 == n2 && n2 / 0x100 == n1;
    assert n3 == n2 * 0x100 + n3 % 0x100 && n2 == n1 * 0x100 + n2 % 0x100;
  }

  lemma Be32Canonical(b: seq<byte>)
    requires |b| == 4
    ensures Be32(FromBe32(b)) == b
  {
    var n := FromBe32(b);
    var b0: int, b1: int, b2: int, b3: int := b[0], b[1], b[2], b[3];
    var n2 := 0x100 * b0 + b1;
    var n3 := 0x100 * n2 + b2;
    LastDigit(n3, b3);
    LastDigit(n2, b2);
    LastDigit(b0, b1);
    assert n == 0x100 * n3 + b3;
    SplitDivision(n);
  }

  lemma LastDigit(high: nat, low: nat)
    requires low < 0x100
    ensures (0x100 * high + low) / 0x100 == high && (0x100 * high + low) % 0x100 == low
  {
  }

  lemma SplitDivision(n: nat)
    ensures n / 0x1_0000 == n / 0x100 / 0x100 && n / 0x100_0000 == n / 0x100 / 0x100 / 0x100
  {
  }

  /** The least significant byte comes last: appending a byte to a number shifts its bytes to
      the front, and a number below 256 is three zeros and itself. */
  lemma MostSignificantFirst(n: nat, b: byte)
    requires n < 0x100_0000
    ensures Be32(b) == [0, 0, 0, b]
    ensures Be32(0x100 * n + b) == Be32(n)[1..] + [b]
  {
    var m := 0x100 * n + b;
    LastDigit(n, b);
    SplitDivision(m);
    SplitDivision(n);
    assert Be32(m) == [n / 0x1_0000, n / 0x100 % 0x100, n % 0x100, b];
  }

  function Be64(n: u64): (b: seq<byte>)
    ensures |b| == 8
  {
    Be32(n / U32_BOUND) + Be32(n % U32_BOUND)
  }

  function FromBe64(b: seq<byte>): u64
    requires |b| == 8
  {
    FromBe32(b[..4]) * U32_BOUND + FromBe32(b[4..])
  }

  lemma Be64RoundTrip(n: u64)
    ensures FromBe64(Be64(n)) == n
  {
    var b := Be64(n);
    assert b[..4] == Be32(n / U32_BOUND) && b[4..] == Be32(n % U32_BOUND);
    hide Be32, FromBe32;
    Be32RoundTrip(n / U32_BOUND);
    Be32RoundTrip(n % U32_BOUND);
  }

  lemma Be64Canonical(b: seq<byte>)
    requires |b| == 8
    ensures Be64(FromBe64(b)) == b
  {
    hide Be32, FromBe32;
    var hi, lo := FromBe32(b[..4]), FromBe32(b[4..]);
    Be32Canonical(b[..4]);
    Be32Canonical(b[4..]);
    assert (hi * U32_BOUND + lo) / U32_BOUND == hi && (hi * U32_BOUND + lo) % U32_BOUND == lo;
    assert b == b[..4] + b[4..];
  }
}
