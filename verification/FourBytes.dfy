/** Unsigned numbers of four bytes, most significant byte first (section 2.1 of RFC 2083). */
module FourBytes {
  type Byte = bv8
  type Bytes = seq<Byte>

  const LIMIT := 0x1_0000_0000

  function ByteOf(n: int): Byte {
    (n % 256) as Byte
  }

  function Be32(n: nat): (r: Bytes)
    ensures |r| == 4
  {
    [ByteOf(n / 256 / 256 / 256), ByteOf(n / 256 / 256), ByteOf(n / 256), ByteOf(n)]
  }

  function ReadBe32(b: Bytes): nat
    requires |b| >= 4
  {
    (b[0] as int) * 0x1000000 + (b[1] as int) * 0x10000 + (b[2] as int) * 0x100 + (b[3] as int)
  }

  lemma Be32RoundTrip(n: nat, rest: Bytes)
    requires n < LIMIT
    ensures ReadBe32(Be32(n) + rest) == n
  {
    ThreeDivisions(n);
    ByteBack(n / 256 / 256 / 256 % 256);
    ByteBack(n / 256 / 256 % 256);
    ByteBack(n / 256 % 256);
    ByteBack(n % 256);
  }

  /** The byte of a small number, counted up from zero: a witness that every small number has one. */
  function Counted(n: nat): Byte
    requires n < 256
  {
    if n == 0 then 0 else Counted(n - 1) + 1
  }

  lemma {:induction false} CountedIsNumber(n: nat)
    requires n < 256
    ensures Counted(n) as int == n
  {
    if n > 0 {
      CountedIsNumber(n - 1);
      NextByte(Counted(n - 1));
    }
  }

  lemma NextByte(b: Byte)
    requires b as int < 255
    ensures (b + 1) as int == b as int + 1
  {
  }

  lemma NumberBack(b: Byte)
    ensures (b as int) as Byte == b
  {
  }

  lemma ByteBack(n: nat)
    requires n < 256
    ensures (n as Byte) as int == n
  {
    CountedIsNumber(n);
    NumberBack(Counted(n));
  }

  lemma OneDivision(n: nat)
    ensures n == n / 256 * 256 + n % 256
  {
  }

  lemma ThreeDivisions(n: nat)
    requires n < LIMIT
    ensures n == n / 256 / 256 / 256 % 256 * 0x1000000 + n / 256 / 256 % 256 * 0x10000 + n / 256 % 256 * 0x100 + n % 256
  {
    OneDivision(n);
    OneDivision(n / 256);
    OneDivision(n / 256 / 256);
    OneDivision(n / 256 / 256 / 256);
    assert n / 256 / 256 / 256 / 256 == 0;
  }
}
