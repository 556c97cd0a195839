/** The table-driven CRC-32 of the PNG writer, against the bit-serial code of section 3.4 of RFC 2083. */
module Crc32 {
  import opened FourBytes

  type Word = bv32

  const POLYNOMIAL: Word := 0xedb88320
  const ONES: Word := 0xffffffff

  // ---------------------------------------------------------------------------------------------
  // The reference: one message bit at a time, least significant bit of each byte first
  // ---------------------------------------------------------------------------------------------

  /** Shifts one bit out of the register; the polynomial is added when a one falls out. */
  function Shift(c: Word): Word {
    if c & 1 == 1 then POLYNOMIAL ^ (c >> 1) else c >> 1
  }

  /** Adds one message bit, the low bit of `bits`, to the register and shifts. */
  function FeedBit(c: Word, bits: Word): Word {
    Shift(c ^ (bits & 1))
  }

  function FeedBits(c: Word, bits: Word, n: nat): Word
    decreases n
  {
    if n == 0 then c else FeedBits(FeedBit(c, bits), bits >> 1, n - 1)
  }

  function FeedByte(c: Word, b: Byte): Word {
    FeedBits(c, b as Word, 8)
  }

  function Fold<S, B>(step: (S, B) -> S, s: S, bs: seq<B>): S
    decreases |bs|
  {
    if bs == [] then s else step(Fold(step, s, bs[..|bs| - 1]), bs[|bs| - 1])
  }

  function Feed(c: Word, bytes: seq<Byte>): Word {
    Fold(FeedByte, c, bytes)
  }

  /** Register preset to ones, and complemented at the end. */
  function Crc(bytes: seq<Byte>): Word {
    Feed(ONES, bytes) ^ ONES
  }

  // ---------------------------------------------------------------------------------------------
  // Facts about words, free of the definitions above. Equations between words are passed from
  // lemma to lemma as predicates, which keeps the solver from working on single bits.
  // ---------------------------------------------------------------------------------------------

  predicate Sum(z: Word, x: Word, y: Word) {
    z == x ^ y
  }

  predicate LowByteOnly(w: Word) {
    w & 0xffffff00 == 0
  }

  lemma XorDistributes(a: Word, b: Word)
    ensures (a ^ b) >> 1 == (a >> 1) ^ (b >> 1)
    ensures (a ^ b) & 1 == (a & 1) ^ (b & 1)
  {
  }

  lemma LowBit(a: Word)
    ensures a & 1 == 0 || a & 1 == 1
  {
  }

  lemma XorCancels(a: Word, b: Word, p: Word)
    ensures (p ^ a) ^ (p ^ b) == a ^ b && (p ^ a) ^ b == p ^ (a ^ b) && a ^ (p ^ b) == p ^ (a ^ b)
  {
  }

  lemma DoubleHalves(w: Word)
    requires w & 0x80000000 == 0
    ensures (w << 1) & 1 == 0 && (w << 1) >> 1 == w
  {
  }

  // ---------------------------------------------------------------------------------------------
  // Eight bits at once
  // ---------------------------------------------------------------------------------------------

  function Shifts(c: Word, n: nat): Word
    decreases n
  {
    if n == 0 then c else Shifts(Shift(c), n - 1)
  }

  lemma ShiftIsLinear(a: Word, b: Word)
    ensures Shift(a ^ b) == Shift(a) ^ Shift(b)
  {
    XorDistributes(a, b);
    LowBit(a);
    LowBit(b);
    XorCancels(a >> 1, b >> 1, POLYNOMIAL);
  }

  lemma SumShifted(z: Word, x: Word, y: Word)
    requires Sum(z, x, y)
    ensures Sum(Shift(z), Shift(x), Shift(y))
  {
    ShiftIsLinear(x, y);
  }

  lemma {:induction false} ShiftsAreLinear(z: Word, x: Word, y: Word, n: nat)
    requires Sum(z, x, y)
    ensures Sum(Shifts(z, n), Shifts(x, n), Shifts(y, n))
    decreases n
  {
    if n > 0 {
      SumShifted(z, x, y);
      ShiftsAreLinear(Shift(z), Shift(x), Shift(y), n - 1);
    }
  }

  function Mask(n: nat): Word {
    if n == 0 then 0 else 1 ^ (Mask(n - 1) << 1)
  }

  lemma MasksAreLow(n: nat)
    requires n <= 8
    ensures LowByteOnly(Mask(n)) && Mask(8) == 0xff
  {
    assert Mask(1) == 1;
    assert Mask(2) == 3;
    assert Mask(3) == 7;
    assert Mask(4) == 0xf;
    assert Mask(5) == 0x1f;
    assert Mask(6) == 0x3f;
    assert Mask(7) == 0x7f;
    assert Mask(8) == 0xff;
  }

  predicate Masked(z: Word, c: Word, bits: Word, mask: Word) {
    z == c ^ (bits & mask)
  }

  lemma MaskNothing(z: Word, c: Word, bits: Word)
    requires Masked(z, c, bits, 0)
    ensures z == c
  {
  }

  lemma MaskOneMore(z: Word, c: Word, bits: Word, m: Word)
    requires Masked(z, c, bits, 1 ^ (m << 1))
    ensures Sum(z, c ^ (bits & 1), ((bits >> 1) & m) << 1)
  {
  }

  lemma MaskAgain(z: Word, x: Word, bits: Word, m: Word)
    requires Sum(z, x, bits & m)
    ensures Masked(z, x, bits, m)
  {
  }

  /** What moves up by one and then down by one needs no polynomial. */
  lemma ShiftOfDouble(w: Word, m: Word)
    requires LowByteOnly(m)
    ensures Shift((w & m) << 1) == w & m
  {
    assert (w & m) & 0x80000000 == 0;
    DoubleHalves(w & m);
  }

  /** One bit fed into `c`; `z` is the register to which all of them have been added. */
  lemma FeedOneBit(z: Word, c: Word, bits: Word, m: Word)
    requires Masked(z, c, bits, 1 ^ (m << 1)) && LowByteOnly(m)
    ensures Masked(Shift(z), FeedBit(c, bits), bits >> 1, m)
  {
    MaskOneMore(z, c, bits, m);
    SumShifted(z, c ^ (bits & 1), ((bits >> 1) & m) << 1);
    ShiftOfDouble(bits >> 1, m);
    MaskAgain(Shift(z), FeedBit(c, bits), bits >> 1, m);
  }

  /** Feeding up to eight bits one by one is adding them all at once and shifting. */
  lemma {:induction false} FeedBitsIsShifts(z: Word, c: Word, bits: Word, n: nat)
    requires n <= 8 && Masked(z, c, bits, Mask(n))
    ensures FeedBits(c, bits, n) == Shifts(z, n)
    decreases n
  {
    if n == 0 {
      MaskNothing(z, c, bits);
    } else {
      MasksAreLow(n - 1);
      FeedOneBit(z, c, bits, Mask(n - 1));
      FeedBitsIsShifts(Shift(z), FeedBit(c, bits), bits >> 1, n - 1);
    }
  }

  lemma ByteIsMasked(z: Word, c: Word, b: Byte)
    requires Sum(z, c, b as Word)
    ensures Masked(z, c, b as Word, 0xff)
  {
  }

  lemma FeedByteIsShifts(z: Word, c: Word, b: Byte)
    requires Sum(z, c, b as Word)
    ensures FeedByte(c, b) == Shifts(z, 8)
  {
    MasksAreLow(8);
    ByteIsMasked(z, c, b);
    FeedBitsIsShifts(z, c, b as Word, 8);
  }

  predicate Clear(w: Word, mask: Word) {
    w & mask == 0
  }

  function Down(w: Word, n: nat): Word
    decreases n
  {
    if n == 0 then w else Down(w >> 1, n - 1)
  }

  lemma DownOneByte(w: Word)
    ensures Down(w, 8) == w >> 8
  {
    assert Down(w, 8) == ((((((((w >> 1) >> 1) >> 1) >> 1) >> 1) >> 1) >> 1) >> 1);
  }

  lemma ClearOneLess(w: Word, m: Word)
    requires Clear(w, 1 ^ (m << 1)) && LowByteOnly(m)
    ensures Shift(w) == w >> 1 && Clear(w >> 1, m)
  {
    assert w & 1 == 0;
  }

  lemma {:induction false} ClearBitsMove(w: Word, n: nat)
    requires n <= 8 && Clear(w, Mask(n))
    ensures Shifts(w, n) == Down(w, n)
    decreases n
  {
    if n > 0 {
      MasksAreLow(n - 1);
      ClearOneLess(w, Mask(n - 1));
      ClearBitsMove(w >> 1, n - 1);
    }
  }

  /** Eight shifts of a word whose low byte is clear only move it. */
  lemma HighBytesMove(w: Word)
    requires Clear(w, 0xff)
    ensures Shifts(w, 8) == w >> 8
  {
    MasksAreLow(8);
    ClearBitsMove(w, 8);
    DownOneByte(w);
  }

  // ---------------------------------------------------------------------------------------------
  // The table and the loop over a buffer
  // ---------------------------------------------------------------------------------------------

  function Entry(n: int): Word
    requires 0 <= n < 256
  {
    Shifts(n as Word, 8)
  }

  ghost predicate FilledTo(table: seq<Word>, n: int) {
    0 <= n <= |table| == 256 && forall m :: 0 <= m < n ==> table[m] == Entry(m)
  }

  ghost predicate IsTable(table: seq<Word>) {
    FilledTo(table, 256)
  }

  lemma FillOne(table: seq<Word>, n: nat, entry: Word)
    requires FilledTo(table, n) && n < 256 && entry == Entry(n)
    ensures FilledTo(table[n := entry], n + 1)
  {
  }

  lemma SplitWord(z: Word, c: Word, b: Byte)
    requires Sum(z, c, b as Word)
    ensures Sum(z, z & 0xff, z & 0xffffff00) && Clear(z & 0xffffff00, 0xff)
    ensures (z & 0xffffff00) >> 8 == c >> 8
  {
  }

  lemma ShiftsOfParts(z: Word, high: Word, low: Word, up: Word)
    requires Sum(z, low, high) && Clear(high, 0xff) && high >> 8 == up
    ensures Sum(Shifts(z, 8), Shifts(low, 8), up)
  {
    ShiftsAreLinear(z, low, high, 8);
    HighBytesMove(high);
  }

  /** One table lookup is eight steps of the bit-serial code. */
  lemma LookupIsEightSteps(z: Word, c: Word, b: Byte)
    requires Sum(z, c, b as Word)
    ensures Sum(FeedByte(c, b), Shifts(z & 0xff, 8), c >> 8)
  {
    FeedByteIsShifts(z, c, b);
    SplitWord(z, c, b);
    ShiftsOfParts(z, z & 0xffffff00, z & 0xff, c >> 8);
  }

  lemma MaskedIsSmall(w: Word)
    ensures w & 0xff < 256
  {
  }

  lemma SmallIsIndex(w: Word)
    requires w < 256
    ensures w as int < 256
  {
  }

  lemma ConvertBack(w: Word)
    ensures (w as int) as Word == w
  {
  }

  method TableEntry(n: Word) returns (c: Word)
    ensures c == Shifts(n, 8)
  {
    c := n;
    for k := 0 to 8
      invariant Shifts(c, 8 - k) == Shifts(n, 8)
    {
      c := if c & 1 == 1 then POLYNOMIAL ^ (c >> 1) else c >> 1;
    }
  }

  method MakeCrcTable() returns (table: array<Word>)
    ensures fresh(table) && IsTable(table[..])
  {
    table := new Word[256];
    for n := 0 to 256
      invariant FilledTo(table[..], n)
    {
      var entry := TableEntry(n as Word);
      FillOne(table[..], n, entry);
      table[n] := entry;
    }
  }

  /** The loop body: one byte into the register. */
  method UpdateCrc(table: array<Word>, c: Word, b: Byte) returns (c': Word)
    requires IsTable(table[..])
    ensures c' == FeedByte(c, b)
  {
    var z := c ^ (b as Word);
    LookupIsEightSteps(z, c, b);
    var index := z & 0xff;
    MaskedIsSmall(z);
    SmallIsIndex(index);
    ConvertBack(index);
    var entry := table[index as int];
    assert entry == table[..][index as int];
    c' := entry ^ (c >> 8);
  }

  method ComputeCrc(table: array<Word>, buf: seq<Byte>) returns (crc: Word)
    requires IsTable(table[..])
    ensures crc == Crc(buf)
  {
    var c := ONES;
    for i := 0 to |buf|
      invariant c == Feed(ONES, buf[..i])
    {
      FeedNext(ONES, buf, i);
      c := UpdateCrc(table, c, buf[i]);
    }
    assert buf[..|buf|] == buf;
    crc := c ^ ONES;
  }

  // ---------------------------------------------------------------------------------------------
  // What the checksum detects
  // ---------------------------------------------------------------------------------------------

  lemma PolynomialShows(a: Word, b: Word)
    ensures POLYNOMIAL ^ (a >> 1) != b >> 1
    ensures POLYNOMIAL ^ (a >> 1) == POLYNOMIAL ^ (b >> 1) ==> a >> 1 == b >> 1
  {
  }

  lemma ShiftIsInjective(a: Word, b: Word)
    requires Shift(a) == Shift(b)
    ensures a == b
  {
    PolynomialShows(a, b);
    PolynomialShows(b, a);
    LowBit(a);
    LowBit(b);
    SameHalvesIf(a, b);
  }

  lemma SameHalvesIf(a: Word, b: Word)
    ensures a >> 1 == b >> 1 && a & 1 == b & 1 ==> a == b
  {
  }

  lemma {:induction false} ShiftsAreInjective(a: Word, b: Word, n: nat)
    requires Shifts(a, n) == Shifts(b, n)
    ensures a == b
    decreases n
  {
    if n > 0 {
      ShiftsAreInjective(Shift(a), Shift(b), n - 1);
      ShiftIsInjective(a, b);
    }
  }

  lemma {:induction false} ShiftsCompose(a: Word, m: nat, n: nat)
    ensures Shifts(Shifts(a, m), n) == Shifts(a, m + n)
    decreases m
  {
    if m > 0 {
      ShiftsCompose(Shift(a), m - 1, n);
    }
  }

  lemma SumCancels(z: Word, c: Word, d: Word, x: Word)
    requires Sum(z, c, x) && Sum(z, d, x)
    ensures c == d
  {
  }

  lemma SumCancelsRight(z: Word, c: Word, x: Word, y: Word)
    requires Sum(z, c, x) && Sum(z, c, y)
    ensures x == y
  {
  }

  lemma FeedByteIsInjective(c: Word, d: Word, b: Byte)
    requires FeedByte(c, b) == FeedByte(d, b)
    ensures c == d
  {
    var z, w := c ^ (b as Word), d ^ (b as Word);
    assert Sum(z, c, b as Word) && Sum(w, d, b as Word);
    FeedByteIsShifts(z, c, b);
    FeedByteIsShifts(w, d, b);
    ShiftsAreInjective(z, w, 8);
    SumCancels(z, c, d, b as Word);
  }

  lemma {:induction false} FoldIsInjective<S, B>(step: (S, B) -> S, s: S, t: S, bs: seq<B>)
    requires forall u, v, b :: step(u, b) == step(v, b) ==> u == v
    requires Fold(step, s, bs) == Fold(step, t, bs)
    ensures s == t
    decreases |bs|
  {
    if bs != [] { FoldIsInjective(step, s, t, bs[..|bs| - 1]); }
  }

  lemma FeedIsInjective(c: Word, d: Word, bytes: seq<Byte>)
    requires Feed(c, bytes) == Feed(d, bytes)
    ensures c == d
  {
    forall u, v, b | FeedByte(u, b) == FeedByte(v, b)
      ensures u == v
    {
      FeedByteIsInjective(u, v, b);
    }
    FoldIsInjective(FeedByte, c, d, bytes);
  }

  lemma {:induction false} FoldInParts<S, B>(step: (S, B) -> S, s: S, a: seq<B>, b: seq<B>)
    ensures Fold(step, s, a + b) == Fold(step, Fold(step, s, a), b)
    decreases |b|
  {
    if b == [] {
      assert a + b == a;
    } else {
      assert (a + b)[..|a + b| - 1] == a + b[..|b| - 1];
      FoldInParts(step, s, a, b[..|b| - 1]);
    }
  }

  lemma FoldOne<S, B>(step: (S, B) -> S, s: S, b: B)
    ensures Fold(step, s, [b]) == step(s, b)
  {
    assert [b][..0] == [];
  }

  lemma FeedFirst(c: Word, bytes: seq<Byte>)
    requires bytes != []
    ensures Feed(c, bytes) == Feed(FeedByte(c, bytes[0]), bytes[1..])
  {
    assert bytes == [bytes[0]] + bytes[1..];
    FoldInParts(FeedByte, c, [bytes[0]], bytes[1..]);
    FoldOne(FeedByte, c, bytes[0]);
  }

  lemma FeedNext(c: Word, buf: seq<Byte>, i: nat)
    requires i < |buf|
    ensures Feed(c, buf[..i + 1]) == FeedByte(Feed(c, buf[..i]), buf[i])
  {
    assert buf[..i + 1] == buf[..i] + [buf[i]];
    FoldInParts(FeedByte, c, buf[..i], [buf[i]]);
    FoldOne(FeedByte, Feed(c, buf[..i]), buf[i]);
  }

  /** Up to four bytes as one word, first byte lowest. */
  function Pack(bytes: seq<Byte>): Word
    decreases |bytes|
  {
    if bytes == [] then 0 else Prepend(bytes[0], Pack(bytes[1..]))
  }

  function Prepend(b: Byte, w: Word): Word {
    (b as Word) ^ (w << 8)
  }

  /** The bits above the lowest `n` bytes. */
  function Above(n: nat): Word
    requires n <= 3
  {
    if n == 0 then 0xffffffff else if n == 1 then 0xffffff00 else if n == 2 then 0xffff0000 else 0xff000000
  }

  predicate TopByteClear(w: Word) {
    w & 0xff000000 == 0
  }

  lemma PrependFits(b: Byte, w: Word, n: nat)
    requires n < 3 && Clear(w, Above(n))
    ensures Clear(Prepend(b, w), Above(n + 1))
  {
  }

  lemma {:induction false} PackFits(bytes: seq<Byte>)
    requires |bytes| <= 3
    ensures Clear(Pack(bytes), Above(|bytes|))
    decreases |bytes|
  {
    if bytes != [] {
      PackFits(bytes[1..]);
      PrependFits(bytes[0], Pack(bytes[1..]), |bytes| - 1);
    }
  }

  lemma FewerBytesFit(w: Word, n: nat)
    requires n <= 3 && Clear(w, Above(n))
    ensures TopByteClear(w)
  {
  }

  lemma PrependIsInjective(a: Byte, v: Word, b: Byte, w: Word)
    requires Prepend(a, v) == Prepend(b, w)
    requires TopByteClear(v) && TopByteClear(w)
    ensures a == b && v == w
  {
  }

  lemma TailFits(bytes: seq<Byte>)
    requires 0 < |bytes| <= 4
    ensures TopByteClear(Pack(bytes[1..]))
  {
    PackFits(bytes[1..]);
    FewerBytesFit(Pack(bytes[1..]), |bytes| - 1);
  }

  lemma {:induction false} PackIsInjective(a: seq<Byte>, b: seq<Byte>)
    requires |a| == |b| <= 4 && Pack(a) == Pack(b)
    ensures a == b
    decreases |a|
  {
    if a != [] {
      TailFits(a);
      TailFits(b);
      PrependIsInjective(a[0], Pack(a[1..]), b[0], Pack(b[1..]));
      PackIsInjective(a[1..], b[1..]);
      assert a == [a[0]] + a[1..] && b == [b[0]] + b[1..];
    }
  }

  lemma MovedUp(w: Word)
    requires TopByteClear(w)
    ensures Clear(w << 8, 0xff) && (w << 8) >> 8 == w
  {
  }

  lemma Regroup(z: Word, c: Word, b: Byte, w: Word)
    requires Sum(z, c, Prepend(b, w))
    ensures Sum(z, c ^ (b as Word), w << 8)
  {
  }

  lemma FirstByteOfMany(z: Word, c: Word, b: Byte, rest: Word)
    requires Sum(z, c, Prepend(b, rest)) && TopByteClear(rest)
    ensures Sum(Shifts(z, 8), FeedByte(c, b), rest)
  {
    var x := c ^ (b as Word);
    Regroup(z, c, b, rest);
    MovedUp(rest);
    ShiftsOfParts(z, rest << 8, x, rest);
    FeedByteIsShifts(x, c, b);
  }

  lemma SumOfNothing(z: Word, c: Word)
    requires Sum(z, c, 0)
    ensures z == c
  {
  }

  /** Up to four bytes are added to the register at once and shifted through together. */
  lemma {:induction false} FeedIsShifts(z: Word, c: Word, bytes: seq<Byte>)
    requires |bytes| <= 4 && Sum(z, c, Pack(bytes))
    ensures Feed(c, bytes) == Shifts(z, 8 * |bytes|)
    decreases |bytes|
  {
    if bytes == [] {
      SumOfNothing(z, c);
    } else {
      var d := FirstIsShifted(z, c, bytes);
      FeedIsShifts(Shifts(z, 8), d, bytes[1..]);
      ShiftsCompose(z, 8, 8 * |bytes[1..]|);
    }
  }

  lemma FirstIsShifted(z: Word, c: Word, bytes: seq<Byte>) returns (d: Word)
    requires 0 < |bytes| <= 4 && Sum(z, c, Pack(bytes))
    ensures Feed(c, bytes) == Feed(d, bytes[1..]) && Sum(Shifts(z, 8), d, Pack(bytes[1..]))
  {
    d := FeedByte(c, bytes[0]);
    TailFits(bytes);
    FeedFirst(c, bytes);
    FirstByteOfMany(z, c, bytes[0], Pack(bytes[1..]));
  }

  lemma {:induction false} SameRegisterSameBytes(c: Word, a: seq<Byte>, b: seq<Byte>)
    requires |a| == |b| <= 4 && Feed(c, a) == Feed(c, b)
    ensures a == b
  {
    var z, w := c ^ Pack(a), c ^ Pack(b);
    assert Sum(z, c, Pack(a)) && Sum(w, c, Pack(b));
    FeedIsShifts(z, c, a);
    FeedIsShifts(w, c, b);
    ShiftsAreInjective(z, w, 8 * |a|);
    SumCancelsRight(z, c, Pack(a), Pack(b));
    PackIsInjective(a, b);
  }

  lemma FeedInThree(a: seq<Byte>, b: seq<Byte>, c: seq<Byte>)
    ensures Feed(ONES, a + b + c) == Feed(Feed(Feed(ONES, a), b), c)
  {
    FoldInParts(FeedByte, ONES, a + b, c);
    FoldInParts(FeedByte, ONES, a, b);
  }

  lemma ComplementIsInjective(a: seq<Byte>, b: seq<Byte>)
    requires Crc(a) == Crc(b)
    ensures Feed(ONES, a) == Feed(ONES, b)
  {
  }

  /** Two messages of one length whose differences all lie within four consecutive bytes never have
      the same checksum. */
  lemma BurstsAreDetected(before: seq<Byte>, a: seq<Byte>, b: seq<Byte>, after: seq<Byte>)
    requires |a| == |b| <= 4
    ensures Crc(before + a + after) == Crc(before + b + after) <==> a == b
  {
    if Crc(before + a + after) == Crc(before + b + after) {
      ComplementIsInjective(before + a + after, before + b + after);
      FeedInThree(before, a, after);
      FeedInThree(before, b, after);
      var c := Feed(ONES, before);
      FeedIsInjective(Feed(c, a), Feed(c, b), after);
      SameRegisterSameBytes(c, a, b);
    }
  }

  /** In particular, changing any one byte changes the checksum. */
  lemma ByteChangesAreDetected(buf: seq<Byte>, i: nat, b: Byte)
    requires i < |buf| && b != buf[i]
    ensures Crc(buf[i := b]) != Crc(buf)
  {
    assert buf == buf[..i] + [buf[i]] + buf[i + 1..];
    assert buf[i := b] == buf[..i] + [b] + buf[i + 1..];
    BurstsAreDetected(buf[..i], [buf[i]], [b], buf[i + 1..]);
  }
}
