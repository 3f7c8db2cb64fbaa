/** IPv4 address and prefix arithmetic of internal/controller/ipam.go, on four bytes. */
module Addresses {
  import opened Wrappers
  import opened Text

  newtype Byte = x: int | 0 <= x < 256

  type Addr = s: seq<Byte> | |s| == 4 witness [0, 0, 0, 0]

  const MAX_VALUE := 0xFFFF_FFFF

  /** The 32-bit value of an address, most significant byte first. */
  function Value(a: Addr): (v: nat)
    ensures v <= MAX_VALUE
  {
    ((a[0] as int * 256 + a[1] as int) * 256 + a[2] as int) * 256 + a[3] as int
  }

  function FromValue(v: nat): Addr
    requires v <= MAX_VALUE
  {
    [(v / 0x100_0000) as Byte, (v / 0x1_0000 % 256) as Byte, (v / 256 % 256) as Byte, (v % 256) as Byte]
  }

  lemma FromValueIsInverse(v: nat)
    requires v <= MAX_VALUE
    ensures Value(FromValue(v)) == v
  {
    var hi, mid := v / 0x1_0000, v / 256;
    assert hi == mid / 256 && v / 0x100_0000 == hi / 256;
    assert v == mid * 256 + v % 256 && mid == hi * 256 + mid % 256;
  }

  lemma Positional(x: nat, y: nat, x': nat, y': nat)
    requires x * 256 + y == x' * 256 + y' && y < 256 && y' < 256
    ensures x == x' && y == y'
  {
  }

  lemma ValueInjective(a: Addr, b: Addr)
    requires Value(a) == Value(b)
    ensures a == b
  {
    var a1, b1 := a[0] as int * 256 + a[1] as int, b[0] as int * 256 + b[1] as int;
    var a2, b2 := a1 * 256 + a[2] as int, b1 * 256 + b[2] as int;
    Positional(a2, a[3] as int, b2, b[3] as int);
    Positional(a1, a[2] as int, b1, b[2] as int);
    Positional(a[0] as int, a[1] as int, b[0] as int, b[1] as int);
  }

  /** `netip.Addr.String` on IPv4: the dotted quad. */
  function Dotted(a: Addr): string {
    Decimal(a[0] as int) + "." + (Decimal(a[1] as int) + "." + (Decimal(a[2] as int) + "." + Decimal(a[3] as int)))
  }

  lemma DigitsAvoid(n: nat, c: char)
    requires c < '0' || '9' < c
    ensures c !in Decimal(n)
  {
    DecimalDigitsOnly(n);
  }

  /** One part of a dotted quad: a numeral up to 255. */
  predicate IsByteText(s: string) {
    IsNumeral(s) && 0 <= DecimalValue(s) <= 255
  }

  /** Reading a dotted quad: four numerals up to 255 between dots, the most significant byte first. */
  function ReadQuad(s: string): Option<Addr> {
    var parts := SplitAt(s, '.');
    if |parts| == 4 && forall i :: 0 <= i < 4 ==> IsByteText(parts[i])
    then Some([DecimalValue(parts[0]) as Byte, DecimalValue(parts[1]) as Byte,
               DecimalValue(parts[2]) as Byte, DecimalValue(parts[3]) as Byte])
    else None
  }

  lemma ByteTextReads(b: Byte)
    ensures IsByteText(Decimal(b as int)) && DecimalValue(Decimal(b as int)) == b as int && '.' !in Decimal(b as int)
  {
    DecimalIsNumeral(b as int);
    DecimalRoundTrip(b as int);
    DigitsAvoid(b as int, '.');
  }

  lemma DottedParts(a: Addr)
    ensures SplitAt(Dotted(a), '.') ==
            [Decimal(a[0] as int), Decimal(a[1] as int), Decimal(a[2] as int), Decimal(a[3] as int)]
  {
    var d0, d1, d2, d3 := Decimal(a[0] as int), Decimal(a[1] as int), Decimal(a[2] as int), Decimal(a[3] as int);
    ByteTextReads(a[0]);
    ByteTextReads(a[1]);
    ByteTextReads(a[2]);
    ByteTextReads(a[3]);
    SplitJoin(d0, d1 + "." + (d2 + "." + d3), '.');
    SplitJoin(d1, d2 + "." + d3, '.');
    SplitJoin(d2, d3, '.');
    SplitWhole(d3, '.');
    assert Dotted(a) == d0 + ['.'] + (d1 + "." + (d2 + "." + d3));
  }

  lemma QuadReadsBack(a: Addr)
    ensures ReadQuad(Dotted(a)) == Some(a)
  {
    DottedParts(a);
    var parts := SplitAt(Dotted(a), '.');
    forall i | 0 <= i < 4
      ensures IsByteText(parts[i]) && DecimalValue(parts[i]) == a[i] as int
    {
      ByteTextReads(a[i]);
      assert parts[i] == Decimal(a[i] as int);
    }
    assert ReadQuad(Dotted(a)).value == a;
  }

  lemma JoinFour(p: string, q: string, r: string, s: string, c: char)
    ensures Join([p, q, r, s], c) == p + [c] + (q + [c] + (r + [c] + s))
  {
    assert [p, q, r, s][1..] == [q, r, s] && [q, r, s][1..] == [r, s] && [r, s][1..] == [s];
    assert Join([r, s], c) == r + [c] + s;
    assert Join([q, r, s], c) == q + [c] + Join([r, s], c);
  }

  /** A text reads as an address exactly if it is the one the address is printed as. */
  lemma QuadExactly(s: string, a: Addr)
    ensures ReadQuad(s) == Some(a) <==> s == Dotted(a)
  {
    QuadReadsBack(a);
    if ReadQuad(s) == Some(a) {
      var parts := SplitAt(s, '.');
      JoinSplit(s, '.');
      assert parts == [parts[0], parts[1], parts[2], parts[3]];
      JoinFour(parts[0], parts[1], parts[2], parts[3], '.');
      NumeralValue(parts[0]);
      NumeralValue(parts[1]);
      NumeralValue(parts[2]);
      NumeralValue(parts[3]);
    }
  }

  /** Two addresses with the same text are the same address. */
  lemma DottedInjective(a: Addr, b: Addr)
    requires Dotted(a) == Dotted(b)
    ensures a == b
  {
    QuadReadsBack(a);
    QuadReadsBack(b);
  }

  lemma DottedAvoids(a: Addr, c: char)
    requires c != '.' && (c < '0' || '9' < c)
    ensures c !in Dotted(a)
  {
    forall k | 0 <= k < 4
      ensures c !in Decimal(a[k] as int)
    {
      DigitsAvoid(a[k] as int, c);
    }
  }

  /** `nextAddr`: increment with carry, byte by byte from the least significant one. */
  method NextAddr(addr: Option<Addr>) returns (r: Option<Addr>)
    ensures r.Some? <==> addr.Some? && Value(addr.value) < MAX_VALUE
    ensures r.Some? ==> Value(r.value) == Value(addr.value) + 1
  {
    if addr.None? {
      return None;
    }
    var a := addr.value;
    var next := new Byte[4](k requires 0 <= k < 4 => a[k]);
    var i := 3;
    while i >= 0
      invariant -1 <= i <= 3
      invariant forall k :: i < k < 4 ==> next[k] == 0 && a[k] == 255
      invariant forall k :: 0 <= k <= i ==> next[k] == a[k]
    {
      next[i] := if next[i] == 255 then 0 else next[i] + 1;
      if next[i] != 0 {
        return Some(next[..]);
      }
      i := i - 1;
    }
    return None;
  }

  function Pow2(n: nat): (p: nat)
    ensures p > 0
  {
    if n == 0 then 1 else 2 * Pow2(n - 1)
  }

  lemma DivideBounds(v: nat, m: nat)
    requires m > 0
    ensures 0 <= v / m * m <= v < v / m * m + m
  {
  }

  datatype Prefix = Prefix(addr: Addr, bits: nat) {
    predicate Valid() {
      bits <= 32
    }

    /** The number of addresses the prefix spans. */
    function Size(): nat
      requires Valid()
    {
      Pow2(32 - bits)
    }

    /** Whether the host bits are zero, as after `netip.Prefix.Masked`. */
    predicate IsMasked() {
      Valid() && Value(addr) % Size() == 0
    }

    predicate Contains(a: Addr)
      requires Valid()
    {
      Value(a) / Size() == Value(addr) / Size()
    }

    /** `netip.Prefix.Masked`. */
    function Masked(): (p: Prefix)
      requires Valid()
    {
      var base := Value(addr) / Size() * Size();
      assert 0 <= base <= Value(addr) by { DivideBounds(Value(addr), Size()); }
      Prefix(FromValue(base), bits)
    }
  }

  lemma MultipleAtLeast(d: int, m: nat)
    ensures d >= 1 ==> d * m >= m
    ensures d <= -1 ==> d * m + m <= 0
  {
  }

  /** Division with remainder has one answer. */
  lemma QuotientUnique(v: nat, m: nat, k: nat, r: nat)
    requires m > 0 && r < m && v == k * m + r
    ensures v / m == k && v % m == r
  {
    var d := v / m - k;
    DivideBounds(v, m);
    assert d * m == v / m * m - k * m;
    MultipleAtLeast(d, m);
  }

  /** Masking keeps the covered addresses and clears the host bits. */
  lemma MaskedIsMasked(p: Prefix)
    requires p.Valid()
    ensures p.Masked().IsMasked()
    ensures Value(p.Masked().addr) <= Value(p.addr) < Value(p.Masked().addr) + p.Size()
    ensures forall a: Addr :: p.Masked().Contains(a) <==> p.Contains(a)
  {
    var q, m := Value(p.addr) / p.Size(), p.Size();
    DivideBounds(Value(p.addr), m);
    FromValueIsInverse(q * m);
    QuotientUnique(q * m, m, q, 0);
  }

  lemma PowersOfTwo()
    ensures Pow2(0) == 1 && Pow2(1) == 2 && Pow2(2) == 4 && Pow2(3) == 8 && Pow2(4) == 16
    ensures Pow2(5) == 32 && Pow2(6) == 64 && Pow2(7) == 128 && Pow2(8) == 256
  {
    assert Pow2(4) == 16;
    assert Pow2(6) == 64;
  }

  lemma ClearBitFits(b: Byte, bit: nat)
    requires bit < 8
    requires b as int / Pow2(bit) % 2 == 0
    ensures b as int + Pow2(bit) <= 255
  {
    PowersOfTwo();
  }

  /** `b | 1 << bit` on a byte: a set bit stays, a clear bit adds its weight. */
  function OrBit(b: Byte, bit: nat): Byte
    requires bit < 8
  {
    if b as int / Pow2(bit) % 2 == 1 then b else
      ClearBitFits(b, bit);
      (b as int + Pow2(bit)) as Byte
  }

  lemma EvenQuotient(v: nat, p: nat)
    requires p > 0 && v % (2 * p) == 0
    ensures v / p % 2 == 0
  {
    var k := v / (2 * p);
    DivideBounds(v, 2 * p);
    assert v == 2 * k * p;
    QuotientUnique(v, p, 2 * k, 0);
  }

  lemma OrBitAdds(b: Byte, bit: nat)
    requires bit < 8
    requires b as int % Pow2(bit + 1) == 0
    ensures OrBit(b, bit) as int == b as int + Pow2(bit)
  {
    EvenQuotient(b as int, Pow2(bit));
  }

  lemma {:induction false} Pow2Splits(m: nat, n: nat)
    ensures Pow2(m + n) == Pow2(m) * Pow2(n)
  {
    if m > 0 {
      Pow2Splits(m - 1, n);
    }
  }

  lemma ByteMultiple(hi: nat, byte: nat, q: nat, q': nat, k: nat)
    requires q > 0 && q * q' == 256
    requires 256 * hi + byte == k * q
    ensures byte % q == 0
  {
    var d := k - hi * q';
    assert byte == d * q by {
      assert hi * q' * q == 256 * hi;
    }
    MultipleAtLeast(d, q);
    QuotientUnique(byte, q, d, 0);
  }

  /** The weight of byte `i` in the value of an address. */
  function Weight(i: nat): (w: nat)
    requires i < 4
    ensures w > 0
  {
    if i == 3 then 1 else if i == 2 then 256 else if i == 1 then 0x1_0000 else 0x100_0000
  }

  lemma WeightIsPow2(i: nat)
    requires i < 4
    ensures Weight(i) == Pow2(24 - 8 * i)
  {
    PowersOfTwo();
    Pow2Splits(8, 8);
    Pow2Splits(8, 16);
  }

  lemma SplitAtByte(a: Addr, i: nat) returns (hi: nat, low: nat)
    requires i < 4
    ensures Value(a) == (256 * hi + a[i] as int) * Weight(i) + low && low < Weight(i)
  {
    match i {
      case 0 => hi, low := 0, (a[1] as int * 256 + a[2] as int) * 256 + a[3] as int;
      case 1 => hi, low := a[0] as int, a[2] as int * 256 + a[3] as int;
      case 2 => hi, low := a[0] as int * 256 + a[1] as int, a[3] as int;
      case _ => hi, low := (a[0] as int * 256 + a[1] as int) * 256 + a[2] as int, 0;
    }
  }

  lemma UpdateByte(a: Addr, i: nat, b: Byte)
    requires i < 4
    ensures Value(a[i := b]) == Value(a) + (b as int - a[i] as int) * Weight(i)
  {
  }

  lemma ByteOfMultiple(v: nat, w: nat, q: nat, q': nat, hi: nat, byte: nat, low: nat)
    requires q > 0 && q * q' == 256
    requires low < w && v == (256 * hi + byte) * w + low
    requires v % (w * q) == 0
    ensures byte % q == 0
  {
    var k := v / (w * q);
    assert v == k * q * w + 0 by {
      DivideBounds(v, w * q);
      assert k * (w * q) == k * q * w;
    }
    QuotientUnique(v, w, 256 * hi + byte, low);
    QuotientUnique(v, w, k * q, 0);
    ByteMultiple(hi, byte, q, q', k);
  }

  lemma SplitPowers(bit: nat)
    requires bit < 32
    ensures Pow2(32 - bit) == Weight(bit / 8) * Pow2(8 - bit % 8)
    ensures Pow2(31 - bit) == Weight(bit / 8) * Pow2(7 - bit % 8)
    ensures Pow2(8 - bit % 8) * Pow2(bit % 8) == 256
  {
    WeightIsPow2(bit / 8);
    Pow2Splits(24 - 8 * (bit / 8), 8 - bit % 8);
    Pow2Splits(24 - 8 * (bit / 8), 7 - bit % 8);
    Pow2Splits(8 - bit % 8, bit % 8);
    PowersOfTwo();
  }

  /** The address with host bit `bit`, counted from the most significant one, set. */
  ghost function WithHostBit(a: Addr, bit: nat): Addr
    requires bit < 32
  {
    a[bit / 8 := OrBit(a[bit / 8], 7 - bit % 8)]
  }

  /** One step of the loop of `lastAddr`: with all lower bits clear, the step adds one power of two. */
  lemma SetHostBit(a: Addr, bit: nat)
    requires bit < 32
    requires Value(a) % Pow2(32 - bit) == 0
    ensures Value(WithHostBit(a, bit)) == Value(a) + Pow2(31 - bit)
  {
    var i, m := bit / 8, 7 - bit % 8;
    SplitPowers(bit);
    var hi, low := SplitAtByte(a, i);
    ByteOfMultiple(Value(a), Weight(i), Pow2(m + 1), Pow2(7 - m), hi, a[i] as int, low);
    OrBitAdds(a[i], m);
    UpdateByte(a, i, OrBit(a[i], m));
  }

  lemma HalveModulus(v: nat, m: nat)
    requires m > 0 && v % (2 * m) == 0
    ensures (v + m) % m == 0
  {
    var k := v / (2 * m);
    DivideBounds(v, 2 * m);
    assert v + m == (2 * k + 1) * m + 0;
    QuotientUnique(v + m, m, 2 * k + 1, 0);
  }

  /** One turn of the loop of `lastAddr`: `end` is where the prefix ends. */
  lemma HostBitStep(a: Addr, bit: nat, end: nat)
    requires bit < 32 && Value(a) == end - Pow2(32 - bit) && Value(a) % Pow2(32 - bit) == 0
    ensures Value(WithHostBit(a, bit)) == end - Pow2(31 - bit) && Value(WithHostBit(a, bit)) % Pow2(31 - bit) == 0
  {
    SetHostBit(a, bit);
    assert Pow2(32 - bit) == 2 * Pow2(31 - bit);
    HalveModulus(Value(a), Pow2(31 - bit));
  }

  /** `lastAddr`: the bit loop sets every host bit of the masked base. */
  method LastAddr(prefix: Prefix) returns (r: Addr)
    requires prefix.Valid()
    ensures Value(r) == Value(prefix.Masked().addr) + prefix.Size() - 1
  {
    var base := prefix.Masked().addr;
    MaskedIsMasked(prefix);
    var addr := new Byte[4](k requires 0 <= k < 4 => base[k]);
    assert addr[..] == base;
    var bit := prefix.bits;
    while bit < 32
      invariant prefix.bits <= bit <= 32
      invariant Value(addr[..]) == Value(base) + prefix.Size() - Pow2(32 - bit)
      invariant Value(addr[..]) % Pow2(32 - bit) == 0
    {
      ghost var before := addr[..];
      var byteIndex, maskBit := bit / 8, 7 - bit % 8;
      addr[byteIndex] := OrBit(addr[byteIndex], maskBit);
      assert addr[..] == WithHostBit(before, bit);
      HostBitStep(before, bit, Value(base) + prefix.Size());
      bit := bit + 1;
    }
    r := addr[..];
  }

  /** The last address is the greatest one the prefix contains, and the base the least. */
  lemma ContainsIsRange(p: Prefix, a: Addr)
    requires p.Valid()
    ensures var base := Value(p.Masked().addr);
            p.Contains(a) <==> base <= Value(a) <= base + p.Size() - 1
  {
    var m := p.Size();
    var q := Value(p.addr) / m;
    DivideBounds(Value(p.addr), m);
    FromValueIsInverse(q * m);
    DivideBounds(Value(a), m);
    if q * m <= Value(a) < q * m + m {
      QuotientUnique(Value(a), m, q, Value(a) - q * m);
    }
  }

  lemma MultipleMonotone(a: nat, b: nat, m: nat)
    ensures a <= b ==> a * m <= b * m
  {
  }

  lemma SpaceIsPow2()
    ensures Pow2(32) == MAX_VALUE + 1
  {
    assert Pow2(8) == 256;
    assert Pow2(16) == 0x1_0000;
    assert Pow2(24) == 0x100_0000;
  }

  lemma SizeDividesSpace(bits: nat)
    requires bits <= 32
    ensures Pow2(bits) * Pow2(32 - bits) == MAX_VALUE + 1
  {
    Pow2Splits(bits, 32 - bits);
    SpaceIsPow2();
  }

  lemma MultipleBelow(v: nat, m: nat, n: nat)
    requires m > 0 && v % m == 0 && v < n * m
    ensures v + m <= n * m
  {
    var k := v / m;
    DivideBounds(v, m);
    MultipleMonotone(n, k, m);
    MultipleMonotone(k + 1, n, m);
    assert (k + 1) * m == k * m + m;
  }

  /** A prefix of the address space ends inside it. */
  lemma PrefixFits(p: Prefix)
    requires p.IsMasked()
    ensures Value(p.addr) + p.Size() - 1 <= MAX_VALUE
  {
    SizeDividesSpace(p.bits);
    MultipleBelow(Value(p.addr), p.Size(), Pow2(p.bits));
  }
}
