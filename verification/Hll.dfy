/**
 The HyperLogLog sketch: 4096 registers of six bits, updated in place, packed into a
 3072-byte blob. A sketch stands for a set of 64-bit hashes; what it forgets and what it
 keeps is stated by IsSketchOf.
 */
module Hll {
  import opened Wrappers
  import opened Powers

  const REGISTERS := 4096
  const BLOB_SIZE := 3072
  const REST := 0x10_0000_0000_0000 // 2^52: the hash bits below the index
  const TOP := 0x8000_0000_0000_0000 // 2^63

  type Hash = h: int | 0 <= h < 0x1_0000_0000_0000_0000
  type Byte = x: int | 0 <= x < 256
  type Registers = seq<Byte>

  // ---- which register a hash moves, and how far ----

  function IndexOf(h: Hash): nat { h / REST }

  /** One plus the number of leading zeros among the low 52 bits; 63 when they are all zero. */
  function RankOf(h: Hash): nat { if h % REST == 0 then 63 else LeadingRank(h % REST, 1) }

  /** Counts up from `rank` until `low`, doubled once per step, reaches the top bit of 52. */
  function LeadingRank(low: nat, rank: nat): nat
    requires 0 < low < REST
    decreases REST - low
  {
    if 2 * low >= REST then rank else LeadingRank(2 * low, rank + 1)
  }

  lemma {:induction false} LeadingRankBounds(low: nat, rank: nat)
    requires 0 < low < REST
    ensures var k := LeadingRank(low, rank);
            rank <= k && Pow2(k - rank) * low < REST <= 2 * (Pow2(k - rank) * low)
    decreases REST - low
  {
    if 2 * low < REST {
      LeadingRankBounds(2 * low, rank + 1);
      var n := LeadingRank(2 * low, rank + 1) - (rank + 1);
      DoubleOnce(n, low);
    }
  }

  lemma DoubleOnce(n: nat, low: nat)
    ensures Pow2(n + 1) * low == Pow2(n) * (2 * low)
  {
  }

  lemma Pow2Of52()
    ensures Pow2(52) == REST
  {
    assert Pow2(1) == 2 && Pow2(3) == 8;
    assert Pow2(5) == 32 && Pow2(7) == 128;
    assert Pow2(9) == 512 && Pow2(11) == 2048;
    assert Pow2(13) == 8192;
    Pow2Adds(13, 13);
    Pow2Adds(26, 26);
  }

  lemma RankAtMost52(low: nat)
    requires 0 < low < REST
    ensures LeadingRank(low, 1) <= 52
  {
    LeadingRankBounds(low, 1);
    var k := LeadingRank(low, 1);
    if k > 52 {
      Pow2Of52();
      Pow2Monotone(52, k - 1);
      AtLeastFactor(Pow2(k - 1), low);
    }
  }

  lemma AtLeastFactor(a: nat, b: nat)
    requires b > 0
    ensures a * b >= a
  {
  }

  /** Every rank a hash can produce fits in six bits: it is 1 to 52, or 63. */
  lemma RankFits(h: Hash)
    ensures 1 <= RankOf(h) <= 52 || RankOf(h) == 63
    ensures h % REST != 0 ==> Pow2(RankOf(h) - 1) * (h % REST) < REST <= 2 * (Pow2(RankOf(h) - 1) * (h % REST))
    ensures h % REST == 0 <==> RankOf(h) == 63
  {
    if h % REST != 0 {
      LeadingRankBounds(h % REST, 1);
      RankAtMost52(h % REST);
    }
  }

  /** The top twelve bits of a hash choose its register, the other 52 its rank: how far their first one bit is. */
  lemma HashSplits(h: Hash, index: nat, low: nat)
    requires low < 0x10_0000_0000_0000 && h == index * 0x10_0000_0000_0000 + low
    ensures IndexOf(h) == index < 4096
    ensures low == 0 ==> RankOf(h) == 63
    ensures low > 0 ==> 1 <= RankOf(h) <= 52 && var lead := Pow2(RankOf(h) - 1) * low;
            lead < 0x10_0000_0000_0000 <= 2 * lead
  {
    RankFits(h);
    assert h / REST == index && h % REST == low;
  }

  // ---- the register contents as a value ----

  function Max(a: Byte, b: Byte): Byte { if a < b then b else a }

  predicate Shaped(regs: Registers) { |regs| == REGISTERS }

  /** Nothing is lost in six bits. */
  predicate SixBit(regs: Registers) { Shaped(regs) && forall i :: 0 <= i < REGISTERS ==> regs[i] < 64 }

  function Inserted(regs: Registers, h: Hash): (r: Registers)
    requires Shaped(regs)
  {
    RankFits(h);
    regs[IndexOf(h) := Max(regs[IndexOf(h)], RankOf(h))]
  }

  function Join(a: Registers, b: Registers): (r: Registers)
    requires Shaped(a) && Shaped(b)
    ensures Shaped(r)
  {
    seq(REGISTERS, i requires 0 <= i < REGISTERS => Max(a[i], b[i]))
  }

  function Blank(): Registers { seq(REGISTERS, i => 0) }

  /** Register i is the largest rank among the hashes that fall into it, 0 when there is none. */
  ghost predicate Register(r: Byte, i: nat, hs: set<Hash>) {
    && (forall h <- hs :: IndexOf(h) == i ==> RankOf(h) <= r)
    && (r == 0 || exists h <- hs :: IndexOf(h) == i && RankOf(h) == r)
  }

  /** What a sketch means: the set of hashes it was fed. */
  ghost predicate IsSketchOf(regs: Registers, hs: set<Hash>) {
    Shaped(regs) && forall i: nat :: i < REGISTERS ==> Register(regs[i], i, hs)
  }

  lemma BlankIsEmpty()
    ensures IsSketchOf(Blank(), {})
  {
  }

  /** The set of hashes fixes the sketch. */
  lemma SketchIsUnique(a: Registers, b: Registers, hs: set<Hash>)
    requires IsSketchOf(a, hs) && IsSketchOf(b, hs)
    ensures a == b
  {
    forall i: nat | i < REGISTERS ensures a[i] == b[i] {
      assert Register(a[i], i, hs) && Register(b[i], i, hs);
      RanksArePositive();
    }
  }

  lemma RanksArePositive()
    ensures forall h: Hash :: 1 <= RankOf(h) <= 63
  {
    forall h: Hash ensures 1 <= RankOf(h) <= 63 {
      RankFits(h);
    }
  }

  /** Inserting a hash adds it to the set, whether or not it was there. */
  lemma InsertAdds(regs: Registers, hs: set<Hash>, h: Hash)
    requires IsSketchOf(regs, hs)
    ensures IsSketchOf(Inserted(regs, h), hs + {h})
  {
    var r, all := Inserted(regs, h), hs + {h};
    RankFits(h);
    forall i: nat | i < REGISTERS ensures Register(r[i], i, all) {
      assert Register(regs[i], i, hs);
      assert h in all;
      if r[i] == regs[i] {
        if regs[i] != 0 {
          var g :| g in hs && IndexOf(g) == i && RankOf(g) == regs[i];
          assert g in all;
        }
      }
    }
  }

  /** Merging sketches is the sketch of the union. */
  lemma JoinIsUnion(a: Registers, s: set<Hash>, b: Registers, t: set<Hash>)
    requires IsSketchOf(a, s) && IsSketchOf(b, t)
    ensures IsSketchOf(Join(a, b), s + t)
  {
    var r := Join(a, b);
    forall i: nat | i < REGISTERS ensures Register(r[i], i, s + t) {
      assert Register(a[i], i, s) && Register(b[i], i, t);
      if r[i] != 0 {
        if r[i] == a[i] {
          var g :| g in s && IndexOf(g) == i && RankOf(g) == a[i];
          assert g in s + t;
        } else {
          var g :| g in t && IndexOf(g) == i && RankOf(g) == b[i];
          assert g in s + t;
        }
      }
    }
  }

  predicate Below(a: Registers, b: Registers)
    requires Shaped(a) && Shaped(b)
  {
    forall i :: 0 <= i < REGISTERS ==> a[i] <= b[i]
  }

  /** A smaller set has a register-wise smaller sketch. */
  lemma SubsetIsBelow(a: Registers, s: set<Hash>, b: Registers, t: set<Hash>)
    requires IsSketchOf(a, s) && IsSketchOf(b, t) && s <= t
    ensures Below(a, b)
  {
    forall i: nat | i < REGISTERS ensures a[i] <= b[i] {
      assert Register(a[i], i, s) && Register(b[i], i, t);
    }
  }

  /** Every register a set of hashes can produce is 0, 1 to 52, or 63. */
  lemma ReachableRegisters(regs: Registers, hs: set<Hash>)
    requires IsSketchOf(regs, hs)
    ensures SixBit(regs)
    ensures forall i :: 0 <= i < REGISTERS ==> regs[i] <= 52 || regs[i] == 63
  {
    forall i: nat | i < REGISTERS ensures regs[i] <= 52 || regs[i] == 63 {
      assert Register(regs[i], i, hs);
      if regs[i] != 0 {
        var h :| h in hs && IndexOf(h) == i && RankOf(h) == regs[i];
        RankFits(h);
      }
    }
  }

  /** Merge is a join: commutative, associative, idempotent, and insertion passes through it. */
  lemma JoinLaws(a: Registers, b: Registers, c: Registers, h: Hash)
    requires Shaped(a) && Shaped(b) && Shaped(c)
    ensures Join(a, b) == Join(b, a)
    ensures Join(Join(a, b), c) == Join(a, Join(b, c))
    ensures Join(a, a) == a
    ensures Join(Inserted(a, h), b) == Inserted(Join(a, b), h) == Join(a, Inserted(b, h))
    ensures Inserted(Inserted(a, h), h) == Inserted(a, h)
    ensures Below(a, b) <==> Join(a, b) == b
  {
    if Join(a, b) == b {
      forall i | 0 <= i < REGISTERS ensures a[i] <= b[i] {
        assert Join(a, b)[i] == b[i];
      }
    }
  }

  // ---- six bits per register in a blob ----

  /** x & (1 << b) != 0 */
  predicate Bit(x: nat, b: nat) {
    if b == 0 then x % 2 == 1 else Bit(x / 2, b - 1)
  }

  /** x | (1 << b) */
  function SetBit(x: nat, b: nat): nat {
    if b == 0 then x - x % 2 + 1 else x % 2 + 2 * SetBit(x / 2, b - 1)
  }

  /** The number with the given bits, least significant first. */
  function FromBits(bits: seq<bool>): nat {
    if bits == [] then 0 else (if bits[0] then 1 else 0) + 2 * FromBits(bits[1..])
  }

  lemma {:induction false} FromBitsBound(bits: seq<bool>)
    ensures FromBits(bits) < Pow2(|bits|)
  {
    if bits == [] {
    } else {
      FromBitsBound(bits[1..]);
    }
  }

  lemma {:induction false} BitOfFromBits(bits: seq<bool>, b: nat)
    ensures Bit(FromBits(bits), b) == (b < |bits| && bits[b])
  {
    if bits == [] {
      if b > 0 {
        BitOfFromBits(bits, b - 1);
      }
    } else {
      assert FromBits(bits) / 2 == FromBits(bits[1..]);
      if b > 0 {
        BitOfFromBits(bits[1..], b - 1);
      }
    }
  }

  lemma {:induction false} BitOfSetBit(x: nat, b: nat, c: nat)
    ensures Bit(SetBit(x, b), c) == (Bit(x, c) || c == b)
  {
    if b > 0 {
      assert SetBit(x, b) / 2 == SetBit(x / 2, b - 1) && SetBit(x, b) % 2 == x % 2;
      if c > 0 {
        BitOfSetBit(x / 2, b - 1, c - 1);
      }
    } else {
      assert SetBit(x, 0) / 2 == x / 2;
    }
  }

  lemma {:induction false} SetBitBound(x: nat, b: nat, n: nat)
    requires x < Pow2(n) && b < n
    ensures SetBit(x, b) < Pow2(n)
  {
    var half := Pow2(n - 1);
    assert Pow2(n) == 2 * half;
    HalfBound(x, half);
    if b == 0 {
      assert SetBit(x, 0) == x - x % 2 + 1;
    } else {
      SetBitBound(x / 2, b - 1, n - 1);
      assert SetBit(x, b) == x % 2 + 2 * SetBit(x / 2, b - 1);
    }
  }

  lemma HalfBound(x: nat, half: nat)
    requires x < 2 * half
    ensures x / 2 < half && x - x % 2 + 1 < 2 * half
  {
  }

  /** Two n-bit numbers with the same n bits are the same number. */
  lemma {:induction false} BitsFixNumber(x: nat, y: nat, n: nat)
    requires x < Pow2(n) && y < Pow2(n) && forall b: nat :: b < n ==> Bit(x, b) == Bit(y, b)
    ensures x == y
  {
    if n == 0 {
    } else {
      assert Bit(x, 0) == Bit(y, 0);
      forall b: nat | b < n - 1 ensures Bit(x / 2, b) == Bit(y / 2, b) {
        assert Bit(x, b + 1) == Bit(y, b + 1);
      }
      BitsFixNumber(x / 2, y / 2, n - 1);
    }
  }

  lemma SmallPowers()
    ensures Pow2(6) == 64 && Pow2(8) == 256
  {
    assert Pow2(3) == 8;
    assert Pow2(6) == 64;
  }

  type Blob = seq<Byte>

  const BITS := 6 * REGISTERS

  predicate RegisterBit(regs: Registers, k: nat)
    requires Shaped(regs) && k < BITS
  {
    Bit(regs[k / 6], k % 6)
  }

  predicate BlobBit(blob: Blob, k: nat)
    requires |blob| == BLOB_SIZE && k < BITS
  {
    Bit(blob[k / 8], k % 8)
  }

  function Pack(regs: Registers): (blob: Blob)
    requires Shaped(regs)
    ensures |blob| == BLOB_SIZE
  {
    PackedBytes(regs);
    seq(BLOB_SIZE, j requires 0 <= j < BLOB_SIZE => FromBits(ByteBits(regs, j)))
  }

  lemma PackBits(regs: Registers)
    requires Shaped(regs)
    ensures forall k: nat :: k < BITS ==> BlobBit(Pack(regs), k) == RegisterBit(regs, k)
  {
    PackedBytes(regs);
  }

  function ByteBits(regs: Registers, j: nat): seq<bool>
    requires Shaped(regs) && j < BLOB_SIZE
  {
    seq(8, t requires 0 <= t < 8 => RegisterBit(regs, 8 * j + t))
  }

  lemma PackedBytes(regs: Registers)
    requires Shaped(regs)
    ensures forall j: nat :: j < BLOB_SIZE ==> FromBits(ByteBits(regs, j)) < 256
    ensures forall k: nat :: k < BITS ==> Bit(FromBits(ByteBits(regs, k / 8)), k % 8) == RegisterBit(regs, k)
  {
    SmallPowers();
    forall j: nat | j < BLOB_SIZE ensures FromBits(ByteBits(regs, j)) < 256 {
      FromBitsBound(ByteBits(regs, j));
    }
    forall k: nat | k < BITS ensures Bit(FromBits(ByteBits(regs, k / 8)), k % 8) == RegisterBit(regs, k) {
      BitOfFromBits(ByteBits(regs, k / 8), k % 8);
    }
  }

  function RegisterBits(blob: Blob, i: nat): seq<bool>
    requires |blob| == BLOB_SIZE && i < REGISTERS
  {
    seq(6, t requires 0 <= t < 6 => BlobBit(blob, 6 * i + t))
  }

  lemma UnpackedRegisters(blob: Blob)
    requires |blob| == BLOB_SIZE
    ensures forall i: nat :: i < REGISTERS ==> FromBits(RegisterBits(blob, i)) < 64
    ensures forall k: nat :: k < BITS ==> Bit(FromBits(RegisterBits(blob, k / 6)), k % 6) == BlobBit(blob, k)
  {
    SmallPowers();
    forall i: nat | i < REGISTERS ensures FromBits(RegisterBits(blob, i)) < 64 {
      FromBitsBound(RegisterBits(blob, i));
    }
    forall k: nat | k < BITS ensures Bit(FromBits(RegisterBits(blob, k / 6)), k % 6) == BlobBit(blob, k) {
      BitOfFromBits(RegisterBits(blob, k / 6), k % 6);
    }
  }

  function Unpack(blob: Blob): (regs: Registers)
    requires |blob| == BLOB_SIZE
    ensures Shaped(regs)
  {
    UnpackedRegisters(blob);
    seq(REGISTERS, i requires 0 <= i < REGISTERS => FromBits(RegisterBits(blob, i)))
  }

  lemma UnpackBits(blob: Blob)
    requires |blob| == BLOB_SIZE
    ensures SixBit(Unpack(blob))
    ensures forall k: nat :: k < BITS ==> RegisterBit(Unpack(blob), k) == BlobBit(blob, k)
  {
    UnpackedRegisters(blob);
  }

  /** The 24576 bits of a blob fix it. */
  lemma BlobBitsFixBlob(a: Blob, b: Blob)
    requires |a| == |b| == BLOB_SIZE && forall k: nat :: k < BITS ==> BlobBit(a, k) == BlobBit(b, k)
    ensures a == b
  {
    SmallPowers();
    forall j | 0 <= j < BLOB_SIZE ensures a[j] == b[j] {
      forall t: nat | t < 8 ensures Bit(a[j], t) == Bit(b[j], t) {
        assert BlobBit(a, 8 * j + t) == BlobBit(b, 8 * j + t);
      }
      BitsFixNumber(a[j], b[j], 8);
    }
  }

  /** The six low bits of every register fix registers below 64. */
  lemma RegisterBitsFixRegisters(a: Registers, b: Registers)
    requires SixBit(a) && SixBit(b) && forall k: nat :: k < BITS ==> RegisterBit(a, k) == RegisterBit(b, k)
    ensures a == b
  {
    SmallPowers();
    forall i | 0 <= i < REGISTERS ensures a[i] == b[i] {
      forall t: nat | t < 6 ensures Bit(a[i], t) == Bit(b[i], t) {
        assert RegisterBit(a, 6 * i + t) == RegisterBit(b, 6 * i + t);
      }
      BitsFixNumber(a[i], b[i], 6);
    }
  }

  /** Unpacking undoes packing on six-bit registers, packing undoes unpacking on every 3072-byte blob. */
  lemma PackUnpackInverse(regs: Registers, blob: Blob)
    requires SixBit(regs) && |blob| == BLOB_SIZE
    ensures Unpack(Pack(regs)) == regs
    ensures Pack(Unpack(blob)) == blob
  {
    PackBits(regs);
    UnpackBits(Pack(regs));
    RegisterBitsFixRegisters(Unpack(Pack(regs)), regs);
    UnpackBits(blob);
    PackBits(Unpack(blob));
    BlobBitsFixBlob(Pack(Unpack(blob)), blob);
  }

  lemma {:induction false} BitMeans(x: nat, b: nat)
    ensures Bit(x, b) <==> x / Pow2(b) % 2 == 1
  {
    if b == 0 {
    } else {
      BitMeans(x / 2, b - 1);
      HalfFirst(x, Pow2(b - 1));
    }
  }

  lemma HalfFirst(x: nat, w: nat)
    requires w > 0
    ensures x / (2 * w) == x / 2 / w
  {
    var q, r := x / 2 / w, x / 2 % w;
    assert x / 2 == q * w + r;
    assert x == 2 * (q * w + r) + x % 2 == q * (2 * w) + (2 * r + x % 2);
    assert 0 <= 2 * r + x % 2 < 2 * w;
    Quotient(x, q, 2 * r + x % 2, 2 * w);
  }

  lemma OneMoreTimes(a: nat, b: nat, w: nat)
    ensures a > b ==> a * w >= b * w + w
  {
    if a > b {
      assert (a - b - 1) * w >= 0;
      assert a * w == (a - b - 1) * w + b * w + w;
    }
  }

  lemma Quotient(x: nat, q: nat, r: nat, w: nat)
    requires w > 0 && r < w && x == q * w + r
    ensures x / w == q
  {
    var p, s := x / w, x % w;
    assert x == p * w + s && s < w;
    OneMoreTimes(p, q, w);
    OneMoreTimes(q, p, w);
  }

  /** The blob is the registers' six low bits one after the other, least significant first, eight to a byte. */
  lemma PackLayout(regs: Registers, k: nat)
    requires Shaped(regs) && k < 24576
    ensures |Pack(regs)| == 3072
    ensures Pack(regs)[k / 8] / Pow2(k % 8) % 2 == regs[k / 6] / Pow2(k % 6) % 2
  {
    PackBits(regs);
    assert BlobBit(Pack(regs), k) == RegisterBit(regs, k);
    BitMeans(Pack(regs)[k / 8], k % 8);
    BitMeans(regs[k / 6], k % 6);
  }

  /** A register of 64 or more would not survive: packing keeps six bits. */
  lemma SevenBitsAreLost(regs: Registers)
    requires Shaped(regs) && !SixBit(regs)
    ensures Unpack(Pack(regs)) != regs
  {
    UnpackBits(Pack(regs));
  }

  // ---- the mutable sketch ----

  class Sketch {
    const registers: array<Byte>

    predicate Valid()
      reads this
    {
      registers.Length == REGISTERS
    }

    constructor ()
      ensures Valid() && fresh(registers) && registers[..] == Blank()
    {
      registers := new Byte[REGISTERS](_ => 0);
    }

    /** Folds one hash in. */
    method InsertHash(h: Hash)
      requires Valid()
      modifies registers
      ensures registers[..] == Inserted(old(registers[..]), h)
    {
      var idx := h / REST;
      ghost var low := h % REST;
      ghost var x := low;
      var remainder := (h * 4096) % 0x1_0000_0000_0000_0000;
      assert remainder == 4096 * low;
      var rank := 1;
      if low != 0 { RankAtMost52(low); LeadingRankBounds(low, 1); }
      while rank < 63 && remainder < TOP
        invariant registers[..] == old(registers[..])
        invariant 1 <= rank <= 63 && remainder == 4096 * x
        invariant low == 0 ==> x == 0
        invariant low != 0 ==> 0 < x < REST && LeadingRank(x, rank) == LeadingRank(low, 1)
        invariant low != 0 ==> rank <= LeadingRank(x, rank)
      {
        if low != 0 { LeadingRankBounds(x, rank); LeadingRankBounds(2 * x, rank + 1); }
        x := 2 * x;
        remainder := (remainder * 2) % 0x1_0000_0000_0000_0000;
        rank := rank + 1;
      }
      assert rank == RankOf(h);
      if rank > registers[idx] {
        registers[idx] := rank;
      }
      ghost var before := old(registers[..]);
      assert registers[..] == before[idx := Max(before[idx], RankOf(h))];
    }

    /** Register-wise maximum with another sketch. */
    method Merge(other: Sketch)
      requires Valid() && other.Valid()
      modifies registers
      ensures registers[..] == Join(old(registers[..]), old(other.registers[..]))
    {
      var i := 0;
      while i < REGISTERS
        invariant i <= REGISTERS
        invariant forall j :: 0 <= j < i ==> registers[j] == Max(old(registers[j]), old(other.registers[j]))
        invariant forall j :: i <= j < REGISTERS ==>
                  registers[j] == old(registers[j]) && other.registers[j] == old(other.registers[j])
      {
        var r := other.registers[i];
        if r > registers[i] {
          registers[i] := r;
        }
        i := i + 1;
      }
    }

    /** Packs the registers, six bits each, with a running bit cursor. */
    method MarshalBinary() returns (blob: Blob)
      requires Valid()
      ensures blob == Pack(registers[..])
    {
      var bytes := new Byte[BLOB_SIZE](_ => 0);
      ghost var regs := registers[..];
      assert forall k: nat :: k < BITS ==> !Bit(0, k % 8) by { ZeroHasNoBits(); }
      var bit := 0;
      for i := 0 to REGISTERS
        invariant bit == 6 * i && registers[..] == regs
        invariant forall k: nat :: k < BITS ==> BlobBit(bytes[..], k) == (k < bit && RegisterBit(regs, k))
      {
        for b := 0 to 6
          invariant bit == 6 * i + b && registers[..] == regs
          invariant forall k: nat :: k < BITS ==> BlobBit(bytes[..], k) == (k < bit && RegisterBit(regs, k))
        {
          assert RegisterBit(regs, bit) == Bit(registers[i], b);
          if Bit(registers[i], b) {
            BitWritten(bytes[..], bit);
            bytes[bit / 8] := SetBit(bytes[bit / 8], bit % 8);
          }
          bit := bit + 1;
        }
      }
      blob := bytes[..];
      PackBits(regs);
      BlobBitsFixBlob(blob, Pack(regs));
    }
  }

  lemma {:induction false} ZeroHasNoBit(b: nat)
    ensures !Bit(0, b)
  {
    if b == 0 {
    } else {
      ZeroHasNoBit(b - 1);
    }
  }

  lemma ZeroHasNoBits()
    ensures forall b: nat :: !Bit(0, b)
  {
    forall b: nat ensures !Bit(0, b) {
      ZeroHasNoBit(b);
    }
  }

  lemma BitWritten(blob: Blob, bit: nat)
    requires |blob| == BLOB_SIZE && bit < BITS
    ensures SetBit(blob[bit / 8], bit % 8) < 256
    ensures var b := blob[bit / 8 := SetBit(blob[bit / 8], bit % 8)];
            forall k: nat :: k < BITS ==> BlobBit(b, k) == (BlobBit(blob, k) || k == bit)
  {
    SmallPowers();
    SetBitBound(blob[bit / 8], bit % 8, 8);
    forall k: nat | k < BITS
      ensures Bit(blob[bit / 8 := SetBit(blob[bit / 8], bit % 8)][k / 8], k % 8) == (BlobBit(blob, k) || k == bit)
    {
      BitOfSetBit(blob[bit / 8], bit % 8, k % 8);
    }
  }

  /** Setting the bit after the last one appends a true, leaving it appends a false. */
  lemma {:induction false} NextBit(bits: seq<bool>)
    ensures SetBit(FromBits(bits), |bits|) == FromBits(bits + [true])
    ensures FromBits(bits) == FromBits(bits + [false])
  {
    if bits == [] {
    } else {
      NextBit(bits[1..]);
      assert (bits + [true])[1..] == bits[1..] + [true] && (bits + [false])[1..] == bits[1..] + [false];
      assert FromBits(bits) / 2 == FromBits(bits[1..]);
    }
  }

  /** Reads the six bits of one register at the cursor. */
  method ReadRegister(blob: Blob, i: nat) returns (r: Byte)
    requires |blob| == BLOB_SIZE && i < REGISTERS
    ensures r == Unpack(blob)[i]
  {
    ghost var bits := RegisterBits(blob, i);
    var acc: nat := 0;
    var b := 0;
    while b < 6
      invariant b <= 6 && acc == FromBits(bits[..b])
    {
      var bit := 6 * i + b;
      NextBit(bits[..b]);
      assert bits[..b + 1] == bits[..b] + [bits[b]] && |bits[..b]| == b;
      assert bits[b] == BlobBit(blob, bit);
      if Bit(blob[bit / 8], bit % 8) {
        acc := SetBit(acc, b);
      }
      b := b + 1;
    }
    assert bits[..6] == bits;
    UnpackedRegisters(blob);
    r := acc;
  }

  /** Restores a sketch; any other blob size is an error. */
  method UnmarshalBinary(blob: Blob) returns (r: Result<Sketch>)
    ensures r.Ok? <==> |blob| == BLOB_SIZE
    ensures r.Ok? ==> fresh(r.value) && fresh(r.value.registers)
    ensures r.Ok? ==> r.value.Valid() && r.value.registers[..] == Unpack(blob)
  {
    if |blob| != BLOB_SIZE {
      return Err("hll: blob must be 3072 bytes");
    }
    var s := new Sketch();
    for i := 0 to REGISTERS
      invariant s.Valid() && fresh(s) && fresh(s.registers)
      invariant forall j :: 0 <= j < i ==> s.registers[j] == Unpack(blob)[j]
    {
      var register := ReadRegister(blob, i);
      s.registers[i] := register;
    }
    assert s.registers[..] == Unpack(blob);
    r := Ok(s);
  }
}
