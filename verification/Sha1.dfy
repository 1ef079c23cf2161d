/** SHA-1 as FIPS 180-4 defines it, on whole messages and whole blocks. */
module Sha1Spec {
  type Byte = bv8
  type Word = bv32

  // Addition modulo 2^32, and the sum and the exclusive or that a round and the schedule take. They are named so that
  // proofs about the order of computation need not look into them.
  function Add(x: Word, y: Word): Word {
    x + y
  }

  function Mix(a: Word, f: Word, e: Word, k: Word, w: Word): Word {
    a + f + e + k + w
  }

  function Xor4(a: Word, b: Word, c: Word, d: Word): Word {
    a ^ b ^ c ^ d
  }

  datatype Hash = Hash(a: Word, b: Word, c: Word, d: Word, e: Word) {
    function Plus(h: Hash): Hash {
      Hash(Add(a, h.a), Add(b, h.b), Add(c, h.c), Add(d, h.d), Add(e, h.e))
    }
  }

  // Section 5.3.1
  const INITIAL := Hash(0x67452301, 0xEFCDAB89, 0x98BADCFE, 0x10325476, 0xC3D2E1F0)

  // Section 3.2
  function Rotl(x: Word, n: Word): Word
    requires 0 < n < 32
  {
    (x << n) | (x >> (32 - n))
  }

  // Section 4.1.1
  function F(t: nat, x: Word, y: Word, z: Word): Word {
    if t < 20 then (x & y) ^ (!x & z)
    else if t < 40 then x ^ y ^ z
    else if t < 60 then (x & y) ^ (x & z) ^ (y & z)
    else x ^ y ^ z
  }

  // Section 4.2.1
  function K(t: nat): Word {
    if t < 20 then 0x5A827999 else if t < 40 then 0x6ED9EBA1 else if t < 60 then 0x8F1BBCDC else 0xCA62C1D6
  }

  /** The constants are the first 32 bits of the square roots of 2, 3, 5 and 10. */
  lemma ConstantsAreRoots(t: nat)
    ensures
      var n, k := if t < 20 then 2 else if t < 40 then 3 else if t < 60 then 5 else 10, K(t) as int;
      k * k <= n * 0x1000_0000_0000_0000 < (k + 1) * (k + 1)
  {
  }

  /** Sixteen bytes whose hexadecimal digits count up from 0 to F and down again, and four that go down from F in
      the first digit and up from 0 in the second. */
  function Counting(k: nat): int
    requires k < 20
  {
    if k < 8 then 0x01 + 0x22 * k else if k < 16 then 0xFE - 0x22 * (k - 8) else 0xF0 - 0x0F * (k - 16)
  }

  /** A number of four of these bytes, the first the least significant. */
  function CountingWord(k: nat): int
    requires k < 17
  {
    Counting(k) + 0x100 * Counting(k + 1) + 0x1_0000 * Counting(k + 2) + 0x100_0000 * Counting(k + 3)
  }

  lemma InitialCounts()
    ensures INITIAL.a as int == CountingWord(0) && INITIAL.b as int == CountingWord(4)
    ensures INITIAL.c as int == CountingWord(8) && INITIAL.d as int == CountingWord(12)
    ensures INITIAL.e as int == CountingWord(16)
  {
  }

  /** Four bytes as one word, the first the most significant. */
  function BigEndian(b0: Byte, b1: Byte, b2: Byte, b3: Byte): Word {
    ((b0 as Word) << 24) | ((b1 as Word) << 16) | ((b2 as Word) << 8) | (b3 as Word)
  }

  /** The message schedule (section 6.1.2, step 1). */
  function Schedule(block: seq<Byte>, t: nat): Word
    requires |block| == 64
  {
    if t < 16 then BigEndian(block[4*t], block[4*t+1], block[4*t+2], block[4*t+3])
    else Rotl(Xor4(Schedule(block, t-3), Schedule(block, t-8), Schedule(block, t-14), Schedule(block, t-16)), 1)
  }

  function Round(h: Hash, t: nat, w: Word): Hash {
    Hash(Mix(Rotl(h.a, 5), F(t, h.b, h.c, h.d), h.e, K(t), w), h.a, Rotl(h.b, 30), h.c, h.d)
  }

  /** The working variables after t rounds (steps 2 and 3). */
  function Rounds(h: Hash, block: seq<Byte>, t: nat): Hash
    requires |block| == 64
  {
    if t == 0 then h else Round(Rounds(h, block, t - 1), t - 1, Schedule(block, t - 1))
  }

  /** Step 4. */
  function Compress(h: Hash, block: seq<Byte>): Hash
    requires |block| == 64
  {
    h.Plus(Rounds(h, block, 80))
  }

  function Blocks(h: Hash, s: seq<Byte>): Hash
    requires |s| % 64 == 0
  {
    if s == [] then h else Compress(Blocks(h, s[..|s|-64]), s[|s|-64..])
  }

  function Zeros(n: nat): (r: seq<Byte>)
    ensures |r| == n
  {
    seq(n, _ => 0)
  }

  /** How many zero bytes follow the byte 0x80 (section 5.1.1). */
  function ZeroBytes(length: nat): nat {
    (55 - length) % 64
  }

  /** The bytes of a 64-bit number, the most significant first. */
  function Bytes64(n: nat): (r: seq<Byte>)
    ensures |r| == 8
  {
    [((n / 0x100_0000_0000_0000) % 0x100) as Byte, ((n / 0x1_0000_0000_0000) % 0x100) as Byte,
     ((n / 0x100_0000_0000) % 0x100) as Byte, ((n / 0x1_0000_0000) % 0x100) as Byte,
     ((n / 0x100_0000) % 0x100) as Byte, ((n / 0x1_0000) % 0x100) as Byte,
     ((n / 0x100) % 0x100) as Byte, (n % 0x100) as Byte]
  }

  lemma PaddingFits(length: nat)
    ensures (length + 1 + ZeroBytes(length)) % 64 == 56
    ensures (length + 1 + ZeroBytes(length) + 8) % 64 == 0
  {
    var q := (55 - length) / 64;
    assert 55 - length == 64 * q + ZeroBytes(length);
    assert length + 1 + ZeroBytes(length) == 56 + 64 * (-q);
    assert length + 1 + ZeroBytes(length) + 8 == 64 * (1 - q);
  }

  function Padded(message: seq<Byte>): (r: seq<Byte>)
    ensures |r| % 64 == 0
  {
    hide ZeroBytes, Bytes64;
    PaddingFits(|message|);
    message + [0x80] + Zeros(ZeroBytes(|message|)) + Bytes64(8 * |message|)
  }

  function Digest(message: seq<Byte>): Hash {
    Blocks(INITIAL, Padded(message))
  }

  /** Section 5.1.1 in bits: the 1 bit and the zeros after it, k of them, bring the length to 448 modulo 512 with the
      least k that does. The first seven zeros are in the byte 0x80. */
  lemma LeastPadding(length: nat, k: nat)
    ensures (8 * length + 1 + (7 + 8 * ZeroBytes(length))) % 512 == 448
    ensures (8 * length + 1 + k) % 512 == 448 ==> 7 + 8 * ZeroBytes(length) <= k
  {
    var z := ZeroBytes(length);
    assert (55 - length) % 64 == z;
    var q := (55 - length) / 64;
    assert 55 - length == 64 * q + z;
    assert 8 * length + 1 + (7 + 8 * z) == 448 + 512 * (-q);
  }
}

/** The byte-at-a-time computation (src/Util.cc, class Sha1). */
module Sha1Streams {
  import opened Sha1Spec

  function LeftRotate(x: Word, n: Word): Word
    requires 0 < n < 32
  {
    (x << n) ^ (x >> (32 - n))
  }

  lemma SameRotation(x: Word)
    ensures LeftRotate(x, 1) == Rotl(x, 1) && LeftRotate(x, 5) == Rotl(x, 5) && LeftRotate(x, 30) == Rotl(x, 30)
  {
  }

  lemma SameFunction(t: nat, x: Word, y: Word, z: Word)
    ensures t < 20 ==> (x & y) | (!x & z) == F(t, x, y, z)
    ensures 20 <= t < 40 || 60 <= t ==> x ^ y ^ z == F(t, x, y, z)
    ensures 40 <= t < 60 ==> (x & y) | (x & z) | (y & z) == F(t, x, y, z)
  {
  }

  lemma ScheduleHead(block: seq<Byte>, t: nat)
    requires |block| == 64 && t < 16
    ensures Schedule(block, t)
         == BigEndian(block[t*4 + 0], block[t*4 + 1], block[t*4 + 2], block[t*4 + 3])
  {
    hide BigEndian;
  }

  lemma ScheduleTail(block: seq<Byte>, t: nat)
    requires |block| == 64 && 16 <= t
    ensures Schedule(block, t)
         == LeftRotate(Xor4(Schedule(block, t-3), Schedule(block, t-8), Schedule(block, t-14), Schedule(block, t-16)), 1)
  {
    hide Rotl, LeftRotate, Xor4;
    SameRotation(Xor4(Schedule(block, t-3), Schedule(block, t-8), Schedule(block, t-14), Schedule(block, t-16)));
  }

  lemma RoundStep(h: Hash, block: seq<Byte>, t: nat, v: Hash, f: Word)
    requires |block| == 64 && v == Rounds(h, block, t) && f == F(t, v.b, v.c, v.d)
    ensures Rounds(h, block, t + 1)
         == Hash(Mix(LeftRotate(v.a, 5), f, v.e, K(t), Schedule(block, t)), v.a, LeftRotate(v.b, 30), v.c, v.d)
  {
    hide Rotl, LeftRotate, F, K, Schedule, Mix;
    SameRotation(v.a);
    SameRotation(v.b);
  }

  class Sha1 {
    const block: array<Byte>
    var blockByteIndex: nat
    var bitCountLow: nat
    var bitCountHigh: nat

    constructor ()
      ensures Valid() && fresh(block) && blockByteIndex == 0 && BitCount() == 0
    {
      block := new Byte[64];
      blockByteIndex, bitCountLow, bitCountHigh := 0, 0, 0;
    }

    ghost predicate Valid()
      reads this
    {
      block.Length == 64 && blockByteIndex < 64
    }

    ghost function BitCount(): nat
      reads this
    {
      0x1_0000_0000 * bitCountHigh + bitCountLow
    }

    /** The bytes fed so far: the whole blocks are compressed into the hash, the rest waits in the buffer. */
    ghost predicate Absorbed(hash: Hash, fed: seq<Byte>)
      reads this, block
    {
      && Valid()
      && blockByteIndex == |fed| % 64
      && block[..blockByteIndex] == fed[|fed| - blockByteIndex..]
      && hash == Blocks(INITIAL, fed[..|fed| - blockByteIndex])
    }

    method PutByte(hash: array<Word>, byte: Byte, ghost fed: seq<Byte>)
      requires hash.Length == 5 && Absorbed(HashOf(hash[..]), fed)
      modifies this`blockByteIndex, block, hash
      ensures Absorbed(HashOf(hash[..]), fed + [byte])
      ensures blockByteIndex == (old(blockByteIndex) + 1) % 64 == |fed + [byte]| % 64
    {
      hide Blocks, Compress;
      ghost var rest := fed[|fed| - blockByteIndex..];
      block[blockByteIndex] := byte;
      blockByteIndex := blockByteIndex + 1;
      assert block[..blockByteIndex] == rest + [byte];
      if blockByteIndex == 64 {
        blockByteIndex := 0;
        assert block[..] == rest + [byte];
        CompressInto(hash, block);
        FullBlock(fed, byte);
      } else {
        OpenBlock(fed, byte);
      }
    }

    /** Counts one byte: 8 bits, with a carry into the high word. False when the count would reach 2^64. */
    method CountByte() returns (ok: bool)
      requires bitCountLow < 0x1_0000_0000 && bitCountHigh < 0x1_0000_0000 && bitCountLow % 8 == 0
      modifies this`bitCountLow, this`bitCountHigh
      ensures ok <==> old(BitCount()) + 8 < 0x1_0000_0000_0000_0000
      ensures ok ==> BitCount() == old(BitCount()) + 8
      ensures bitCountLow < 0x1_0000_0000 && bitCountHigh < 0x1_0000_0000 && bitCountLow % 8 == 0
    {
      if bitCountLow < 0xFFFF_FFF8 {
        bitCountLow := bitCountLow + 8;
      } else {
        bitCountLow := 0;
        if bitCountHigh <= 0xFFFF_FFFE {
          bitCountHigh := bitCountHigh + 1;
        } else {
          return false;
        }
      }
      return true;
    }

    /** Computes the digest of a message of any length the bit count can hold, and fails on any longer one. */
    method Digest(hash: array<Word>, buffer: seq<Byte>) returns (ok: bool)
      requires hash.Length == 5 && Valid() && blockByteIndex == 0 && bitCountLow == 0 && bitCountHigh == 0
      modifies this, block, hash
      ensures ok <==> 8 * |buffer| < 0x1_0000_0000_0000_0000
      ensures ok ==> HashOf(hash[..]) == Sha1Spec.Digest(buffer)
      ensures ok ==> Valid() && blockByteIndex == 0 && BitCount() == 8 * |buffer|
    {
      hide Absorbed, Sha1Spec.Digest;
      Initialize(hash);
      NothingFed();
      ok := Feed(hash, buffer);
      if ok {
        Complete(hash, buffer);
      }
    }

    method Complete(hash: array<Word>, ghost message: seq<Byte>)
      requires hash.Length == 5 && Absorbed(HashOf(hash[..]), message) && BitCount() == 8 * |message|
      requires bitCountLow < 0x1_0000_0000 && bitCountHigh < 0x1_0000_0000
      modifies this`blockByteIndex, block, hash
      ensures Valid() && blockByteIndex == 0 && BitCount() == 8 * |message|
      ensures HashOf(hash[..]) == Sha1Spec.Digest(message)
    {
      hide Blocks, Absorbed, Bytes64, ZeroBytes, Zeros, Sha1Spec.Digest;
      PutPadding(hash, message);
      PutLength(hash, message + [0x80] + Zeros(ZeroBytes(|message|)));
      DigestIs(message);
    }

    lemma NothingFed()
      requires Valid() && blockByteIndex == 0
      ensures Absorbed(INITIAL, [])
    {
    }

    method Feed(hash: array<Word>, buffer: seq<Byte>) returns (ok: bool)
      requires hash.Length == 5 && Absorbed(HashOf(hash[..]), []) && bitCountLow == 0 && bitCountHigh == 0
      modifies this, block, hash
      ensures ok <==> 8 * |buffer| < 0x1_0000_0000_0000_0000
      ensures ok ==> Absorbed(HashOf(hash[..]), buffer) && BitCount() == 8 * |buffer|
      ensures bitCountLow < 0x1_0000_0000 && bitCountHigh < 0x1_0000_0000
    {
      hide Absorbed;
      assert buffer[..0] == [];
      var start := 0;
      while start != |buffer|
        invariant 0 <= start <= |buffer|
        invariant Absorbed(HashOf(hash[..]), buffer[..start])
        invariant bitCountLow < 0x1_0000_0000 && bitCountHigh < 0x1_0000_0000 && bitCountLow % 8 == 0
        invariant BitCount() == 8 * start
        decreases |buffer| - start
      {
        PutByte(hash, buffer[start], buffer[..start]);
        assert buffer[..start] + [buffer[start]] == buffer[..start+1];
        ok := PutCount(hash, buffer[..start+1]);
        if !ok {
          return false;
        }
        start := start + 1;
      }
      assert buffer[..|buffer|] == buffer;
      return true;
    }

    method PutCount(hash: array<Word>, ghost fed: seq<Byte>) returns (ok: bool)
      requires hash.Length == 5 && Absorbed(HashOf(hash[..]), fed)
      requires bitCountLow < 0x1_0000_0000 && bitCountHigh < 0x1_0000_0000 && bitCountLow % 8 == 0
      modifies this`bitCountLow, this`bitCountHigh
      ensures Absorbed(HashOf(hash[..]), fed)
      ensures ok <==> old(BitCount()) + 8 < 0x1_0000_0000_0000_0000
      ensures ok ==> BitCount() == old(BitCount()) + 8
      ensures bitCountLow < 0x1_0000_0000 && bitCountHigh < 0x1_0000_0000 && bitCountLow % 8 == 0
    {
      ok := CountByte();
    }

    /** The byte 0x80, then zeros up to the last 8 bytes of a block: of this one, or of one more. */
    method PutPadding(hash: array<Word>, ghost message: seq<Byte>)
      requires hash.Length == 5 && Absorbed(HashOf(hash[..]), message)
      modifies this`blockByteIndex, block, hash
      ensures Absorbed(HashOf(hash[..]), message + [0x80] + Zeros(ZeroBytes(|message|)))
      ensures blockByteIndex == 56
    {
      hide Absorbed, Zeros, ZeroBytes;
      PutByte(hash, 0x80, message);
      ghost var head := message + [0x80];
      ghost var first, zeros := blockByteIndex, 0;
      NoZeros(head);
      if blockByteIndex > 56 {
        zeros := FillBlock(hash, head);
        zeros := FillLast(hash, head, zeros);
      } else {
        zeros := FillLast(hash, head, 0);
      }
      EnoughZeros(|message|, first, zeros);
    }

    /** Zeros until the block is complete. */
    method FillBlock(hash: array<Word>, ghost head: seq<Byte>) returns (ghost zeros: nat)
      requires hash.Length == 5 && Absorbed(HashOf(hash[..]), head + Zeros(0)) && 0 < blockByteIndex < 64
      modifies this`blockByteIndex, block, hash
      ensures Absorbed(HashOf(hash[..]), head + Zeros(zeros))
      ensures blockByteIndex == 0 && zeros == 64 - old(blockByteIndex)
    {
      hide Absorbed, Zeros;
      zeros := 0;
      while blockByteIndex != 0
        invariant Absorbed(HashOf(hash[..]), head + Zeros(zeros)) && zeros <= 64 - old(blockByteIndex)
        invariant blockByteIndex == (old(blockByteIndex) + zeros) % 64
        decreases 64 - old(blockByteIndex) - zeros
      {
        PutZero(hash, head, zeros);
        zeros := zeros + 1;
      }
    }

    /** Zeros up to the last 8 bytes of the block. */
    method FillLast(hash: array<Word>, ghost head: seq<Byte>, ghost before: nat) returns (ghost zeros: nat)
      requires hash.Length == 5 && Absorbed(HashOf(hash[..]), head + Zeros(before)) && blockByteIndex <= 56
      modifies this`blockByteIndex, block, hash
      ensures Absorbed(HashOf(hash[..]), head + Zeros(zeros))
      ensures blockByteIndex == 56 && zeros == before + 56 - old(blockByteIndex)
    {
      hide Absorbed, Zeros;
      zeros := before;
      while blockByteIndex < 56
        invariant Absorbed(HashOf(hash[..]), head + Zeros(zeros))
        invariant blockByteIndex == old(blockByteIndex) + (zeros - before) <= 56
      {
        PutZero(hash, head, zeros);
        zeros := zeros + 1;
      }
    }

    method PutZero(hash: array<Word>, ghost head: seq<Byte>, ghost zeros: nat)
      requires hash.Length == 5 && Absorbed(HashOf(hash[..]), head + Zeros(zeros))
      modifies this`blockByteIndex, block, hash
      ensures Absorbed(HashOf(hash[..]), head + Zeros(zeros + 1))
      ensures blockByteIndex == (old(blockByteIndex) + 1) % 64
    {
      hide Absorbed, Zeros;
      PutByte(hash, 0, head + Zeros(zeros));
      OneMoreZero(head, zeros);
    }

    method PutLength(hash: array<Word>, ghost fed: seq<Byte>)
      requires hash.Length == 5 && Absorbed(HashOf(hash[..]), fed) && blockByteIndex == 56
      requires bitCountLow < 0x1_0000_0000 && bitCountHigh < 0x1_0000_0000
      modifies this`blockByteIndex, block, hash
      ensures blockByteIndex == 0 && Valid() && |fed + Bytes64(BitCount())| % 64 == 0
      ensures HashOf(hash[..]) == Blocks(INITIAL, fed + Bytes64(BitCount()))
    {
      hide Absorbed, Bytes64, LengthBytes;
      var bytes := LengthBytes(bitCountHigh, bitCountLow);
      assert bytes == Bytes64(BitCount());
      assert fed + bytes[..0] == fed;
      for k := 0 to 8
        invariant Absorbed(HashOf(hash[..]), fed + bytes[..k]) && blockByteIndex == (56 + k) % 64
      {
        PutByte(hash, bytes[k], fed + bytes[..k]);
        assert fed + bytes[..k] + [bytes[k]] == fed + bytes[..k+1];
      }
      assert bytes[..8] == bytes;
      AllAbsorbed(HashOf(hash[..]), fed + bytes);
    }

    lemma AllAbsorbed(hash: Hash, fed: seq<Byte>)
      requires Absorbed(hash, fed) && blockByteIndex == 0
      ensures Valid() && |fed| % 64 == 0 && hash == Blocks(INITIAL, fed)
    {
      assert fed[..|fed|] == fed;
    }
  }

  lemma NoZeros(head: seq<Byte>)
    ensures head + Zeros(0) == head
  {
  }

  lemma OneMoreZero(head: seq<Byte>, zeros: nat)
    ensures head + Zeros(zeros) + [0] == head + Zeros(zeros + 1)
  {
  }

  lemma EnoughZeros(length: nat, first: nat, zeros: nat)
    requires first == (length + 1) % 64
    requires zeros == if first > 56 then 120 - first else 56 - first
    ensures zeros == ZeroBytes(length)
  {
    PaddingFits(length);
  }

  lemma DigestIs(message: seq<Byte>)
    ensures var padded := message + [0x80] + Zeros(ZeroBytes(|message|)) + Bytes64(8 * |message|);
      |padded| % 64 == 0 && Sha1Spec.Digest(message) == Blocks(INITIAL, padded)
  {
    hide ZeroBytes, Bytes64, Blocks;
    assert |Padded(message)| % 64 == 0;
  }

  method Initialize(hash: array<Word>)
    requires hash.Length == 5
    modifies hash
    ensures HashOf(hash[..]) == INITIAL
  {
    hash[0], hash[1], hash[2], hash[3], hash[4] := 0x67452301, 0xEFCDAB89, 0x98BADCFE, 0x10325476, 0xC3D2E1F0;
  }

  /** The eight bytes of the length, taken from the two halves of the count. */
  function LengthBytes(high: nat, low: nat): (bytes: seq<Byte>)
    requires low < 0x1_0000_0000 && high < 0x1_0000_0000
    ensures bytes == Bytes64(0x1_0000_0000 * high + low)
  {
    HalvesOf(high, low);
    [((high / 0x100_0000) % 0x100) as Byte, ((high / 0x1_0000) % 0x100) as Byte,
     ((high / 0x100) % 0x100) as Byte, (high % 0x100) as Byte,
     ((low / 0x100_0000) % 0x100) as Byte, ((low / 0x1_0000) % 0x100) as Byte,
     ((low / 0x100) % 0x100) as Byte, (low % 0x100) as Byte]
  }

  lemma HalvesOf(high: nat, low: nat)
    requires low < 0x1_0000_0000 && high < 0x1_0000_0000
    ensures var n := 0x1_0000_0000 * high + low;
      && n / 0x100_0000_0000_0000 == high / 0x100_0000
      && n / 0x1_0000_0000_0000 == high / 0x1_0000
      && n / 0x100_0000_0000 == high / 0x100
      && n / 0x1_0000_0000 == high
      && (n / 0x100_0000) % 0x100 == (low / 0x100_0000) % 0x100
      && (n / 0x1_0000) % 0x100 == (low / 0x1_0000) % 0x100
      && (n / 0x100) % 0x100 == (low / 0x100) % 0x100
      && n % 0x100 == low % 0x100
  {
    UpperHalf(high, low);
    LowerHalf24(high, low);
    LowerHalf16(high, low);
    LowerHalf8(high, low);
    DropMultiple(0x100_0000 * high, low);
  }

  lemma UpperHalf(high: nat, low: nat)
    requires low < 0x1_0000_0000
    ensures (0x1_0000_0000 * high + low) / 0x100_0000_0000_0000 == high / 0x100_0000
    ensures (0x1_0000_0000 * high + low) / 0x1_0000_0000_0000 == high / 0x1_0000
    ensures (0x1_0000_0000 * high + low) / 0x100_0000_0000 == high / 0x100
    ensures (0x1_0000_0000 * high + low) / 0x1_0000_0000 == high
  {
  }

  lemma DropMultiple(k: nat, q: nat)
    ensures (0x100 * k + q) % 0x100 == q % 0x100
  {
  }

  lemma LowerHalf24(high: nat, low: nat)
    ensures ((0x1_0000_0000 * high + low) / 0x100_0000) % 0x100 == (low / 0x100_0000) % 0x100
  {
    assert (0x1_0000_0000 * high + low) / 0x100_0000 == 0x100 * high + low / 0x100_0000;
    DropMultiple(high, low / 0x100_0000);
  }

  lemma LowerHalf16(high: nat, low: nat)
    ensures ((0x1_0000_0000 * high + low) / 0x1_0000) % 0x100 == (low / 0x1_0000) % 0x100
  {
    assert (0x1_0000_0000 * high + low) / 0x1_0000 == 0x100 * (0x100 * high) + low / 0x1_0000;
    DropMultiple(0x100 * high, low / 0x1_0000);
  }

  lemma LowerHalf8(high: nat, low: nat)
    ensures ((0x1_0000_0000 * high + low) / 0x100) % 0x100 == (low / 0x100) % 0x100
  {
    assert (0x1_0000_0000 * high + low) / 0x100 == 0x100 * (0x1_0000 * high) + low / 0x100;
    DropMultiple(0x1_0000 * high, low / 0x100);
  }

  lemma FullBlock(fed: seq<Byte>, byte: Byte)
    requires |fed| % 64 == 63
    ensures var more := fed + [byte];
      && |more| % 64 == 0 && more[..|more|] == more
      && Blocks(INITIAL, more) == Compress(Blocks(INITIAL, fed[..|fed|-63]), fed[|fed|-63..] + [byte])
  {
    hide Compress;
    var more := fed + [byte];
    assert more[..|more|-64] == fed[..|fed|-63];
    assert more[|more|-64..] == fed[|fed|-63..] + [byte];
  }

  lemma OpenBlock(fed: seq<Byte>, byte: Byte)
    requires |fed| % 64 < 63
    ensures var more, n := fed + [byte], |fed| % 64;
      && |more| % 64 == n + 1
      && more[|more|-(n+1)..] == fed[|fed|-n..] + [byte]
      && more[..|more|-(n+1)] == fed[..|fed|-n]
  {
    NextInBlock(|fed|);
    TailGrows(fed, byte, |fed| % 64);
  }

  lemma NextInBlock(length: nat)
    requires length % 64 < 63
    ensures (length + 1) % 64 == length % 64 + 1 && length % 64 <= length
  {
  }

  lemma TailGrows(fed: seq<Byte>, byte: Byte, n: nat)
    requires n <= |fed|
    ensures var more := fed + [byte];
      more[|more|-(n+1)..] == fed[|fed|-n..] + [byte] && more[..|more|-(n+1)] == fed[..|fed|-n]
  {
  }

  function HashOf(words: seq<Word>): Hash
    requires |words| == 5
  {
    Hash(words[0], words[1], words[2], words[3], words[4])
  }

  method Assemble(b0: Byte, b1: Byte, b2: Byte, b3: Byte) returns (w: Word)
    ensures w == BigEndian(b0, b1, b2, b3)
  {
    w := (b0 as Word) << 24;
    w := w | ((b1 as Word) << 16);
    w := w | ((b2 as Word) << 8);
    w := w | (b3 as Word);
  }

  method ScheduleWords(block: array<Byte>) returns (w: array<Word>)
    requires block.Length == 64
    ensures fresh(w) && w.Length == 80
    ensures forall t :: 0 <= t < 80 ==> w[t] == Schedule(block[..], t)
  {
    hide Schedule, LeftRotate, BigEndian, Xor4;
    ghost var bytes := block[..];
    w := new Word[80];
    for i := 0 to 16
      invariant block[..] == bytes
      invariant forall t :: 0 <= t < i ==> w[t] == Schedule(bytes, t)
    {
      ScheduleHead(bytes, i);
      w[i] := Assemble(block[i*4 + 0], block[i*4 + 1], block[i*4 + 2], block[i*4 + 3]);
    }
    for i := 16 to 80
      invariant block[..] == bytes
      invariant forall t :: 0 <= t < i ==> w[t] == Schedule(bytes, t)
    {
      ScheduleTail(bytes, i);
      w[i] := LeftRotate(Xor4(w[i-3], w[i-8], w[i-14], w[i-16]), 1);
    }
  }

  method RoundValues(i: nat, b: Word, c: Word, d: Word) returns (f: Word, k: Word)
    ensures f == F(i, b, c, d) && k == K(i)
  {
    SameFunction(i, b, c, d);
    hide F;
    if i < 20 {
      f := (b & c) | (!b & d);
      k := 0x5A827999;
    } else if i < 40 {
      f := b ^ c ^ d;
      k := 0x6ED9EBA1;
    } else if i < 60 {
      f := (b & c) | (b & d) | (c & d);
      k := 0x8F1BBCDC;
    } else {
      f := b ^ c ^ d;
      k := 0xCA62C1D6;
    }
  }

  /** The part of Byte that runs when the block is full. */
  method CompressInto(hash: array<Word>, block: array<Byte>)
    requires hash.Length == 5 && block.Length == 64
    modifies hash
    ensures HashOf(hash[..]) == Compress(old(HashOf(hash[..])), block[..])
  {
    hide Schedule, F, LeftRotate, Round, Rounds, K, Mix, Add;
    ghost var start, bytes := HashOf(hash[..]), block[..];
    var w := ScheduleWords(block);
    var a, b, c, d, e := hash[0], hash[1], hash[2], hash[3], hash[4];
    NoRounds(start, bytes);
    for i := 0 to 80
      invariant hash[..] == old(hash[..]) && block[..] == bytes
      invariant forall t :: 0 <= t < 80 ==> w[t] == Schedule(bytes, t)
      invariant Hash(a, b, c, d, e) == Rounds(start, bytes, i)
    {
      var f, k := RoundValues(i, b, c, d);
      RoundStep(start, bytes, i, Hash(a, b, c, d, e), f);
      var temp := Mix(LeftRotate(a, 5), f, e, k, w[i]);
      e := d;
      d := c;
      c := LeftRotate(b, 30);
      b := a;
      a := temp;
    }
    hash[0] := Add(hash[0], a);
    hash[1] := Add(hash[1], b);
    hash[2] := Add(hash[2], c);
    hash[3] := Add(hash[3], d);
    hash[4] := Add(hash[4], e);
  }

  lemma NoRounds(h: Hash, block: seq<Byte>)
    requires |block| == 64
    ensures Rounds(h, block, 0) == h
  {
  }
}
