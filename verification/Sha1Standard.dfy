/**
 The secure hash function of FIPS PUB 180-1, sections 2 to 7, as pure functions on octets.
 */
module Sha1Standard {

  type Byte = bv8
  type Word = bv32

  /** The five word buffers. */
  datatype Buffers = Buffers(a: Word, b: Word, c: Word, d: Word, e: Word)

  // ---------- Sections 2 and 3: words, operations ----------

  /** S^n(X), for 0 < n < 32. */
  function Rotate(n: nat, x: Word): Word
    requires 0 < n < 32
  {
    (x << n) | (x >> (32 - n))
  }

  function Xor(x: Word, y: Word, z: Word, u: Word): Word {
    x ^ y ^ z ^ u
  }

  /** X + Y modulo 2^32. */
  function Add(x: Word, y: Word): Word {
    x + y
  }

  function BigEndianWord(b0: Byte, b1: Byte, b2: Byte, b3: Byte): Word {
    ((b0 as Word) << 24) | ((b1 as Word) << 16) | ((b2 as Word) << 8) | (b3 as Word)
  }

  /** `n` modulo 256^width, most significant octet first. */
  function BigEndian(n: nat, width: nat): (r: seq<Byte>)
    ensures |r| == width
  {
    if width == 0 then [] else BigEndian(n / 256, width - 1) + [(n % 256) as Byte]
  }

  // ---------- Section 4: padding ----------

  const BLOCK: nat := 64

  function Zeros(n: nat): seq<Byte> {
    seq(n, _ => 0 as Byte)
  }

  /** Number of zero octets after the single one-bit octet. */
  function ZeroCount(length: nat): nat {
    if length % BLOCK <= 55 then 55 - length % BLOCK else 119 - length % BLOCK
  }

  function Pad(m: seq<Byte>): seq<Byte> {
    m + [0x80 as Byte] + Zeros(ZeroCount(|m|)) + BigEndian(8 * |m|, 8)
  }

  /** It is the least number that makes the padded message a whole number of blocks. */
  lemma ZeroCountFits(length: nat)
    ensures (length + 1 + ZeroCount(length) + 8) % BLOCK == 0 && ZeroCount(length) < BLOCK
  {
    var q, r := length / BLOCK, length % BLOCK;
    assert length == BLOCK * q + r;
    assert r <= 55 ==> length + 1 + ZeroCount(length) + 8 == BLOCK * (q + 1);
    assert r > 55 ==> length + 1 + ZeroCount(length) + 8 == BLOCK * (q + 2);
  }

  /** The padded message is the message, then fewer than two blocks more, up to a block boundary. */
  lemma PadIsBlocks(m: seq<Byte>)
    ensures |Pad(m)| == |m| + 1 + ZeroCount(|m|) + 8
    ensures |Pad(m)| % BLOCK == 0
    ensures m <= Pad(m)
  {
    ZeroCountFits(|m|);
    assert Pad(m) == m + ([0x80 as Byte] + Zeros(ZeroCount(|m|)) + BigEndian(8 * |m|, 8));
  }

  // ---------- Sections 5 and 6: functions and constants ----------

  function F(t: nat, b: Word, c: Word, d: Word): Word {
    if t < 20 then (b & c) | (!b & d)
    else if t < 40 then b ^ c ^ d
    else if t < 60 then (b & c) | (b & d) | (c & d)
    else b ^ c ^ d
  }

  function K(t: nat): Word {
    if t < 20 then 0x5A827999
    else if t < 40 then 0x6ED9EBA1
    else if t < 60 then 0x8F1BBCDC
    else 0xCA62C1D6
  }

  // ---------- Section 7: the digest ----------

  /** Word t of the schedule of a block. */
  function W(block: seq<Byte>, t: nat): Word
    requires |block| == BLOCK
  {
    if t < 16 then BigEndianWord(block[4 * t], block[4 * t + 1], block[4 * t + 2], block[4 * t + 3])
    else Rotate(1, Xor(W(block, t - 3), W(block, t - 8), W(block, t - 14), W(block, t - 16)))
  }

  function Temp(a: Word, f: Word, e: Word, w: Word, k: Word): Word {
    Rotate(5, a) + f + e + w + k
  }

  function Round(t: nat, s: Buffers, w: Word): Buffers {
    Buffers(Temp(s.a, F(t, s.b, s.c, s.d), s.e, w, K(t)), s.a, Rotate(30, s.b), s.c, s.d)
  }

  function Rounds(block: seq<Byte>, h: Buffers, n: nat): Buffers
    requires |block| == BLOCK
  {
    if n == 0 then h else Round(n - 1, Rounds(block, h, n - 1), W(block, n - 1))
  }

  function Sum(x: Buffers, y: Buffers): Buffers {
    Buffers(Add(x.a, y.a), Add(x.b, y.b), Add(x.c, y.c), Add(x.d, y.d), Add(x.e, y.e))
  }

  function Compress(h: Buffers, block: seq<Byte>): Buffers
    requires |block| == BLOCK
  {
    Sum(h, Rounds(block, h, 80))
  }

  const INITIAL := Buffers(0x67452301, 0xEFCDAB89, 0x98BADCFE, 0x10325476, 0xC3D2E1F0)

  /** The buffers after the blocks of `data`. */
  function Hash(data: seq<Byte>): Buffers
    requires |data| % BLOCK == 0
    decreases |data|
  {
    if data == [] then INITIAL else Compress(Hash(data[..|data| - BLOCK]), data[|data| - BLOCK..])
  }

  function MessageDigest(m: seq<Byte>): Buffers {
    PadIsBlocks(m);
    Hash(Pad(m))
  }

  // ---------- The example of appendix A: the message "abc" ----------

  /** The first word of its block, and the first that is computed. */
  lemma ExampleWords(block: seq<Byte>)
    requires |block| == BLOCK && block[..4] == [0x61, 0x62, 0x63, 0x80]
    requires W(block, 2) == W(block, 8) == W(block, 13) == 0
    ensures W(block, 0) == 0x61626380 && W(block, 16) == 0xC2C4C700
  {
    assert block[0] == block[..4][0] && block[1] == block[..4][1] && block[2] == block[..4][2] && block[3] == block[..4][3];
    assert BigEndianWord(0x61, 0x62, 0x63, 0x80) == 0x61626380;
    assert Rotate(1, Xor(0, 0, 0, 0x61626380)) == 0xC2C4C700;
  }

  /** The first phase begins. */
  lemma ExampleRound0()
    ensures Round(0, INITIAL, 0x61626380)
            == Buffers(0x0116FC33, 0x67452301, 0x7BF36AE2, 0x98BADCFE, 0x10325476)
  {
    assert F(0, 0xEFCDAB89, 0x98BADCFE, 0x10325476) == 0x98BADCFE;
    assert Temp(0x67452301, 0x98BADCFE, 0xC3D2E1F0, 0x61626380, K(0)) == 0x0116FC33;
    assert Rotate(30, 0xEFCDAB89) == 0x7BF36AE2;
  }

  /** The second phase begins. */
  lemma ExampleRound20()
    ensures Round(20, Buffers(0xFD9E1D7D, 0xDC64901D, 0x20AA99CA, 0xD3A49608, 0xC82F758B), 0x00000000)
            == Buffers(0x1A37B0CA, 0xFD9E1D7D, 0x77192407, 0x20AA99CA, 0xD3A49608)
  {
    assert F(20, 0xDC64901D, 0x20AA99CA, 0xD3A49608) == 0x2F6A9FDF;
    assert Temp(0xFD9E1D7D, 0x2F6A9FDF, 0xC82F758B, 0x00000000, K(20)) == 0x1A37B0CA;
    assert Rotate(30, 0xDC64901D) == 0x77192407;
  }

  /** The third phase begins. */
  lemma ExampleRound40()
    ensures Round(40, Buffers(0x32DE1CBA, 0x4C986405, 0xF718E5CF, 0x03D447F6, 0xF72EEC32), 0xD2E138C4)
            == Buffers(0xFC87DEDF, 0x32DE1CBA, 0x53261901, 0xF718E5CF, 0x03D447F6)
  {
    assert F(40, 0x4C986405, 0xF718E5CF, 0x03D447F6) == 0x479865C7;
    assert Temp(0x32DE1CBA, 0x479865C7, 0xF72EEC32, 0xD2E138C4, K(40)) == 0xFC87DEDF;
    assert Rotate(30, 0x4C986405) == 0x53261901;
  }

  /** The last phase begins. */
  lemma ExampleRound60()
    ensures Round(60, Buffers(0x3F52DE5A, 0x09D785FD, 0x3498BFD4, 0xF211824F, 0xD79915AB), 0x7BA06619)
            == Buffers(0xD756C147, 0x3F52DE5A, 0x4275E17F, 0x3498BFD4, 0xF211824F)
  {
    assert F(60, 0x09D785FD, 0x3498BFD4, 0xF211824F) == 0xCF5EB866;
    assert Temp(0x3F52DE5A, 0xCF5EB866, 0xD79915AB, 0x7BA06619, K(60)) == 0xD756C147;
    assert Rotate(30, 0x09D785FD) == 0x4275E17F;
  }

  /** The digest, from the buffers after the last round. */
  lemma ExampleDigest(block: seq<Byte>)
    requires |block| == BLOCK
    requires Rounds(block, INITIAL, 80) == Buffers(0x42541B35, 0x5738D5E1, 0x21834873, 0x681E6DF6, 0xD8FDF6AD)
    ensures Hash(block) == Buffers(0xA9993E36, 0x4706816A, 0xBA3E2571, 0x7850C26C, 0x9CD0D89D)
  {
    assert block[|block| - BLOCK..] == block && Hash(block[..|block| - BLOCK]) == INITIAL;
    assert Sum(INITIAL, Buffers(0x42541B35, 0x5738D5E1, 0x21834873, 0x681E6DF6, 0xD8FDF6AD))
           == Buffers(0xA9993E36, 0x4706816A, 0xBA3E2571, 0x7850C26C, 0x9CD0D89D);
  }
}
