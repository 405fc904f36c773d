/**
 The streaming SHA-1 class: octets are collected in a 64-octet block that is compressed in
 place whenever it is full.  Fed in pieces of any size, it computes the digest that
 FIPS PUB 180-1 defines for the whole message.
 */
module Sha1Module {
  import opened Sha1Standard

  const TWO_TO_32: nat := 0x1_0000_0000

  /** Messages of 2^61 octets and more have a bit length that does not fit in 64 bits. */
  const TOO_LONG: nat := 0x2000_0000_0000_0000

  // ---------- Streaming facts ----------

  /** Length of the part of a message that has been compressed. */
  function Whole(length: nat): (n: nat)
    ensures n <= length && n % BLOCK == 0 && length - n == length % BLOCK
  {
    length - length % BLOCK
  }

  lemma HashNext(data: seq<Byte>, block: seq<Byte>)
    requires |data| % BLOCK == 0 && |block| == BLOCK
    ensures |data + block| % BLOCK == 0
    ensures Hash(data + block) == Compress(Hash(data), block)
  {
    assert (data + block)[..|data|] == data;
    assert (data + block)[|data|..] == block;
  }

  lemma {:induction false} BigEndianConcat(hi: nat, lo: nat, width: nat)
    requires lo < Power256(width)
    ensures BigEndian(hi * Power256(width) + lo, width + 4) == BigEndian(hi, 4) + BigEndian(lo, width)
  {
    if width == 0 {
      assert BigEndian(lo, 0) == [];
      assert BigEndian(hi, 4) + [] == BigEndian(hi, 4);
    } else {
      var p := Power256(width - 1);
      LastOctet(hi, p, lo);
      BigEndianConcat(hi, lo / 256, width - 1);
      Regrouped(BigEndian(hi, 4), BigEndian(lo / 256, width - 1), [(lo % 256) as Byte]);
    }
  }

  lemma LastOctet(hi: nat, p: nat, lo: nat)
    ensures var n := hi * (256 * p) + lo;
            n / 256 == hi * p + lo / 256 && n % 256 == lo % 256
  {
    assert hi * (256 * p) == 256 * (hi * p);
  }

  lemma Regrouped(a: seq<Byte>, b: seq<Byte>, c: seq<Byte>)
    ensures (a + b) + c == a + (b + c)
  {
  }

  function Power256(k: nat): (p: nat)
    ensures p >= 1
  {
    if k == 0 then 1 else 256 * Power256(k - 1)
  }

  /** The octets that the code takes out of a 32-bit counter by shifting and masking. */
  function CounterOctets(n: nat): seq<Byte> {
    [(n / 0x100_0000 % 256) as Byte, (n / 0x1_0000 % 256) as Byte, (n / 0x100 % 256) as Byte, (n % 256) as Byte]
  }

  lemma CounterIsBigEndian(n: nat)
    ensures CounterOctets(n) == BigEndian(n, 4)
  {
    assert n / 256 / 256 == n / 0x1_0000 && n / 256 / 256 / 256 == n / 0x100_0000;
    assert BigEndian(n / 256 / 256 / 256 / 256, 0) == [];
    assert BigEndian(n / 256 / 256 / 256, 1) == [(n / 0x100_0000 % 256) as Byte];
    assert BigEndian(n / 256 / 256, 2) == [(n / 0x100_0000 % 256) as Byte, (n / 0x1_0000 % 256) as Byte];
    assert BigEndian(n / 256, 3) ==
           [(n / 0x100_0000 % 256) as Byte, (n / 0x1_0000 % 256) as Byte, (n / 0x100 % 256) as Byte];
  }

  lemma LengthField(hi: nat, lo: nat)
    requires lo < TWO_TO_32
    ensures CounterOctets(hi) + CounterOctets(lo) == BigEndian(hi * TWO_TO_32 + lo, 8)
  {
    assert Power256(4) == TWO_TO_32 by {
      assert Power256(2) == 0x1_0000;
    }
    BigEndianConcat(hi, lo, 4);
    CounterIsBigEndian(hi);
    CounterIsBigEndian(lo);
  }

  // ---------- The class ----------

  class SHA1 {
    const H: array<Word>
    const Message_Block: array<Byte>
    var Message_Block_Index: nat
    var Length_Low: nat
    var Length_High: nat
    var Computed: bool
    var Corrupted: bool

    /** The message fed since the last reset. */
    ghost var fed: seq<Byte>

    ghost predicate Shape()
      reads this
    {
      H.Length == 5 && Message_Block.Length == BLOCK && Message_Block_Index < BLOCK && Length_Low < TWO_TO_32
    }

    ghost function Digest(): Buffers
      requires H.Length == 5
      reads this, H
    {
      Buffers(H[0], H[1], H[2], H[3], H[4])
    }

    /** All of the message but its last incomplete block has been compressed. */
    ghost predicate Streaming()
      requires Shape()
      reads this, H, Message_Block
    {
      && |fed| < TOO_LONG
      && Length_High * TWO_TO_32 + Length_Low == 8 * |fed|
      && Message_Block_Index == |fed| % BLOCK
      && Message_Block[..Message_Block_Index] == fed[Whole(|fed|)..]
      && Digest() == Hash(fed[..Whole(|fed|)])
    }

    ghost predicate Valid()
      reads this, H, Message_Block
    {
      && Shape()
      && (!Corrupted && !Computed ==> Streaming())
      && (!Corrupted && Computed ==> Digest() == MessageDigest(fed))
    }

    constructor ()
      ensures Valid() && fed == [] && !Computed && !Corrupted && fresh(H) && fresh(Message_Block)
    {
      H := new Word[5];
      Message_Block := new Byte[64];
      Message_Block_Index := 0;
      Length_Low := 0;
      new;
      Reset();
    }

    method Reset()
      requires Shape()
      modifies this, H
      ensures Valid() && fed == [] && !Computed && !Corrupted
    {
      Length_Low, Length_High, Message_Block_Index := 0, 0, 0;
      H[0] := 0x67452301;
      H[1] := 0xEFCDAB89;
      H[2] := 0x98BADCFE;
      H[3] := 0x10325476;
      H[4] := 0xC3D2E1F0;
      Computed, Corrupted := false, false;
      fed := [];
      assert Whole(0) == 0 && Hash([]) == INITIAL;
    }

    static function CircularShift(bits: nat, word: Word): (r: Word)
      requires 0 < bits < 32
      ensures r == Rotate(bits, word)
    {
      ((word << bits) & 0xFFFFFFFF) | ((word & 0xFFFFFFFF) >> (32 - bits))
    }

    /** The first sixteen words are the message block itself. */
    method LoadWords(words: array<Word>)
      requires Message_Block.Length == BLOCK && words.Length == 80 && words != H
      modifies words
      ensures forall i :: 0 <= i < 16 ==> words[i] == W(Message_Block[..], i)
    {
      ghost var block := Message_Block[..];
      var t := 0;
      while t < 16
        invariant t <= 16 && forall i :: 0 <= i < t ==> words[i] == W(block, i)
      {
        var word := (Message_Block[t * 4] as Word) << 24;
        word := word | ((Message_Block[t * 4 + 1] as Word) << 16);
        word := word | ((Message_Block[t * 4 + 2] as Word) << 8);
        word := word | (Message_Block[t * 4 + 3] as Word);
        assert word == BigEndianWord(block[4 * t], block[4 * t + 1], block[4 * t + 2], block[4 * t + 3]);
        words[t] := word;
        t := t + 1;
      }
    }

    /** Fill the array with the word schedule of the message block. */
    method Schedule(words: array<Word>)
      requires Message_Block.Length == BLOCK && words.Length == 80 && words != H
      modifies words
      ensures forall i :: 0 <= i < 80 ==> words[i] == W(Message_Block[..], i)
    {
      ghost var block := Message_Block[..];
      LoadWords(words);
      var t := 16;
      while t < 80
        invariant 16 <= t <= 80 && forall i :: 0 <= i < t ==> words[i] == W(block, i)
      {
        var word := CircularShift(1, Xor(words[t - 3], words[t - 8], words[t - 14], words[t - 16]));
        assert word == W(block, t);
        words[t] := word;
        t := t + 1;
      }
    }

    /** The first of the four phases of twenty rounds. */
    static method Rounds0To20(words: array<Word>, ghost block: seq<Byte>, ghost h: Buffers,
                         a: Word, b: Word, c: Word, d: Word, e: Word)
      returns (A: Word, B: Word, C: Word, D: Word, E: Word)
      requires |block| == BLOCK && words.Length == 80 && forall i :: 0 <= i < 80 ==> words[i] == W(block, i)
      requires Buffers(a, b, c, d, e) == Rounds(block, h, 0)
      ensures Buffers(A, B, C, D, E) == Rounds(block, h, 20)
    {
      A, B, C, D, E := a, b, c, d, e;
      for t := 0 to 20
        invariant Buffers(A, B, C, D, E) == Rounds(block, h, t)
      {
        var temp := Temp(A, (B & C) | (!B & D), E, words[t], 0x5A827999);
        E, D, C, B, A := D, C, CircularShift(30, B), A, temp;
      }
    }

    /** The second phase. */
    static method Rounds20To40(words: array<Word>, ghost block: seq<Byte>, ghost h: Buffers,
                         a: Word, b: Word, c: Word, d: Word, e: Word)
      returns (A: Word, B: Word, C: Word, D: Word, E: Word)
      requires |block| == BLOCK && words.Length == 80 && forall i :: 0 <= i < 80 ==> words[i] == W(block, i)
      requires Buffers(a, b, c, d, e) == Rounds(block, h, 20)
      ensures Buffers(A, B, C, D, E) == Rounds(block, h, 40)
    {
      A, B, C, D, E := a, b, c, d, e;
      for t := 20 to 40
        invariant Buffers(A, B, C, D, E) == Rounds(block, h, t)
      {
        var temp := Temp(A, B ^ C ^ D, E, words[t], 0x6ED9EBA1);
        E, D, C, B, A := D, C, CircularShift(30, B), A, temp;
      }
    }

    /** The third phase. */
    static method Rounds40To60(words: array<Word>, ghost block: seq<Byte>, ghost h: Buffers,
                         a: Word, b: Word, c: Word, d: Word, e: Word)
      returns (A: Word, B: Word, C: Word, D: Word, E: Word)
      requires |block| == BLOCK && words.Length == 80 && forall i :: 0 <= i < 80 ==> words[i] == W(block, i)
      requires Buffers(a, b, c, d, e) == Rounds(block, h, 40)
      ensures Buffers(A, B, C, D, E) == Rounds(block, h, 60)
    {
      A, B, C, D, E := a, b, c, d, e;
      for t := 40 to 60
        invariant Buffers(A, B, C, D, E) == Rounds(block, h, t)
      {
        var temp := Temp(A, (B & C) | (B & D) | (C & D), E, words[t], 0x8F1BBCDC);
        E, D, C, B, A := D, C, CircularShift(30, B), A, temp;
      }
    }

    /** The last phase. */
    static method Rounds60To80(words: array<Word>, ghost block: seq<Byte>, ghost h: Buffers,
                         a: Word, b: Word, c: Word, d: Word, e: Word)
      returns (A: Word, B: Word, C: Word, D: Word, E: Word)
      requires |block| == BLOCK && words.Length == 80 && forall i :: 0 <= i < 80 ==> words[i] == W(block, i)
      requires Buffers(a, b, c, d, e) == Rounds(block, h, 60)
      ensures Buffers(A, B, C, D, E) == Rounds(block, h, 80)
    {
      A, B, C, D, E := a, b, c, d, e;
      for t := 60 to 80
        invariant Buffers(A, B, C, D, E) == Rounds(block, h, t)
      {
        var temp := Temp(A, B ^ C ^ D, E, words[t], 0xCA62C1D6);
        E, D, C, B, A := D, C, CircularShift(30, B), A, temp;
      }
    }

    /** The eighty rounds, in four phases of twenty. */
    method RunRounds(words: array<Word>) returns (A: Word, B: Word, C: Word, D: Word, E: Word)
      requires H.Length == 5 && Message_Block.Length == BLOCK && words.Length == 80
      requires forall i :: 0 <= i < 80 ==> words[i] == W(Message_Block[..], i)
      ensures Buffers(A, B, C, D, E) == Rounds(Message_Block[..], Digest(), 80)
    {
      ghost var block, h := Message_Block[..], Digest();
      A, B, C, D, E := Rounds0To20(words, block, h, H[0], H[1], H[2], H[3], H[4]);
      A, B, C, D, E := Rounds20To40(words, block, h, A, B, C, D, E);
      A, B, C, D, E := Rounds40To60(words, block, h, A, B, C, D, E);
      A, B, C, D, E := Rounds60To80(words, block, h, A, B, C, D, E);
    }

    /** Compress the full message block into H. */
    method ProcessMessageBlock()
      requires H.Length == 5 && Message_Block.Length == BLOCK
      modifies H, this`Message_Block_Index
      ensures Digest() == Compress(old(Digest()), Message_Block[..])
      ensures Message_Block_Index == 0
    {
      var words := new Word[80];
      Schedule(words);
      var A, B, C, D, E := RunRounds(words);
      AddBuffers(A, B, C, D, E);
      Message_Block_Index := 0;
    }

    method AddBuffers(A: Word, B: Word, C: Word, D: Word, E: Word)
      requires H.Length == 5
      modifies H
      ensures Digest() == Sum(old(Digest()), Buffers(A, B, C, D, E))
    {
      H[0] := Add(H[0], A);
      H[1] := Add(H[1], B);
      H[2] := Add(H[2], C);
      H[3] := Add(H[3], D);
      H[4] := Add(H[4], E);
    }

    /** The state inside a call, when the block may have just been filled. */
    ghost predicate Open()
      reads this
    {
      H.Length == 5 && Message_Block.Length == BLOCK && Message_Block_Index <= BLOCK && Length_Low < TWO_TO_32
    }

    /** Append zeros to the message block up to position `end`. */
    method FillZeros(end: nat)
      requires Open() && Message_Block_Index <= end <= BLOCK
      modifies Message_Block, this`Message_Block_Index
      ensures Message_Block_Index == end
      ensures Message_Block[..end] == old(Message_Block[..Message_Block_Index]) + Zeros(end - old(Message_Block_Index))
    {
      while Message_Block_Index < end
        invariant old(Message_Block_Index) <= Message_Block_Index <= end
        invariant Message_Block[..Message_Block_Index] ==
                  old(Message_Block[..Message_Block_Index]) + Zeros(Message_Block_Index - old(Message_Block_Index))
      {
        Message_Block[Message_Block_Index] := 0;
        Message_Block_Index := Message_Block_Index + 1;
      }
    }

    /** Store a counter in four octets, the most significant first. */
    method StoreCounter(at: nat, n: nat)
      requires Message_Block.Length == BLOCK && at <= 60
      modifies Message_Block
      ensures Message_Block[..at] == old(Message_Block[..at]) && Message_Block[at..at + 4] == CounterOctets(n)
    {
      Message_Block[at] := (n / 0x100_0000 % 256) as Byte;
      Message_Block[at + 1] := (n / 0x1_0000 % 256) as Byte;
      Message_Block[at + 2] := (n / 0x100 % 256) as Byte;
      Message_Block[at + 3] := (n % 256) as Byte;
    }

    method StoreLength()
      requires Message_Block.Length == BLOCK
      modifies Message_Block
      ensures Message_Block[..] == old(Message_Block[..56]) + (CounterOctets(Length_High) + CounterOctets(Length_Low))
    {
      ghost var b := Message_Block[..56];
      StoreCounter(56, Length_High);
      ghost var h := Message_Block[56..60];
      assert Message_Block[..60] == b + h;
      StoreCounter(60, Length_Low);
      assert Message_Block[..] == Message_Block[..60] + Message_Block[60..64];
    }

    /** Zeros up to the length field, the length field, and the last compression. */
    method FinishBlock(ghost start: seq<Byte>, ghost length: seq<Byte>)
      requires Open() && Message_Block_Index <= 56 && Message_Block[..Message_Block_Index] == start
      requires length == CounterOctets(Length_High) + CounterOctets(Length_Low)
      modifies this`Message_Block_Index, Message_Block, H
      ensures Message_Block_Index == 0
      ensures Digest() == Compress(old(Digest()), start + Zeros(56 - |start|) + length)
    {
      FillZeros(56);
      StoreLength();
      assert Message_Block[..] == start + Zeros(56 - |start|) + length;
      ProcessMessageBlock();
    }

    /** Fill this block with zeros, compress it, and end with a block of zeros and the length. */
    method FinishInNextBlock(ghost start: seq<Byte>, ghost length: seq<Byte>)
      requires Open() && Message_Block[..Message_Block_Index] == start
      requires length == CounterOctets(Length_High) + CounterOctets(Length_Low)
      modifies this`Message_Block_Index, Message_Block, H
      ensures Message_Block_Index == 0
      ensures Digest() == Compress(Compress(old(Digest()), start + Zeros(64 - |start|)), Zeros(56) + length)
    {
      FillZeros(64);
      assert Message_Block[..] == start + Zeros(64 - |start|);
      ProcessMessageBlock();
      FinishBlock([], length);
      assert [] + Zeros(56) == Zeros(56);
    }

    method AppendOctet(octet: Byte)
      requires Open() && Message_Block_Index < BLOCK
      modifies this`Message_Block_Index, Message_Block
      ensures Message_Block_Index == old(Message_Block_Index) + 1
      ensures Message_Block[..Message_Block_Index] == old(Message_Block[..Message_Block_Index]) + [octet]
    {
      Message_Block[Message_Block_Index] := octet;
      Message_Block_Index := Message_Block_Index + 1;
    }

    /** Append the one bit, zeros and length to what the block holds, and compress. */
    method CompressPadding(ghost tail: seq<Byte>, ghost length: seq<Byte>)
      requires Open() && Message_Block_Index < BLOCK && Message_Block[..Message_Block_Index] == tail
      requires length == CounterOctets(Length_High) + CounterOctets(Length_Low)
      modifies this`Message_Block_Index, Message_Block, H
      ensures Message_Block_Index == 0
      ensures Digest() == Padded(old(Digest()), tail + [0x80 as Byte], length)
    {
      if Message_Block_Index > 55 {
        AppendOctet(0x80);
        FinishInNextBlock(tail + [0x80 as Byte], length);
      } else {
        AppendOctet(0x80);
        FinishBlock(tail + [0x80 as Byte], length);
      }
    }

    /** Pad the message and compress the last one or two blocks. */
    method PadMessage()
      requires Shape() && Streaming()
      modifies this`Message_Block_Index, Message_Block, H
      ensures Message_Block_Index == 0 && Digest() == MessageDigest(fed)
    {
      PaddedIsDigest(fed, Length_High, Length_Low);
      CompressPadding(fed[Whole(|fed|)..], CounterOctets(Length_High) + CounterOctets(Length_Low));
    }

    /** While input is taken: the message is streaming until it gets too long. */
    ghost predicate Feeding()
      reads this, H, Message_Block
    {
      Shape() && !Computed && (Corrupted <==> |fed| >= TOO_LONG) && (!Corrupted ==> Streaming())
    }

    /** Eight more bits; the message is too long when both counters are back at zero. */
    method CountBits(ghost n: nat)
      requires n < TOO_LONG && Length_Low < TWO_TO_32 && Length_High * TWO_TO_32 + Length_Low == 8 * n && !Corrupted
      modifies this`Length_Low, this`Length_High, this`Corrupted
      ensures Length_Low < TWO_TO_32 && (Corrupted <==> n + 1 == TOO_LONG)
      ensures !Corrupted ==> Length_High * TWO_TO_32 + Length_Low == 8 * (n + 1)
    {
      CountOctet(n, Length_High, Length_Low);
      Length_Low := (Length_Low + 8) % TWO_TO_32;
      if Length_Low == 0 {
        Length_High := (Length_High + 1) % TWO_TO_32;
        if Length_High == 0 {
          Corrupted := true;
        }
      }
    }

    /** The body of the input loop: one more octet of the message. */
    method Absorb(octet: Byte)
      requires Feeding() && !Corrupted
      modifies this`Message_Block_Index, this`Length_Low, this`Length_High, this`Corrupted, this`fed, Message_Block, H
      ensures Feeding() && fed == old(fed) + [octet]
    {
      ghost var h, m := Digest(), fed;
      AppendOctet(octet);
      fed := fed + [octet];
      CountBits(|m|);
      WholeNext(m, octet);
      if Message_Block_Index == 64 {
        assert Message_Block[..] == Message_Block[..Message_Block_Index];
        ProcessMessageBlock();
        HashNext(m[..Whole(|m|)], Message_Block[..]);
      }
    }

    /** Feed a piece of the message. */
    method Input(message: seq<Byte>)
      requires Valid()
      modifies this`Message_Block_Index, this`Length_Low, this`Length_High, this`Corrupted, this`fed, Message_Block, H
      ensures Valid() && Computed == old(Computed)
      ensures message == [] ==> Corrupted == old(Corrupted) && fed == old(fed)
      ensures message != [] ==>
                (Corrupted <==> old(Computed) || old(Corrupted) || |old(fed)| + |message| >= TOO_LONG)
      ensures !Corrupted ==> fed == old(fed) + message
    {
      ghost var before := fed;
      if message == [] {
        return;
      }
      if Computed || Corrupted {
        Corrupted := true;
        return;
      }
      var i := 0;
      assert before + message[..0] == before && before + message[..|message|] == before + message;
      while i < |message| && !Corrupted
        invariant i <= |message| && Feeding() && fed == before + message[..i]
      {
        Absorb(message[i]);
        OneMore(before, message, i);
        i := i + 1;
      }
    }

    /** The digest of the message fed so far; false if the message was too long or continued after a digest. */
    method Result() returns (ok: bool, message_digest: seq<Word>)
      requires Valid()
      modifies this`Message_Block_Index, this`Computed, Message_Block, H
      ensures Valid() && fed == old(fed) && Corrupted == old(Corrupted)
      ensures ok == !Corrupted
      ensures ok ==> Computed && |message_digest| == 5
      ensures ok ==> Buffers(message_digest[0], message_digest[1], message_digest[2], message_digest[3],
                             message_digest[4]) == MessageDigest(fed)
    {
      if Corrupted {
        return false, [];
      }
      if !Computed {
        PadMessage();
        Computed := true;
      }
      message_digest := [];
      var i := 0;
      while i < 5
        invariant 0 <= i <= 5 && |message_digest| == i
        invariant forall j :: 0 <= j < i ==> message_digest[j] == H[j]
      {
        message_digest := message_digest + [H[i]];
        i := i + 1;
      }
      ok := true;
    }
  }

  lemma OneMore(before: seq<Byte>, message: seq<Byte>, i: nat)
    requires i < |message|
    ensures before + message[..i] + [message[i]] == before + message[..i + 1]
  {
  }

  /** The two counters together count bits; they wrap to zero exactly at 2^64 bits. */
  lemma CountOctet(n: nat, hi: nat, lo: nat)
    requires n < TOO_LONG && lo < TWO_TO_32 && hi * TWO_TO_32 + lo == 8 * n
    ensures var lo' := (lo + 8) % TWO_TO_32;
            var hi' := if lo' == 0 then (hi + 1) % TWO_TO_32 else hi;
            && (lo' == 0 && hi' == 0 <==> n + 1 == TOO_LONG)
            && (n + 1 < TOO_LONG ==> hi' * TWO_TO_32 + lo' == 8 * (n + 1))
  {
    assert lo % 8 == 0;
    assert hi < TWO_TO_32;
  }

  /** One octet more either extends the incomplete block or completes it. */
  lemma WholeNext(m: seq<Byte>, octet: Byte)
    ensures var m' := m + [octet];
            if |m| % BLOCK == BLOCK - 1
            then && Whole(|m'|) == |m'| && |m'| % BLOCK == 0
                 && m'[..Whole(|m'|)] == m[..Whole(|m|)] + (m[Whole(|m|)..] + [octet])
            else && Whole(|m'|) == Whole(|m|) && |m'| % BLOCK == |m| % BLOCK + 1
                 && m'[..Whole(|m'|)] == m[..Whole(|m|)] && m'[Whole(|m'|)..] == m[Whole(|m|)..] + [octet]
  {
    var q := |m| / BLOCK;
    assert |m| == BLOCK * q + |m| % BLOCK;
    if |m| % BLOCK == BLOCK - 1 {
      assert |m| + 1 == BLOCK * (q + 1);
    }
  }

  /** The buffers after the last incomplete block, which begins with `start`, and its padding. */
  function Padded(h: Buffers, start: seq<Byte>, length: seq<Byte>): Buffers
    requires |start| <= BLOCK && |length| == 8
  {
    if |start| <= 56 then Compress(h, start + Zeros(56 - |start|) + length)
    else Compress(Compress(h, start + Zeros(64 - |start|)), Zeros(56) + length)
  }

  /** What remains to be compressed to obtain the digest. */
  lemma PaddedIsDigest(m: seq<Byte>, hi: nat, lo: nat)
    requires lo < TWO_TO_32 && hi * TWO_TO_32 + lo == 8 * |m|
    ensures MessageDigest(m) ==
            Padded(Hash(m[..Whole(|m|)]), m[Whole(|m|)..] + [0x80 as Byte], CounterOctets(hi) + CounterOctets(lo))
  {
    LengthField(hi, lo);
    DigestWithLength(m, CounterOctets(hi) + CounterOctets(lo));
  }

  lemma DigestWithLength(m: seq<Byte>, length: seq<Byte>)
    requires length == BigEndian(8 * |m|, 8)
    ensures MessageDigest(m) == Padded(Hash(m[..Whole(|m|)]), m[Whole(|m|)..] + [0x80 as Byte], length)
  {
    var start := m[Whole(|m|)..] + [0x80 as Byte];
    if |start| <= 56 {
      OneBlockDigest(m, start, length);
    } else {
      TwoBlockDigest(m, start, length);
    }
  }

  lemma OneBlockDigest(m: seq<Byte>, start: seq<Byte>, length: seq<Byte>)
    requires start == m[Whole(|m|)..] + [0x80 as Byte] && |start| <= 56 && length == BigEndian(8 * |m|, 8)
    ensures MessageDigest(m) == Compress(Hash(m[..Whole(|m|)]), start + Zeros(56 - |start|) + length)
  {
    OneBlockPadding(m, start, length);
    HashNext(m[..Whole(|m|)], start + Zeros(56 - |start|) + length);
  }

  lemma TwoBlockDigest(m: seq<Byte>, start: seq<Byte>, length: seq<Byte>)
    requires start == m[Whole(|m|)..] + [0x80 as Byte] && 56 < |start| <= BLOCK && length == BigEndian(8 * |m|, 8)
    ensures MessageDigest(m) ==
            Compress(Compress(Hash(m[..Whole(|m|)]), start + Zeros(64 - |start|)), Zeros(56) + length)
  {
    TwoBlockPadding(m, start, length);
    HashTwo(m[..Whole(|m|)], start + Zeros(64 - |start|), Zeros(56) + length);
  }

  lemma HashTwo(done: seq<Byte>, first: seq<Byte>, second: seq<Byte>)
    requires |done| % BLOCK == 0 && |first| == |second| == BLOCK
    ensures |done + first + second| % BLOCK == 0
    ensures Hash(done + first + second) == Compress(Compress(Hash(done), first), second)
  {
    HashNext(done, first);
    HashNext(done + first, second);
  }

  lemma Regroup(done: seq<Byte>, tail: seq<Byte>, one: seq<Byte>, z: seq<Byte>, z': seq<Byte>, length: seq<Byte>)
    ensures done + tail + one + z + length == done + (tail + one + z + length)
    ensures done + tail + one + (z + z') + length == done + (tail + one + z) + (z' + length)
  {
  }

  lemma ZerosSplit(i: nat, j: nat)
    ensures Zeros(i + j) == Zeros(i) + Zeros(j)
  {
  }

  lemma SplitWhole(m: seq<Byte>)
    ensures m == m[..Whole(|m|)] + m[Whole(|m|)..]
  {
  }

  /** The padding ends in the block that holds the end of the message. */
  lemma OneBlockPadding(m: seq<Byte>, start: seq<Byte>, length: seq<Byte>)
    requires start == m[Whole(|m|)..] + [0x80 as Byte] && |start| <= 56 && length == BigEndian(8 * |m|, 8)
    ensures Pad(m) == m[..Whole(|m|)] + (start + Zeros(56 - |start|) + length)
  {
    SplitWhole(m);
    assert |start| == |m| % BLOCK + 1;
    Regroup(m[..Whole(|m|)], m[Whole(|m|)..], [0x80 as Byte], Zeros(55 - |m| % BLOCK), [], length);
  }

  /** The padding runs into one more block. */
  lemma TwoBlockPadding(m: seq<Byte>, start: seq<Byte>, length: seq<Byte>)
    requires start == m[Whole(|m|)..] + [0x80 as Byte] && 56 < |start| <= BLOCK && length == BigEndian(8 * |m|, 8)
    ensures Pad(m) == m[..Whole(|m|)] + (start + Zeros(64 - |start|)) + (Zeros(56) + length)
  {
    SplitWhole(m);
    assert |start| == |m| % BLOCK + 1;
    ZerosSplit(63 - |m| % BLOCK, 56);
    Regroup(m[..Whole(|m|)], m[Whole(|m|)..], [0x80 as Byte], Zeros(63 - |m| % BLOCK), Zeros(56), length);
  }
}
