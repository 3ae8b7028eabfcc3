/** The streaming hash: a buffer filled by `update` calls, blocks compressed as it fills, padding and
    the length appended at the end. It computes the digest of FIPS 180-4. */
module Sha256 {
  import opened Sha256Standard

  class Hasher {
    const state: array<word>
    const buffer: array<byte>
    var bufferLength: nat
    var totalLength: nat
    var digest: string

    /** The message so far, and the bytes put through the buffer so far (padding included). */
    ghost var absorbed: seq<byte>
    ghost var fed: seq<byte>

    ghost predicate Allocated()
      reads this
    {
      state.Length == 8 && buffer.Length == 64
    }

    function StateHash(): Hash
      requires Allocated()
      reads this, state
    {
      Hash(state[0], state[1], state[2], state[3], state[4], state[5], state[6], state[7])
    }

    /** The state has compressed all whole blocks of what was fed; the rest is in the buffer. */
    ghost predicate Streaming()
      reads this, state, buffer
    {
      && Allocated()
      && bufferLength < 64 && bufferLength <= |fed|
      && |fed| % 64 == bufferLength
      && buffer[..bufferLength] == fed[|fed| - bufferLength..]
      && StateHash() == HashBlocks(INITIAL, fed[..|fed| - bufferLength])
    }

    ghost predicate Valid()
      reads this, state, buffer
    {
      && Allocated()
      && (digest == "" ==> Streaming() && fed == absorbed && totalLength == |absorbed| % U64)
      && (digest != "" && |absorbed| < MAX_MESSAGE ==> digest == Sha256Hex(absorbed))
    }

    constructor ()
      ensures Valid() && fresh(state) && fresh(buffer)
      ensures absorbed == [] && digest == ""
    {
      state := new word[8];
      buffer := new byte[64](_ => 0);
      hide HashBlocks, Sha256Hex, Valid, Streaming, StateHash;
      bufferLength, totalLength, digest := 0, 0, "";
      absorbed, fed := [], [];
      new;
      FillState();
      NothingAbsorbed();
    }

    lemma NothingAbsorbed()
      requires Allocated() && StateHash() == INITIAL
      requires bufferLength == totalLength == 0 && digest == "" && absorbed == fed == []
      ensures Valid()
    {
      hide HashBlocks, Sha256Hex, StateHash;
      NothingHashed();
      assert fed[..0] == [] && buffer[..0] == [];
    }

    method FillState()
      requires Allocated()
      modifies state
      ensures StateHash() == INITIAL
    {
      state[0], state[1], state[2], state[3] := 0x6a09e667, 0xbb67ae85, 0x3c6ef372, 0xa54ff53a;
      state[4], state[5], state[6], state[7] := 0x510e527f, 0x9b05688c, 0x1f83d9ab, 0x5be0cd19;
    }

    /** The message schedule as an array filled in place. */
    method FillSchedule(block: Block) returns (w: array<word>)
      ensures fresh(w) && w.Length == 64
      ensures forall t :: 0 <= t < 64 ==> w[t] == Schedule(block, t)
    {
      hide RotR;
      w := new word[64];
      var i := 0;
      while i < 16
        invariant 0 <= i <= 16
        invariant forall t :: 0 <= t < i ==> w[t] == Schedule(block, t)
      {
        w[i] := (block[i * 4] as word << 24) | (block[i * 4 + 1] as word << 16) | (block[i * 4 + 2] as word << 8)
                | (block[i * 4 + 3] as word);
        i := i + 1;
      }
      while i < 64
        invariant 16 <= i <= 64
        invariant forall t :: 0 <= t < i ==> w[t] == Schedule(block, t)
      {
        hide Schedule, MessageWord, ScheduleSum;
        var s0 := RotR(w[i - 15], 7) ^ RotR(w[i - 15], 18) ^ (w[i - 15] >> 3);
        var s1 := RotR(w[i - 2], 17) ^ RotR(w[i - 2], 19) ^ (w[i - 2] >> 10);
        ScheduleStep(block, i);
        var sum := AddTerms(w[i - 16], s0, w[i - 7], s1);
        w[i] := sum;
        i := i + 1;
      }
    }

    method ProcessBlock(block: Block)
      requires Allocated()
      modifies state
      ensures StateHash() == Compress(old(StateHash()), block)
    {
      hide Rounds, Plus;
      var w := FillSchedule(block);
      var before := StateHash();
      var hash := RunRounds(block, w, before);
      AddState(hash, before);
      state[0], state[1] := Plus(state[0], hash.a), Plus(state[1], hash.b);
      state[2], state[3] := Plus(state[2], hash.c), Plus(state[3], hash.d);
      state[4], state[5] := Plus(state[4], hash.e), Plus(state[5], hash.f);
      state[6], state[7] := Plus(state[6], hash.g), Plus(state[7], hash.h);
    }

    /** Absorbs one byte without the finalized-state guard of `Update`. */
    method AppendByte(b: byte)
      requires Streaming()
      modifies this`bufferLength, this`fed, state, buffer
      ensures Streaming() && fed == old(fed) + [b]
      ensures bufferLength == if old(bufferLength) == 63 then 0 else old(bufferLength) + 1
    {
      hide HashBlocks;
      ghost var start := |fed| - bufferLength;
      assert fed == fed[..start] + fed[start..];
      buffer[bufferLength] := b;
      bufferLength := bufferLength + 1;
      fed := fed + [b];
      assert buffer[..bufferLength] == old(buffer[..bufferLength]) + [b];
      assert fed[start..] == old(fed)[start..] + [b];
      assert fed[..start] == old(fed)[..start];
      FlushIfFull(start);
    }

    /** Compresses the buffer once it is full. */
    method FlushIfFull(ghost start: nat)
      requires Allocated() && bufferLength <= 64
      requires start + bufferLength == |fed| && start % 64 == 0
      requires buffer[..bufferLength] == fed[start..] && StateHash() == HashBlocks(INITIAL, fed[..start])
      modifies this`bufferLength, state
      ensures Streaming() && bufferLength == if old(bufferLength) == 64 then 0 else old(bufferLength)
    {
      hide HashBlocks, Compress;
      if bufferLength == 64 {
        var block: Block := buffer[..];
        assert fed == fed[..start] + block;
        BlockAppended(fed[..start], block);
        ProcessBlock(block);
        bufferLength := 0;
        assert fed[..|fed| - 0] == fed;
      }
    }

    /** Appends bytes to the hash; ignored once the digest has been asked for. */
    method Update(data: seq<byte>)
      requires Valid()
      modifies this, state, buffer
      ensures Valid() && digest == old(digest)
      ensures absorbed == if digest == "" then old(absorbed) + data else old(absorbed)
    {
      hide HashBlocks, Sha256Hex;
      if digest != "" { return; }
      SumModulo(|absorbed|, |data|);
      totalLength := (totalLength + |data|) % U64;
      FeedAll(data);
      absorbed := fed;
    }

    method FeedAll(data: seq<byte>)
      requires Streaming()
      modifies this`bufferLength, this`fed, state, buffer
      ensures Streaming() && fed == old(fed) + data
    {
      hide HashBlocks, Streaming;
      var done := 0;
      while done < |data|
        invariant 0 <= done <= |data|
        invariant Streaming() && fed == old(fed) + data[..done]
      {
        var take := Feed(data, done);
        assert data[..done + take] == data[..done] + data[done..done + take];
        done := done + take;
      }
      assert data[..done] == data;
    }

    /** One turn of the loop: as many bytes as fit, and the block if that fills the buffer. */
    method Feed(data: seq<byte>, done: nat) returns (take: nat)
      requires Streaming() && done < |data|
      modifies this`bufferLength, this`fed, state, buffer
      ensures Streaming()
      ensures 0 < take <= |data| - done && fed == old(fed) + data[done..done + take]
    {
      hide HashBlocks;
      take := if |data| - done < 64 - bufferLength then |data| - done else 64 - bufferLength;
      ghost var start := |fed| - bufferLength;
      Fill(data, done, take);
      FlushIfFull(start);
    }

    /** `memcpy` of some bytes behind those already in the buffer. */
    method CopyIn(chunk: seq<byte>)
      requires buffer.Length == 64 && bufferLength + |chunk| <= 64
      modifies buffer
      ensures buffer[..bufferLength + |chunk|] == old(buffer[..bufferLength]) + chunk
    {
      forall i | 0 <= i < |chunk| { buffer[bufferLength + i] := chunk[i]; }
    }

    /** The bytes taken this turn, into the buffer and into what has been fed so far. */
    method Fill(data: seq<byte>, from: nat, take: nat)
      requires Streaming() && from + take <= |data| && bufferLength + take <= 64
      modifies this`bufferLength, this`fed, buffer
      ensures bufferLength == old(bufferLength) + take && fed == old(fed) + data[from..from + take]
      ensures var start := old(|fed| - bufferLength);
              buffer[..bufferLength] == fed[start..] && fed[..start] == old(fed)[..start]
    {
      hide HashBlocks;
      var chunk := data[from..from + take];
      ghost var start := |fed| - bufferLength;
      CopyIn(chunk);
      TailGrows(fed, start, chunk);
      bufferLength := bufferLength + take;
      fed := fed + chunk;
    }

    /** Finalizes the hash and returns it; later calls return the same digest. */
    method HexDigest() returns (r: string)
      requires Valid()
      modifies this, state, buffer
      ensures Valid() && absorbed == old(absorbed) && r == digest && r != ""
      ensures old(digest) != "" ==> r == old(digest)
      ensures |absorbed| < MAX_MESSAGE ==> r == Sha256Hex(absorbed)
    {
      hide Sha256Hex, Streaming;
      if digest == "" { Finalize(); }
      return digest;
    }

    method Finalize()
      requires Valid() && digest == ""
      modifies this, state, buffer
      ensures Allocated() && absorbed == old(absorbed) && digest != ""
      ensures |absorbed| < MAX_MESSAGE ==> digest == Sha256Hex(absorbed)
    {
      hide HashBlocks, HexHash, Sha256Hex, HexWord;
      ghost var message := absorbed;
      AppendPadding();
      AppendLength(totalLength * 8 % U64);
      digest := WriteHex();
      if |message| < MAX_MESSAGE { PaddedDigest(message, fed); }
    }

    /** The eight words of the state one after the other, `%08x` each. */
    method WriteHex() returns (hex: string)
      requires Allocated()
      ensures hex == HexHash(StateHash())
    {
      hide HexWord, HashBlocks;
      ghost var words := seq(8, i requires 0 <= i < 8 reads state => state[i]);
      hex := "";
      for i := 0 to 8
        invariant hex == Written(words, i)
      {
        hex := hex + HexWord(state[i]);
      }
      WrittenAll(words);
    }

    lemma BufferIsTail()
      requires Streaming()
      ensures bufferLength == |fed| % 64
    {
      hide HashBlocks;
    }

    /** The one bit and the zeros; the loop ends at the first byte count of 56 modulo 64. */
    method AppendPadding()
      requires Streaming()
      modifies this`bufferLength, this`fed, state, buffer
      ensures Streaming() && bufferLength == 56
      ensures fed == old(fed) + [0x80] + Zeros(PadZeros(|old(fed)|))
    {
      hide HashBlocks, Zeros, PadZeros, Streaming;
      BufferIsTail();
      ghost var message := fed;
      GapIsPadding(|fed|, bufferLength);
      AppendByte(0x80);
      ghost var zeros: nat := 0;
      assert fed == message + [0x80] + Zeros(0);
      while bufferLength != 56
        invariant Streaming()
        invariant fed == message + [0x80] + Zeros(zeros)
        invariant bufferLength < 64 && zeros + Gap(bufferLength) == PadZeros(|message|)
        decreases Gap(bufferLength)
      {
        AppendByte(0x00);
        assert Zeros(zeros + 1) == Zeros(zeros) + [0];
        zeros := zeros + 1;
      }
    }

    /** The length bytes straight into the buffer, and the last block. */
    method AppendLength(bitLength: nat)
      requires Streaming() && bufferLength == 56
      modifies state, buffer
      ensures |fed + Length64(bitLength)| % 64 == 0
      ensures StateHash() == HashBlocks(INITIAL, fed + Length64(bitLength))
    {
      hide HashBlocks, Compress, LengthByte, Length64;
      var lengthArray := LengthBytes(bitLength);
      ghost var lengthBytes := lengthArray[..];
      ghost var start := |fed| - 56;
      ghost var front := buffer[..56];
      forall i | 0 <= i < 8 { buffer[56 + i] := lengthArray[i]; }
      var block: Block := buffer[..];
      assert block[..56] == front;
      assert block == front + lengthBytes;
      assert fed == fed[..start] + front;
      assert fed + lengthBytes == fed[..start] + block;
      BlockAppended(fed[..start], block);
      ProcessBlock(block);
    }
  }

  /** The first words of several, written one after the other. */
  ghost function Written(words: seq<word>, n: nat): string
    requires n <= |words|
  {
    if n == 0 then "" else Written(words, n - 1) + HexWord(words[n - 1])
  }

  lemma WrittenAll(words: seq<word>)
    requires |words| == 8
    ensures Written(words, 8)
         == HexHash(Hash(words[0], words[1], words[2], words[3], words[4], words[5], words[6], words[7]))
  {
    hide HexWord;
    assert Written(words, 1) == HexWord(words[0]);
    assert Written(words, 2) == Written(words, 1) + HexWord(words[1]);
    assert Written(words, 3) == Written(words, 2) + HexWord(words[2]);
    assert Written(words, 4) == Written(words, 3) + HexWord(words[3]);
    assert Written(words, 5) == Written(words, 4) + HexWord(words[4]);
    assert Written(words, 6) == Written(words, 5) + HexWord(words[5]);
    assert Written(words, 7) == Written(words, 6) + HexWord(words[6]);
    assert Written(words, 8) == Written(words, 7) + HexWord(words[7]);
  }

  lemma NothingHashed()
    ensures HashBlocks(INITIAL, []) == INITIAL
  {
  }

  const U64: nat := 0x1_0000_0000_0000_0000

  function Pow2(n: nat): (p: nat)
    ensures p > 0
  {
    if n == 0 then 1 else 2 * Pow2(n - 1)
  }

  /** `x >> n` of an unsigned number. */
  function ShiftRight(x: nat, n: nat): int { x / Pow2(n) }

  lemma {:induction false} BytesOfBits(n: nat)
    ensures Pow2(8 * n) == Pow256(n)
  {
    if n > 0 {
      BytesOfBits(n - 1);
      EightBits(8 * (n - 1));
    }
  }

  lemma EightBits(n: nat)
    ensures Pow2(n + 8) == 256 * Pow2(n)
  {
    assert Pow2(n + 2) == 4 * Pow2(n);
    assert Pow2(n + 4) == 4 * Pow2(n + 2);
    assert Pow2(n + 6) == 4 * Pow2(n + 4);
    assert Pow2(n + 8) == 4 * Pow2(n + 6);
  }

  /** The message length, most significant byte first. */
  method LengthBytes(bitLength: nat) returns (lengthBytes: array<byte>)
    ensures fresh(lengthBytes) && lengthBytes[..] == Length64(bitLength)
  {
    hide Pow2, Pow256;
    lengthBytes := new byte[8];
    for i := 0 to 8
      invariant forall k | 0 <= k < i :: lengthBytes[k] == LengthByte(bitLength, k)
    {
      BytesOfBits(7 - i);
      lengthBytes[i] := (ShiftRight(bitLength, 56 - i * 8) % 256) as byte;
    }
    assert lengthBytes[..] == Length64(bitLength);
  }

  /** The 64 rounds on the working variables. */
  method RunRounds(block: Block, w: array<word>, start: Hash) returns (hash: Hash)
    requires w.Length == 64 && forall t :: 0 <= t < 64 ==> w[t] == Schedule(block, t)
    ensures hash == Rounds(start, block, 64)
  {
    hide Schedule, RotR, Plus, Ch, Maj;
    var Hash(a, b, c, d, e, f, g, h) := start;
    for i := 0 to 64
      invariant Hash(a, b, c, d, e, f, g, h) == Rounds(start, block, i)
    {
      var s1 := RotR(e, 6) ^ RotR(e, 11) ^ RotR(e, 25);
      var ch := Ch(e, f, g);
      var temp1 := Add(h, s1);
      temp1 := Add(temp1, ch);
      temp1 := Add(temp1, K[i]);
      temp1 := Add(temp1, w[i]);
      var s0 := RotR(a, 2) ^ RotR(a, 13) ^ RotR(a, 22);
      var maj := Maj(a, b, c);
      var temp2 := Add(s0, maj);
      h := g;
      g := f;
      f := e;
      e := Add(d, temp1);
      d := c;
      c := b;
      b := a;
      a := Add(temp1, temp2);
    }
    return Hash(a, b, c, d, e, f, g, h);
  }

  /** Addition of 32-bit words. */
  method Add(x: word, y: word) returns (sum: word)
    ensures sum == Plus(x, y)
  {
    return x + y;
  }

  /** The program adds the schedule's terms in another order than the standard. */
  method AddTerms(w16: word, s0: word, w7: word, s1: word) returns (sum: word)
    ensures sum == ScheduleSum(s1, w7, s0, w16)
  {
    return w16 + s0 + w7 + s1;
  }

  lemma ScheduleStep(block: Block, t: nat)
    requires 16 <= t
    ensures Schedule(block, t) == ScheduleSum(SmallSigma1(Schedule(block, t - 2)), Schedule(block, t - 7),
                                              SmallSigma0(Schedule(block, t - 15)), Schedule(block, t - 16))
  {
    hide ScheduleSum, SmallSigma0, SmallSigma1, MessageWord;
  }

  lemma PlusCommutes(x: word, y: word)
    ensures Plus(x, y) == Plus(y, x)
  {
  }

  lemma AddState(x: Hash, y: Hash)
    ensures AddHash(x, y) == AddHash(y, x)
  {
    hide Plus;
    PlusCommutes(x.a, y.a);
    PlusCommutes(x.b, y.b);
    PlusCommutes(x.c, y.c);
    PlusCommutes(x.d, y.d);
    PlusCommutes(x.e, y.e);
    PlusCommutes(x.f, y.f);
    PlusCommutes(x.g, y.g);
    PlusCommutes(x.h, y.h);
  }

  /** How many bytes the buffer is short of 56, going round at 64. */
  function Gap(length: nat): nat
    requires length < 64
  {
    if length <= 56 then 56 - length else 120 - length
  }

  lemma GapIsPadding(length: nat, used: nat)
    requires used == length % 64
    ensures Gap(if used == 63 then 0 else used + 1) == PadZeros(length)
  {
  }

  lemma TailGrows(s: seq<byte>, start: nat, more: seq<byte>)
    requires start <= |s|
    ensures (s + more)[start..] == s[start..] + more && (s + more)[..start] == s[..start]
  {
  }

  lemma SumModulo(x: nat, y: nat)
    ensures (x % U64 + y) % U64 == (x + y) % U64
  {
  }

  lemma BlockAppended(m: seq<byte>, block: Block)
    requires |m| % 64 == 0
    ensures |m + block| % 64 == 0
    ensures HashBlocks(INITIAL, m + block) == Compress(HashBlocks(INITIAL, m), block)
  {
    hide Compress;
    var all := m + block;
    assert all[..|all| - 64] == m;
    assert all[|all| - 64..] == block;
  }

  lemma PaddedDigest(message: seq<byte>, fed: seq<byte>)
    requires |message| < MAX_MESSAGE
    requires fed == message + [0x80] + Zeros(PadZeros(|message|))
    ensures |fed + Length64(|message| % U64 * 8 % U64)| % 64 == 0
    ensures HexHash(HashBlocks(INITIAL, fed + Length64(|message| % U64 * 8 % U64))) == Sha256Hex(message)
  {
    hide HashBlocks, HexHash;
    assert |message| % U64 * 8 % U64 == 8 * |message|;
    assert fed + Length64(8 * |message|) == Pad(message);
  }

  function Concat(parts: seq<seq<byte>>): seq<byte> {
    if parts == [] then [] else Concat(parts[..|parts| - 1]) + parts[|parts| - 1]
  }

  /** Hashing in pieces, as a file is read: however the message is split, the digest is the standard's. */
  method HashPieces(parts: seq<seq<byte>>) returns (r: string)
    ensures |Concat(parts)| < MAX_MESSAGE ==> r == Sha256Hex(Concat(parts))
  {
    var hasher := new Hasher();
    for i := 0 to |parts|
      invariant hasher.Valid() && hasher.digest == "" && fresh(hasher) && fresh(hasher.state) && fresh(hasher.buffer)
      invariant hasher.absorbed == Concat(parts[..i])
    {
      assert parts[..i + 1][..i] == parts[..i];
      hasher.Update(parts[i]);
    }
    assert parts[..|parts|] == parts;
    r := hasher.HexDigest();
  }
}
