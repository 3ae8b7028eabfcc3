/** SHA-256 as FIPS 180-4 defines it: a function of the whole message. */
module Sha256Standard {

  type byte = bv8
  type word = bv32

  // ---------------------------------------------------------------- functions (section 4.1.2)

  /** Addition modulo 2^32. */
  function Plus(x: word, y: word): word { x + y }

  function RotR(x: word, n: nat): word
    requires n <= 32
  {
    (x >> n) | (x << (32 - n))
  }

  function Ch(x: word, y: word, z: word): word { (x & y) ^ (!x & z) }
  function Maj(x: word, y: word, z: word): word { (x & y) ^ (x & z) ^ (y & z) }
  function BigSigma0(x: word): word { RotR(x, 2) ^ RotR(x, 13) ^ RotR(x, 22) }
  function BigSigma1(x: word): word { RotR(x, 6) ^ RotR(x, 11) ^ RotR(x, 25) }
  function SmallSigma0(x: word): word { RotR(x, 7) ^ RotR(x, 18) ^ (x >> 3) }
  function SmallSigma1(x: word): word { RotR(x, 17) ^ RotR(x, 19) ^ (x >> 10) }

  // ---------------------------------------------------------------- constants (sections 4.2.2, 5.3.3)

  const K: seq<word> :=
    [0x428a2f98, 0x71374491, 0xb5c0fbcf, 0xe9b5dba5, 0x3956c25b, 0x59f111f1, 0x923f82a4, 0xab1c5ed5] +
    [0xd807aa98, 0x12835b01, 0x243185be, 0x550c7dc3, 0x72be5d74, 0x80deb1fe, 0x9bdc06a7, 0xc19bf174] +
    [0xe49b69c1, 0xefbe4786, 0x0fc19dc6, 0x240ca1cc, 0x2de92c6f, 0x4a7484aa, 0x5cb0a9dc, 0x76f988da] +
    [0x983e5152, 0xa831c66d, 0xb00327c8, 0xbf597fc7, 0xc6e00bf3, 0xd5a79147, 0x06ca6351, 0x14292967] +
    [0x27b70a85, 0x2e1b2138, 0x4d2c6dfc, 0x53380d13, 0x650a7354, 0x766a0abb, 0x81c2c92e, 0x92722c85] +
    [0xa2bfe8a1, 0xa81a664b, 0xc24b8b70, 0xc76c51a3, 0xd192e819, 0xd6990624, 0xf40e3585, 0x106aa070] +
    [0x19a4c116, 0x1e376c08, 0x2748774c, 0x34b0bcb5, 0x391c0cb3, 0x4ed8aa4a, 0x5b9cca4f, 0x682e6ff3] +
    [0x748f82ee, 0x78a5636f, 0x84c87814, 0x8cc70208, 0x90befffa, 0xa4506ceb, 0xbef9a3f7, 0xc67178f2]

  datatype Hash = Hash(a: word, b: word, c: word, d: word, e: word, f: word, g: word, h: word)

  const INITIAL := Hash(0x6a09e667, 0xbb67ae85, 0x3c6ef372, 0xa54ff53a, 0x510e527f, 0x9b05688c, 0x1f83d9ab, 0x5be0cd19)

  // ---------------------------------------------------------------- computation (section 6.2.2)

  type Block = b: seq<byte> | |b| == 64 witness seq(64, _ => 0)

  function MessageWord(block: Block, t: nat): word
    requires t < 16
  {
    (block[4 * t] as word << 24) | (block[4 * t + 1] as word << 16) | (block[4 * t + 2] as word << 8)
    | (block[4 * t + 3] as word)
  }

  /** The message schedule (step 1). */
  function Schedule(block: Block, t: nat): word {
    if t < 16 then MessageWord(block, t)
    else ScheduleSum(SmallSigma1(Schedule(block, t - 2)), Schedule(block, t - 7),
                     SmallSigma0(Schedule(block, t - 15)), Schedule(block, t - 16))
  }

  function ScheduleSum(x: word, y: word, z: word, u: word): word { x + y + z + u }

  /** One turn of step 3. */
  function Round(v: Hash, k: word, w: word): Hash {
    var t1 := Plus(Plus(Plus(Plus(v.h, BigSigma1(v.e)), Ch(v.e, v.f, v.g)), k), w);
    var t2 := Plus(BigSigma0(v.a), Maj(v.a, v.b, v.c));
    Hash(Plus(t1, t2), v.a, v.b, v.c, Plus(v.d, t1), v.e, v.f, v.g)
  }

  function Rounds(v: Hash, block: Block, t: nat): Hash
    requires t <= 64
  {
    if t == 0 then v else Round(Rounds(v, block, t - 1), K[t - 1], Schedule(block, t - 1))
  }

  function AddHash(x: Hash, y: Hash): Hash {
    Hash(Plus(x.a, y.a), Plus(x.b, y.b), Plus(x.c, y.c), Plus(x.d, y.d),
         Plus(x.e, y.e), Plus(x.f, y.f), Plus(x.g, y.g), Plus(x.h, y.h))
  }

  /** Steps 2 to 4 for one block. */
  function Compress(v: Hash, block: Block): Hash { AddHash(Rounds(v, block, 64), v) }

  function HashBlocks(v: Hash, m: seq<byte>): Hash
    requires |m| % 64 == 0
  {
    if m == [] then v else Compress(HashBlocks(v, m[..|m| - 64]), m[|m| - 64..])
  }

  // ---------------------------------------------------------------- padding (section 5.1.1)

  function Zeros(n: nat): (z: seq<byte>)
    ensures |z| == n && forall i :: 0 <= i < n ==> z[i] == 0
  {
    seq(n, _ => 0)
  }

  function Pow256(n: nat): (p: nat)
    ensures p > 0
  {
    if n == 0 then 1 else 256 * Pow256(n - 1)
  }

  /** The low eight bytes of a number, most significant first. */
  function Length64(bits: nat): (s: seq<byte>)
    ensures |s| == 8
  {
    seq(8, i requires 0 <= i < 8 => LengthByte(bits, i))
  }

  function LengthByte(bits: nat, i: nat): byte
    requires i < 8
  {
    (bits / Pow256(7 - i) % 256) as byte
  }

  /** The least k with length + 1 + k = 56 modulo 64, in bytes. */
  function PadZeros(length: nat): (k: nat)
    ensures k < 64 && (length + 1 + k) % 64 == 56
  {
    (119 - length % 64) % 64
  }

  const MAX_MESSAGE := 0x2000_0000_0000_0000

  /** A message shorter than 2^64 bits, padded to whole blocks. */
  function Pad(m: seq<byte>): (p: seq<byte>)
    requires |m| < MAX_MESSAGE
    ensures |p| % 64 == 0
  {
    m + [0x80] + Zeros(PadZeros(|m|)) + Length64(8 * |m|)
  }

  // ---------------------------------------------------------------- the digest

  function HexDigit(n: bv32): char {
    var d := (n & 0xF) as int;
    if d < 10 then ('0' as int + d) as char else ('a' as int + d - 10) as char
  }

  /** `%08x`. */
  function HexWord(w: word): (s: string)
    ensures |s| == 8
  {
    [HexDigit(w >> 28), HexDigit(w >> 24), HexDigit(w >> 20), HexDigit(w >> 16),
     HexDigit(w >> 12), HexDigit(w >> 8), HexDigit(w >> 4), HexDigit(w)]
  }

  function HexHash(v: Hash): (s: string)
    ensures |s| == 64
  {
    HexWord(v.a) + HexWord(v.b) + HexWord(v.c) + HexWord(v.d) + HexWord(v.e) + HexWord(v.f) + HexWord(v.g)
    + HexWord(v.h)
  }

  function Sha256Hex(m: seq<byte>): string
    requires |m| < MAX_MESSAGE
  {
    HexHash(HashBlocks(INITIAL, Pad(m)))
  }
}
