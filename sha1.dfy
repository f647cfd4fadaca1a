// Model of src/sha1/sha1.c on a little-endian host: the SHA-1 context with its sixteen
// message words, five state words, byte count and buffer offset. Bytes are stored into the
// words at index offset ^ 3, so a full block holds big-endian words. The reference
// definitions follow FIPS 180-2 (sections 5.1.1, 5.3.1 and 6.1.2).

module Sha1 {

  /** HASH_LENGTH and BLOCK_LENGTH, in bytes. */
  const HASH_LENGTH: nat := 20
  const BLOCK_LENGTH: nat := 64

  /** The initial hash value of FIPS 180-2 section 5.3.1. */
  const IV: seq<bv32> := [0x67452301, 0xefcdab89, 0x98badcfe, 0x10325476, 0xc3d2e1f0]

  /** The round constants of RFC 3174 section 5. */
  function K(t: nat): bv32
  {
    if t < 20 then 0x5a827999 else if t < 40 then 0x6ed9eba1 else if t < 60 then 0x8f1bbcdc else 0xca62c1d6
  }

  /** uint32_t addition, modulo 2^32. */
  function Add(x: bv32, y: bv32): bv32
  {
    x + y
  }

  lemma AddIs(x: bv32, y: bv32)
    ensures Add(x, y) == x + y
  {
  }

  /** ROTL^n of FIPS 180-2 section 3.2, (x << n) | (x >> 32 - n); sha1_rol32 computes it
      with the same two shifts. */
  function Rotl(x: bv32, n: bv8): bv32
    requires 0 < n < 32
  {
    (x << n) | (x >> (32 - n))
  }

  /** For each shift the program uses, ROTL is a left rotation. */
  lemma RotlRotates(x: bv32)
    ensures Rotl(x, 1) == x.RotateLeft(1) && Rotl(x, 5) == x.RotateLeft(5) && Rotl(x, 30) == x.RotateLeft(30)
  {
  }

  /** The logical functions of FIPS 180-2 section 4.1.1. */
  function F(t: nat, b: bv32, c: bv32, d: bv32): bv32
  {
    if t < 20 then (b & c) | (!b & d)
    else if t < 40 then b ^ c ^ d
    else if t < 60 then (b & c) | (b & d) | (c & d)
    else b ^ c ^ d
  }

  /** The program's forms of Ch and Maj compute the same functions. */
  lemma ChoiceForm(b: bv32, c: bv32, d: bv32)
    ensures d ^ (b & (c ^ d)) == (b & c) | (!b & d)
  {
  }

  lemma MajorityForm(b: bv32, c: bv32, d: bv32)
    ensures (b & c) | (d & (b | c)) == (b & c) | (b & d) | (c & d)
  {
  }

  /** The message schedule of FIPS 180-2 section 6.1.2, step 1, over a block of sixteen
      words. */
  function W(m: seq<bv32>, t: nat): bv32
    requires |m| == 16 && t < 80
    decreases t
  {
    if t < 16 then m[t] else Rotl(W(m, t - 3) ^ W(m, t - 8) ^ W(m, t - 14) ^ W(m, t - 16), 1)
  }

  /** The number of rounds per block. */
  const ROUNDS: nat := 80

  /** The working variables a..e. */
  datatype Vars = Vars(a: bv32, b: bv32, c: bv32, d: bv32, e: bv32)

  function Round(v: Vars, t: nat, w: bv32): Vars
  {
    Mix(v, F(t, v.b, v.c, v.d), K(t), w)
  }

  /** The new working variables of a round whose f value is `f` and whose constant is
      `k`. */
  function Mix(v: Vars, f: bv32, k: bv32, w: bv32): Vars
  {
    Vars(Add(Add(Add(Add(Rotl(v.a, 5), f), v.e), k), w), v.a, Rotl(v.b, 30), v.c, v.d)
  }

  /** The working variables after `t` rounds. */
  function Rounds(h: Vars, m: seq<bv32>, t: nat): Vars
    requires |m| == 16 && t <= 80
  {
    if t == 0 then h else Round(Rounds(h, m, t - 1), t - 1, W(m, t - 1))
  }

  function ToVars(h: seq<bv32>): Vars
    requires |h| == 5
  {
    Vars(h[0], h[1], h[2], h[3], h[4])
  }

  /** One block compressed into the hash value: 80 rounds, then the intermediate value
      added in (FIPS 180-2 section 6.1.2, steps 2 to 4). */
  function Compress(h: seq<bv32>, m: seq<bv32>): (r: seq<bv32>)
    requires |h| == 5 && |m| == 16
    ensures |r| == 5
  {
    var v := Rounds(ToVars(h), m, ROUNDS);
    [Add(h[0], v.a), Add(h[1], v.b), Add(h[2], v.c), Add(h[3], v.d), Add(h[4], v.e)]
  }

  lemma CompressOf(h: seq<bv32>, m: seq<bv32>, v: Vars)
    requires |h| == 5 && |m| == 16 && v == Rounds(ToVars(h), m, ROUNDS)
    ensures Compress(h, m) == [Add(h[0], v.a), Add(h[1], v.b), Add(h[2], v.c), Add(h[3], v.d), Add(h[4], v.e)]
  {
  }

  lemma FiveWords(s: seq<bv32>, x0: bv32, x1: bv32, x2: bv32, x3: bv32, x4: bv32)
    requires |s| == 5 && s[0] == x0 && s[1] == x1 && s[2] == x2 && s[3] == x3 && s[4] == x4
    ensures s == [x0, x1, x2, x3, x4]
  {
  }

  /** Four bytes as a big-endian word. */
  function Word(b0: bv8, b1: bv8, b2: bv8, b3: bv8): bv32
  {
    (b0 as bv32 << 24) | (b1 as bv32 << 16) | (b2 as bv32 << 8) | b3 as bv32
  }

  /** A 64-byte block as sixteen big-endian words. */
  function BlockWords(s: seq<bv8>): (m: seq<bv32>)
    requires |s| == BLOCK_LENGTH
    ensures |m| == 16 && forall i :: 0 <= i < 16 ==> m[i] == Word(s[4 * i], s[4 * i + 1], s[4 * i + 2], s[4 * i + 3])
  {
    seq(16, i requires 0 <= i < 16 => Word(s[4 * i], s[4 * i + 1], s[4 * i + 2], s[4 * i + 3]))
  }

  /** The hash value after every block of `s`, whose length is a multiple of 64. */
  function HashBlocks(h: seq<bv32>, s: seq<bv8>): (r: seq<bv32>)
    requires |h| == 5 && |s| % BLOCK_LENGTH == 0
    ensures |r| == 5
    decreases |s|
  {
    if |s| == 0 then h
    else Compress(HashBlocks(h, s[..|s| - BLOCK_LENGTH]), BlockWords(s[|s| - BLOCK_LENGTH..]))
  }

  /** The low eight bits of `x`. */
  function ByteOf(x: nat): bv8
  {
    (x % 256) as bv8
  }

  function Zeros(n: nat): (z: seq<bv8>)
    ensures |z| == n && forall i :: 0 <= i < n ==> z[i] == 0
    decreases n
  {
    if n == 0 then [] else Zeros(n - 1) + [0]
  }

  /** The 64-bit big-endian encoding of `l`. */
  function BigEndian64(l: nat): seq<bv8>
  {
    [ByteOf(l / 0x100_0000_0000_0000), ByteOf(l / 0x1_0000_0000_0000), ByteOf(l / 0x100_0000_0000),
     ByteOf(l / 0x1_0000_0000), ByteOf(l / 0x100_0000), ByteOf(l / 0x1_0000), ByteOf(l / 0x100), ByteOf(l)]
  }

  /** The padding of FIPS 180-2 section 5.1.1: a one bit, the fewest zero bits that bring
      the length to 448 modulo 512, and the message length in bits as 64 bits. */
  function FipsPad(m: seq<bv8>): (p: seq<bv8>)
    ensures |p| % BLOCK_LENGTH == 0
  {
    PadFits(|m|);
    m + [0x80] + Zeros(PadZeros(|m|)) + BigEndian64(8 * |m|)
  }

  /** The number of zero bytes after the 0x80 byte: the least that leaves the length 56
      modulo 64. */
  function PadZeros(n: nat): (k: nat)
    ensures k < 64 && (n + 1 + k) % 64 == 56
  {
    var r := n % 64;
    assert n == 64 * (n / 64) + r;
    if r <= 55 then 55 - r else 119 - r
  }

  lemma PadFits(n: nat)
    ensures (n + 1 + PadZeros(n) + 8) % 64 == 0
  {
    var k := PadZeros(n);
    var q := (n + 1 + k) / 64;
    assert n + 1 + k == 64 * q + 56;
    assert n + 1 + k + 8 == 64 * (q + 1);
  }

  /** Words laid out as big-endian bytes. */
  function BigEndianBytes(h: seq<bv32>): (r: seq<bv8>)
    ensures |r| == 4 * |h|
  {
    if |h| == 0 then []
    else [Lane(h[0], 3), Lane(h[0], 2), Lane(h[0], 1), Lane(h[0], 0)] + BigEndianBytes(h[1..])
  }

  /** The SHA-1 digest of a byte message. */
  function Digest(m: seq<bv8>): (d: seq<bv8>)
    ensures |d| == HASH_LENGTH
  {
    BigEndianBytes(HashBlocks(IV, FipsPad(m)))
  }

  /** Byte `j` of a word, 0 being the least significant. */
  function Lane(w: bv32, j: nat): bv8
    requires j < 4
  {
    match j
    case 0 => (w & 0xFF) as bv8
    case 1 => ((w >> 8) & 0xFF) as bv8
    case 2 => ((w >> 16) & 0xFF) as bv8
    case 3 => ((w >> 24) & 0xFF) as bv8
  }

  /** The word with byte `j` replaced: a byte store into the word buffer. */
  function SetLane(w: bv32, j: nat, x: bv8): (r: bv32)
    requires j < 4
    ensures Lane(r, j) == x
    ensures forall k :: 0 <= k < 4 && k != j ==> Lane(r, k) == Lane(w, k)
  {
    match j
    case 0 => (w & 0xFFFF_FF00) | x as bv32
    case 1 => (w & 0xFFFF_00FF) | (x as bv32 << 8)
    case 2 => (w & 0xFF00_FFFF) | (x as bv32 << 16)
    case 3 => (w & 0x00FF_FFFF) | (x as bv32 << 24)
  }

  /** A word is the big-endian word of its four bytes. */
  lemma WordOfLanes(w: bv32)
    ensures w == Word(Lane(w, 3), Lane(w, 2), Lane(w, 1), Lane(w, 0))
  {
  }

  /** The byte swap of sha1_result. */
  function ByteSwap(x: bv32): (r: bv32)
    ensures Lane(r, 0) == Lane(x, 3) && Lane(r, 1) == Lane(x, 2) && Lane(r, 2) == Lane(x, 1) && Lane(r, 3) == Lane(x, 0)
  {
    ((x << 24) & 0xff000000) | ((x << 8) & 0x00ff0000) | ((x >> 8) & 0x0000ff00) | ((x >> 24) & 0x000000ff)
  }

  /** Words laid out as the little-endian bytes they occupy in memory. */
  function LittleEndianBytes(h: seq<bv32>): (r: seq<bv8>)
    ensures |r| == 4 * |h|
  {
    if |h| == 0 then []
    else [Lane(h[0], 0), Lane(h[0], 1), Lane(h[0], 2), Lane(h[0], 3)] + LittleEndianBytes(h[1..])
  }

  function Swapped(h: seq<bv32>): (r: seq<bv32>)
    ensures |r| == |h| && forall i :: 0 <= i < |h| ==> r[i] == ByteSwap(h[i])
  {
    if |h| == 0 then [] else [ByteSwap(h[0])] + Swapped(h[1..])
  }

  /** Read back from memory, the byte-swapped words are the big-endian digest bytes. */
  lemma {:induction false} SwappedMemory(h: seq<bv32>)
    ensures LittleEndianBytes(Swapped(h)) == BigEndianBytes(h)
  {
    if |h| > 0 {
      SwappedMemory(h[1..]);
      assert Swapped(h)[1..] == Swapped(h[1..]);
    }
  }

  const UINT32_MAX: nat := 0xFFFF_FFFF

  /** The eight bytes sha1_pad stores after the zeros: three zero bytes, then the 32-bit
      byte count shifted right by 29, 21, 13 and 5 and left by 3, each cut to a byte. */
  function LengthBytes(count: nat): seq<bv8>
    requires count <= UINT32_MAX
  {
    [0, 0, 0, ByteOf(count / 0x2000_0000), ByteOf(count / 0x20_0000), ByteOf(count / 0x2000),
     ByteOf(count / 0x20), ByteOf(count * 8 % 0x1_0000_0000)]
  }

  /** Shifting the count left by 3 and then right by k is shifting it right by k - 3. */
  lemma ShiftedCount(n: nat)
    requires n <= UINT32_MAX
    ensures (8 * n) / 0x1_0000_0000 == n / 0x2000_0000
    ensures (8 * n) / 0x100_0000 == n / 0x20_0000
    ensures (8 * n) / 0x1_0000 == n / 0x2000
    ensures (8 * n) / 0x100 == n / 0x20
    ensures (8 * n) / 0x100_0000_0000_0000 == 0 && (8 * n) / 0x1_0000_0000_0000 == 0
    ensures (8 * n) / 0x100_0000_0000 == 0
  {
  }

  /** Cutting the 32-bit count to its low byte is cutting the full value. */
  lemma LowByte(x: nat)
    ensures (x % 0x1_0000_0000) % 256 == x % 256
  {
    var q := x / 0x1_0000_0000;
    assert x == 0x1_0000_0000 * q + x % 0x1_0000_0000;
    assert 0x1_0000_0000 * q == 256 * (0x100_0000 * q);
  }

  /** For fewer than 2^32 bytes the shifted 32-bit count is the 64-bit big-endian bit
      length FIPS 180-2 appends. */
  lemma LengthBytesAreFips(n: nat)
    requires n <= UINT32_MAX
    ensures LengthBytes(n) == BigEndian64(8 * n)
  {
    ShiftedCount(n);
    LowByte(8 * n);
  }

  /** The bytes sha1_pad feeds in at a block offset, for a byte count. */
  function Padding(offset: nat, count: nat): seq<bv8>
    requires count <= UINT32_MAX
  {
    [0x80] + Zeros(PadZeros(offset)) + LengthBytes(count)
  }

  /** A stream followed by the padding sha1_pad gives it: whole blocks. */
  function Padded(s: seq<bv8>, count: nat): (r: seq<bv8>)
    requires count <= UINT32_MAX
    ensures |r| % BLOCK_LENGTH == 0
  {
    PadFits(|s|);
    s + Padding(|s|, count)
  }

  /** PadZeros only looks at the length modulo 64. */
  lemma PadZerosMod(n: nat)
    ensures PadZeros(n % 64) == PadZeros(n)
  {
  }

  /** The program's padding of a message it has counted in full is the FIPS 180-2
      padding. */
  lemma PaddingIsFips(m: seq<bv8>)
    requires |m| <= UINT32_MAX
    ensures Padded(m, |m|) == FipsPad(m)
  {
    LengthBytesAreFips(|m|);
  }

  /** The bytes of a partial block, as stored: byte 4j + k is lane 3 - k of word j. */
  ghost predicate Lanes(buf: seq<bv32>, p: seq<bv8>)
    requires |buf| == 16 && |p| <= BLOCK_LENGTH
  {
    forall j :: 0 <= j < 16 ==> WordLanes(buf[j], p, j)
  }

  /** Word j of the buffer holds those of bytes 4j .. 4j + 3 that are in `p`. */
  ghost predicate WordLanes(w: bv32, p: seq<bv8>, j: nat)
  {
    (4 * j < |p| ==> Lane(w, 3) == p[4 * j]) && (4 * j + 1 < |p| ==> Lane(w, 2) == p[4 * j + 1]) &&
    (4 * j + 2 < |p| ==> Lane(w, 1) == p[4 * j + 2]) && (4 * j + 3 < |p| ==> Lane(w, 0) == p[4 * j + 3])
  }

  lemma EmptyLanes(buf: seq<bv32>)
    requires |buf| == 16
    ensures Lanes(buf, [])
  {
  }

  /** Once all 64 bytes are in, the buffer holds the block's big-endian words. */
  lemma FullBlock(buf: seq<bv32>, p: seq<bv8>)
    requires |buf| == 16 && |p| == BLOCK_LENGTH && Lanes(buf, p)
    ensures buf == BlockWords(p)
  {
    forall i | 0 <= i < 16
      ensures buf[i] == BlockWords(p)[i]
    {
      FullWord(buf, p, i);
    }
  }

  lemma FullWord(buf: seq<bv32>, p: seq<bv8>, i: nat)
    requires |buf| == 16 && |p| == BLOCK_LENGTH && Lanes(buf, p) && i < 16
    ensures buf[i] == Word(p[4 * i], p[4 * i + 1], p[4 * i + 2], p[4 * i + 3])
  {
    var w := buf[i];
    assert WordLanes(w, p, i);
    WordOfLanes(w);
  }

  /** One byte stored at offset |p| = 4j + k keeps the earlier bytes. */
  lemma StoreByte(buf: seq<bv32>, p: seq<bv8>, x: bv8, j: nat, k: nat)
    requires |buf| == 16 && |p| < BLOCK_LENGTH && Lanes(buf, p) && k < 4 && |p| == 4 * j + k
    ensures Lanes(buf[j := SetLane(buf[j], 3 - k, x)], p + [x])
  {
    var buf' := buf[j := SetLane(buf[j], 3 - k, x)];
    var p' := p + [x];
    forall j' | 0 <= j' < 16
      ensures WordLanes(buf'[j'], p', j')
    {
      assert WordLanes(buf[j'], p, j');
      if j' == j {
        StoreLane(buf[j], p, x, j, k);
      } else if j' < j {
        assert 4 * j' + 3 < |p|;
      }
    }
  }

  lemma StoreLane(w: bv32, p: seq<bv8>, x: bv8, j: nat, k: nat)
    requires k < 4 && |p| == 4 * j + k && WordLanes(w, p, j)
    ensures WordLanes(SetLane(w, 3 - k, x), p + [x], j)
  {
  }

  /** The latest sixteen schedule words sit in the buffer, word t at t mod 16. Before
      round 16 that is the block itself. */
  ghost predicate Window(buf: seq<bv32>, m: seq<bv32>, i: nat)
    requires |buf| == 16 && |m| == 16 && i <= 80
  {
    var lo := if i <= 16 then 0 else i - 16;
    forall t :: lo <= t < lo + 16 ==> buf[t % 16] == W(m, t)
  }

  /** The schedule step of round i >= 16 reads words i-3, i-8, i-14 and i-16 from the
      window and leaves word i in place of word i-16. */
  lemma ScheduleStep(buf: seq<bv32>, m: seq<bv32>, i: nat)
    requires |buf| == 16 && |m| == 16 && 16 <= i < 80 && Window(buf, m, i)
    ensures buf[(i + 13) % 16] == W(m, i - 3) && buf[(i + 8) % 16] == W(m, i - 8)
    ensures buf[(i + 2) % 16] == W(m, i - 14) && buf[i % 16] == W(m, i - 16)
    ensures Window(buf[i % 16 := W(m, i)], m, i + 1)
  {
    ScheduleSlots(i);
    WindowShift(buf, m, i);
  }

  /** Words i - 3, i - 8, i - 14 and i - 16 sit at these slots. */
  lemma ScheduleSlots(i: nat)
    requires 16 <= i
    ensures (i - 3) % 16 == (i + 13) % 16 && (i - 8) % 16 == (i + 8) % 16
    ensures (i - 14) % 16 == (i + 2) % 16 && (i - 16) % 16 == i % 16
  {
    ModShift(i + 13, i - 3);
    ModShift(i + 8, i - 8);
    ModShift(i + 2, i - 14);
    ModShift(i, i - 16);
  }

  lemma ModShift(a: nat, b: nat)
    requires a == b + 16
    ensures a % 16 == b % 16
  {
    var q := b / 16;
    assert b == 16 * q + b % 16;
    assert a == 16 * (q + 1) + b % 16;
  }

  /** Word i replaces word i - 16, the oldest of the window. */
  lemma WindowShift(buf: seq<bv32>, m: seq<bv32>, i: nat)
    requires |buf| == 16 && |m| == 16 && 16 <= i < 80 && Window(buf, m, i)
    ensures Window(buf[i % 16 := W(m, i)], m, i + 1)
  {
    var buf' := buf[i % 16 := W(m, i)];
    forall t | i + 1 - 16 <= t < i + 1
      ensures buf'[t % 16] == W(m, t)
    {
      if t < i {
        SlotsDiffer(t, i);
      }
    }
  }

  lemma SlotsDiffer(t: nat, i: nat)
    requires i - 16 < t < i
    ensures t % 16 != i % 16
  {
  }

  /** Word i of the schedule from the four it is computed from. */
  lemma ScheduleWord(m: seq<bv32>, i: nat, w3: bv32, w8: bv32, w14: bv32, w16: bv32)
    requires |m| == 16 && 16 <= i < 80
    requires w3 == W(m, i - 3) && w8 == W(m, i - 8) && w14 == W(m, i - 14) && w16 == W(m, i - 16)
    ensures Rotl(w3 ^ w8 ^ w14 ^ w16, 1) == W(m, i)
  {
  }

  /** A full block appended to whole blocks is compressed last. */
  lemma BlockAppended(hashed: seq<bv8>, block: seq<bv8>, h: seq<bv32>, m: seq<bv32>, r: seq<bv32>)
    requires |hashed| % BLOCK_LENGTH == 0 && |block| == BLOCK_LENGTH
    requires h == HashBlocks(IV, hashed) && m == BlockWords(block) && r == Compress(h, m)
    ensures r == HashBlocks(IV, hashed + block)
  {
    var s := hashed + block;
    assert s[..|s| - BLOCK_LENGTH] == hashed;
    assert s[|s| - BLOCK_LENGTH..] == block;
  }

  /** The offset after one more byte. */
  lemma OffsetStep(o: nat, n: nat)
    requires o == n % 64
    ensures (if o == 63 then 0 else o + 1) == (n + 1) % 64
  {
  }

  /** The number of zeros that bring offset `o` to 56. */
  function Gap(o: nat): (k: nat)
    requires o < 64
    ensures k < 64 && (o + k) % 64 == 56
  {
    if o <= 56 then 56 - o else 120 - o
  }

  /** After the 0x80 byte the gap to offset 56 is the FIPS 180-2 zero count. */
  lemma GapAfterMarker(off: nat)
    requires off < 64
    ensures Gap((off + 1) % 64) == PadZeros(off)
  {
  }

  lemma AppendThree(s: seq<bv8>, a: seq<bv8>, b: seq<bv8>, c: seq<bv8>)
    ensures s + a + b + c == s + (a + b + c)
  {
  }

  lemma TakeOneMore(s: seq<bv8>, k: nat)
    requires k < |s|
    ensures s[..k + 1] == s[..k] + [s[k]]
  {
  }

  lemma TakeAll(s: seq<bv8>)
    ensures s[..|s|] == s
  {
  }

  lemma StreamOffset(hashed: seq<bv8>, pending: seq<bv8>)
    requires |hashed| % BLOCK_LENGTH == 0 && |pending| < BLOCK_LENGTH
    ensures |hashed + pending| % BLOCK_LENGTH == |pending|
  {
    var q := |hashed| / BLOCK_LENGTH;
    assert |hashed + pending| == BLOCK_LENGTH * q + |pending|;
  }

  /** sha1nfo: the block buffer as sixteen words, the hash state, the 32-bit count of
      message bytes and the offset into the block. The stream of bytes the context has
      taken in is split into whole blocks already compressed and the partial block in
      the buffer. */
  class Context {
    var buffer: array<bv32>
    var state: array<bv32>
    var byteCount: nat
    var bufferOffset: nat
    /** The message bytes counted by sha1_writebyte. */
    ghost var counted: seq<bv8>
    /** The whole blocks compressed into the state. */
    ghost var hashed: seq<bv8>
    /** The bytes of the current block. */
    ghost var pending: seq<bv8>
    /** Every byte taken in, padding included: the blocks hashed, then the pending ones. */
    ghost var stream: seq<bv8>

    ghost predicate Valid()
      reads this, buffer, state
    {
      Layout() && bufferOffset < BLOCK_LENGTH && Hashed() && Buffered()
    }

    /** The shape of the context and how its counts and ghost parts fit together. The
        block may be full and not yet compressed. */
    ghost predicate Layout()
      reads this
    {
      buffer.Length == 16 && state.Length == 5 && buffer != state &&
      bufferOffset <= BLOCK_LENGTH && |pending| == bufferOffset && |hashed| % BLOCK_LENGTH == 0 &&
      stream == hashed + pending &&
      byteCount <= UINT32_MAX && (|counted| <= UINT32_MAX ==> byteCount == |counted|)
    }

    /** The state is the hash of the whole blocks taken in. */
    ghost predicate Hashed()
      reads this`state, this`hashed, state
    {
      state.Length == 5 && |hashed| % BLOCK_LENGTH == 0 && state[..] == HashBlocks(IV, hashed)
    }

    /** The buffer holds the bytes of the current block. */
    ghost predicate Buffered()
      reads this`buffer, this`pending, buffer
    {
      buffer.Length == 16 && |pending| <= BLOCK_LENGTH && Lanes(buffer[..], pending)
    }

    constructor ()
      ensures Valid() && fresh(buffer) && fresh(state)
      ensures stream == [] && counted == [] && byteCount == 0 && bufferOffset == 0
    {
      buffer := new bv32[16];
      state := new bv32[5];
      new;
      Init();
    }

    /** sha1_init: the initial hash value of FIPS 180-2 section 5.3.1, nothing counted,
        an empty block. */
    method Init()
      requires buffer.Length == 16 && state.Length == 5 && buffer != state
      modifies this, state
      ensures Valid() && buffer == old(buffer) && state == old(state)
      ensures state[..] == IV && stream == [] && counted == [] && byteCount == 0 && bufferOffset == 0
    {
      state[0] := 0x67452301;
      state[1] := 0xefcdab89;
      state[2] := 0x98badcfe;
      state[3] := 0x10325476;
      state[4] := 0xc3d2e1f0;
      byteCount := 0;
      bufferOffset := 0;
      counted, hashed, pending, stream := [], [], [], [];
    }

    /** sha1_hashBlock: 80 rounds over the block in the buffer, keeping only the latest
        sixteen schedule words, then the working variables added into the state. */
    method HashBlock()
      requires buffer.Length == 16 && state.Length == 5 && buffer != state
      modifies buffer, state
      ensures state[..] == Compress(old(state[..]), old(buffer[..]))
    {
      ghost var h, m := state[..], buffer[..];
      var a, b, c, d, e := AllRounds();
      state[0] := Add(state[0], a);
      state[1] := Add(state[1], b);
      state[2] := Add(state[2], c);
      state[3] := Add(state[3], d);
      state[4] := Add(state[4], e);
      CompressOf(h, m, Vars(a, b, c, d, e));
      FiveWords(state[..], Add(h[0], a), Add(h[1], b), Add(h[2], c), Add(h[3], d), Add(h[4], e));
    }

    /** The loop of sha1_hashBlock: the working variables after 80 rounds. */
    method AllRounds() returns (a: bv32, b: bv32, c: bv32, d: bv32, e: bv32)
      requires buffer.Length == 16 && state.Length == 5 && buffer != state
      modifies buffer
      ensures Vars(a, b, c, d, e) == Rounds(ToVars(state[..]), old(buffer[..]), ROUNDS)
    {
      ghost var m := buffer[..];
      ghost var h := state[..];
      a, b, c, d, e := state[0], state[1], state[2], state[3], state[4];
      var i := 0;
      while i < ROUNDS
        invariant 0 <= i <= ROUNDS
        invariant Vars(a, b, c, d, e) == Rounds(ToVars(h), m, i)
        invariant Window(buffer[..], m, i)
      {
        Expand(m, i);
        a, b, c, d, e := OneRound(i, a, b, c, d, e, buffer[i % 16]);
        i := i + 1;
      }
    }

    /** sha1_addUncounted: the byte is stored at its big-endian place in the block (byte
        offset ^ 3 of the little-endian words); the 64th byte compresses the block and
        empties the buffer. */
    method AddUncounted(data: bv8)
      requires Valid()
      modifies this, buffer, state
      ensures Valid() && buffer == old(buffer) && state == old(state)
      ensures stream == old(stream) + [data]
      ensures counted == old(counted) && byteCount == old(byteCount)
      ensures bufferOffset == if old(bufferOffset) == BLOCK_LENGTH - 1 then 0 else old(bufferOffset) + 1
    {
      Store(data);
      if bufferOffset == BLOCK_LENGTH {
        HashFullBlock();
      }
    }

    /** The store and the increment of sha1_addUncounted. */
    method Store(data: bv8)
      requires Layout() && bufferOffset < BLOCK_LENGTH && Buffered()
      modifies buffer, this`pending, this`stream, this`bufferOffset
      ensures Layout() && Buffered()
      ensures pending == old(pending) + [data] && stream == old(stream) + [data]
      ensures bufferOffset == old(bufferOffset) + 1
    {
      var o := bufferOffset;
      StoreByte(buffer[..], pending, data, o / 4, o % 4);
      ghost var before := buffer[..];
      buffer[o / 4] := SetLane(buffer[o / 4], 3 - o % 4, data);
      assert buffer[..] == before[o / 4 := SetLane(before[o / 4], 3 - o % 4, data)];
      pending := pending + [data];
      stream := stream + [data];
      bufferOffset := bufferOffset + 1;
    }

    /** The full-block branch of sha1_addUncounted: the block is compressed and the
        offset goes back to 0. */
    method HashFullBlock()
      requires Layout() && bufferOffset == BLOCK_LENGTH && Hashed() && Buffered()
      modifies buffer, state, this`hashed, this`pending, this`bufferOffset
      ensures Valid()
      ensures hashed == old(hashed) + old(pending) && pending == [] && bufferOffset == 0
    {
      FullBlock(buffer[..], pending);
      ghost var h0, m0 := state[..], buffer[..];
      HashBlock();
      BlockAppended(hashed, pending, h0, m0, state[..]);
      hashed := hashed + pending;
      pending := [];
      bufferOffset := 0;
      assert hashed + pending == hashed;
      EmptyLanes(buffer[..]);
    }

    /** sha1_writebyte: the byte is counted, the 32-bit count wrapping to 0, and added. */
    method WriteByte(data: bv8)
      requires Valid()
      modifies this, buffer, state
      ensures Valid() && buffer == old(buffer) && state == old(state)
      ensures stream == old(stream) + [data] && counted == old(counted) + [data]
      ensures byteCount == if old(byteCount) == UINT32_MAX then 0 else old(byteCount) + 1
    {
      byteCount := if byteCount == UINT32_MAX then 0 else byteCount + 1;
      counted := counted + [data];
      AddUncounted(data);
    }

    /** sha1_write: every byte of `data` in turn. */
    method Write(data: seq<bv8>)
      requires Valid()
      modifies this, buffer, state
      ensures Valid() && buffer == old(buffer) && state == old(state)
      ensures stream == old(stream) + data && counted == old(counted) + data
    {
      var i := 0;
      while i < |data|
        invariant 0 <= i <= |data|
        invariant Valid() && buffer == old(buffer) && state == old(state)
        invariant stream == old(stream) + data[..i] && counted == old(counted) + data[..i]
      {
        WriteByte(data[i]);
        TakeOneMore(data, i);
        i := i + 1;
      }
      TakeAll(data);
    }

    /** sha1_pad: 0x80, zeros until the offset is 56, then three zero bytes and the byte
        count shifted into five bytes. None of it is counted, and it ends on a block
        boundary. */
    method Pad()
      requires Valid()
      modifies this, buffer, state
      ensures Valid() && buffer == old(buffer) && state == old(state) && bufferOffset == 0
      ensures counted == old(counted) && byteCount == old(byteCount)
      ensures stream == Padded(old(stream), old(byteCount))
    {
      ghost var s0 := stream;
      ghost var off0 := bufferOffset;
      StreamOffset(hashed, pending);
      PadZerosMod(|s0|);
      AddUncounted(0x80);
      OffsetStep(off0, off0);
      FillZeros();
      GapAfterMarker(off0);
      AddLength(byteCount);
      AppendThree(s0, [0x80], Zeros(PadZeros(off0)), LengthBytes(byteCount));
    }

    /** The zero loop of sha1_pad: zeros until the offset is 56. */
    method FillZeros()
      requires Valid()
      modifies this, buffer, state
      ensures Valid() && buffer == old(buffer) && state == old(state) && bufferOffset == 56
      ensures counted == old(counted) && byteCount == old(byteCount)
      ensures stream == old(stream) + Zeros(Gap(old(bufferOffset)))
    {
      ghost var z := 0;
      while bufferOffset != 56
        invariant Valid() && buffer == old(buffer) && state == old(state)
        invariant counted == old(counted) && byteCount == old(byteCount)
        invariant z <= Gap(old(bufferOffset))
        invariant bufferOffset == if old(bufferOffset) + z < 64 then old(bufferOffset) + z else old(bufferOffset) + z - 64
        invariant stream == old(stream) + Zeros(z)
        decreases Gap(old(bufferOffset)) - z
      {
        AddUncounted(0);
        z := z + 1;
      }
    }

    /** The last eight stores of sha1_pad, the bytes of LengthBytes(c) in turn. */
    method AddLength(c: nat)
      requires Valid() && c <= UINT32_MAX
      modifies this, buffer, state
      ensures Valid() && buffer == old(buffer) && state == old(state)
      ensures counted == old(counted) && byteCount == old(byteCount)
      ensures stream == old(stream) + LengthBytes(c)
      ensures old(bufferOffset) == 56 ==> bufferOffset == 0
    {
      var bytes := LengthBytes(c);
      var k := 0;
      while k < 8
        invariant 0 <= k <= 8
        invariant Valid() && buffer == old(buffer) && state == old(state)
        invariant counted == old(counted) && byteCount == old(byteCount)
        invariant stream == old(stream) + bytes[..k]
        invariant bufferOffset == if old(bufferOffset) + k < 64 then old(bufferOffset) + k else old(bufferOffset) + k - 64
      {
        AddUncounted(bytes[k]);
        TakeOneMore(bytes, k);
        k := k + 1;
      }
      TakeAll(bytes);
    }

    /** sha1_result: pads, byte-swaps the state words in place so that their bytes in
        memory are the big-endian digest, and returns those 20 bytes. */
    method Result() returns (digest: seq<bv8>)
      requires Valid()
      modifies this, buffer, state
      ensures buffer == old(buffer) && state == old(state)
      ensures state[..] == Swapped(HashBlocks(IV, Padded(old(stream), old(byteCount))))
      ensures digest == BigEndianBytes(HashBlocks(IV, Padded(old(stream), old(byteCount))))
      ensures old(stream) == old(counted) && |old(counted)| <= UINT32_MAX ==> digest == Digest(old(counted))
    {
      ghost var s0, c0 := stream, byteCount;
      if s0 == counted && |counted| <= UINT32_MAX {
        PaddingIsFips(s0);
      }
      Pad();
      assert hashed == stream == Padded(s0, c0) by {
        assert pending == [];
        assert hashed + [] == hashed;
      }
      ghost var h := state[..];
      assert h == HashBlocks(IV, Padded(s0, c0));
      SwapState();
      digest := LittleEndianBytes(state[..]);
      SwappedMemory(h);
    }

    /** The byte-swap loop of sha1_result. */
    method SwapState()
      requires state.Length == 5
      modifies state
      ensures state[..] == Swapped(old(state[..]))
    {
      ghost var h := state[..];
      var i := 0;
      while i < 5
        invariant 0 <= i <= 5
        invariant forall k :: 0 <= k < i ==> state[k] == ByteSwap(h[k])
        invariant forall k :: i <= k < 5 ==> state[k] == h[k]
      {
        state[i] := ByteSwap(state[i]);
        i := i + 1;
      }
      ghost var r := Swapped(h);
      assert forall k :: 0 <= k < 5 ==> state[..][k] == r[k];
    }

    /** The schedule step at the head of round i: from round 16 on, word i replaces word
        i - 16 in the buffer. Afterwards the buffer holds word i at i mod 16. */
    method Expand(ghost m: seq<bv32>, i: nat)
      requires buffer.Length == 16 && |m| == 16 && i < 80 && Window(buffer[..], m, i)
      modifies buffer
      ensures Window(buffer[..], m, i + 1) && buffer[i % 16] == W(m, i)
    {
      if i >= 16 {
        ScheduleStep(buffer[..], m, i);
        ghost var before := buffer[..];
        var w3, w8, w14, w16 := buffer[(i + 13) % 16], buffer[(i + 8) % 16], buffer[(i + 2) % 16], buffer[i % 16];
        ScheduleWord(m, i, w3, w8, w14, w16);
        var t := w3 ^ w8 ^ w14 ^ w16;
        t := Rotl(t, 1);
        buffer[i % 16] := t;
        assert buffer[..] == before[i % 16 := W(m, i)];
      }
    }
  }

  /** The body of the loop of sha1_hashBlock after the schedule step, with word `w` of
      the schedule. */
  method OneRound(i: nat, a: bv32, b: bv32, c: bv32, d: bv32, e: bv32, w: bv32)
    returns (a': bv32, b': bv32, c': bv32, d': bv32, e': bv32)
    ensures Vars(a', b', c', d', e') == Round(Vars(a, b, c, d, e), i, w)
  {
    var t := Add(ProgramF(i, b, c, d), K(i));
    var r5 := Rotl(a, 5);
    t := Add(t, Add(Add(r5, e), w));
    var r30 := Rotl(b, 30);
    ProgramRound(Vars(a, b, c, d, e), i, w, r5, r30);
    e' := d;
    d' := c;
    c' := r30;
    b' := a;
    a' := t;
  }

  /** f(t) as the program writes it. */
  function ProgramF(i: nat, b: bv32, c: bv32, d: bv32): bv32
  {
    if i < 20 then d ^ (b & (c ^ d))
    else if i < 40 then b ^ c ^ d
    else if i < 60 then (b & c) | (d & (b | c))
    else b ^ c ^ d
  }

  lemma ProgramFIsF(i: nat, b: bv32, c: bv32, d: bv32)
    ensures ProgramF(i, b, c, d) == F(i, b, c, d)
  {
    if i < 20 {
      ChoiceRounds(i, b, c, d);
    } else if 40 <= i < 60 {
      MajorityRounds(i, b, c, d);
    }
  }

  lemma ChoiceRounds(i: nat, b: bv32, c: bv32, d: bv32)
    requires i < 20
    ensures ProgramF(i, b, c, d) == F(i, b, c, d)
  {
    ChoiceForm(b, c, d);
  }

  lemma MajorityRounds(i: nat, b: bv32, c: bv32, d: bv32)
    requires 40 <= i < 60
    ensures ProgramF(i, b, c, d) == F(i, b, c, d)
  {
    MajorityForm(b, c, d);
  }

  /** The sum of a round, in the program's order. */
  lemma RoundSum(f: bv32, k: bv32, r: bv32, e: bv32, w: bv32)
    ensures Add(Add(f, k), Add(Add(r, e), w)) == Add(Add(Add(Add(r, f), e), k), w)
  {
    AddIs(f, k);
    AddIs(r, e);
    AddIs(r + e, w);
    AddIs(f + k, (r + e) + w);
    AddIs(r, f);
    AddIs(r + f, e);
    AddIs(r + f + e, k);
    AddIs(r + f + e + k, w);
    assert (f + k) + ((r + e) + w) == (((r + f) + e) + k) + w;
  }

  /** The working variables after a round of sha1_hashBlock, with its rotations and its
      order of additions. */
  lemma MixSame(v: Vars, f: bv32, k: bv32, w: bv32, r5: bv32, r30: bv32)
    requires r5 == Rotl(v.a, 5) && r30 == Rotl(v.b, 30)
    ensures Vars(Add(Add(f, k), Add(Add(r5, v.e), w)), v.a, r30, v.c, v.d) == Mix(v, f, k, w)
  {
    MixUnfold(v, f, k, w);
    RoundSum(f, k, r5, v.e, w);
  }

  lemma MixUnfold(v: Vars, f: bv32, k: bv32, w: bv32)
    ensures Mix(v, f, k, w) == Vars(Add(Add(Add(Add(Rotl(v.a, 5), f), v.e), k), w), v.a, Rotl(v.b, 30), v.c, v.d)
  {
  }

  /** A round of sha1_hashBlock is the round of FIPS 180-2 section 6.1.2, step 3. */
  lemma ProgramRound(v: Vars, i: nat, w: bv32, r5: bv32, r30: bv32)
    requires r5 == Rotl(v.a, 5) && r30 == Rotl(v.b, 30)
    ensures Vars(Add(Add(ProgramF(i, v.b, v.c, v.d), K(i)), Add(Add(r5, v.e), w)), v.a, r30, v.c, v.d) == Round(v, i, w)
  {
    ProgramFIsF(i, v.b, v.c, v.d);
    MixSame(v, ProgramF(i, v.b, v.c, v.d), K(i), w, r5, r30);
  }
}
