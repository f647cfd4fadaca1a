// Model of src/mod-memset.h: the glibc-derived byte and word fill used on the Dwarf
// device, and the calloc built on it. Memory is an array of bytes whose element 0 sits
// at address `base`, so the alignment test on the destination address can be stated.
// The device is 64-bit little-endian: op_t is an 8-byte word and a word store puts its
// low byte at the lowest address. The memory barriers between stores are not modelled.

module Memset {
  import opened Utils

  /** sizeof (op_t). */
  const OPSIZ: nat := 8

  /** The range of size_t. */
  const SIZE_LIMIT: nat := 0x1_0000_0000_0000_0000

  /** The conversion of an int to unsigned char: the value modulo 256. */
  function UChar(c: int): (b: bv8)
    ensures b as int == c % 256
  {
    ByteOfNat(c % 256)
  }

  /** The byte whose value is `n`, counted up one by one. */
  function ByteOfNat(n: nat): (b: bv8)
    requires n < 256
    ensures b as int == n
  {
    if n == 0 then 0 else ByteOfNat(n - 1) + 1
  }

  /** Byte `j` of the word `w` as it lands in memory (little-endian). */
  function ByteOf(w: bv64, j: nat): bv8
    requires j < 8
  {
    var shifted :=
      if j == 0 then w else if j == 1 then w >> 8 else if j == 2 then w >> 16
      else if j == 3 then w >> 24 else if j == 4 then w >> 32 else if j == 5 then w >> 40
      else if j == 6 then w >> 48 else w >> 56;
    (shifted & 0xFF) as bv8
  }

  /** cccc: the byte `b` copied into every byte of a word, by the three or-shifts. */
  function Pattern(b: bv8): bv64
  {
    var w0 := b as bv64;
    var w1 := w0 | (w0 << 8);
    var w2 := w1 | (w1 << 16);
    w2 | ((w2 << 16) << 16)
  }

  /** Every byte of the word pattern is `b`. */
  lemma PatternBytes(b: bv8)
    ensures forall j :: 0 <= j < 8 ==> ByteOf(Pattern(b), j) == b
  {
  }

  /** Every byte in [lo, hi) is `b`. */
  ghost predicate Filled(mem: array<bv8>, lo: nat, hi: nat, b: bv8)
    reads mem
  {
    forall k :: lo <= k < hi && k < mem.Length ==> mem[k] == b
  }

  /** ((op_t *) dstp)[0] = w: the eight bytes at `p` take the bytes of `w`. */
  method StoreWord(mem: array<bv8>, p: nat, w: bv64)
    requires p + OPSIZ <= mem.Length
    modifies mem
    ensures forall k :: p <= k < p + OPSIZ ==> mem[k] == ByteOf(w, k - p)
    ensures forall k :: 0 <= k < mem.Length && !(p <= k < p + OPSIZ) ==> mem[k] == old(mem[k])
  {
    forall j | 0 <= j < OPSIZ {
      mem[p + j] := ByteOf(w, j);
    }
  }

  /** A store of the pattern extends the filled range by one word. */
  method StorePattern(mem: array<bv8>, lo: nat, p: nat, c: int)
    requires lo <= p && p + OPSIZ <= mem.Length && Filled(mem, lo, p, UChar(c))
    modifies mem
    ensures Filled(mem, lo, p + OPSIZ, UChar(c))
    ensures forall k :: 0 <= k < mem.Length && !(p <= k < p + OPSIZ) ==> mem[k] == old(mem[k])
  {
    PatternBytes(UChar(c));
    StoreWord(mem, p, Pattern(UChar(c)));
    forall k | p <= k < p + OPSIZ
      ensures mem[k] == UChar(c)
    {
      assert mem[k] == ByteOf(Pattern(UChar(c)), k - p);
    }
  }

  /** The address of element `p` is a multiple of OPSIZ. */
  predicate Aligned(base: nat, p: nat)
  {
    (base + p) % OPSIZ == 0
  }

  /** How many single bytes bring the address base + lo to a multiple of OPSIZ. */
  function Need(base: nat, lo: nat): nat
  {
    (OPSIZ - (base + lo) % OPSIZ) % OPSIZ
  }

  /** Between lo and lo + Need(base, lo) the only aligned element is the last. */
  lemma AlignedAt(base: nat, lo: nat, p: nat)
    requires lo <= p <= lo + Need(base, lo)
    ensures Need(base, lo) < OPSIZ
    ensures Aligned(base, p) <==> p == lo + Need(base, lo)
  {
  }

  /** The alignment loop: single bytes until the address base + p is a multiple of
      OPSIZ. It stops after fewer than OPSIZ stores. */
  method AlignBytes(mem: array<bv8>, base: nat, lo: nat, c: int, len: nat) returns (p: nat, rest: nat)
    requires len >= 8 && lo + len <= mem.Length
    modifies mem
    ensures Aligned(base, p) && lo <= p < lo + OPSIZ && p + rest == lo + len
    ensures forall q :: lo <= q < p ==> !Aligned(base, q)
    ensures forall k :: lo <= k < p ==> mem[k] == UChar(c)
    ensures forall k :: 0 <= k < mem.Length && !(lo <= k < p) ==> mem[k] == old(mem[k])
  {
    ghost var need := Need(base, lo);
    AlignedAt(base, lo, lo);
    p, rest := lo, len;
    while !Aligned(base, p)
      invariant lo <= p <= lo + need && p + rest == lo + len
      invariant forall q :: lo <= q < p ==> !Aligned(base, q)
      invariant forall k :: lo <= k < p ==> mem[k] == UChar(c)
      invariant forall k :: 0 <= k < mem.Length && !(lo <= k < p) ==> mem[k] == old(mem[k])
      decreases lo + need - p
    {
      AlignedAt(base, lo, p);
      mem[p] := UChar(c);
      p, rest := p + 1, rest - 1;
    }
  }

  /** The first word loop: len / 64 rounds of eight word stores, leaving len unchanged;
      the caller then reduces len modulo 64. */
  method FillBlocks(mem: array<bv8>, lo: nat, p0: nat, c: int, len: nat) returns (p: nat)
    requires lo <= p0 && p0 + len <= mem.Length && Filled(mem, lo, p0, UChar(c))
    modifies mem
    ensures p == p0 + len / (8 * OPSIZ) * (8 * OPSIZ) && Filled(mem, lo, p, UChar(c))
    ensures forall k :: 0 <= k < mem.Length && !(p0 <= k < p) ==> mem[k] == old(mem[k])
  {
    var xlen := len / (8 * OPSIZ);
    p := p0;
    while xlen > 0
      invariant p == p0 + (len / (8 * OPSIZ) - xlen) * (8 * OPSIZ) && 0 <= xlen <= len / (8 * OPSIZ)
      invariant Filled(mem, lo, p, UChar(c))
      invariant forall k :: 0 <= k < mem.Length && !(p0 <= k < p) ==> mem[k] == old(mem[k])
    {
      FillBlock(mem, lo, p, c);
      p := p + 8 * OPSIZ;
      xlen := xlen - 1;
    }
  }

  /** One round of the first word loop: the eight stores at dstp[0] .. dstp[7]. */
  method FillBlock(mem: array<bv8>, lo: nat, p: nat, c: int)
    requires lo <= p && p + 8 * OPSIZ <= mem.Length && Filled(mem, lo, p, UChar(c))
    modifies mem
    ensures Filled(mem, lo, p + 8 * OPSIZ, UChar(c))
    ensures forall k :: 0 <= k < mem.Length && !(p <= k < p + 8 * OPSIZ) ==> mem[k] == old(mem[k])
  {
    StorePattern(mem, lo, p, c);
    StorePattern(mem, lo, p + OPSIZ, c);
    StorePattern(mem, lo, p + 2 * OPSIZ, c);
    StorePattern(mem, lo, p + 3 * OPSIZ, c);
    StorePattern(mem, lo, p + 4 * OPSIZ, c);
    StorePattern(mem, lo, p + 5 * OPSIZ, c);
    StorePattern(mem, lo, p + 6 * OPSIZ, c);
    StorePattern(mem, lo, p + 7 * OPSIZ, c);
  }

  /** The second word loop: len / OPSIZ single word stores. */
  method FillWords(mem: array<bv8>, lo: nat, p0: nat, c: int, len: nat) returns (p: nat)
    requires lo <= p0 && p0 + len <= mem.Length && Filled(mem, lo, p0, UChar(c))
    modifies mem
    ensures p == p0 + len / OPSIZ * OPSIZ && Filled(mem, lo, p, UChar(c))
    ensures forall k :: 0 <= k < mem.Length && !(p0 <= k < p) ==> mem[k] == old(mem[k])
  {
    var xlen := len / OPSIZ;
    p := p0;
    while xlen > 0
      invariant p == p0 + (len / OPSIZ - xlen) * OPSIZ && 0 <= xlen <= len / OPSIZ
      invariant Filled(mem, lo, p, UChar(c))
      invariant forall k :: 0 <= k < mem.Length && !(p0 <= k < p) ==> mem[k] == old(mem[k])
    {
      StorePattern(mem, lo, p, c);
      p := p + OPSIZ;
      xlen := xlen - 1;
    }
  }

  /** The last loop: `len` single bytes from `p0`. */
  method FillBytes(mem: array<bv8>, lo: nat, p0: nat, c: int, len: nat)
    requires lo <= p0 && p0 + len <= mem.Length && Filled(mem, lo, p0, UChar(c))
    modifies mem
    ensures Filled(mem, lo, p0 + len, UChar(c))
    ensures forall k :: 0 <= k < mem.Length && !(p0 <= k < p0 + len) ==> mem[k] == old(mem[k])
  {
    var p, rest := p0, len;
    while rest > 0
      invariant p0 <= p && p + rest == p0 + len
      invariant Filled(mem, lo, p, UChar(c))
      invariant forall k :: 0 <= k < mem.Length && !(p0 <= k < p) ==> mem[k] == old(mem[k])
    {
      mem[p] := UChar(c);
      p, rest := p + 1, rest - 1;
    }
  }

  /** mod_memset(mem + dst, c, len) with mem[0] at address `base`: every byte in
      [dst, dst + len) becomes (unsigned char) c, no other byte changes, and the
      destination is returned. */
  method ModMemset(mem: array<bv8>, base: nat, dst: nat, c: int, len: nat) returns (r: nat)
    requires dst + len <= mem.Length
    modifies mem
    ensures r == dst
    ensures forall k :: dst <= k < dst + len ==> mem[k] == UChar(c)
    ensures forall k :: 0 <= k < mem.Length && !(dst <= k < dst + len) ==> mem[k] == old(mem[k])
  {
    var p, rest := dst, len;
    if rest >= 8 {
      p, rest := AlignBytes(mem, base, dst, c, rest);
      p := FillBlocks(mem, dst, p, c, rest);
      rest := rest % (8 * OPSIZ);
      p := FillWords(mem, dst, p, c, rest);
      rest := rest % OPSIZ;
    }
    assert p + rest == dst + len;
    FillBytes(mem, dst, p, c, rest);
    return dst;
  }

  /** size *= nmemb on size_t: the product wraps modulo 2^64, with no overflow check. */
  function CallocSize(nmemb: nat, size: nat): (n: nat)
    requires nmemb < SIZE_LIMIT && size < SIZE_LIMIT
    ensures n < SIZE_LIMIT
    ensures nmemb * size < SIZE_LIMIT ==> n == nmemb * size
  {
    (size * nmemb) % SIZE_LIMIT
  }

  /** Two factors of 2^32 give a block of 0 bytes rather than a failure. */
  lemma CallocSizeWraps()
    ensures CallocSize(0x1_0000_0000, 0x1_0000_0000) == 0
  {
  }

  /** mod_calloc. `mallocOk` stands for malloc returning a block, at address `addr`.
      On success the block holds CallocSize(nmemb, size) zero bytes. */
  method ModCalloc(nmemb: nat, size: nat, mallocOk: bool, addr: nat) returns (r: Option<array<bv8>>)
    requires nmemb < SIZE_LIMIT && size < SIZE_LIMIT
    ensures mallocOk <==> r.Some?
    ensures r.Some? ==> fresh(r.value) && r.value.Length == CallocSize(nmemb, size) &&
                        forall k :: 0 <= k < r.value.Length ==> r.value[k] == 0
  {
    var total := (size * nmemb) % SIZE_LIMIT;
    if !mallocOk {
      return None;
    }
    var block := new bv8[total];
    var _ := ModMemset(block, addr, 0, 0, total);
    return Some(block);
  }
}
