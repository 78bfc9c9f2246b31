/**
 MD5 over a message that comes in pieces (md5.cpp): the buffering, the length counter and the padding, against the
 one-shot definition of RFC 1321, sections 3.1 to 3.3 and 3.5.

 The results hold for every block function; of the one in section 3.4 only the rewritten F and G are modelled.
 */
module Md5 {

  type Byte = n: nat | n < 256

  datatype State = State(a: bv32, b: bv32, c: bv32, d: bv32)

  /** F and G avoid an AND-NOT; the contracts are their definitions in section 3.4. */
  function F(x: bv32, y: bv32, z: bv32): (r: bv32)
    ensures r == (x & y) | (!x & z)
  {
    z ^ (x & (y ^ z))
  }

  function G(x: bv32, y: bv32, z: bv32): (r: bv32)
    ensures r == (x & z) | (y & !z)
  {
    y ^ (z & (x ^ y))
  }

  const TWO29: nat := 0x2000_0000
  const TWO32: nat := 0x1_0000_0000
  const TWO61: nat := 0x2000_0000_0000_0000
  const TWO64: nat := 0x1_0000_0000_0000_0000

  type BlockFunction = (State, seq<Byte>) -> State

  const INITIAL := State(0x67452301, 0xefcdab89, 0x98badcfe, 0x10325476)

  // ---------- RFC 1321 ----------

  function LittleEndian(n: nat, k: nat): (bytes: seq<Byte>)
    ensures |bytes| == k
  {
    if k == 0 then [] else [n % 256] + LittleEndian(n / 256, k - 1)
  }

  function Zeros(k: nat): (bytes: seq<Byte>)
    ensures |bytes| == k
  {
    seq(k, _ => 0)
  }

  /** Section 3.1: the number of zero bytes behind the 0x80 that leaves 8 bytes in the last block. */
  function ZeroCount(length: nat): (k: nat)
    ensures k < 64 && (length + 1 + k) % 64 == 56
  {
    var r := length % 64;
    assert length == length / 64 * 64 + r;
    if r < 56 then 55 - r else 119 - r
  }

  /** Section 3.2: the low-order 64 bits of the length in bits. */
  function LengthBytes(length: nat): (bytes: seq<Byte>)
    ensures |bytes| == 8
  {
    LittleEndian(8 * length % TWO64, 8)
  }

  /** Sections 3.1 and 3.2. */
  function Pad(message: seq<Byte>): seq<Byte> {
    message + [0x80] + Zeros(ZeroCount(|message|)) + LengthBytes(|message|)
  }

  lemma PadSize(n: nat)
    ensures ZeroCount(n) <= 63 && (n + 1 + ZeroCount(n) + 8) % 64 == 0
  {
  }

  lemma PadFillsBlocks(message: seq<Byte>)
    ensures |Pad(message)| % 64 == 0 && |message| < |Pad(message)| <= |message| + 72
  {
    PadSize(|message|);
    assert |Pad(message)| == |message| + 1 + ZeroCount(|message|) + 8;
  }

  /** Section 3.4 for every block in turn. */
  function Blocks(f: BlockFunction, chain: State, data: seq<Byte>): State
    decreases |data|
  {
    if |data| < 64 then chain else Blocks(f, f(chain, data[..64]), data[64..])
  }

  /** A word, low-order byte first. */
  function WordBytes(w: bv32): seq<Byte> {
    [(w & 0xff) as nat, ((w >> 8) & 0xff) as nat, ((w >> 16) & 0xff) as nat, (w >> 24) as nat]
  }

  /** Section 3.5. */
  function Output(s: State): seq<Byte> { WordBytes(s.a) + WordBytes(s.b) + WordBytes(s.c) + WordBytes(s.d) }

  /** `SET`: four bytes, low-order byte first, as a word. */
  function WordOf(x0: bv32, x1: bv32, x2: bv32, x3: bv32): bv32 { x0 | (x1 << 8) | (x2 << 16) | (x3 << 24) }

  /** The bytes, low-order byte first, make the word. */
  ghost predicate Spells(b: seq<Byte>, w: bv32) {
    && |b| == 4
    && exists x0, x1, x2, x3 :: WordOf(x0, x1, x2, x3) == w
         && x0 as nat == b[0] && x1 as nat == b[1] && x2 as nat == b[2] && x3 as nat == b[3]
  }

  lemma WordParts(w: bv32)
    ensures WordOf(w & 0xff, (w >> 8) & 0xff, (w >> 16) & 0xff, w >> 24) == w
  {
  }

  lemma WordSpells(w: bv32)
    ensures Spells(WordBytes(w), w)
  {
    hide WordOf;
    WordParts(w);
  }

  /** Section 3.5: the digest begins with the low-order byte of A and ends with the high-order byte of D. */
  lemma OutputSpells(s: State)
    ensures
      var o := Output(s);
      |o| == 16 && Spells(o[..4], s.a) && Spells(o[4..8], s.b) && Spells(o[8..12], s.c) && Spells(o[12..], s.d)
  {
    WordSpells(s.a);
    WordSpells(s.b);
    WordSpells(s.c);
    WordSpells(s.d);
    var o := Output(s);
    assert o[..4] == WordBytes(s.a) && o[4..8] == WordBytes(s.b);
    assert o[8..12] == WordBytes(s.c) && o[12..] == WordBytes(s.d);
    hide Spells, WordBytes;
  }

  /** Section 3.3: the bytes of the four words at the start, low-order bytes first. */
  lemma InitialBytes()
    ensures WordBytes(INITIAL.a) == [0x01, 0x23, 0x45, 0x67] && WordBytes(INITIAL.b) == [0x89, 0xab, 0xcd, 0xef]
    ensures WordBytes(INITIAL.c) == [0xfe, 0xdc, 0xba, 0x98] && WordBytes(INITIAL.d) == [0x76, 0x54, 0x32, 0x10]
  {
  }

  /** The number that bytes stand for, low-order byte first. */
  function ValueOf(b: seq<Byte>): nat { if b == [] then 0 else b[0] as nat + 256 * ValueOf(b[1..]) }

  lemma {:induction false} LittleEndianValue(n: nat, k: nat)
    requires n < Pow256(k)
    ensures ValueOf(LittleEndian(n, k)) == n
  {
    if k > 0 {
      LittleEndianValue(n / 256, k - 1);
      assert LittleEndian(n, k)[1..] == LittleEndian(n / 256, k - 1);
    }
  }

  /** Sections 3.1 and 3.2: behind the message comes 0x80, then zeros, then the length in bits as 64-bit number. */
  lemma PadBytes(message: seq<Byte>, k: nat)
    ensures
      var p, n := Pad(message), |message|;
      && |p| >= n + 9 && p[..n] == message && p[n] == 0x80
      && (n < k < |p| - 8 ==> p[k] == 0)
      && ValueOf(p[|p| - 8..]) == 8 * n % TWO64
  {
    var p, n := Pad(message), |message|;
    assert p[|p| - 8..] == LengthBytes(n);
    assert Pow256(8) == 256 * (256 * (256 * (256 * Pow256(4)))) == TWO64;
    LittleEndianValue(8 * n % TWO64, 8);
  }

  function DigestWords(f: BlockFunction, message: seq<Byte>): State { Blocks(f, INITIAL, Pad(message)) }

  function Digest(f: BlockFunction, message: seq<Byte>): seq<Byte> { Output(DigestWords(f, message)) }

  // ---------- Blocks and lengths ----------

  /** One block is one call of the block function; with `BlocksAppend`, every block is, in turn. */
  lemma OneBlock(f: BlockFunction, chain: State, data: seq<Byte>)
    ensures |data| == 64 ==> Blocks(f, chain, data) == f(chain, data)
    ensures |data| < 64 ==> Blocks(f, chain, data) == chain
  {
    if |data| == 64 { assert data[..64] == data && data[64..] == []; }
  }

  lemma {:induction false} BlocksAppend(f: BlockFunction, chain: State, a: seq<Byte>, b: seq<Byte>)
    requires |a| % 64 == 0
    ensures Blocks(f, chain, a + b) == Blocks(f, Blocks(f, chain, a), b)
    decreases |a|
  {
    if a == [] {
      assert a + b == b;
    } else {
      assert (a + b)[..64] == a[..64] && (a + b)[64..] == a[64..] + b;
      BlocksAppend(f, f(chain, a[..64]), a[64..], b);
    }
  }

  /** The bytes that do not fill a block yet. */
  function Tail(seen: seq<Byte>): (tail: seq<Byte>)
    ensures |tail| == |seen| % 64
  {
    seen[|seen| - |seen| % 64..]
  }

  function Head(seen: seq<Byte>): (head: seq<Byte>)
    ensures |head| % 64 == 0 && seen == head + Tail(seen)
  {
    seen[..|seen| - |seen| % 64]
  }

  /** What is pending is completed by `whole` to full blocks, and `rest` is pending next. */
  lemma Advance(f: BlockFunction, chain: State, seen: seq<Byte>, data: seq<Byte>, whole: seq<Byte>, rest: seq<Byte>)
    requires Tail(seen) + data == whole + rest && |whole| % 64 == 0 && |rest| < 64
    ensures Tail(seen + data) == rest
    ensures Blocks(f, chain, Head(seen + data)) == Blocks(f, Blocks(f, chain, Head(seen)), whole)
  {
    assert seen + data == Head(seen) + (Tail(seen) + data);
    assert seen + data == (Head(seen) + whole) + rest;
    var n := |Head(seen) + whole|;
    assert n % 64 == 0;
    LastBlock(n, |rest|);
    assert Head(seen + data) == Head(seen) + whole;
    BlocksAppend(f, chain, Head(seen), whole);
  }

  lemma LastBlock(n: nat, r: nat)
    requires n % 64 == 0 && r < 64
    ensures (n + r) % 64 == r
  {
  }

  /** The counter of `update`: 29 bits and a carry keep the length modulo 2^61. */
  function AddLength(lo: nat, hi: nat, size: nat): (r: (nat, nat)) {
    var lo' := (lo + size) % TWO29;
    var hi' := if lo' < lo then (hi + 1) % TWO32 else hi;
    (lo', (hi' + size / TWO29) % TWO32)
  }

  lemma LowBits(lo: nat, size: nat) returns (carry: nat)
    requires lo < TWO29
    ensures carry == if (lo + size) % TWO29 < lo then 1 else 0
    ensures lo + size == (size / TWO29 + carry) * TWO29 + (lo + size) % TWO29
  {
    var low, high := size % TWO29, size / TWO29;
    assert size == high * TWO29 + low;
    carry := if lo + low >= TWO29 then 1 else 0;
    RemainderIs(lo + size, high + carry, lo + low - carry * TWO29, TWO29);
  }

  lemma HighBits(hi: nat, carry: nat, high: nat) returns (q: nat)
    requires hi < TWO32 && carry <= 1
    ensures hi + carry + high == q * TWO32 + ((hi + carry) % TWO32 + high) % TWO32
  {
    var hi' := if hi + carry == TWO32 then 0 else hi + carry;
    RemainderIs(hi + carry, if hi + carry == TWO32 then 1 else 0, hi', TWO32);
    var q' := (hi' + high) / TWO32;
    assert hi' + high == q' * TWO32 + (hi' + high) % TWO32;
    q := if hi + carry == TWO32 then q' + 1 else q';
  }

  lemma CounterAdds(lo: nat, hi: nat, size: nat, length: nat)
    requires lo < TWO29 && hi < TWO32 && hi * TWO29 + lo == length % TWO61
    ensures
      var (lo', hi') := AddLength(lo, hi, size);
      lo' < TWO29 && hi' < TWO32 && hi' * TWO29 + lo' == (length + size) % TWO61
  {
    var carry := LowBits(lo, size);
    var q := HighBits(hi, carry, size / TWO29);
    RemainderIs(hi, 0, hi, TWO32);
    var (lo', hi') := AddLength(lo, hi, size);
    assert hi' == ((hi + carry) % TWO32 + size / TWO29) % TWO32;
    var p := length / TWO61;
    assert length == p * TWO61 + hi * TWO29 + lo;
    assert length + size == (p + q) * TWO61 + hi' * TWO29 + lo';
    RemainderIs(length + size, p + q, hi' * TWO29 + lo', TWO61);
  }

  lemma RemainderIs(n: nat, q: nat, r: nat, d: nat)
    requires n == q * d + r && r < d
    ensures n % d == r
  {
    var k := n / d;
    assert n == k * d + n % d;
    assert k + 1 <= q ==> (k + 1) * d <= q * d;
    assert q + 1 <= k ==> (q + 1) * d <= k * d;
  }

  /** The last block of the padding, or the last two, as `final` fills them. */
  lemma PadInBlocks(message: seq<Byte>, lo: nat, hi: nat)
    requires lo < TWO29 && hi < TWO32 && hi * TWO29 + lo == |message| % TWO61
    ensures
      var tail := Tail(message) + [0x80];
      var count := LittleEndian(8 * lo, 4) + LittleEndian(hi, 4);
      && (64 - |tail| < 8 ==> Pad(message) == Head(message) + ((tail + Zeros(64 - |tail|)) + (Zeros(56) + count)))
      && (64 - |tail| >= 8 ==> Pad(message) == Head(message) + (tail + Zeros(56 - |tail|) + count))
  {
    hide LittleEndian, Zeros, ZeroCount;
    var tail, n := Tail(message) + [0x80], |message|;
    var count := LittleEndian(8 * lo, 4) + LittleEndian(hi, 4);
    BitCount(lo, hi, n);
    ZerosNeeded(n);
    assert message + [0x80] == Head(message) + tail;
    if 64 - |tail| < 8 {
      Regroup(Head(message), tail, Zeros(64 - |tail|), Zeros(56), count);
    } else {
      Regroup(Head(message), tail, Zeros(56 - |tail|), [], count);
    }
  }

  lemma ZerosNeeded(n: nat)
    ensures
      var left := 63 - n % 64;
      Zeros(ZeroCount(n)) == if left < 8 then Zeros(left) + Zeros(56) else Zeros(left - 8) + []
  {
  }

  lemma Regroup(head: seq<Byte>, tail: seq<Byte>, z1: seq<Byte>, z2: seq<Byte>, count: seq<Byte>)
    ensures ((head + tail) + (z1 + z2)) + count == head + ((tail + z1) + (z2 + count))
    ensures ((head + tail) + (z1 + [])) + count == head + (tail + z1 + count)
  {
    var left := ((head + tail) + (z1 + z2)) + count;
    assert left == ((head + tail) + z1) + (z2 + count);
    assert (head + tail) + z1 == head + (tail + z1);
    assert z1 + [] == z1;
  }

  lemma BitCount(lo: nat, hi: nat, length: nat)
    requires lo < TWO29 && hi < TWO32 && hi * TWO29 + lo == length % TWO61
    ensures LengthBytes(length) == LittleEndian(8 * lo, 4) + LittleEndian(hi, 4)
  {
    assert 8 * length == length / TWO61 * TWO64 + (hi * TWO32 + 8 * lo);
    RemainderIs(8 * length, length / TWO61, hi * TWO32 + 8 * lo, TWO64);
    assert Pow256(4) == TWO32;
    LittleEndianSplits(8 * lo, hi, 4, 4);
  }

  function Pow256(k: nat): (p: nat)
    ensures p > 0
  {
    if k == 0 then 1 else 256 * Pow256(k - 1)
  }

  lemma Shifted(high: nat, p: nat)
    ensures high * (256 * p) == 256 * (high * p)
  {
  }

  lemma LowByte(t: nat, low: nat)
    ensures (256 * t + low) % 256 == low % 256 && (256 * t + low) / 256 == t + low / 256
  {
  }

  lemma {:induction false} LittleEndianSplits(low: nat, high: nat, k: nat, j: nat)
    requires low < Pow256(k)
    ensures LittleEndian(high * Pow256(k) + low, k + j) == LittleEndian(low, k) + LittleEndian(high, j)
  {
    if k > 0 {
      var t := high * Pow256(k - 1);
      Shifted(high, Pow256(k - 1));
      LowByte(t, low);
      LittleEndianSplits(low / 256, high, k - 1, j);
    }
  }

  // ---------- The class ----------

  class Md5 {
    const f: BlockFunction
    var lo: nat
    var hi: nat
    var chain: State // a_, b_, c_ and d_
    const buffer: array<Byte>
    ghost var seen: seq<Byte> // the message so far

    ghost predicate Valid()
      reads this, buffer
    {
      && buffer.Length == 64
      && lo < TWO29 && hi < TWO32 && hi * TWO29 + lo == |seen| % TWO61
      && buffer[..|seen| % 64] == Tail(seen)
      && chain == Blocks(f, INITIAL, Head(seen))
    }

    constructor (f: BlockFunction)
      ensures Valid() && fresh(buffer) && seen == [] && this.f == f
    {
      this.f := f;
      lo, hi, chain, seen := 0, 0, INITIAL, [];
      buffer := new Byte[64];
    }

    method CopyIn(at: nat, data: seq<Byte>)
      requires at + |data| <= buffer.Length
      modifies buffer
      ensures buffer[..at] == old(buffer[..at])
      ensures buffer[..at + |data|] == old(buffer[..at]) + data
    {
      forall k | 0 <= k < |data| {
        buffer[at + k] := data[k];
      }
    }

    method Body(data: seq<Byte>)
      requires |data| >= 64 && |data| % 64 == 0
      modifies this`chain
      ensures chain == Blocks(f, old(chain), data)
    {
      var ptr, size, c := 0, |data|, chain;
      while true
        invariant ptr + size == |data| && size % 64 == 0 && size >= 64
        invariant Blocks(f, c, data[ptr..]) == Blocks(f, chain, data)
        decreases size
      {
        assert data[ptr..][..64] == data[ptr..ptr + 64] && data[ptr..][64..] == data[ptr + 64..];
        c := f(c, data[ptr..ptr + 64]);
        ptr, size := ptr + 64, size - 64;
        if size == 0 { break; }
      }
      chain := c;
    }

    method Update(data: seq<Byte>)
      requires Valid()
      modifies this, buffer
      ensures Valid() && seen == old(seen) + data
    {
      CounterAdds(lo, hi, |data|, |seen|);
      UsedIsTail(lo, hi, |seen|);
      var used := lo % 64;
      Count(|data|);
      Absorb(used, data);
    }

    /** The first part of `update`. */
    method Count(size: nat)
      modifies this`lo, this`hi
      ensures (lo, hi) == AddLength(old(lo), old(hi), size)
    {
      var savedLo := lo;
      lo := (savedLo + size) % TWO29;
      if lo < savedLo {
        hi := (hi + 1) % TWO32;
      }
      hi := (hi + size / TWO29) % TWO32;
    }

    /** The rest of `update`. */
    method Absorb(used: nat, data: seq<Byte>)
      requires buffer.Length == 64 && used == |seen| % 64
      requires buffer[..used] == Tail(seen) && chain == Blocks(f, INITIAL, Head(seen))
      modifies this`chain, this`seen, buffer
      ensures seen == old(seen) + data
      ensures buffer[..|seen| % 64] == Tail(seen) && chain == Blocks(f, INITIAL, Head(seen))
    {
      ghost var before := seen;
      seen := before + data;
      if used != 0 {
        var free := 64 - used;
        if |data| < free {
          CopyIn(used, data);
          Advance(f, INITIAL, before, data, [], Tail(before) + data);
          return;
        }
        CopyIn(used, data[..free]);
        ghost var whole := Tail(before) + data[..free];
        assert buffer[..] == whole;
        Body(buffer[..]);
        var n := |data[free..]| - |data[free..]| % 64;
        assert Tail(before) + data == whole + data[free..];
        AdvanceInTwo(f, before, data, whole, data[free..], n);
        AbsorbWhole(data[free..]);
      } else {
        AdvanceInTwo(f, before, data, [], data, |data| - |data| % 64);
        AbsorbWhole(data);
      }
    }

    /** The end of `update`: full blocks straight from the data, and what is left into the buffer. */
    method AbsorbWhole(data: seq<Byte>)
      requires buffer.Length == 64
      modifies this`chain, buffer
      ensures chain == Blocks(f, old(chain), data[..|data| - |data| % 64])
      ensures buffer[..|data| % 64] == data[|data| - |data| % 64..]
    {
      var n := |data| - |data| % 64;
      if |data| >= 64 {
        Body(data[..n]);
      }
      CopyIn(0, data[n..]);
    }

    /** `final` returns the digest of the message and clears the object. */
    method Final() returns (result: seq<Byte>)
      requires Valid()
      modifies this, buffer
      ensures result == Digest(f, old(seen))
      ensures lo == 0 && hi == 0 && chain == State(0, 0, 0, 0) && buffer[..] == Zeros(64)
    {
      Finish();
      result := Output(chain);
      lo, hi, chain := 0, 0, State(0, 0, 0, 0);
      CopyIn(0, Zeros(64));
    }

    /** The part of `final` before the output. */
    method Finish()
      requires Valid()
      modifies this`chain, buffer
      ensures chain == DigestWords(f, seen)
    {
      UsedIsTail(lo, hi, |seen|);
      hide Blocks, DigestWords, Head, LittleEndian;
      DigestInBlocks(f, seen, lo, hi);
      ghost var tail := Tail(seen) + [0x80];
      var used := MakeRoom(lo % 64);
      assert 64 - |tail| < 8 ==> buffer[..used] == [];
      LastBlockIn(used);
      Body(buffer[..]);
    }

    /** Appends the 0x80 and, if the bit count does not fit behind it, completes the block with zeros. */
    method MakeRoom(at: nat) returns (used: nat)
      requires buffer.Length == 64 && at < 64
      modifies this`chain, buffer
      ensures used <= 56
      ensures
        var tail := old(buffer[..at]) + [0x80];
        if 64 - |tail| < 8 then used == 0 && chain == Blocks(f, old(chain), tail + Zeros(64 - |tail|))
        else used == |tail| && chain == old(chain) && buffer[..used] == tail
    {
      CopyIn(at, [0x80]);
      used := at + 1;
      if 64 - used < 8 {
        CopyIn(used, Zeros(64 - used));
        assert buffer[..64] == buffer[..];
        Body(buffer[..]);
        used := 0;
      }
    }

    /** Zeros and the bit count at the end of the last block. */
    method LastBlockIn(used: nat)
      requires buffer.Length == 64 && used <= 56
      modifies buffer
      ensures buffer[..] == old(buffer[..used]) + Zeros(56 - used) + (LittleEndian(8 * lo, 4) + LittleEndian(hi, 4))
    {
      CopyIn(used, Zeros(56 - used));
      CopyIn(56, LittleEndian(8 * lo, 4));
      CopyIn(60, LittleEndian(hi, 4));
    }
  }

  lemma DigestInBlocks(f: BlockFunction, message: seq<Byte>, lo: nat, hi: nat)
    requires lo < TWO29 && hi < TWO32 && hi * TWO29 + lo == |message| % TWO61
    ensures
      var chain, tail := Blocks(f, INITIAL, Head(message)), Tail(message) + [0x80];
      var count := LittleEndian(8 * lo, 4) + LittleEndian(hi, 4);
      DigestWords(f, message) ==
        if 64 - |tail| < 8 then Blocks(f, Blocks(f, chain, tail + Zeros(64 - |tail|)), [] + Zeros(56) + count)
        else Blocks(f, chain, tail + Zeros(56 - |tail|) + count)
  {
    hide Blocks, LittleEndian, Pad;
    var tail := Tail(message) + [0x80];
    var count := LittleEndian(8 * lo, 4) + LittleEndian(hi, 4);
    PadInBlocks(message, lo, hi);
    assert [] + Zeros(56) == Zeros(56);
    if 64 - |tail| < 8 {
      BlocksAppend(f, INITIAL, Head(message), (tail + Zeros(64 - |tail|)) + (Zeros(56) + count));
      BlocksAppend(f, Blocks(f, INITIAL, Head(message)), tail + Zeros(64 - |tail|), Zeros(56) + count);
    } else {
      BlocksAppend(f, INITIAL, Head(message), tail + Zeros(56 - |tail|) + count);
    }
  }

  lemma AdvanceInTwo(f: BlockFunction, seen: seq<Byte>, data: seq<Byte>, whole: seq<Byte>, rest: seq<Byte>, n: nat)
    requires Tail(seen) + data == whole + rest && (|whole| == 0 || |whole| == 64) && n == |rest| - |rest| % 64
    ensures Tail(seen + data) == rest[n..]
    ensures Blocks(f, INITIAL, Head(seen + data)) ==
              Blocks(f, Blocks(f, Blocks(f, INITIAL, Head(seen)), whole), rest[..n])
  {
    var now, taken := whole + rest[..n], rest[n..];
    assert whole + rest == now + taken;
    assert |now| % 64 == 0 by { LastBlock(n, 0); assert |now| == |whole| + n; }
    Advance(f, INITIAL, seen, data, now, taken);
    BlocksAppend(f, Blocks(f, INITIAL, Head(seen)), whole, rest[..n]);
  }

  lemma UsedIsTail(lo: nat, hi: nat, length: nat)
    requires hi * TWO29 + lo == length % TWO61
    ensures lo % 64 == length % 64
  {
    assert length == length / TWO61 * TWO61 + hi * TWO29 + lo;
  }

  // ---------- Chunk invariance ----------

  function Joined(pieces: seq<seq<Byte>>): seq<Byte> {
    if pieces == [] then [] else Joined(pieces[..|pieces| - 1]) + pieces[|pieces| - 1]
  }

  /** However a message is split into calls of `update`, `final` gives the digest of the whole. */
  method HashPieces(f: BlockFunction, pieces: seq<seq<Byte>>) returns (result: seq<Byte>)
    ensures result == Digest(f, Joined(pieces))
  {
    var md5 := new Md5(f);
    for i := 0 to |pieces|
      invariant md5.Valid() && fresh(md5) && fresh(md5.buffer) && md5.f == f
      invariant md5.seen == Joined(pieces[..i])
    {
      assert pieces[..i + 1][..i] == pieces[..i];
      md5.Update(pieces[i]);
    }
    assert pieces[..|pieces|] == pieces;
    result := md5.Final();
  }
}
