/** Node records of the two hash trees and the block format that stores them.

    A tree block holds 64 node records of 64 bytes each, all integers little
    endian.  The trees only rely on the round trip stated by RoundTrips; the
    hash function (SHA-256 over a block) stays uninterpreted.  */
module NodeCodec {

  const NODES_PER_BLOCK := 64
  const NODE_BYTES := 64
  const BLOCK_BYTES := 4096
  const U32_LIMIT := 0x1_0000_0000
  const U64_LIMIT := 0x1_0000_0000_0000_0000

  type Byte = n: nat | n < 256
  type U32 = n: nat | n < U32_LIMIT
  type U64 = n: nat | n < U64_LIMIT
  type Hash = s: seq<Byte> | |s| == 32 witness seq(32, _ => 0)
  type Block = s: seq<Byte> | |s| == BLOCK_BYTES witness seq(BLOCK_BYTES, _ => 0)

  function Zeros(n: nat): (s: seq<Byte>)
    ensures |s| == n
  {
    seq(n, _ => 0)
  }

  /** Type 1 node: points to an inner node block and carries its hash. */
  datatype T1 = T1(pba: U64, gen: U64, hash: Hash)

  /** Type 2 node: a leaf entry of the lowest inner level. */
  datatype T2 = T2(pba: U64, lastVba: U64, allocGen: U64, freeGen: U64, lastKeyId: U32, reserved: bool)

  const ZERO_HASH: Hash := Zeros(32)
  const T1_INVALID := T1(0, 0, ZERO_HASH)
  const T2_INVALID := T2(0, 0, 0, 0, 0, false)

  type T1Block = s: seq<T1> | |s| == NODES_PER_BLOCK witness seq(NODES_PER_BLOCK, _ => T1_INVALID)
  type T2Block = s: seq<T2> | |s| == NODES_PER_BLOCK witness seq(NODES_PER_BLOCK, _ => T2_INVALID)

  // ------------------------------------------------------------------ integers

  function Pow256(n: nat): (p: nat)
    ensures p > 0
  {
    if n == 0 then 1 else 256 * Pow256(n - 1)
  }

  function LittleEndian(n: nat, x: nat): (s: seq<Byte>)
    ensures |s| == n
  {
    if n == 0 then [] else [x % 256] + LittleEndian(n - 1, x / 256)
  }

  function FromLittleEndian(s: seq<Byte>): (x: nat)
    ensures x < Pow256(|s|)
  {
    if s == [] then 0 else s[0] + 256 * FromLittleEndian(s[1..])
  }

  lemma {:induction false} LittleEndianRoundTrip(n: nat, x: nat)
    requires x < Pow256(n)
    ensures FromLittleEndian(LittleEndian(n, x)) == x
  {
    if n > 0 {
      LittleEndianRoundTrip(n - 1, x / 256);
      assert LittleEndian(n, x)[1..] == LittleEndian(n - 1, x / 256);
    }
  }

  lemma WordLimits()
    ensures Pow256(8) == U64_LIMIT && Pow256(4) == U32_LIMIT
  {
    assert Pow256(4) == 256 * Pow256(3) && Pow256(3) == 256 * Pow256(2) && Pow256(2) == 256 * Pow256(1);
    assert Pow256(8) == 256 * Pow256(7) && Pow256(7) == 256 * Pow256(6) && Pow256(6) == 256 * Pow256(5);
  }

  function Word64(s: seq<Byte>): U64
    requires |s| == 8
  {
    WordLimits();
    FromLittleEndian(s)
  }

  function Word32(s: seq<Byte>): U32
    requires |s| == 4
  {
    WordLimits();
    FromLittleEndian(s)
  }

  lemma WordRoundTrip(x: U64, y: U32)
    ensures Word64(LittleEndian(8, x)) == x
    ensures Word32(LittleEndian(4, y)) == y
  {
    WordLimits();
    LittleEndianRoundTrip(8, x);
    LittleEndianRoundTrip(4, y);
  }

  // --------------------------------------------------------------- node records

  function EncodeT1(n: T1): (s: seq<Byte>)
    ensures |s| == NODE_BYTES
  {
    LittleEndian(8, n.pba) + LittleEndian(8, n.gen) + n.hash + Zeros(16)
  }

  function DecodeT1(s: seq<Byte>): T1
    requires |s| == NODE_BYTES
  {
    T1(Word64(s[0..8]), Word64(s[8..16]), s[16..48])
  }

  function EncodeT2(n: T2): (s: seq<Byte>)
    ensures |s| == NODE_BYTES
  {
    LittleEndian(8, n.pba) + LittleEndian(8, n.lastVba) + LittleEndian(8, n.allocGen) + LittleEndian(8, n.freeGen)
    + LittleEndian(4, n.lastKeyId) + [if n.reserved then 1 else 0] + Zeros(27)
  }

  function DecodeT2(s: seq<Byte>): T2
    requires |s| == NODE_BYTES
  {
    T2(Word64(s[0..8]), Word64(s[8..16]), Word64(s[16..24]), Word64(s[24..32]), Word32(s[32..36]), s[36] == 1)
  }

  lemma T1RoundTrip(n: T1)
    ensures DecodeT1(EncodeT1(n)) == n
  {
    var s := EncodeT1(n);
    WordRoundTrip(n.pba, 0);
    WordRoundTrip(n.gen, 0);
    assert s[0..8] == LittleEndian(8, n.pba);
    assert s[8..16] == LittleEndian(8, n.gen);
    assert s[16..48] == n.hash;
  }

  /** A record is the concatenation of its fields, so each field is a slice. */
  lemma Slice(a: seq<Byte>, b: seq<Byte>, c: seq<Byte>)
    ensures (a + (b + c))[|a|..|a| + |b|] == b
  {
  }

  lemma T2Slices(p: seq<Byte>, v: seq<Byte>, a: seq<Byte>, f: seq<Byte>, k: seq<Byte>, r: seq<Byte>, s: seq<Byte>)
    requires |p| == |v| == |a| == |f| == 8 && |k| == 4 && |r| == 28
    requires s == p + v + a + f + k + r
    ensures s[0..8] == p && s[8..16] == v && s[16..24] == a && s[24..32] == f && s[32..36] == k && s[36] == r[0]
  {
    assert s == [] + (p + (v + a + f + k + r));
    assert s == p + (v + (a + f + k + r));
    assert s == (p + v) + (a + (f + k + r));
    assert s == (p + v + a) + (f + (k + r));
    Slice([], p, v + a + f + k + r);
    Slice(p, v, a + f + k + r);
    Slice(p + v, a, f + k + r);
    Slice(p + v + a, f, k + r);
  }

  lemma T2RoundTrip(n: T2)
    ensures DecodeT2(EncodeT2(n)) == n
  {
    var k := LittleEndian(4, n.lastKeyId);
    var r := [if n.reserved then 1 else 0] + Zeros(27);
    assert EncodeT2(n) == LittleEndian(8, n.pba) + LittleEndian(8, n.lastVba) + LittleEndian(8, n.allocGen)
                          + LittleEndian(8, n.freeGen) + k + r by {
      var q := LittleEndian(8, n.pba) + LittleEndian(8, n.lastVba) + LittleEndian(8, n.allocGen) + LittleEndian(8, n.freeGen) + k;
      assert q + [if n.reserved then 1 else 0] + Zeros(27) == q + r;
    }
    T2Slices(LittleEndian(8, n.pba), LittleEndian(8, n.lastVba), LittleEndian(8, n.allocGen),
             LittleEndian(8, n.freeGen), k, r, EncodeT2(n));
    WordRoundTrip(n.pba, n.lastKeyId);
    WordRoundTrip(n.lastVba, 0);
    WordRoundTrip(n.allocGen, 0);
    WordRoundTrip(n.freeGen, 0);
  }

  // ---------------------------------------------------------------- node blocks

  /** Concatenation of equally sized records. */
  function Records(rs: seq<seq<Byte>>): (s: seq<Byte>)
    requires forall i :: 0 <= i < |rs| ==> |rs[i]| == NODE_BYTES
    ensures |s| == NODE_BYTES * |rs|
  {
    if rs == [] then [] else rs[0] + Records(rs[1..])
  }

  lemma {:induction false} RecordAt(rs: seq<seq<Byte>>, i: nat)
    requires forall i :: 0 <= i < |rs| ==> |rs[i]| == NODE_BYTES
    requires i < |rs|
    ensures Records(rs)[NODE_BYTES * i..NODE_BYTES * i + NODE_BYTES] == rs[i]
  {
    var s := Records(rs);
    if i > 0 {
      RecordAt(rs[1..], i - 1);
      var r := Records(rs[1..]);
      assert s[NODE_BYTES..] == r;
      assert s[NODE_BYTES * i..NODE_BYTES * i + NODE_BYTES]
          == r[NODE_BYTES * (i - 1)..NODE_BYTES * (i - 1) + NODE_BYTES];
    }
  }

  function EncodeT1Block(ns: T1Block): Block
  {
    Records(seq(NODES_PER_BLOCK, i requires 0 <= i < NODES_PER_BLOCK => EncodeT1(ns[i])))
  }

  function DecodeT1Block(b: Block): T1Block
  {
    seq(NODES_PER_BLOCK, i requires 0 <= i < NODES_PER_BLOCK =>
      DecodeT1(b[NODE_BYTES * i..NODE_BYTES * i + NODE_BYTES]))
  }

  function EncodeT2Block(ns: T2Block): Block
  {
    Records(seq(NODES_PER_BLOCK, i requires 0 <= i < NODES_PER_BLOCK => EncodeT2(ns[i])))
  }

  function DecodeT2Block(b: Block): T2Block
  {
    seq(NODES_PER_BLOCK, i requires 0 <= i < NODES_PER_BLOCK =>
      DecodeT2(b[NODE_BYTES * i..NODE_BYTES * i + NODE_BYTES]))
  }

  /** Writing a type 1 node block and reading it back yields the same nodes. */
  lemma T1BlockRoundTrip(ns: T1Block)
    ensures DecodeT1Block(EncodeT1Block(ns)) == ns
  {
    var rs := seq(NODES_PER_BLOCK, i requires 0 <= i < NODES_PER_BLOCK => EncodeT1(ns[i]));
    forall i: nat | i < NODES_PER_BLOCK ensures DecodeT1Block(EncodeT1Block(ns))[i] == ns[i] {
      RecordAt(rs, i);
      T1RoundTrip(ns[i]);
    }
  }

  /** Writing a type 2 node block and reading it back yields the same nodes. */
  lemma T2BlockRoundTrip(ns: T2Block)
    ensures DecodeT2Block(EncodeT2Block(ns)) == ns
  {
    var rs := seq(NODES_PER_BLOCK, i requires 0 <= i < NODES_PER_BLOCK => EncodeT2(ns[i]));
    forall i: nat | i < NODES_PER_BLOCK ensures DecodeT2Block(EncodeT2Block(ns))[i] == ns[i] {
      RecordAt(rs, i);
      T2RoundTrip(ns[i]);
    }
  }

  // ------------------------------------------------------- interface to the trees

  datatype RawCodec = RawCodec(
    hash: Block -> Hash,
    enc1: T1Block -> Block, dec1: Block -> T1Block,
    enc2: T2Block -> Block, dec2: Block -> T2Block)

  ghost predicate RoundTrips(c: RawCodec)
  {
    && (forall ns: T1Block :: c.dec1(c.enc1(ns)) == ns)
    && (forall ns: T2Block :: c.dec2(c.enc2(ns)) == ns)
  }

  /** The format above, combined with any hash function. */
  function CbeCodec(hash: Block -> Hash): RawCodec
  {
    RawCodec(hash, EncodeT1Block, DecodeT1Block, EncodeT2Block, DecodeT2Block)
  }

  lemma CbeCodecRoundTrips(hash: Block -> Hash)
    ensures RoundTrips(CbeCodec(hash))
  {
    forall ns: T1Block ensures DecodeT1Block(EncodeT1Block(ns)) == ns { T1BlockRoundTrip(ns); }
    forall ns: T2Block ensures DecodeT2Block(EncodeT2Block(ns)) == ns { T2BlockRoundTrip(ns); }
  }

  type Codec = c: RawCodec | RoundTrips(c)
    ghost witness CbeCodecWitness()

  ghost function CbeCodecWitness(): (c: RawCodec)
    ensures RoundTrips(c)
  {
    CbeCodecRoundTrips(_ => ZERO_HASH);
    CbeCodec(_ => ZERO_HASH)
  }
}
