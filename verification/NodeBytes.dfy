/** Where the fields of node records lie on the device, byte by byte. */
module NodeBytes {
  import opened NodeCodec
  import TreeIndex

  // --------------------------------------------------------------- bytes of numbers

  lemma {:induction false} LittleEndianByte(n: nat, x: nat, k: nat)
    requires k < n
    ensures LittleEndian(n, x)[k] == x / Pow256(k) % 256
  {
    if k > 0 {
      LittleEndianByte(n - 1, x / 256, k - 1);
      TreeIndex.DivDiv(x, 256, Pow256(k - 1));
    }
  }

  lemma {:induction false} FromLittleEndianByte(s: seq<Byte>, k: nat)
    requires k < |s|
    ensures s[k] == FromLittleEndian(s) / Pow256(k) % 256
  {
    var x := FromLittleEndian(s);
    if k > 0 {
      FromLittleEndianByte(s[1..], k - 1);
      assert x / 256 == FromLittleEndian(s[1..]);
      TreeIndex.DivDiv(x, 256, Pow256(k - 1));
    }
  }

  // ------------------------------------------------------------- bytes of a record

  /** Address, generation and hash of a type 1 record, then zeros. */
  lemma T1Byte(n: T1, k: nat)
    requires k < NODE_BYTES
    ensures k < 8 ==> EncodeT1(n)[k] == n.pba / Pow256(k) % 256
    ensures 8 <= k < 16 ==> EncodeT1(n)[k] == n.gen / Pow256(k - 8) % 256
    ensures 16 <= k < 48 ==> EncodeT1(n)[k] == n.hash[k - 16]
    ensures 48 <= k ==> EncodeT1(n)[k] == 0
  {
    if k < 8 {
      LittleEndianByte(8, n.pba, k);
    } else if k < 16 {
      LittleEndianByte(8, n.gen, k - 8);
    }
  }

  /** Address, last virtual address, the generations of allocation and freeing, the
      last key and the reserved flag of a type 2 record, then zeros. */
  lemma T2Byte(n: T2, k: nat)
    requires k < NODE_BYTES
    ensures k < 8 ==> EncodeT2(n)[k] == n.pba / Pow256(k) % 256
    ensures 8 <= k < 16 ==> EncodeT2(n)[k] == n.lastVba / Pow256(k - 8) % 256
    ensures 16 <= k < 24 ==> EncodeT2(n)[k] == n.allocGen / Pow256(k - 16) % 256
    ensures 24 <= k < 32 ==> EncodeT2(n)[k] == n.freeGen / Pow256(k - 24) % 256
    ensures 32 <= k < 36 ==> EncodeT2(n)[k] == n.lastKeyId / Pow256(k - 32) % 256
    ensures k == 36 ==> EncodeT2(n)[k] == if n.reserved then 1 else 0
    ensures 36 < k ==> EncodeT2(n)[k] == 0
  {
    if k < 8 {
      LittleEndianByte(8, n.pba, k);
    } else if k < 16 {
      LittleEndianByte(8, n.lastVba, k - 8);
    } else if k < 24 {
      LittleEndianByte(8, n.allocGen, k - 16);
    } else if k < 32 {
      LittleEndianByte(8, n.freeGen, k - 24);
    } else if k < 36 {
      LittleEndianByte(4, n.lastKeyId, k - 32);
    }
  }

  lemma SliceByte(s: seq<Byte>, lo: nat, hi: nat, k: nat)
    requires lo <= k < hi <= |s|
    ensures s[k] == FromLittleEndian(s[lo..hi]) / Pow256(k - lo) % 256
  {
    FromLittleEndianByte(s[lo..hi], k - lo);
  }

  /** Reading looks at the same places: each byte of a field is the one of the node. */
  lemma T1ByteRead(s: seq<Byte>, k: nat)
    requires |s| == NODE_BYTES && k < 48
    ensures k < 8 ==> s[k] == DecodeT1(s).pba / Pow256(k) % 256
    ensures 8 <= k < 16 ==> s[k] == DecodeT1(s).gen / Pow256(k - 8) % 256
    ensures 16 <= k ==> s[k] == DecodeT1(s).hash[k - 16]
  {
    if k < 8 {
      SliceByte(s, 0, 8, k);
    } else if k < 16 {
      SliceByte(s, 8, 16, k);
    }
  }

  lemma T2ByteRead(s: seq<Byte>, k: nat)
    requires |s| == NODE_BYTES && k < 37
    ensures k < 8 ==> s[k] == DecodeT2(s).pba / Pow256(k) % 256
    ensures 8 <= k < 16 ==> s[k] == DecodeT2(s).lastVba / Pow256(k - 8) % 256
    ensures 16 <= k < 24 ==> s[k] == DecodeT2(s).allocGen / Pow256(k - 16) % 256
    ensures 24 <= k < 32 ==> s[k] == DecodeT2(s).freeGen / Pow256(k - 24) % 256
    ensures 32 <= k < 36 ==> s[k] == DecodeT2(s).lastKeyId / Pow256(k - 32) % 256
    ensures k == 36 ==> (s[k] == 1 <==> DecodeT2(s).reserved)
  {
    if k < 8 {
      SliceByte(s, 0, 8, k);
    } else if k < 16 {
      SliceByte(s, 8, 16, k);
    } else if k < 24 {
      SliceByte(s, 16, 24, k);
    } else if k < 32 {
      SliceByte(s, 24, 32, k);
    } else if k < 36 {
      SliceByte(s, 32, 36, k);
    }
  }

  // -------------------------------------------------------------- bytes of a block

  function RecordOf(b: Block, i: nat): (s: seq<Byte>)
    requires i < NODES_PER_BLOCK
    ensures |s| == NODE_BYTES
  {
    b[NODE_BYTES * i..NODE_BYTES * i + NODE_BYTES]
  }

  lemma T1Record(ns: T1Block, i: nat)
    requires i < NODES_PER_BLOCK
    ensures RecordOf(EncodeT1Block(ns), i) == EncodeT1(ns[i])
  {
    RecordAt(seq(NODES_PER_BLOCK, k requires 0 <= k < NODES_PER_BLOCK => EncodeT1(ns[k])), i);
  }

  lemma T2Record(ns: T2Block, i: nat)
    requires i < NODES_PER_BLOCK
    ensures RecordOf(EncodeT2Block(ns), i) == EncodeT2(ns[i])
  {
    RecordAt(seq(NODES_PER_BLOCK, k requires 0 <= k < NODES_PER_BLOCK => EncodeT2(ns[k])), i);
  }

  /** Record i of a type 1 block lies at byte 64 * i. */
  lemma T1BlockByte(ns: T1Block, i: nat, k: nat)
    requires i < NODES_PER_BLOCK && k < NODE_BYTES
    ensures var n, b := ns[i], EncodeT1Block(ns)[64 * i + k];
            && (k < 8 ==> b == n.pba / Pow256(k) % 256)
            && (8 <= k < 16 ==> b == n.gen / Pow256(k - 8) % 256)
            && (16 <= k < 48 ==> b == n.hash[k - 16])
            && (48 <= k ==> b == 0)
  {
    T1Record(ns, i);
    assert RecordOf(EncodeT1Block(ns), i)[k] == EncodeT1Block(ns)[64 * i + k];
    T1Byte(ns[i], k);
  }

  /** Record i of a type 2 block lies at byte 64 * i. */
  lemma T2BlockByte(ns: T2Block, i: nat, k: nat)
    requires i < NODES_PER_BLOCK && k < NODE_BYTES
    ensures var n, b := ns[i], EncodeT2Block(ns)[64 * i + k];
            && (k < 8 ==> b == n.pba / Pow256(k) % 256)
            && (8 <= k < 16 ==> b == n.lastVba / Pow256(k - 8) % 256)
            && (16 <= k < 24 ==> b == n.allocGen / Pow256(k - 16) % 256)
            && (24 <= k < 32 ==> b == n.freeGen / Pow256(k - 24) % 256)
            && (32 <= k < 36 ==> b == n.lastKeyId / Pow256(k - 32) % 256)
            && (k == 36 ==> b == if n.reserved then 1 else 0)
            && (36 < k ==> b == 0)
  {
    T2Record(ns, i);
    assert RecordOf(EncodeT2Block(ns), i)[k] == EncodeT2Block(ns)[64 * i + k];
    T2Byte(ns[i], k);
  }

  // ------------------------------------------------- blocks that are written as read

  /** All padding bytes of a type 1 block are zero. */
  predicate Padded1(b: Block)
  {
    forall i, k | 0 <= i < NODES_PER_BLOCK && 48 <= k < NODE_BYTES :: RecordOf(b, i)[k] == 0
  }

  /** All padding bytes of a type 2 block are zero and the flags are 0 or 1. */
  predicate Padded2(b: Block)
  {
    forall i, k | 0 <= i < NODES_PER_BLOCK && 36 <= k < NODE_BYTES :: RecordOf(b, i)[k] <= if k == 36 then 1 else 0
  }

  lemma T1RecordSame(s: seq<Byte>)
    requires |s| == NODE_BYTES
    ensures EncodeT1(DecodeT1(s)) == s <==> forall k | 48 <= k < NODE_BYTES :: s[k] == 0
  {
    var n := DecodeT1(s);
    forall k | 0 <= k < NODE_BYTES ensures EncodeT1(n)[k] == if k < 48 then s[k] else 0 {
      T1Byte(n, k);
      if k < 48 {
        T1ByteRead(s, k);
      }
    }
  }

  lemma T2RecordSame(s: seq<Byte>)
    requires |s| == NODE_BYTES
    ensures EncodeT2(DecodeT2(s)) == s <==> forall k | 36 <= k < NODE_BYTES :: s[k] <= if k == 36 then 1 else 0
  {
    var n := DecodeT2(s);
    forall k | 0 <= k < NODE_BYTES
      ensures EncodeT2(n)[k] == if k < 36 then s[k] else if k == 36 && s[k] == 1 then 1 else 0
    {
      T2Byte(n, k);
      if k < 37 {
        T2ByteRead(s, k);
      }
    }
  }

  lemma BlocksSame(a: Block, b: Block)
    requires forall i: nat | i < NODES_PER_BLOCK :: RecordOf(a, i) == RecordOf(b, i)
    ensures a == b
  {
    forall k | 0 <= k < BLOCK_BYTES ensures a[k] == b[k] {
      assert RecordOf(a, k / 64)[k % 64] == a[k] && RecordOf(b, k / 64)[k % 64] == b[k];
    }
  }

  /** A type 1 block comes back from reading and writing its nodes as it was if and
      only if its padding is zero. */
  lemma T1RewrittenIff(b: Block)
    ensures EncodeT1Block(DecodeT1Block(b)) == b <==> Padded1(b)
  {
    var b' := EncodeT1Block(DecodeT1Block(b));
    forall i: nat | i < NODES_PER_BLOCK
      ensures RecordOf(b', i) == RecordOf(b, i) <==> forall k | 48 <= k < NODE_BYTES :: RecordOf(b, i)[k] == 0
    {
      T1Record(DecodeT1Block(b), i);
      T1RecordSame(RecordOf(b, i));
    }
    if Padded1(b) {
      BlocksSame(b', b);
    }
  }

  /** A type 2 block, too, where the flags are to be 0 or 1. */
  lemma T2RewrittenIff(b: Block)
    ensures EncodeT2Block(DecodeT2Block(b)) == b <==> Padded2(b)
  {
    var b' := EncodeT2Block(DecodeT2Block(b));
    forall i: nat | i < NODES_PER_BLOCK
      ensures RecordOf(b', i) == RecordOf(b, i)
          <==> forall k | 36 <= k < NODE_BYTES :: RecordOf(b, i)[k] <= if k == 36 then 1 else 0
    {
      T2Record(DecodeT2Block(b), i);
      T2RecordSame(RecordOf(b, i));
    }
    if Padded2(b) {
      BlocksSame(b', b);
    }
  }
}
