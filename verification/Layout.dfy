/** Packed structures as byte strings: blocks of fixed sizes laid end to end, scalars little-endian. */
module Layout {

  function Total(sizes: seq<nat>): nat {
    if sizes == [] then 0 else sizes[0] + Total(sizes[1..])
  }

  ghost predicate Sized(blocks: seq<seq<bv8>>, sizes: seq<nat>) {
    |blocks| == |sizes| && forall i :: 0 <= i < |sizes| ==> |blocks[i]| == sizes[i]
  }

  function Pack(blocks: seq<seq<bv8>>): seq<bv8> {
    if blocks == [] then [] else blocks[0] + Pack(blocks[1..])
  }

  function Unpack(bytes: seq<bv8>, sizes: seq<nat>): (blocks: seq<seq<bv8>>)
    requires |bytes| == Total(sizes)
    ensures Sized(blocks, sizes)
    decreases sizes
  {
    if sizes == [] then [] else [bytes[..sizes[0]]] + Unpack(bytes[sizes[0]..], sizes[1..])
  }

  lemma {:induction false} PackLength(blocks: seq<seq<bv8>>, sizes: seq<nat>)
    requires Sized(blocks, sizes)
    ensures |Pack(blocks)| == Total(sizes)
    decreases sizes
  {
    if sizes != [] {
      PackLength(blocks[1..], sizes[1..]);
    }
  }

  lemma {:induction false} UnpackPack(blocks: seq<seq<bv8>>, sizes: seq<nat>)
    requires Sized(blocks, sizes)
    ensures |Pack(blocks)| == Total(sizes) && Unpack(Pack(blocks), sizes) == blocks
    decreases sizes
  {
    PackLength(blocks, sizes);
    if sizes != [] {
      UnpackPack(blocks[1..], sizes[1..]);
      assert Pack(blocks)[..sizes[0]] == blocks[0];
      assert Pack(blocks)[sizes[0]..] == Pack(blocks[1..]);
      assert blocks == [blocks[0]] + blocks[1..];
    }
  }

  lemma {:induction false} PackUnpack(bytes: seq<bv8>, sizes: seq<nat>)
    requires |bytes| == Total(sizes)
    ensures Pack(Unpack(bytes, sizes)) == bytes
    decreases sizes
  {
    if sizes != [] {
      PackUnpack(bytes[sizes[0]..], sizes[1..]);
      assert Unpack(bytes, sizes)[1..] == Unpack(bytes[sizes[0]..], sizes[1..]);
    }
  }

  /** Where block `i` begins. */
  function Offset(sizes: seq<nat>, i: nat): nat
    requires i <= |sizes|
  {
    if i == 0 then 0 else Offset(sizes, i - 1) + sizes[i - 1]
  }

  lemma {:induction false} OffsetShift(sizes: seq<nat>, i: nat)
    requires 0 < i <= |sizes|
    ensures Offset(sizes, i) == sizes[0] + Offset(sizes[1..], i - 1)
  {
    if i > 1 {
      OffsetShift(sizes, i - 1);
    }
  }

  /** Each block stands where the sizes before it put it. */
  lemma {:induction false} BlockAt(blocks: seq<seq<bv8>>, sizes: seq<nat>, i: nat)
    requires Sized(blocks, sizes) && i < |blocks|
    ensures
      var at := Offset(sizes, i);
      at + sizes[i] <= |Pack(blocks)| && Pack(blocks)[at..at + sizes[i]] == blocks[i]
    decreases i
  {
    if i > 0 {
      OffsetShift(sizes, i);
      BlockAt(blocks[1..], sizes[1..], i - 1);
    }
  }

  lemma Offsets(sizes: seq<nat>)
    ensures |sizes| >= 1 ==> Offset(sizes, 0) == 0 && Offset(sizes, 1) == sizes[0]
    ensures |sizes| >= 2 ==> Offset(sizes, 2) == sizes[0] + sizes[1]
    ensures |sizes| >= 3 ==> Offset(sizes, 3) == sizes[0] + sizes[1] + sizes[2]
    ensures |sizes| >= 4 ==> Offset(sizes, 4) == sizes[0] + sizes[1] + sizes[2] + sizes[3]
    ensures |sizes| >= 5 ==> Offset(sizes, 5) == sizes[0] + sizes[1] + sizes[2] + sizes[3] + sizes[4]
    ensures |sizes| >= 6 ==> Offset(sizes, 6) == sizes[0] + sizes[1] + sizes[2] + sizes[3] + sizes[4] + sizes[5]
  {
    assert |sizes| >= 1 ==> Offset(sizes, 1) == Offset(sizes, 0) + sizes[0];
    assert |sizes| >= 2 ==> Offset(sizes, 2) == Offset(sizes, 1) + sizes[1];
    assert |sizes| >= 3 ==> Offset(sizes, 3) == Offset(sizes, 2) + sizes[2];
    assert |sizes| >= 4 ==> Offset(sizes, 4) == Offset(sizes, 3) + sizes[3];
    assert |sizes| >= 5 ==> Offset(sizes, 5) == Offset(sizes, 4) + sizes[4];
  }

  predicate Lies(block: seq<bv8>, bytes: seq<bv8>, at: nat, size: nat) {
    at + size <= |bytes| && bytes[at..at + size] == block
  }

  lemma SliceOfSlice(bytes: seq<bv8>, at: nat, size: nat, from: nat, to: nat)
    requires at + size <= |bytes| && from <= to <= size
    ensures bytes[at..at + size][from..to] == bytes[at + from..at + to]
  {
    var inner, outer := bytes[at..at + size][from..to], bytes[at + from..at + to];
    assert |inner| == |outer|;
    forall i | 0 <= i < |inner| ensures inner[i] == outer[i] {
      assert inner[i] == bytes[at + (from + i)];
    }
  }

  /** The first seven blocks, by the sums of the sizes before them. */
  lemma BlocksAt(blocks: seq<seq<bv8>>, sizes: seq<nat>)
    requires Sized(blocks, sizes)
    ensures |sizes| > 0 ==> Lies(blocks[0], Pack(blocks), 0, sizes[0])
    ensures |sizes| > 1 ==> Lies(blocks[1], Pack(blocks), sizes[0], sizes[1])
    ensures |sizes| > 2 ==> Lies(blocks[2], Pack(blocks), sizes[0] + sizes[1], sizes[2])
    ensures |sizes| > 3 ==> Lies(blocks[3], Pack(blocks), sizes[0] + sizes[1] + sizes[2], sizes[3])
    ensures |sizes| > 4 ==> Lies(blocks[4], Pack(blocks), sizes[0] + sizes[1] + sizes[2] + sizes[3], sizes[4])
    ensures |sizes| > 5 ==>
      Lies(blocks[5], Pack(blocks), sizes[0] + sizes[1] + sizes[2] + sizes[3] + sizes[4], sizes[5])
    ensures |sizes| > 6 ==>
      Lies(blocks[6], Pack(blocks), sizes[0] + sizes[1] + sizes[2] + sizes[3] + sizes[4] + sizes[5], sizes[6])
  {
    hide Pack, Offset;
    Offsets(sizes);
    forall i | 0 <= i < |sizes|
      ensures
        var at := Offset(sizes, i);
        at + sizes[i] <= |Pack(blocks)| && Pack(blocks)[at..at + sizes[i]] == blocks[i]
    {
      BlockAt(blocks, sizes, i);
    }
  }

  // ----- Scalars -------------------------------------------------------------------------------

  function U16(w: bv16): (b: seq<bv8>)
    ensures |b| == 2
  {
    [(w & 0xFF) as bv8, (w >> 8) as bv8]
  }

  function AsU16(b: seq<bv8>): bv16
    requires |b| == 2
  {
    (b[0] as bv16) | ((b[1] as bv16) << 8)
  }

  function U32(w: bv32): (b: seq<bv8>)
    ensures |b| == 4
  {
    [(w & 0xFF) as bv8, ((w >> 8) & 0xFF) as bv8, ((w >> 16) & 0xFF) as bv8, (w >> 24) as bv8]
  }

  function AsU32(b: seq<bv8>): bv32
    requires |b| == 4
  {
    FourBytes(b[0], b[1], b[2], b[3])
  }

  function FourBytes(p: bv8, q: bv8, r: bv8, s: bv8): bv32 {
    (p as bv32) | ((q as bv32) << 8) | ((r as bv32) << 16) | ((s as bv32) << 24)
  }

  lemma U16RoundTrip(w: bv16)
    ensures AsU16(U16(w)) == w
  {}

  lemma U16Bytes(x: bv8, y: bv8)
    ensures U16((x as bv16) | ((y as bv16) << 8)) == [x, y]
  {}

  lemma AsU16RoundTrip(b: seq<bv8>)
    requires |b| == 2
    ensures U16(AsU16(b)) == b
  {
    U16Bytes(b[0], b[1]);
  }

  lemma U32RoundTrip(w: bv32)
    ensures AsU32(U32(w)) == w
  {}

  lemma U32Bytes(p: bv8, q: bv8, r: bv8, s: bv8)
    ensures U32(FourBytes(p, q, r, s)) == [p, q, r, s]
  {}

  lemma AsU32RoundTrip(b: seq<bv8>)
    requires |b| == 4
    ensures U32(AsU32(b)) == b
  {
    hide U32, FourBytes;
    U32Bytes(b[0], b[1], b[2], b[3]);
  }

  /** Scalars lie in memory with their lowest byte first. */
  lemma LowestFirst(w: bv16, v: bv32)
    ensures U16(w)[0] as bv16 == w % 256 && U16(w)[1] as bv16 == w / 256
    ensures U32(v)[0] as bv32 == v % 256 && U32(v)[1] as bv32 == v / 256 % 256
    ensures U32(v)[2] as bv32 == v / 0x10000 % 256 && U32(v)[3] as bv32 == v / 0x1000000
  {}
}
