/**
 * Input fetch: get_next_bytes_avx512x16 and the byte gather it falls back
 * on. A flow's input pointer is modelled by the key it points to; reading
 * through it at a byte offset reads that key.
 */
module AclFetch {
  import opened AclNode
  import opened AclLanes
  import opened AclTrans

  /**
   * A byte of a key. Reading past the end of a key is undefined behaviour
   * in C; the model reads zero there so that every read has a value.
   */
  function KeyByte(key: Key, off: nat): Byte
  {
    if off < |key| then key[off] else 0
  }

  /** A 4-byte little-endian load at a byte offset, as the four bytes of a lane. */
  function Load4(key: Key, off: nat): Quad
  {
    Quad(KeyByte(key, off), KeyByte(key, off + 1), KeyByte(key, off + 2), KeyByte(key, off + 3))
  }

  /** A byte zero-extended to a lane. */
  function ByteLane(b: Byte): Quad
  {
    Quad(b, 0, 0, 0)
  }

  /** The load of `bnum` bytes: one byte zero-extended, otherwise four. */
  function LoadBytes(key: Key, off: nat, bnum: nat): Quad
  {
    if bnum == 1 then ByteLane(KeyByte(key, off)) else Load4(key, off)
  }

  /** The lane value of a 4-byte load is the little-endian number the key's bytes spell. */
  lemma {:induction false} Load4LittleEndian(key: Key, off: nat)
    ensures QuadValue(Load4(key, off)) == KeyByte(key, off) + 256 * KeyByte(key, off + 1)
      + 65536 * KeyByte(key, off + 2) + 16777216 * KeyByte(key, off + 3)
    ensures QuadValue(LoadBytes(key, off, 1)) == KeyByte(key, off)
  {
  }

  /** The offset of field d of a key: entry d of the data-index table. */
  function DataOffset(t: Trie, d: nat): Word
  {
    if d < |t.dataIndex| then t.dataIndex[d] else 0
  }

  /** A lane pointer: into a key at a byte offset, or the static zero sentinel. */
  datatype Ptr = Into(key: Key, off: nat) | ZeroSentinel

  function Deref8(p: Ptr): Byte
  {
    match p
    case Into(key, off) => KeyByte(key, off)
    case ZeroSentinel => 0
  }

  /**
   * _m512_mask_gather_epi8x8: the pointers of the lanes outside the mask
   * are replaced by the address of a static zero, then all eight lanes are
   * dereferenced as bytes.
   */
  function Gather8x1(p: seq<Ptr>, m: Mask): (v: seq<Quad>)
    requires |p| == PTR_LANES && |m| == PTR_LANES
    ensures |v| == PTR_LANES
    ensures forall l :: 0 <= l < PTR_LANES ==> v[l] == if m[l] then ByteLane(Deref8(p[l])) else ZeroQuad
  {
    var q := Select(m, p, seq(PTR_LANES, _ => ZeroSentinel));
    seq(PTR_LANES, l requires 0 <= l < PTR_LANES => ByteLane(Deref8(q[l])))
  }

  /**
   * _mm512_mask_i64gather_epi32 with a zero source: the lanes in the mask
   * load 4 bytes through their pointer, the others are zero and are not
   * dereferenced.
   */
  function Gather4(p: seq<Ptr>, m: Mask): (v: seq<Quad>)
    requires |p| == PTR_LANES && |m| == PTR_LANES
    requires forall l :: 0 <= l < PTR_LANES && m[l] ==> p[l].Into?
    ensures |v| == PTR_LANES
    ensures forall l :: 0 <= l < PTR_LANES && m[l] ==>
      QuadValue(v[l]) == KeyByte(p[l].key, p[l].off) + 256 * KeyByte(p[l].key, p[l].off + 1)
        + 65536 * KeyByte(p[l].key, p[l].off + 2) + 16777216 * KeyByte(p[l].key, p[l].off + 3)
    ensures forall l :: 0 <= l < PTR_LANES && !m[l] ==> v[l] == ZeroQuad
  {
    seq(PTR_LANES, l requires 0 <= l < PTR_LANES => if m[l] then Load4(p[l].key, p[l].off) else ZeroQuad)
  }

  /**
   * get_next_bytes_avx512x16: the lanes in msk read 1 or 4 bytes of their
   * key at the offset given by their data index, and advance that index by
   * one; the other lanes read 0 and keep their data index. The work is done
   * in two halves of 8 lanes, one per pointer register.
   */
  method GetNextBytes(t: Trie, pdata: seq<Key>, msk: Mask, di: seq<nat>, bnum: nat)
    returns (inp: seq<Quad>, di': seq<nat>)
    requires |pdata| == LANES && |msk| == LANES && |di| == LANES
    ensures |inp| == LANES && |di'| == LANES
    ensures forall l :: 0 <= l < LANES ==>
      inp[l] == if msk[l] then LoadBytes(pdata[l], DataOffset(t, di[l]), bnum) else ZeroQuad
    ensures forall l :: 0 <= l < LANES ==> di'[l] == if msk[l] then di[l] + 1 else di[l]
  {
    var zero := seq<Word>(LANES, _ => 0);
    // masked gather of the data offsets, then masked increment of di
    var ofs := Select(msk, seq<Word>(LANES, l requires 0 <= l < LANES => DataOffset(t, di[l])), zero);
    di' := Select(msk, seq(LANES, l requires 0 <= l < LANES => di[l] + 1), di);
    var p := seq(LANES, l requires 0 <= l < LANES => Into(pdata[l], ofs[l]));
    var m0, m1 := msk[..PTR_LANES], msk[PTR_LANES..];
    var in0, in1;
    if bnum == 1 {
      in0 := Gather8x1(p[..PTR_LANES], m0);
      in1 := Gather8x1(p[PTR_LANES..], m1);
    } else {
      in0 := Gather4(p[..PTR_LANES], m0);
      in1 := Gather4(p[PTR_LANES..], m1);
    }
    inp := in0 + in1;
  }
}
