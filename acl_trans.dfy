/**
 * The vector transition step: transition16 and first_trans16 over 16
 * lanes, each lane doing what AclNode.Step says, and the match test that
 * produces the mask of lanes sitting on a match node.
 */
module AclTrans {
  import opened AclNode
  import opened AclLanes

  /**
   * The per-trie part of struct acl_flow_avx512 that the walk reads: the
   * node constants, the transition table, the root index, the data-index
   * table (offsets of the fields to read, in order) and the size of the
   * first load (1 or 4 bytes).
   */
  datatype Trie = Trie(nc: NodeConsts, trans: Table, root: Word, dataIndex: seq<Word>, firstLoadSz: nat)

  /** What the walk needs from a compiled trie: sound constants and an idle fixed point. */
  predicate TrieOk(t: Trie)
  {
    ValidConsts(t.nc) && IdleFixpoint(t.nc, t.trans)
  }

  /** The record a lane's first transition loads: root plus the low byte of its input. */
  function FirstStep(t: Trie, inp: Quad): Trans
  {
    t.trans(Wrap(t.root + inp.b0))
  }

  /**
   * transition16: every lane computes its next address and loads the two
   * halves of the record there; the input is shifted right by 8 bits so
   * that the next byte is consumed by the next call.
   */
  method Transition16(t: Trie, inp: seq<Quad>, lo: seq<Word>, hi: seq<Quad>)
    returns (inp': seq<Quad>, lo': seq<Word>, hi': seq<Quad>)
    requires |inp| == LANES && |lo| == LANES && |hi| == LANES
    ensures |inp'| == LANES && |lo'| == LANES && |hi'| == LANES
    ensures forall l :: 0 <= l < LANES ==>
      Trans(lo'[l], hi'[l]) == Step(t.nc, t.trans, inp[l], Trans(lo[l], hi[l]))
    ensures forall l :: 0 <= l < LANES ==> inp'[l] == Shr8(inp[l])
  {
    var addr := seq<Word>(LANES, l requires 0 <= l < LANES => CalcAddr(t.nc, inp[l], Trans(lo[l], hi[l])));
    lo' := seq<Word>(LANES, l requires 0 <= l < LANES => t.trans(addr[l]).lo);
    inp' := seq(LANES, l requires 0 <= l < LANES => Shr8(inp[l]));
    hi' := seq(LANES, l requires 0 <= l < LANES => t.trans(addr[l]).hi);
  }

  /**
   * first_trans16: the lanes in msk load the record at root + (input & 0xff);
   * every other lane keeps its tr_lo and tr_hi (masked gather with the old
   * registers as source).
   */
  method FirstTrans16(t: Trie, inp: seq<Quad>, msk: Mask, lo: seq<Word>, hi: seq<Quad>)
    returns (lo': seq<Word>, hi': seq<Quad>)
    requires |inp| == LANES && |msk| == LANES && |lo| == LANES && |hi| == LANES
    ensures |lo'| == LANES && |hi'| == LANES
    ensures forall l :: 0 <= l < LANES ==>
      Trans(lo'[l], hi'[l]) == if msk[l] then FirstStep(t, inp[l]) else Trans(lo[l], hi[l])
  {
    var addr := seq<Word>(LANES, l requires 0 <= l < LANES => Wrap(t.root + inp[l].b0));
    var nlo := seq<Word>(LANES, l requires 0 <= l < LANES => t.trans(addr[l]).lo);
    var nhi := seq(LANES, l requires 0 <= l < LANES => t.trans(addr[l]).hi);
    lo' := Select(msk, nlo, lo);
    hi' := Select(msk, nhi, hi);
  }

  /** _mm512_test_epi32_mask(tr_lo, match_mask): the lanes sitting on a match node. */
  function MatchLanes(nc: NodeConsts, lo: seq<Word>): (rm: Mask)
    ensures |rm| == |lo|
    ensures forall l :: 0 <= l < |lo| ==> (rm[l] <==> IsMatch(nc, lo[l]))
  {
    seq(|lo|, l requires 0 <= l < |lo| => IsMatch(nc, lo[l]))
  }
}
