/**
 * Node encoding of the compiled ACL tries and the per-lane meaning of one
 * transition (calc_addr16 and the table load of transition16).
 *
 * A transition record is 64 bits: the low half holds the node type bits and
 * the index bits (next node, range base or match index), the high half holds
 * either the four DFA quarter bases (unsigned bytes) or four signed range
 * boundaries. Lane values are 32-bit words; arithmetic on them wraps modulo
 * 2^32 exactly where the vector instructions wrap.
 */
module AclNode {

  datatype Option<T> = None | Some(value: T)

  const WORD_RANGE: int := 0x1_0000_0000

  /** A 32-bit lane value. */
  type Word = x: int | 0 <= x < 0x1_0000_0000

  /** An 8-bit value: an input byte, or one byte of a lane. */
  type Byte = x: int | 0 <= x < 256

  /** Input keys are byte strings. */
  type Key = seq<Byte>

  /**
   * 32-bit wrap-around of a lane-wise add: the operands of every add in the
   * walk are a 32-bit value and a small offset, so one correction by 2^32
   * suffices (WrapMod shows it is the reduction modulo 2^32).
   */
  function Wrap(x: int): (r: Word)
    requires -WORD_RANGE <= x < 2 * WORD_RANGE
    ensures 0 <= x < WORD_RANGE ==> r == x
  {
    if x < 0 then x + WORD_RANGE else if x >= WORD_RANGE then x - WORD_RANGE else x
  }

  lemma {:induction false} WrapMod(x: int)
    requires -WORD_RANGE <= x < 2 * WORD_RANGE
    ensures Wrap(x) == x % WORD_RANGE
  {
  }

  /** Bitwise and of two non-negative values, bit by bit from the bottom. */
  function And(a: nat, b: nat): nat
    decreases a
  {
    if a == 0 || b == 0 then 0
    else 2 * And(a / 2, b / 2) + (if a % 2 == 1 && b % 2 == 1 then 1 else 0)
  }

  lemma {:induction false} AndComm(a: nat, b: nat)
    ensures And(a, b) == And(b, a)
    decreases a
  {
    if a != 0 && b != 0 {
      AndComm(a / 2, b / 2);
    }
  }

  lemma {:induction false} AndZero(a: nat)
    ensures And(a, 0) == 0 && And(0, a) == 0
  {
  }

  lemma {:induction false} AndAssoc(a: nat, b: nat, c: nat)
    ensures And(And(a, b), c) == And(a, And(b, c))
    decreases a
  {
    if a == 0 || b == 0 || c == 0 {
      AndZero(c);
      AndZero(a);
      AndZero(And(a, b));
      AndZero(And(b, c));
    } else {
      AndAssoc(a / 2, b / 2, c / 2);
      var ab := And(a, b);
      var bc := And(b, c);
      assert ab / 2 == And(a / 2, b / 2) && ab % 2 == (if a % 2 == 1 && b % 2 == 1 then 1 else 0);
      assert bc / 2 == And(b / 2, c / 2) && bc % 2 == (if b % 2 == 1 && c % 2 == 1 then 1 else 0);
      if ab == 0 {
        assert And(a / 2, b / 2) == 0;
        AndZero(c / 2);
        assert And(ab, c) == 0;
        if bc != 0 {
          assert And(a, bc) == 2 * And(a / 2, bc / 2) + (if a % 2 == 1 && bc % 2 == 1 then 1 else 0);
        }
      } else if bc == 0 {
        assert And(b / 2, c / 2) == 0;
        AndZero(a / 2);
        assert And(a, bc) == 0;
      }
    }
  }

  /** One 64-bit transition record, split into its two 32-bit halves. */
  datatype Trans = Trans(lo: Word, hi: Quad)

  /**
   * A 32-bit lane value as its four bytes, byte 0 least significant: the
   * high half of a record, which the code only reads byte-wise (a byte
   * shuffle for DFA nodes, a per-byte compare for range nodes), and the
   * input register of a lane, whose low byte is consumed and which is then
   * shifted right by 8.
   */
  datatype Quad = Quad(b0: Byte, b1: Byte, b2: Byte, b3: Byte)

  /** The numeric value of a lane held as four bytes. */
  function QuadValue(q: Quad): nat
  {
    q.b0 + 256 * q.b1 + 65536 * q.b2 + 16777216 * q.b3
  }

  /** A right shift of a lane by 8 bits. */
  function Shr8(q: Quad): (r: Quad)
    ensures r.b3 == 0
  {
    Quad(q.b1, q.b2, q.b3, 0)
  }

  /**
   * The byte view agrees with the numeric one: the low byte is the value
   * modulo 256 (`in & 0xff`) and Shr8 divides by 256 (`in >> 8`).
   */
  lemma {:induction false} Shr8Divides(q: Quad)
    ensures QuadValue(q) < WORD_RANGE
    ensures QuadValue(q) % 256 == q.b0
    ensures QuadValue(Shr8(q)) == QuadValue(q) / 256
  {
    var rest := q.b1 + 256 * q.b2 + 65536 * q.b3;
    assert QuadValue(q) == q.b0 + 256 * rest;
    assert QuadValue(Shr8(q)) == rest;
  }

  /** The all-zero high half. */
  const ZeroQuad := Quad(0, 0, 0, 0)

  /**
   * The transition table as the gathers see it: the record stored at each
   * 32-bit index. The table is read-only and shared by all lanes.
   */
  type Table = Word -> Trans

  /**
   * The node-encoding constants RTE_ACL_NODE_INDEX, RTE_ACL_NODE_MATCH and
   * RTE_ACL_IDLE_NODE. Their values are defined outside this core, so they
   * are parameters of the model.
   */
  datatype NodeConsts = NodeConsts(index: Word, matchBit: Word, idle: Word)

  /**
   * What the code relies on: the match bits are not index bits, some match
   * bit exists, and the idle node carries no match bit. The idle node may be
   * of either kind (DFA or range).
   */
  predicate ValidConsts(nc: NodeConsts)
  {
    && And(nc.matchBit, nc.index) == 0
    && nc.matchBit != 0
    && !IsMatch(nc, nc.idle)
  }

  /** _mm512_test_epi32_mask against the match mask, for one lane. */
  predicate IsMatch(nc: NodeConsts, lo: Word)
  {
    And(lo, nc.matchBit) != 0
  }

  lemma {:induction false} AndBound(a: nat, b: nat)
    ensures And(a, b) <= a
    decreases a
  {
    if a != 0 && b != 0 {
      AndBound(a / 2, b / 2);
    }
  }

  /** The index bits of a low half: next node, range base or match index. */
  function NodeIndex(nc: NodeConsts, lo: Word): Word
  {
    AndBound(lo, nc.index);
    And(lo, nc.index)
  }

  /**
   * A DFA node has all non-index bits of its low half clear
   * (`tr_lo & ~INDEX == 0`, stated as "only index bits are set").
   */
  predicate IsDfa(nc: NodeConsts, lo: Word)
  {
    NodeIndex(nc, lo) == lo
  }

  /** A node with only index bits set (a DFA node) never reports a match. */
  lemma {:induction false} DfaNeverMatches(nc: NodeConsts, lo: Word)
    requires And(nc.matchBit, nc.index) == 0 && IsDfa(nc, lo)
    ensures !IsMatch(nc, lo)
  {
    assert And(lo, nc.index) == lo;
    calc {
      And(lo, nc.matchBit);
      And(And(lo, nc.index), nc.matchBit);
      { AndAssoc(lo, nc.index, nc.matchBit); }
      And(lo, And(nc.index, nc.matchBit));
      { AndComm(nc.index, nc.matchBit); }
      And(lo, 0);
      { AndZero(lo); }
      0;
    }
  }

  /** Byte k of the high half, as the DFA byte shuffle selects it. */
  function ByteAt(q: Quad, k: int): Byte
    requires 0 <= k < 4
  {
    if k == 0 then q.b0 else if k == 1 then q.b1 else if k == 2 then q.b2 else q.b3
  }

  /** A byte read as a signed 8-bit value, as the byte compare reads it. */
  function Signed(b: Byte): (r: int)
    ensures -128 <= r < 128
    ensures b < 128 <==> r >= 0
  {
    if b < 128 then b else b - 256
  }

  /** The compare `in > tr_hi` of the range calculation, for byte k. */
  predicate Above(b: Byte, hi: Quad, k: int)
    requires 0 <= k < 4
  {
    Signed(b) > Signed(ByteAt(hi, k))
  }

  /**
   * Range (quad/single) node offset as the code computes it: the compare
   * mask has 0xff in every byte whose boundary is below the input; lzcnt of
   * that word divided by 8 is the number of clear top bytes, and the offset
   * is 4 minus that, i.e. one more than the highest byte whose boundary is
   * below the input.
   */
  function QuadOffset(b: Byte, hi: Quad): nat
  {
    if Above(b, hi, 3) then 4
    else if Above(b, hi, 2) then 3
    else if Above(b, hi, 1) then 2
    else if Above(b, hi, 0) then 1
    else 0
  }

  /** The number of boundary bytes of `hi` that are (signed) strictly below `b`. */
  function CountBelow(b: Byte, hi: Quad): nat
  {
    (if Above(b, hi, 0) then 1 else 0) + (if Above(b, hi, 1) then 1 else 0)
    + (if Above(b, hi, 2) then 1 else 0) + (if Above(b, hi, 3) then 1 else 0)
  }

  /** Range boundaries ordered from -128 to 127, as the compiler lays them out. */
  predicate Ascending(hi: Quad)
  {
    Signed(hi.b0) <= Signed(hi.b1) <= Signed(hi.b2) <= Signed(hi.b3)
  }

  /** With ascending boundaries the lzcnt trick counts the boundaries below the input. */
  lemma {:induction false} QuadOffsetCountsBelow(b: Byte, hi: Quad)
    requires Ascending(hi)
    ensures QuadOffset(b, hi) == CountBelow(b, hi) <= 4
  {
  }

  /** Whatever the boundaries, the range offset stays in 0..4 and never undercounts. */
  lemma {:induction false} QuadOffsetBound(b: Byte, hi: Quad)
    ensures CountBelow(b, hi) <= QuadOffset(b, hi) <= 4
  {
  }

  /** The ascending order is needed: with unordered boundaries the offset is not the count. */
  lemma {:induction false} UnorderedBoundsMiscount()
    ensures !Ascending(Quad(0x05, 0xf6, 0x7f, 0x7f))
    ensures QuadOffset(0, Quad(0x05, 0xf6, 0x7f, 0x7f)) == 2
    ensures CountBelow(0, Quad(0x05, 0xf6, 0x7f, 0x7f)) == 1
  {
  }

  /**
   * DFA offset: the input byte minus the byte of `hi` selected by the top two
   * bits of the input. It may be negative; the address add wraps.
   */
  function DfaOffset(b: Byte, hi: Quad): int
  {
    b - ByteAt(hi, b / 64)
  }

  /**
   * calc_addr16 for one lane: the next index is the node's index bits plus
   * the DFA or the range offset for the lane's low input byte, blended on
   * the node type, added modulo 2^32.
   */
  function CalcAddr(nc: NodeConsts, inp: Quad, tr: Trans): Word
  {
    var b := inp.b0;
    Wrap(NodeIndex(nc, tr.lo) + (if IsDfa(nc, tr.lo) then DfaOffset(b, tr.hi) else QuadOffset(b, tr.hi)))
  }

  /**
   * DFA lane: the next index is the node's index bits plus the input byte
   * minus the byte of `hi` picked by the input's top two bits.
   */
  lemma {:induction false} CalcAddrDfa(nc: NodeConsts, inp: Quad, tr: Trans)
    requires IsDfa(nc, tr.lo)
    ensures var b := inp.b0;
      CalcAddr(nc, inp, tr) == (tr.lo + b - ByteAt(tr.hi, b / 64)) % WORD_RANGE
  {
    WrapMod(tr.lo + DfaOffset(inp.b0, tr.hi));
  }

  /**
   * Range lane: with ascending boundaries the next index is the node's index
   * bits plus the number of boundaries below the input byte, at most 4.
   */
  lemma {:induction false} CalcAddrRange(nc: NodeConsts, inp: Quad, tr: Trans)
    requires !IsDfa(nc, tr.lo) && Ascending(tr.hi)
    ensures CalcAddr(nc, inp, tr) == (NodeIndex(nc, tr.lo) + CountBelow(inp.b0, tr.hi)) % WORD_RANGE
    ensures CountBelow(inp.b0, tr.hi) <= 4
  {
    QuadOffsetCountsBelow(inp.b0, tr.hi);
    WrapMod(NodeIndex(nc, tr.lo) + CountBelow(inp.b0, tr.hi));
  }

  /** One transition of one lane: compute the address, load the record there. */
  function Step(nc: NodeConsts, trans: Table, inp: Quad, tr: Trans): Trans
  {
    trans(CalcAddr(nc, inp, tr))
  }

  /** The record of the idle sentinel: the idle node with a zero high half. */
  function IdleTrans(nc: NodeConsts): Trans
  {
    Trans(nc.idle, ZeroQuad)
  }

  /**
   * The idle sentinel must be a fixed point of the table: the record at the
   * idle node's index bits is the idle node with a zero high half.
   */
  predicate IdleFixpoint(nc: NodeConsts, trans: Table)
  {
    trans(NodeIndex(nc, nc.idle)) == IdleTrans(nc)
  }

  /**
   * The address an idle lane computes from a zero input byte is the idle
   * node's own index bits, whether the idle node is a DFA node (offset
   * 0 - hi.b0 = 0) or a range node (no boundary of a zero high half is
   * below 0).
   */
  lemma {:induction false} IdleAddr(nc: NodeConsts, inp: Quad)
    requires inp.b0 == 0
    ensures CalcAddr(nc, inp, IdleTrans(nc)) == NodeIndex(nc, nc.idle)
  {
    var tr := IdleTrans(nc);
    var off := if IsDfa(nc, tr.lo) then DfaOffset(inp.b0, tr.hi) else QuadOffset(inp.b0, tr.hi);
    assert off == 0 by {
      if IsDfa(nc, tr.lo) {
        assert DfaOffset(inp.b0, ZeroQuad) == 0;
      } else {
        assert QuadOffset(inp.b0, ZeroQuad) == 0;
      }
    }
    assert CalcAddr(nc, inp, tr) == Wrap(NodeIndex(nc, tr.lo) + off);
  }

  /** An idle lane fed a zero input byte stays idle and never reports a match. */
  lemma {:induction false} IdleStaysIdle(nc: NodeConsts, trans: Table, inp: Quad)
    requires ValidConsts(nc) && IdleFixpoint(nc, trans) && inp.b0 == 0
    ensures Step(nc, trans, inp, IdleTrans(nc)) == IdleTrans(nc)
    ensures !IsMatch(nc, nc.idle)
  {
    IdleAddr(nc, inp);
  }
}
