/**
 * The per-key reference walk: what the batched search computes for one
 * key, written as a plain recursion over the key's fields. The first field
 * is read with the trie's first load size and only its low byte is used;
 * every later field is a 4-byte load consumed by four transitions, after
 * which the node is tested for a match.
 */
module AclWalk {
  import opened AclNode
  import opened AclTrans
  import opened AclFetch

  /** The first transition of a key: root plus the first input byte. */
  function FirstTrans(t: Trie, key: Key): Trans
  {
    FirstStep(t, LoadBytes(key, DataOffset(t, 0), t.firstLoadSz))
  }

  /** Four transitions on the four bytes of a lane input, low byte first. */
  function Chunk(t: Trie, w: Quad, tr: Trans): Trans
  {
    var s1 := Step(t.nc, t.trans, w, tr);
    var s2 := Step(t.nc, t.trans, Shr8(w), s1);
    var s3 := Step(t.nc, t.trans, Shr8(Shr8(w)), s2);
    Step(t.nc, t.trans, Shr8(Shr8(Shr8(w))), s3)
  }

  /** The 4-byte input of field d of a key. */
  function NextInput(t: Trie, key: Key, d: nat): Quad
  {
    Load4(key, DataOffset(t, d))
  }

  /**
   * The walk from node tr with field d next: a match node yields its match
   * index; otherwise the next field is consumed. `fuel` bounds the number of
   * 4-byte fields (the tries are acyclic, so a large enough bound always
   * suffices); running out of it yields None.
   */
  function WalkFrom(t: Trie, tr: Trans, key: Key, d: nat, fuel: nat): Option<Word>
    decreases fuel
  {
    if IsMatch(t.nc, tr.lo) then Some(NodeIndex(t.nc, tr.lo))
    else if fuel == 0 then None
    else WalkFrom(t, Chunk(t, NextInput(t, key, d), tr), key, d + 1, fuel - 1)
  }

  /** The scalar search of one key in one trie. */
  function ScalarSearch(t: Trie, key: Key, fuel: nat): Option<Word>
  {
    WalkFrom(t, FirstTrans(t, key), key, 1, fuel)
  }

  /** More fuel never changes a walk that already finished. */
  lemma {:induction false} WalkFromMono(t: Trie, tr: Trans, key: Key, d: nat, fuel: nat, fuel': nat)
    requires fuel <= fuel' && WalkFrom(t, tr, key, d, fuel).Some?
    ensures WalkFrom(t, tr, key, d, fuel') == WalkFrom(t, tr, key, d, fuel)
    decreases fuel
  {
    if !IsMatch(t.nc, tr.lo) {
      WalkFromNext(t, tr, key, d, fuel);
      WalkFromMono(t, Chunk(t, NextInput(t, key, d), tr), key, d + 1, fuel - 1, fuel' - 1);
      WalkFromUnfold(t, tr, key, d, fuel');
    }
  }

  /** A finished walk that is not on a match node takes one more field with one less fuel. */
  lemma {:induction false} WalkFromNext(t: Trie, tr: Trans, key: Key, d: nat, fuel: nat)
    requires !IsMatch(t.nc, tr.lo) && WalkFrom(t, tr, key, d, fuel).Some?
    ensures fuel >= 1
    ensures WalkFrom(t, Chunk(t, NextInput(t, key, d), tr), key, d + 1, fuel - 1) == WalkFrom(t, tr, key, d, fuel)
  {
  }

  /** A walk not on a match node and with fuel left goes on with the next field. */
  lemma {:induction false} WalkFromUnfold(t: Trie, tr: Trans, key: Key, d: nat, fuel: nat)
    requires !IsMatch(t.nc, tr.lo) && fuel >= 1
    ensures WalkFrom(t, tr, key, d, fuel) == WalkFrom(t, Chunk(t, NextInput(t, key, d), tr), key, d + 1, fuel - 1)
  {
  }

  /**
   * The record a walk stops on: the first match node it reaches, or the
   * record it holds when the fuel runs out.
   */
  function WalkEnd(t: Trie, tr: Trans, key: Key, d: nat, fuel: nat): Trans
    decreases fuel
  {
    if IsMatch(t.nc, tr.lo) || fuel == 0 then tr
    else WalkEnd(t, Chunk(t, NextInput(t, key, d), tr), key, d + 1, fuel - 1)
  }

  /**
   * A walk finishes exactly when the record it stops on is a match node,
   * and then its result is that node's index bits.
   */
  lemma {:induction false} WalkFromResult(t: Trie, tr: Trans, key: Key, d: nat, fuel: nat)
    ensures WalkFrom(t, tr, key, d, fuel).Some? <==> IsMatch(t.nc, WalkEnd(t, tr, key, d, fuel).lo)
    ensures WalkFrom(t, tr, key, d, fuel).Some? ==>
      WalkFrom(t, tr, key, d, fuel).value == NodeIndex(t.nc, WalkEnd(t, tr, key, d, fuel).lo)
    decreases fuel
  {
    if !IsMatch(t.nc, tr.lo) && fuel > 0 {
      WalkFromResult(t, Chunk(t, NextInput(t, key, d), tr), key, d + 1, fuel - 1);
    }
  }

  /** A transition only looks at the low byte of its lane input. */
  lemma {:induction false} StepLowByte(nc: NodeConsts, trans: Table, inp: Quad, tr: Trans)
    ensures Step(nc, trans, inp, tr) == Step(nc, trans, ByteLane(inp.b0), tr)
  {
  }

  /**
   * A field of four bytes is consumed byte by byte in key order: the chunk
   * over a 4-byte load is four transitions on the key's next four bytes.
   */
  lemma {:induction false} ChunkReadsBytesInOrder(t: Trie, key: Key, off: nat, tr: Trans)
    ensures Chunk(t, Load4(key, off), tr)
      == Step(t.nc, t.trans, ByteLane(KeyByte(key, off + 3)),
           Step(t.nc, t.trans, ByteLane(KeyByte(key, off + 2)),
             Step(t.nc, t.trans, ByteLane(KeyByte(key, off + 1)),
               Step(t.nc, t.trans, ByteLane(KeyByte(key, off)), tr))))
  {
    var w := Load4(key, off);
    var s1 := Step(t.nc, t.trans, w, tr);
    var s2 := Step(t.nc, t.trans, Shr8(w), s1);
    var s3 := Step(t.nc, t.trans, Shr8(Shr8(w)), s2);
    StepLowByte(t.nc, t.trans, w, tr);
    StepLowByte(t.nc, t.trans, Shr8(w), s1);
    StepLowByte(t.nc, t.trans, Shr8(Shr8(w)), s2);
    StepLowByte(t.nc, t.trans, Shr8(Shr8(Shr8(w))), s3);
  }

  /** An idle lane fed a zero input chunk stays idle. */
  lemma {:induction false} IdleChunk(t: Trie)
    requires TrieOk(t)
    ensures Chunk(t, ZeroQuad, IdleTrans(t.nc)) == IdleTrans(t.nc)
  {
    IdleStaysIdle(t.nc, t.trans, ZeroQuad);
  }
}
