/**
 * The lane manager of the batched search: start_flow16, match_process,
 * match_check_process and search_trie. Up to 32 keys are walked at once,
 * in two halves of 16 lanes; a lane that reaches a match node stores the
 * match index in its key's slot and is refilled with the next key not yet
 * started, until every key has been walked.
 */
module AclFlow {
  import opened AclNode
  import opened AclLanes
  import opened AclTrans
  import opened AclFetch
  import opened AclWalk

  /**
   * The registers of one half: input pointers (pdata, two registers of 8
   * pointers), match slots (idx), data indexes (di) and the current
   * transition record of each lane (tr_lo, tr_hi).
   */
  datatype Half = Half(pdata: seq<Key>, idx: seq<nat>, di: seq<nat>, lo: seq<Word>, hi: seq<Quad>)

  predicate Shaped(h: Half)
  {
    |h.pdata| == LANES && |h.idx| == LANES && |h.di| == LANES && |h.lo| == LANES && |h.hi| == LANES
  }

  function LaneTrans(h: Half, l: nat): Trans
    requires Shaped(h) && l < LANES
  {
    Trans(h.lo[l], h.hi[l])
  }

  /** What lane l reads in a round of the main loop: its next field if active, 0 otherwise. */
  function LaneInput(t: Trie, fm: Mask, h: Half, l: nat): Quad
    requires Shaped(h) && |fm| == LANES && l < LANES
  {
    if fm[l] then NextInput(t, h.pdata[l], h.di[l]) else ZeroQuad
  }

  function Min(a: nat, b: nat): nat
  {
    if a < b then a else b
  }

  /** The index bits of every lane: what a matched lane stores. */
  function IndexBits(nc: NodeConsts, lo: seq<Word>): (res: seq<Word>)
    ensures |res| == |lo| && forall l :: 0 <= l < |lo| ==> res[l] == NodeIndex(nc, lo[l])
  {
    seq<Word>(|lo|, l requires 0 <= l < |lo| => NodeIndex(nc, lo[l]))
  }

  /**
   * The masked scatter of match indexes, lanes taken in ascending order
   * (a later lane overwrites an earlier one with the same slot).
   */
  function Scatter(a: seq<Word>, base: nat, rm: Mask, idx: seq<nat>, res: seq<Word>): (r: seq<Word>)
    requires |idx| == |rm| && |res| == |rm|
    requires forall l :: 0 <= l < |rm| && rm[l] ==> base + idx[l] < |a|
    ensures |r| == |a|
    decreases |rm|
  {
    if rm == [] then a
    else
      var k := |rm| - 1;
      var a' := Scatter(a, base, rm[..k], idx[..k], res[..k]);
      if rm[k] then a'[base + idx[k] := res[k]] else a'
  }

  /**
   * When every scattered lane carries the right value for its slot, the
   * scatter leaves each slot of the region either unchanged or right, fills
   * the slot of every scattered lane, and leaves everything outside the
   * region alone.
   */
  lemma {:induction false} ScatterRight(a: seq<Word>, base: nat, rm: Mask, idx: seq<nat>, res: seq<Word>, want: seq<Word>)
    requires |idx| == |rm| && |res| == |rm| && base + |want| <= |a|
    requires forall l :: 0 <= l < |rm| && rm[l] ==> idx[l] < |want| && res[l] == want[idx[l]]
    ensures var r := Scatter(a, base, rm, idx, res);
      && (forall k :: 0 <= k < |want| ==> r[base + k] == a[base + k] || r[base + k] == want[k])
      && (forall l :: 0 <= l < |rm| && rm[l] ==> r[base + idx[l]] == want[idx[l]])
      && (forall s :: 0 <= s < |a| && !(base <= s < base + |want|) ==> r[s] == a[s])
    decreases |rm|
  {
    if rm != [] {
      var k := |rm| - 1;
      ScatterRight(a, base, rm[..k], idx[..k], res[..k], want);
    }
  }

  /**
   * The lanes of msk, in ascending lane order, have taken keys P, P+1, ...:
   * the key's slot, its input pointer and a data index of 0. The other lanes
   * keep their pointer, slot and data index.
   */
  ghost predicate Started(idata: seq<Key>, P: nat, msk: Mask, h: Half, h': Half)
    requires Shaped(h) && Shaped(h') && |msk| == LANES
  {
    && (forall l {:trigger h'.idx[l]} :: 0 <= l < LANES && msk[l] ==>
          && h'.idx[l] == P + Rank(msk, l) < |idata|
          && h'.pdata[l] == idata[h'.idx[l]]
          && h'.di[l] == 0)
    && (forall l :: 0 <= l < LANES && !msk[l] ==>
          h'.pdata[l] == h.pdata[l] && h'.idx[l] == h.idx[l] && h'.di[l] == h.di[l])
  }

  /**
   * Expanding the next num keys into the lanes in msk, with consecutive
   * slots from P and data indexes reset to 0, starts those lanes on keys
   * P .. P + num - 1 in lane order.
   */
  lemma {:induction false} StartedByExpand(idata: seq<Key>, P: nat, num: nat, msk: Mask, h: Half, h': Half, ni: seq<nat>)
    requires Shaped(h) && Shaped(h') && |msk| == LANES && num == Count(msk) <= LANES && P + num <= |idata|
    requires |ni| == LANES && forall i :: 0 <= i < LANES ==> ni[i] == P + i
    requires h'.pdata == Expand(h.pdata, msk, idata[P..P + num])
    requires h'.idx == Expand(h.idx, msk, ni)
    requires h'.di == Select(msk, seq<nat>(LANES, _ => 0), h.di)
    ensures Started(idata, P, msk, h, h')
  {
    forall l | 0 <= l < LANES && msk[l]
      ensures h'.idx[l] == P + Rank(msk, l) < |idata| && h'.pdata[l] == idata[h'.idx[l]] && h'.di[l] == 0
    {
      RankBelowCount(msk, l);
      assert h'.pdata[l] == idata[P..P + num][Rank(msk, l)];
    }
  }

  /** The lanes that are on a match node, among the active lanes. */
  predicate RmOk(nc: NodeConsts, h: Half, fm: Mask, rm: Mask)
    requires Shaped(h)
  {
    |fm| == LANES && |rm| == LANES &&
    forall l :: 0 <= l < LANES ==> (rm[l] <==> fm[l] && IsMatch(nc, h.lo[l]))
  }

  /** The expected result of every key: its scalar walk within F fields. */
  ghost predicate Searchable(t: Trie, idata: seq<Key>, want: seq<Word>, F: nat)
  {
    |want| == |idata| && forall k :: 0 <= k < |idata| ==> KeyFound(t, idata, want, F, k)
  }

  ghost predicate KeyFound(t: Trie, idata: seq<Key>, want: seq<Word>, F: nat, k: nat)
    requires k < |idata| == |want|
  {
    ScalarSearch(t, idata[k], F) == Some(want[k])
  }

  /**
   * The state of lane l. An inactive lane sits on the idle node. An active
   * lane walks a key already started (slot below P) through that key's
   * pointer; a lane just refilled (pending) has not read anything yet,
   * otherwise the scalar walk from its record and data index reaches the
   * key's expected result within g more fields.
   */
  ghost predicate LaneOk(t: Trie, idata: seq<Key>, want: seq<Word>, P: nat, h: Half, fm: Mask, pend: Mask, g: nat, l: nat)
    requires Shaped(h) && l < LANES && |fm| == LANES && |pend| == LANES && |want| == |idata|
  {
    if !fm[l] then !pend[l] && LaneTrans(h, l) == IdleTrans(t.nc)
    else
      && h.idx[l] < P && h.idx[l] < |idata|
      && h.pdata[l] == idata[h.idx[l]]
      && (if pend[l] then h.di[l] == 0
          else WalkFrom(t, LaneTrans(h, l), h.pdata[l], h.di[l], g) == Some(want[h.idx[l]]))
  }

  ghost predicate LanesOk(t: Trie, idata: seq<Key>, want: seq<Word>, P: nat, h: Half, fm: Mask, pend: Mask, g: nat)
  {
    && Shaped(h) && |fm| == LANES && |pend| == LANES && |want| == |idata| && P <= |idata|
    && forall l :: 0 <= l < LANES ==> LaneOk(t, idata, want, P, h, fm, pend, g, l)
  }

  /** Some active lane of a half is walking key k. */
  ghost predicate KeyActive(idx: seq<nat>, fm: Mask, k: nat)
    requires |idx| == LANES && |fm| == LANES
  {
    exists l :: 0 <= l < LANES && fm[l] && idx[l] == k
  }

  /** Every key started so far has its result in its slot, or is still being walked. */
  ghost predicate Covered(a: seq<Word>, base: nat, want: seq<Word>, P: nat, idx0: seq<nat>, fm0: Mask, idx1: seq<nat>, fm1: Mask)
    requires base + P <= |a| && P <= |want|
    requires |idx0| == LANES && |fm0| == LANES && |idx1| == LANES && |fm1| == LANES
  {
    forall k :: 0 <= k < P ==> Settled(a, base, want, idx0, fm0, idx1, fm1, k)
  }

  /** Key k has its result in its slot, or some active lane is walking it. */
  ghost predicate Settled(a: seq<Word>, base: nat, want: seq<Word>, idx0: seq<nat>, fm0: Mask, idx1: seq<nat>, fm1: Mask, k: nat)
    requires base + k < |a| && k < |want|
    requires |idx0| == LANES && |fm0| == LANES && |idx1| == LANES && |fm1| == LANES
  {
    a[base + k] == want[k] || KeyActive(idx0, fm0, k) || KeyActive(idx1, fm1, k)
  }

  /** Every slot outside this trie's stretch of the match buffer is as it was. */
  ghost predicate SameOutside(a: seq<Word>, b: seq<Word>, base: nat, total: nat)
  {
    |a| == |b| && forall s :: 0 <= s < |a| && !(base <= s < base + total) ==> a[s] == b[s]
  }

  lemma {:induction false} CoveredSwap(a: seq<Word>, base: nat, want: seq<Word>, P: nat, idx0: seq<nat>, fm0: Mask, idx1: seq<nat>, fm1: Mask)
    requires base + P <= |a| && P <= |want|
    requires |idx0| == LANES && |fm0| == LANES && |idx1| == LANES && |fm1| == LANES
    requires Covered(a, base, want, P, idx0, fm0, idx1, fm1)
    ensures Covered(a, base, want, P, idx1, fm1, idx0, fm0)
  {
    forall k | 0 <= k < P
      ensures Settled(a, base, want, idx1, fm1, idx0, fm0, k)
    {
      assert Settled(a, base, want, idx0, fm0, idx1, fm1, k);
    }
  }

  predicate AllActive(fm: Mask)
  {
    forall l :: 0 <= l < |fm| ==> fm[l]
  }

  /** A lane is only ever left inactive once every key has been started. */
  predicate Exhausted(fm0: Mask, fm1: Mask, P: nat, total: nat)
  {
    P == total || (AllActive(fm0) && AllActive(fm1))
  }

  /** The inactive lanes never report a match, so the match mask is the active matched lanes. */
  lemma {:induction false} RmOfMatchLanes(t: Trie, idata: seq<Key>, want: seq<Word>, P: nat, h: Half, fm: Mask, pend: Mask, g: nat)
    requires TrieOk(t) && LanesOk(t, idata, want, P, h, fm, pend, g)
    ensures RmOk(t.nc, h, fm, MatchLanes(t.nc, h.lo))
  {
    forall l | 0 <= l < LANES
      ensures MatchLanes(t.nc, h.lo)[l] <==> fm[l] && IsMatch(t.nc, h.lo[l])
    {
      assert LaneOk(t, idata, want, P, h, fm, pend, g, l);
    }
  }

  /** A lane on a match node holds the expected result of its key in its index bits. */
  lemma {:induction false} MatchedRight(t: Trie, idata: seq<Key>, want: seq<Word>, P: nat, h: Half, fm: Mask, rm: Mask, g: nat)
    requires LanesOk(t, idata, want, P, h, fm, Clear(LANES), g) && RmOk(t.nc, h, fm, rm)
    ensures forall l :: 0 <= l < LANES && rm[l] ==>
      fm[l] && h.idx[l] < P && NodeIndex(t.nc, h.lo[l]) == want[h.idx[l]]
  {
    forall l | 0 <= l < LANES && rm[l]
      ensures fm[l] && h.idx[l] < P && NodeIndex(t.nc, h.lo[l]) == want[h.idx[l]]
    {
      assert LaneOk(t, idata, want, P, h, fm, Clear(LANES), g, l);
    }
  }

  /** Lane states only need their pending mask up to its set lanes. */
  lemma {:induction false} LanesPendClear(t: Trie, idata: seq<Key>, want: seq<Word>, P: nat, h: Half, fm: Mask, p: Mask, q: Mask, g: nat)
    requires LanesOk(t, idata, want, P, h, fm, p, g) && Empty(p) && Empty(q) && |q| == LANES
    ensures LanesOk(t, idata, want, P, h, fm, q, g)
  {
    forall l | 0 <= l < LANES
      ensures LaneOk(t, idata, want, P, h, fm, q, g, l)
    {
      assert LaneOk(t, idata, want, P, h, fm, p, g, l);
    }
  }

  /** Starting more keys keeps every lane's state. */
  lemma {:induction false} LanesGrow(t: Trie, idata: seq<Key>, want: seq<Word>, P: nat, P': nat, h: Half, fm: Mask, pend: Mask, g: nat)
    requires LanesOk(t, idata, want, P, h, fm, pend, g) && P <= P' <= |idata|
    ensures LanesOk(t, idata, want, P', h, fm, pend, g)
  {
    forall l | 0 <= l < LANES
      ensures LaneOk(t, idata, want, P', h, fm, pend, g, l)
    {
      assert LaneOk(t, idata, want, P, h, fm, pend, g, l);
    }
  }

  /** A walk that finishes within g fields finishes within any larger bound. */
  lemma {:induction false} LanesLift(t: Trie, idata: seq<Key>, want: seq<Word>, P: nat, h: Half, fm: Mask, pend: Mask, g: nat, F: nat)
    requires LanesOk(t, idata, want, P, h, fm, pend, g) && g <= F
    ensures LanesOk(t, idata, want, P, h, fm, pend, F)
  {
    forall l | 0 <= l < LANES
      ensures LaneOk(t, idata, want, P, h, fm, pend, F, l)
    {
      assert LaneOk(t, idata, want, P, h, fm, pend, g, l);
      if fm[l] && !pend[l] {
        WalkFromMono(t, LaneTrans(h, l), h.pdata[l], h.di[l], g, F);
      }
    }
  }

  /**
   * match_process on a half with some matched lane: the matched lanes leave,
   * the refilled ones (rm') are pending on keys P .. P+n-1, all other lanes
   * keep their state.
   */
  lemma {:induction false} LanesAfterMatch(t: Trie, idata: seq<Key>, want: seq<Word>, P: nat, n: nat, P': nat,
      h: Half, fm: Mask, rm: Mask, h': Half, fm': Mask, rm': Mask, g: nat)
    requires LanesOk(t, idata, want, P, h, fm, Clear(LANES), g) && RmOk(t.nc, h, fm, rm)
    requires P' == P + n <= |idata| && Shaped(h')
    requires rm' == Keep(rm, n) && Count(rm') == n && fm' == Or(Xor(fm, rm), rm')
    requires forall l :: 0 <= l < LANES && rm[l] ==> LaneTrans(h', l) == IdleTrans(t.nc)
    requires forall l :: 0 <= l < LANES && !rm[l] ==> LaneTrans(h', l) == LaneTrans(h, l)
    requires Started(idata, P, rm', h, h')
    ensures LanesOk(t, idata, want, P', h', fm', rm', g)
  {
    forall l | 0 <= l < LANES
      ensures LaneOk(t, idata, want, P', h', fm', rm', g, l)
    {
      assert LaneOk(t, idata, want, P, h, fm, Clear(LANES), g, l);
      if rm'[l] {
        RankBelowCount(rm', l);
      }
    }
  }

  /**
   * The slots after match_process: the keys of the lanes that left have their
   * result, the new keys are being walked, the rest is as before.
   */
  lemma {:induction false} CoveredAfterMatch(a: seq<Word>, a': seq<Word>, base: nat, idata: seq<Key>, want: seq<Word>, P: nat, n: nat, P': nat,
      h: Half, fm: Mask, rm: Mask, res: seq<Word>, h': Half, fm': Mask, rm': Mask, idxo: seq<nat>, fmo: Mask)
    requires Shaped(h) && Shaped(h') && |fm| == LANES && |rm| == LANES && |res| == LANES
    requires |idxo| == LANES && |fmo| == LANES
    requires base + |want| <= |a| && P' == P + n <= |want| == |idata|
    requires forall l :: 0 <= l < LANES && rm[l] ==> h.idx[l] < |want| && res[l] == want[h.idx[l]]
    requires a' == Scatter(a, base, rm, h.idx, res)
    requires Covered(a, base, want, P, h.idx, fm, idxo, fmo)
    requires rm' == Keep(rm, n) && Count(rm') == n && fm' == Or(Xor(fm, rm), rm')
    requires Started(idata, P, rm', h, h')
    ensures Covered(a', base, want, P', h'.idx, fm', idxo, fmo)
  {
    ScatterRight(a, base, rm, h.idx, res, want);
    CoveredStep(a, a', base, want, P, n, P', h.idx, fm, rm, h'.idx, fm', rm', idxo, fmo);
  }

  lemma {:induction false} CoveredStep(a: seq<Word>, a': seq<Word>, base: nat, want: seq<Word>, P: nat, n: nat, P': nat,
      idx: seq<nat>, fm: Mask, rm: Mask, idx': seq<nat>, fm': Mask, rm': Mask, idxo: seq<nat>, fmo: Mask)
    requires |idx| == LANES && |fm| == LANES && |rm| == LANES && |idx'| == LANES && |idxo| == LANES && |fmo| == LANES
    requires |a'| == |a| && base + |want| <= |a| && P' == P + n <= |want|
    requires Covered(a, base, want, P, idx, fm, idxo, fmo)
    requires forall k :: 0 <= k < |want| ==> a'[base + k] == a[base + k] || a'[base + k] == want[k]
    requires forall l :: 0 <= l < LANES && rm[l] ==> idx[l] < |want| && a'[base + idx[l]] == want[idx[l]]
    requires rm' == Keep(rm, n) && Count(rm') == n && fm' == Or(Xor(fm, rm), rm')
    requires forall l {:trigger idx'[l]} :: 0 <= l < LANES && rm'[l] ==> idx'[l] == P + Rank(rm', l)
    requires forall l :: 0 <= l < LANES && !rm'[l] ==> idx'[l] == idx[l]
    ensures Covered(a', base, want, P', idx', fm', idxo, fmo)
  {
    forall k | 0 <= k < P'
      ensures Settled(a', base, want, idx', fm', idxo, fmo, k)
    {
      if k >= P {
        SettledStarted(a', base, want, P, n, idx', rm', fm', idxo, fmo, k);
      } else {
        assert Settled(a, base, want, idx, fm, idxo, fmo, k);
        SettledKept(a, a', base, want, idx, fm, rm, idx', fm', rm', idxo, fmo, k);
      }
    }
  }

  /** A key started by the refill is walked by the lane that took it. */
  lemma {:induction false} SettledStarted(a': seq<Word>, base: nat, want: seq<Word>, P: nat, n: nat,
      idx': seq<nat>, rm': Mask, fm': Mask, idxo: seq<nat>, fmo: Mask, k: nat)
    requires |idx'| == LANES && |rm'| == LANES && |fm'| == LANES && |idxo| == LANES && |fmo| == LANES
    requires base + |want| <= |a'| && P <= k < P + n <= |want|
    requires Count(rm') == n && forall l :: 0 <= l < LANES && rm'[l] ==> fm'[l]
    requires forall l {:trigger idx'[l]} :: 0 <= l < LANES && rm'[l] ==> idx'[l] == P + Rank(rm', l)
    ensures Settled(a', base, want, idx', fm', idxo, fmo, k)
  {
    RankOnto(rm', k - P);
    var l :| 0 <= l < LANES && rm'[l] && Rank(rm', l) == k - P;
    assert fm'[l] && idx'[l] == k;
  }

  /**
   * A key started earlier stays settled: its slot only changes to its
   * result, and a lane walking it either matched (and stored it) or keeps
   * walking it.
   */
  lemma {:induction false} SettledKept(a: seq<Word>, a': seq<Word>, base: nat, want: seq<Word>,
      idx: seq<nat>, fm: Mask, rm: Mask, idx': seq<nat>, fm': Mask, rm': Mask, idxo: seq<nat>, fmo: Mask, k: nat)
    requires |idx| == LANES && |fm| == LANES && |rm| == LANES && |idx'| == LANES && |fm'| == LANES && |rm'| == LANES
    requires |idxo| == LANES && |fmo| == LANES
    requires |a'| == |a| && base + |want| <= |a| && k < |want|
    requires Settled(a, base, want, idx, fm, idxo, fmo, k)
    requires a'[base + k] == a[base + k] || a'[base + k] == want[k]
    requires forall l :: 0 <= l < LANES && rm[l] ==> idx[l] < |want| && a'[base + idx[l]] == want[idx[l]]
    requires forall l :: 0 <= l < LANES && fm[l] && !rm[l] ==> fm'[l] && !rm'[l]
    requires forall l :: 0 <= l < LANES && !rm'[l] ==> idx'[l] == idx[l]
    ensures Settled(a', base, want, idx', fm', idxo, fmo, k)
  {
    if a[base + k] != want[k] && KeyActive(idx, fm, k) {
      var l :| 0 <= l < LANES && fm[l] && idx[l] == k;
      if !rm[l] {
        assert fm'[l] && idx'[l] == k;
      }
    }
  }

  /** Lanes are only dropped by match_process when the keys run out. */
  lemma {:induction false} ExhaustedAfterMatch(fm: Mask, rm: Mask, fmo: Mask, P: nat, total: nat, n: nat, P': nat, rm': Mask, fm': Mask)
    requires |fm| == LANES && |rm| == LANES && forall l :: 0 <= l < LANES && rm[l] ==> fm[l]
    requires Exhausted(fm, fmo, P, total) && P <= total
    requires n == Min(Count(rm), total - P) && rm' == Keep(rm, n) && fm' == Or(Xor(fm, rm), rm')
    requires P' == P + n
    ensures Exhausted(fm', fmo, P', total)
  {
    if P' < total {
      forall l | 0 <= l < LANES
        ensures fm'[l]
      {
        if rm[l] {
          RankBelowCount(rm, l);
        }
      }
    }
  }

  /**
   * first_trans16 on the pending lanes: each loads the record for its key's
   * first input byte, after which its scalar walk is the key's whole search.
   */
  lemma {:induction false} LanesAfterFirst(t: Trie, idata: seq<Key>, want: seq<Word>, P: nat, h: Half, fm: Mask, pend: Mask, F: nat,
      inp: seq<Quad>, h': Half)
    requires LanesOk(t, idata, want, P, h, fm, pend, F) && Searchable(t, idata, want, F)
    requires |inp| == LANES && Shaped(h') && h'.pdata == h.pdata && h'.idx == h.idx
    requires forall l :: 0 <= l < LANES && pend[l] ==>
      && inp[l] == LoadBytes(h.pdata[l], DataOffset(t, h.di[l]), t.firstLoadSz)
      && LaneTrans(h', l) == FirstStep(t, inp[l]) && h'.di[l] == h.di[l] + 1
    requires forall l :: 0 <= l < LANES && !pend[l] ==> LaneTrans(h', l) == LaneTrans(h, l) && h'.di[l] == h.di[l]
    ensures LanesOk(t, idata, want, P, h', fm, Clear(LANES), F)
  {
    forall l | 0 <= l < LANES
      ensures LaneOk(t, idata, want, P, h', fm, Clear(LANES), F, l)
    {
      assert LaneOk(t, idata, want, P, h, fm, pend, F, l);
      if pend[l] {
        assert LaneTrans(h', l) == FirstTrans(t, h.pdata[l]);
        assert KeyFound(t, idata, want, F, h.idx[l]);
      }
    }
  }

  /** An active lane that is not on a match node still has fuel left. */
  lemma {:induction false} FuelLeft(t: Trie, idata: seq<Key>, want: seq<Word>, P: nat, h: Half, fm: Mask, g: nat, l: nat)
    requires LanesOk(t, idata, want, P, h, fm, Clear(LANES), g)
    requires l < LANES && fm[l] && !IsMatch(t.nc, h.lo[l])
    ensures g >= 1
  {
    assert LaneOk(t, idata, want, P, h, fm, Clear(LANES), g, l);
  }

  /**
   * One round of the main loop: every active lane consumes its next 4-byte
   * field and is one field closer to its result; every inactive lane reads
   * zero and stays idle.
   */
  lemma {:induction false} LanesAfterChunk(t: Trie, idata: seq<Key>, want: seq<Word>, P: nat, h: Half, fm: Mask, g: nat, h': Half)
    requires TrieOk(t) && LanesOk(t, idata, want, P, h, fm, Clear(LANES), g) && g >= 1
    requires forall l :: 0 <= l < LANES && fm[l] ==> !IsMatch(t.nc, h.lo[l])
    requires Shaped(h') && h'.pdata == h.pdata && h'.idx == h.idx
    requires forall l {:trigger Chunk(t, LaneInput(t, fm, h, l), LaneTrans(h, l))} :: 0 <= l < LANES ==>
      LaneTrans(h', l) == Chunk(t, LaneInput(t, fm, h, l), LaneTrans(h, l))
    requires forall l :: 0 <= l < LANES ==> h'.di[l] == if fm[l] then h.di[l] + 1 else h.di[l]
    ensures LanesOk(t, idata, want, P, h', fm, Clear(LANES), g - 1)
  {
    var g' := g - 1;
    forall l | 0 <= l < LANES
      ensures LaneOk(t, idata, want, P, h', fm, Clear(LANES), g', l)
    {
      assert LaneOk(t, idata, want, P, h, fm, Clear(LANES), g, l);
      assert LaneTrans(h', l) == Chunk(t, LaneInput(t, fm, h, l), LaneTrans(h, l));
      if fm[l] {
        WalkFromNext(t, LaneTrans(h, l), h.pdata[l], h.di[l], g);
      } else {
        IdleChunk(t);
      }
    }
  }

  /**
   * Right after start_flow16 with all 16 lanes on keys P0 .. P0+15, every
   * lane is active and pending.
   */
  lemma {:induction false} LanesStarted(t: Trie, idata: seq<Key>, want: seq<Word>, P0: nat, P: nat, h: Half, h': Half, F: nat)
    requires Shaped(h) && Shaped(h') && Started(idata, P0, Full(LANES), h, h')
    requires P0 + LANES <= P <= |idata| == |want|
    ensures LanesOk(t, idata, want, P, h', Full(LANES), Full(LANES), F)
    ensures forall l :: 0 <= l < LANES ==> h'.idx[l] == P0 + l
  {
    forall l | 0 <= l < LANES
      ensures LaneOk(t, idata, want, P, h', Full(LANES), Full(LANES), F, l) && h'.idx[l] == P0 + l
    {
      RankFull(LANES, l);
    }
  }

  /** The 32 keys started first are all being walked. */
  lemma {:induction false} CoveredStart(a: seq<Word>, base: nat, want: seq<Word>, idx0: seq<nat>, idx1: seq<nat>)
    requires base + 2 * LANES <= |a| && 2 * LANES <= |want| && |idx0| == LANES && |idx1| == LANES
    requires forall l :: 0 <= l < LANES ==> idx0[l] == l && idx1[l] == LANES + l
    ensures Covered(a, base, want, 2 * LANES, idx0, Full(LANES), idx1, Full(LANES))
  {
    forall k | 0 <= k < 2 * LANES
      ensures Settled(a, base, want, idx0, Full(LANES), idx1, Full(LANES), k)
    {
      if k < LANES {
        assert idx0[k] == k;
      } else {
        assert idx1[k - LANES] == k;
      }
    }
  }

  /** With no lane active, every key started has its result in its slot. */
  lemma {:induction false} CoveredDone(a: seq<Word>, base: nat, want: seq<Word>, P: nat, total: nat, idx0: seq<nat>, fm0: Mask, idx1: seq<nat>, fm1: Mask)
    requires base + P <= |a| && P <= |want|
    requires |idx0| == LANES && |fm0| == LANES && |idx1| == LANES && |fm1| == LANES
    requires Covered(a, base, want, P, idx0, fm0, idx1, fm1) && Empty(fm0) && Empty(fm1)
    requires Exhausted(fm0, fm1, P, total)
    ensures P == total
    ensures forall k :: 0 <= k < P ==> a[base + k] == want[k]
  {
    assert !fm0[0];
    forall k | 0 <= k < P
      ensures a[base + k] == want[k]
    {
      assert Settled(a, base, want, idx0, fm0, idx1, fm1, k);
    }
  }

  class Flow {
    /** The trie being walked (trans, root_index, data_index, first_load_sz). */
    const t: Trie
    /** idata: the input pointers of all keys of the batch. */
    const idata: seq<Key>
    /** total_packets. */
    const total: nat
    /** The match buffer shared by all tries, and the offset of this trie's slots in it. */
    const matches: array<Word>
    const base: nat
    /** num_packets: the number of keys started so far. */
    var numPackets: nat

    ghost predicate Valid()
      reads this
    {
      |idata| == total && base + total <= matches.Length && numPackets <= total
    }

    /**
     * acl_set_flow_avx512 (not part of this model's source) prepares the
     * flow of one trie: no key started yet, slots at `base`.
     */
    constructor (t: Trie, idata: seq<Key>, matches: array<Word>, base: nat)
      requires base + |idata| <= matches.Length
      ensures this.t == t && this.idata == idata && this.total == |idata|
      ensures this.matches == matches && this.base == base
      ensures numPackets == 0 && Valid()
    {
      this.t := t;
      this.idata := idata;
      this.total := |idata|;
      this.matches := matches;
      this.base := base;
      this.numPackets := 0;
    }

    /**
     * start_flow16: the lanes of msk, in ascending lane order, take the next
     * `num` keys: their input pointer, their match slot num_packets + rank,
     * and a data index of 0. The two pointer registers are filled from
     * consecutive stretches of idata, the upper one starting after the
     * popcount of the lower 8 lanes. Other lanes keep their registers.
     */
    method StartFlow16(num: nat, msk: Mask, h: Half) returns (h': Half)
      requires Valid() && Shaped(h) && |msk| == LANES
      requires num == Count(msk) && numPackets + num <= total
      modifies this
      ensures Valid() && numPackets == old(numPackets) + num
      ensures Shaped(h') && h'.lo == h.lo && h'.hi == h.hi
      ensures Started(idata, old(numPackets), msk, h, h')
    {
      var P := numPackets;
      var m0, m1 := msk[..PTR_LANES], msk[PTR_LANES..];
      var n := Count(m0);
      CountBound(msk);
      ExpandSplit(h.pdata, msk, idata[P..P + num], PTR_LANES);
      var nd0 := idata[P..P + n];
      var nd1 := idata[P + n..P + num];
      assert nd0 == idata[P..P + num][..n] && nd1 == idata[P..P + num][n..];
      var pdata := Expand(h.pdata[..PTR_LANES], m0, nd0) + Expand(h.pdata[PTR_LANES..], m1, nd1);
      var ni := seq<nat>(LANES, i => P + i);
      var idx := Expand(h.idx, msk, ni);
      var di := Select(msk, seq<nat>(LANES, _ => 0), h.di);
      h' := Half(pdata, idx, di, h.lo, h.hi);
      StartedByExpand(idata, P, num, msk, h, h', ni);
      numPackets := numPackets + num;
    }

    /**
     * update_flow_mask (not part of this model's source): the matched lanes
     * leave the active mask, then as many of them as there are keys left,
     * lowest lanes first, are marked for refill and re-enter it.
     */
    method UpdateFlowMask(fm: Mask, rm: Mask) returns (n: nat, fm': Mask, rm': Mask)
      requires Valid() && |fm| == LANES && |rm| == LANES
      ensures n == Min(Count(rm), total - numPackets)
      ensures rm' == Keep(rm, n) && Count(rm') == n
      ensures fm' == Or(Xor(fm, rm), rm')
    {
      var k := Count(rm);
      n := total - numPackets;
      if n >= k {
        n := k;
      }
      rm' := Keep(rm, n);
      KeepCount(rm, n);
      fm' := Or(Xor(fm, rm), rm');
    }

    /** The masked scatter of match_process into this trie's slots. */
    method ScatterMatches(rm: Mask, idx: seq<nat>, res: seq<Word>)
      requires Valid() && |rm| == LANES && |idx| == LANES && |res| == LANES
      requires forall l :: 0 <= l < LANES && rm[l] ==> idx[l] < total
      modifies matches
      ensures matches[..] == Scatter(old(matches[..]), base, rm, idx, res)
    {
      for l := 0 to LANES
        invariant matches[..] == Scatter(old(matches[..]), base, rm[..l], idx[..l], res[..l])
      {
        assert rm[..l + 1][..l] == rm[..l] && idx[..l + 1][..l] == idx[..l] && res[..l + 1][..l] == res[..l];
        if rm[l] {
          matches[base + idx[l]] := res[l];
        }
      }
      assert rm[..LANES] == rm && idx[..LANES] == idx && res[..LANES] == res;
    }

    /**
     * match_process_avx512x16: with no matched lane nothing happens and 0 is
     * returned. Otherwise every matched lane stores its match index into its
     * key's slot and is reset to the idle node; the masks are updated and the
     * lanes marked for refill are started on the next keys. Returns the
     * number of keys started.
     */
    method MatchProcess(fm: Mask, rm: Mask, h: Half) returns (n: nat, fm': Mask, rm': Mask, h': Half)
      requires Valid() && Shaped(h) && |fm| == LANES && |rm| == LANES
      requires forall l :: 0 <= l < LANES && rm[l] ==> h.idx[l] < total
      modifies this, matches
      ensures Valid()
      ensures Empty(rm) ==>
        && n == 0 && fm' == fm && rm' == rm && h' == h
        && numPackets == old(numPackets) && matches[..] == old(matches[..])
      ensures !Empty(rm) ==>
        && n == Min(Count(rm), total - old(numPackets))
        && rm' == Keep(rm, n) && Count(rm') == n && fm' == Or(Xor(fm, rm), rm')
        && numPackets == old(numPackets) + n
        && matches[..] == Scatter(old(matches[..]), base, rm, h.idx, IndexBits(t.nc, h.lo))
        && Shaped(h')
        && (forall l :: 0 <= l < LANES && rm[l] ==> LaneTrans(h', l) == IdleTrans(t.nc))
        && (forall l :: 0 <= l < LANES && !rm[l] ==> LaneTrans(h', l) == LaneTrans(h, l))
        && Started(idata, old(numPackets), rm', h, h')
    {
      if Empty(rm) {
        return 0, fm, rm, h;
      }
      var res := IndexBits(t.nc, h.lo);
      var lo := Select(rm, seq<Word>(LANES, _ => t.nc.idle), h.lo);
      var hi := Select(rm, seq(LANES, _ => ZeroQuad), h.hi);
      ScatterMatches(rm, h.idx, res);
      n, fm', rm' := UpdateFlowMask(fm, rm);
      var hm := h.(lo := lo, hi := hi);
      h' := StartFlow16(n, rm', hm);
      assert Started(idata, old(numPackets), rm', hm, h');
    }

    /**
     * match_process for one half inside match_check_process, with the proof
     * that the invariants of the search hold of its result; `idxo` and `fmo`
     * are the other half's slots and active mask.
     */
    method MatchHalf(fm: Mask, rm: Mask, h: Half, ghost idxo: seq<nat>, ghost fmo: Mask, ghost want: seq<Word>, ghost g: nat)
      returns (n: nat, fm': Mask, rm': Mask, h': Half)
      requires Valid() && TrieOk(t)
      requires LanesOk(t, idata, want, numPackets, h, fm, Clear(LANES), g) && RmOk(t.nc, h, fm, rm)
      requires |idxo| == LANES && |fmo| == LANES
      requires Covered(matches[..], base, want, numPackets, h.idx, fm, idxo, fmo)
      requires Exhausted(fm, fmo, numPackets, total)
      modifies this, matches
      ensures Valid() && numPackets == old(numPackets) + n
      ensures LanesOk(t, idata, want, numPackets, h', fm', rm', g)
      ensures Covered(matches[..], base, want, numPackets, h'.idx, fm', idxo, fmo)
      ensures Exhausted(fm', fmo, numPackets, total)
      ensures SameOutside(matches[..], old(matches[..]), base, total)
      ensures n == 0 ==> Empty(rm') && forall l :: 0 <= l < LANES && fm'[l] ==> !IsMatch(t.nc, h'.lo[l])
    {
      ghost var P := numPackets;
      ghost var a := matches[..];
      MatchedRight(t, idata, want, P, h, fm, rm, g);
      n, fm', rm', h' := MatchProcess(fm, rm, h);
      if Empty(rm) {
        LanesPendClear(t, idata, want, P, h, fm, Clear(LANES), rm, g);
      } else {
        ScatterRight(a, base, rm, h.idx, IndexBits(t.nc, h.lo), want);
        LanesAfterMatch(t, idata, want, P, n, numPackets, h, fm, rm, h', fm', rm', g);
        CoveredAfterMatch(a, matches[..], base, idata, want, P, n, numPackets, h, fm, rm, IndexBits(t.nc, h.lo), h', fm', rm', idxo, fmo);
        ExhaustedAfterMatch(fm, rm, fmo, P, total, n, numPackets, rm', fm');
      }
    }

    /**
     * The refill step of match_check_process for one half: if match_process
     * started n != 0 keys, the refilled lanes (rm) read their first input
     * and take their first transition, and the match mask is recomputed;
     * otherwise nothing happens.
     */
    method FirstTransNew(n: nat, rm: Mask, fm: Mask, h: Half, ghost want: seq<Word>, ghost F: nat, ghost G: nat)
      returns (rm': Mask, h': Half)
      requires Valid() && TrieOk(t) && Searchable(t, idata, want, F)
      requires LanesOk(t, idata, want, numPackets, h, fm, rm, G)
      requires n != 0 ==> G == F
      requires n == 0 ==> Empty(rm) && forall l :: 0 <= l < LANES && fm[l] ==> !IsMatch(t.nc, h.lo[l])
      ensures LanesOk(t, idata, want, numPackets, h', fm, Clear(LANES), G)
      ensures RmOk(t.nc, h', fm, rm') && h'.idx == h.idx
      ensures n == 0 ==> Empty(rm')
    {
      if n != 0 {
        var inp, di := GetNextBytes(t, h.pdata, rm, h.di, t.firstLoadSz);
        var lo, hi := FirstTrans16(t, inp, rm, h.lo, h.hi);
        h' := h.(di := di, lo := lo, hi := hi);
        LanesAfterFirst(t, idata, want, numPackets, h, fm, rm, F, inp, h');
        RmOfMatchLanes(t, idata, want, numPackets, h', fm, Clear(LANES), F);
        rm' := MatchLanes(t.nc, h'.lo);
      } else {
        rm', h' := rm, h;
        LanesPendClear(t, idata, want, numPackets, h, fm, rm, Clear(LANES), G);
      }
    }

    /**
     * match_check_process_avx512x16x2: while some lane of either half is on
     * a match node, both halves store their matches and refill, and the
     * refilled lanes take their first transition. On return no active lane
     * is on a match node, every key started is either finished or being
     * walked, and only this trie's slots have been written. Keys started
     * here have the full bound F ahead of them; if none was started the
     * lanes keep the bound g they came with.
     */
    method MatchCheckProcess(fm0: Mask, fm1: Mask, h0: Half, h1: Half, ghost want: seq<Word>, ghost F: nat, ghost g: nat)
      returns (fm0': Mask, fm1': Mask, h0': Half, h1': Half, ghost G: nat)
      requires Valid() && TrieOk(t) && Searchable(t, idata, want, F) && g <= F
      requires LanesOk(t, idata, want, numPackets, h0, fm0, Clear(LANES), g)
      requires LanesOk(t, idata, want, numPackets, h1, fm1, Clear(LANES), g)
      requires Covered(matches[..], base, want, numPackets, h0.idx, fm0, h1.idx, fm1)
      requires Exhausted(fm0, fm1, numPackets, total)
      modifies this, matches
      ensures Valid() && old(numPackets) <= numPackets
      ensures G == if numPackets == old(numPackets) then g else F
      ensures LanesOk(t, idata, want, numPackets, h0', fm0', Clear(LANES), G)
      ensures LanesOk(t, idata, want, numPackets, h1', fm1', Clear(LANES), G)
      ensures Covered(matches[..], base, want, numPackets, h0'.idx, fm0', h1'.idx, fm1')
      ensures Exhausted(fm0', fm1', numPackets, total)
      ensures SameOutside(matches[..], old(matches[..]), base, total)
      ensures forall l :: 0 <= l < LANES ==>
        (fm0'[l] ==> !IsMatch(t.nc, h0'.lo[l])) && (fm1'[l] ==> !IsMatch(t.nc, h1'.lo[l]))
    {
      fm0', fm1', h0', h1' := fm0, fm1, h0, h1;
      RmOfMatchLanes(t, idata, want, numPackets, h0, fm0, Clear(LANES), g);
      RmOfMatchLanes(t, idata, want, numPackets, h1, fm1, Clear(LANES), g);
      var rm0 := MatchLanes(t.nc, h0.lo);
      var rm1 := MatchLanes(t.nc, h1.lo);
      G := g;
      while !Empty(rm0) || !Empty(rm1)
        invariant Valid() && old(numPackets) <= numPackets
        invariant G == if numPackets == old(numPackets) then g else F
        invariant LanesOk(t, idata, want, numPackets, h0', fm0', Clear(LANES), G)
        invariant LanesOk(t, idata, want, numPackets, h1', fm1', Clear(LANES), G)
        invariant RmOk(t.nc, h0', fm0', rm0) && RmOk(t.nc, h1', fm1', rm1)
        invariant Covered(matches[..], base, want, numPackets, h0'.idx, fm0', h1'.idx, fm1')
        invariant Exhausted(fm0', fm1', numPackets, total)
        invariant SameOutside(matches[..], old(matches[..]), base, total)
        decreases total - numPackets, (if Empty(rm0) then 0 else 1) + (if Empty(rm1) then 0 else 1)
      {
        fm0', fm1', rm0, rm1, h0', h1', G := MatchRound(fm0', fm1', rm0, rm1, h0', h1', want, F, G);
      }
    }

    /**
     * One pass of the loop of match_check_process: each half stores the
     * results of its matching lanes and refills them with new keys (the
     * second half sees the first half's refill), then the refilled lanes
     * make their first transition and the match mask is recomputed.
     */
    method MatchRound(fm0: Mask, fm1: Mask, rm0: Mask, rm1: Mask, h0: Half, h1: Half,
        ghost want: seq<Word>, ghost F: nat, ghost G: nat)
      returns (fm0': Mask, fm1': Mask, rm0': Mask, rm1': Mask, h0': Half, h1': Half, ghost G': nat)
      requires Valid() && TrieOk(t) && Searchable(t, idata, want, F) && G <= F
      requires LanesOk(t, idata, want, numPackets, h0, fm0, Clear(LANES), G)
      requires LanesOk(t, idata, want, numPackets, h1, fm1, Clear(LANES), G)
      requires RmOk(t.nc, h0, fm0, rm0) && RmOk(t.nc, h1, fm1, rm1)
      requires Covered(matches[..], base, want, numPackets, h0.idx, fm0, h1.idx, fm1)
      requires Exhausted(fm0, fm1, numPackets, total)
      modifies this, matches
      ensures Valid() && old(numPackets) <= numPackets
      ensures G' == if numPackets == old(numPackets) then G else F
      ensures numPackets == old(numPackets) ==> Empty(rm0') && Empty(rm1')
      ensures LanesOk(t, idata, want, numPackets, h0', fm0', Clear(LANES), G')
      ensures LanesOk(t, idata, want, numPackets, h1', fm1', Clear(LANES), G')
      ensures RmOk(t.nc, h0', fm0', rm0') && RmOk(t.nc, h1', fm1', rm1')
      ensures Covered(matches[..], base, want, numPackets, h0'.idx, fm0', h1'.idx, fm1')
      ensures Exhausted(fm0', fm1', numPackets, total)
      ensures SameOutside(matches[..], old(matches[..]), base, total)
    {
      var n0, n1;
      G' := G;
      n0, fm0', rm0', h0' := MatchHalf(fm0, rm0, h0, h1.idx, fm1, want, G);
      ghost var Pb := old(numPackets);
      LanesGrow(t, idata, want, Pb, numPackets, h1, fm1, Clear(LANES), G);
      CoveredSwap(matches[..], base, want, numPackets, h0'.idx, fm0', h1.idx, fm1);
      ghost var Pm := numPackets;
      n1, fm1', rm1', h1' := MatchHalf(fm1, rm1, h1, h0'.idx, fm0', want, G);
      LanesGrow(t, idata, want, Pm, numPackets, h0', fm0', rm0', G);
      CoveredSwap(matches[..], base, want, numPackets, h1'.idx, fm1', h0'.idx, fm0');
      if numPackets != old(numPackets) {
        LanesLift(t, idata, want, numPackets, h0', fm0', rm0', G, F);
        LanesLift(t, idata, want, numPackets, h1', fm1', rm1', G, F);
        G' := F;
      }
      rm0', h0' := FirstTransNew(n0, rm0', fm0', h0', want, F, G');
      rm1', h1' := FirstTransNew(n1, rm1', fm1', h1', want, F, G');
    }

    /**
     * One round of the main loop of search_trie for one half: the active
     * lanes load the next 4 bytes of their key (the inactive ones read 0)
     * and four transitions consume them, low byte first. The code interleaves
     * the calls of the two halves; they touch disjoint registers, so each
     * half is done here in one piece. Every lane's walk is one field further.
     */
    method NextChunk16(fm: Mask, h: Half, ghost want: seq<Word>, ghost g: nat) returns (h': Half)
      requires Valid() && TrieOk(t) && g >= 1
      requires LanesOk(t, idata, want, numPackets, h, fm, Clear(LANES), g)
      requires forall l :: 0 <= l < LANES && fm[l] ==> !IsMatch(t.nc, h.lo[l])
      ensures Shaped(h') && h'.pdata == h.pdata && h'.idx == h.idx
      ensures forall l {:trigger Chunk(t, LaneInput(t, fm, h, l), LaneTrans(h, l))} :: 0 <= l < LANES ==>
        LaneTrans(h', l) == Chunk(t, LaneInput(t, fm, h, l), LaneTrans(h, l))
      ensures forall l :: 0 <= l < LANES ==> h'.di[l] == if fm[l] then h.di[l] + 1 else h.di[l]
      ensures LanesOk(t, idata, want, numPackets, h', fm, Clear(LANES), g - 1)
    {
      var in0, di := GetNextBytes(t, h.pdata, fm, h.di, 4);
      var in1, lo1, hi1 := Transition16(t, in0, h.lo, h.hi);
      var in2, lo2, hi2 := Transition16(t, in1, lo1, hi1);
      var in3, lo3, hi3 := Transition16(t, in2, lo2, hi2);
      var in4, lo4, hi4 := Transition16(t, in3, lo3, hi3);
      h' := h.(di := di, lo := lo4, hi := hi4);
      assert forall l :: 0 <= l < LANES ==> LaneTrans(h', l) == Chunk(t, in0[l], LaneTrans(h, l));
      assert forall l :: 0 <= l < LANES ==> in0[l] == LaneInput(t, fm, h, l);
      LanesAfterChunk(t, idata, want, numPackets, h, fm, g, h');
    }

    /**
     * The start of search_trie_avx512x16x2: both halves take the first 16
     * keys each on all lanes, read their first input and take their first
     * transition. No slot is written yet.
     */
    method StartSearch(ghost want: seq<Word>, ghost F: nat) returns (fm0: Mask, fm1: Mask, h0: Half, h1: Half)
      requires Valid() && numPackets == 0 && total >= 2 * LANES
      requires TrieOk(t) && Searchable(t, idata, want, F)
      modifies this
      ensures Valid() && numPackets == 2 * LANES
      ensures LanesOk(t, idata, want, numPackets, h0, fm0, Clear(LANES), F)
      ensures LanesOk(t, idata, want, numPackets, h1, fm1, Clear(LANES), F)
      ensures Covered(matches[..], base, want, numPackets, h0.idx, fm0, h1.idx, fm1)
      ensures Exhausted(fm0, fm1, numPackets, total)
      ensures fm0 == Full(LANES) && fm1 == Full(LANES)
      ensures forall l :: 0 <= l < LANES ==> h0.idx[l] == l && h1.idx[l] == LANES + l
    {
      // the lane registers start out undefined; every lane is started below
      var regs := Half(seq(LANES, _ => []), seq(LANES, _ => 0), seq(LANES, _ => 0), seq(LANES, _ => 0), seq(LANES, _ => ZeroQuad));
      var full := Full(LANES);
      CountFull(LANES);
      h0 := StartFlow16(LANES, full, regs);
      h1 := StartFlow16(LANES, full, regs);
      LanesStarted(t, idata, want, 0, numPackets, regs, h0, F);
      LanesStarted(t, idata, want, LANES, numPackets, regs, h1, F);
      CoveredStart(matches[..], base, want, h0.idx, h1.idx);

      var in0, di0 := GetNextBytes(t, h0.pdata, full, h0.di, t.firstLoadSz);
      var in1, di1 := GetNextBytes(t, h1.pdata, full, h1.di, t.firstLoadSz);
      var lo0, hi0 := FirstTrans16(t, in0, full, h0.lo, h0.hi);
      var lo1, hi1 := FirstTrans16(t, in1, full, h1.lo, h1.hi);
      ghost var s0, s1 := h0, h1;
      h0 := h0.(di := di0, lo := lo0, hi := hi0);
      h1 := h1.(di := di1, lo := lo1, hi := hi1);
      LanesAfterFirst(t, idata, want, numPackets, s0, full, full, F, in0, h0);
      LanesAfterFirst(t, idata, want, numPackets, s1, full, full, F, in1, h1);
      fm0, fm1 := full, full;
    }

    /**
     * One round of the main loop of search_trie_avx512x16x2: both halves
     * consume the next 4 bytes of their keys, then match_check_process
     * stores the matches and refills. Either a key was started, and the
     * lanes have the full bound F ahead of them again, or none was and the
     * bound g went down by one.
     */
    method SearchRound(fm0: Mask, fm1: Mask, h0: Half, h1: Half, ghost want: seq<Word>, ghost F: nat, ghost g: nat)
      returns (fm0': Mask, fm1': Mask, h0': Half, h1': Half, ghost g': nat)
      requires Valid() && TrieOk(t) && Searchable(t, idata, want, F) && g <= F
      requires LanesOk(t, idata, want, numPackets, h0, fm0, Clear(LANES), g)
      requires LanesOk(t, idata, want, numPackets, h1, fm1, Clear(LANES), g)
      requires Covered(matches[..], base, want, numPackets, h0.idx, fm0, h1.idx, fm1)
      requires Exhausted(fm0, fm1, numPackets, total)
      requires forall l :: 0 <= l < LANES ==>
        (fm0[l] ==> !IsMatch(t.nc, h0.lo[l])) && (fm1[l] ==> !IsMatch(t.nc, h1.lo[l]))
      requires !Empty(fm0) || !Empty(fm1)
      modifies this, matches
      ensures Valid() && old(numPackets) <= numPackets && g' <= F
      ensures numPackets == old(numPackets) ==> g' < g
      ensures LanesOk(t, idata, want, numPackets, h0', fm0', Clear(LANES), g')
      ensures LanesOk(t, idata, want, numPackets, h1', fm1', Clear(LANES), g')
      ensures Covered(matches[..], base, want, numPackets, h0'.idx, fm0', h1'.idx, fm1')
      ensures Exhausted(fm0', fm1', numPackets, total)
      ensures SameOutside(matches[..], old(matches[..]), base, total)
      ensures forall l :: 0 <= l < LANES ==>
        (fm0'[l] ==> !IsMatch(t.nc, h0'.lo[l])) && (fm1'[l] ==> !IsMatch(t.nc, h1'.lo[l]))
    {
      if !Empty(fm0) {
        var l :| 0 <= l < LANES && fm0[l];
        FuelLeft(t, idata, want, numPackets, h0, fm0, g, l);
      } else {
        var l :| 0 <= l < LANES && fm1[l];
        FuelLeft(t, idata, want, numPackets, h1, fm1, g, l);
      }
      var c0 := NextChunk16(fm0, h0, want, g);
      var c1 := NextChunk16(fm1, h1, want, g);
      fm0', fm1', h0', h1', g' := MatchCheckProcess(fm0, fm1, c0, c1, want, F, g - 1);
    }

    /**
     * search_trie_avx512x16x2: walks every key of the batch through the
     * trie, 32 at a time, and leaves in each key's slot the match index its
     * scalar walk reaches. F bounds the number of 4-byte fields of every
     * walk (`want` is what those walks give); the slots of the other tries
     * are not touched. The batch holds at least 32 keys, as the dispatch
     * guarantees.
     */
    method SearchTrie(ghost want: seq<Word>, ghost F: nat)
      requires Valid() && numPackets == 0 && total >= 2 * LANES
      requires TrieOk(t) && Searchable(t, idata, want, F)
      modifies this, matches
      ensures Valid() && numPackets == total
      ensures forall k :: 0 <= k < total ==> matches[base + k] == want[k]
      ensures SameOutside(matches[..], old(matches[..]), base, total)
    {
      var fm0, fm1, h0, h1 := StartSearch(want, F);
      ghost var g: nat;
      fm0, fm1, h0, h1, g := MatchCheckProcess(fm0, fm1, h0, h1, want, F, F);
      while !Empty(fm0) || !Empty(fm1)
        invariant Valid() && g <= F
        invariant LanesOk(t, idata, want, numPackets, h0, fm0, Clear(LANES), g)
        invariant LanesOk(t, idata, want, numPackets, h1, fm1, Clear(LANES), g)
        invariant Covered(matches[..], base, want, numPackets, h0.idx, fm0, h1.idx, fm1)
        invariant Exhausted(fm0, fm1, numPackets, total)
        invariant SameOutside(matches[..], old(matches[..]), base, total)
        invariant forall l :: 0 <= l < LANES ==>
          (fm0[l] ==> !IsMatch(t.nc, h0.lo[l])) && (fm1[l] ==> !IsMatch(t.nc, h1.lo[l]))
        decreases total - numPackets, g
      {
        fm0, fm1, h0, h1, g := SearchRound(fm0, fm1, h0, h1, want, F, g);
      }
      CoveredDone(matches[..], base, want, numPackets, total, h0.idx, fm0, h1.idx, fm1);
    }
  }
}
