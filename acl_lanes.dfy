/**
 * Vector lanes and lane masks. A 512-bit register of 32-bit values is a
 * sequence of 16 lanes; a 16-bit mask register is a sequence of 16 booleans,
 * lane 0 first. This module gives the mask intrinsics their per-lane
 * meaning: popcount, the rank of a lane among the set lanes (what the
 * expand instructions use), expand itself, and the masked move.
 */
module AclLanes {

  /** MASK16_BIT: lanes per register. */
  const LANES: nat := 16

  /** ZMM_PTR_NUM: 64-bit pointers per register, so one pdata register per 8 lanes. */
  const PTR_LANES: nat := 8

  type Mask = seq<bool>

  /** The mask with every lane set (UINT16_MAX). */
  function Full(n: nat): (m: Mask)
    ensures |m| == n && forall l :: 0 <= l < n ==> m[l]
  {
    seq(n, l => true)
  }

  /** The mask with no lane set. */
  function Clear(n: nat): (m: Mask)
    ensures |m| == n && forall l :: 0 <= l < n ==> !m[l]
  {
    seq(n, l => false)
  }

  predicate Empty(m: Mask)
  {
    forall l :: 0 <= l < |m| ==> !m[l]
  }

  /** __builtin_popcount of a mask. */
  function Count(m: Mask): nat
  {
    if m == [] then 0 else Count(m[..|m| - 1]) + (if m[|m| - 1] then 1 else 0)
  }

  /** The number of set lanes below lane l: the slot the expand instructions give lane l. */
  function Rank(m: Mask, l: nat): nat
    requires l <= |m|
  {
    Count(m[..l])
  }

  lemma {:induction false} RankStep(m: Mask, l: nat)
    requires l < |m|
    ensures Rank(m, l + 1) == Rank(m, l) + (if m[l] then 1 else 0)
  {
    assert m[..l + 1][..l] == m[..l];
  }

  /** All lanes of a full mask are counted. */
  lemma {:induction false} CountFull(n: nat)
    ensures Count(Full(n)) == n
  {
    if n > 0 {
      assert Full(n)[..n - 1] == Full(n - 1);
      CountFull(n - 1);
    }
  }

  /** In a full mask every lane's rank is its lane number. */
  lemma {:induction false} RankFull(n: nat, l: nat)
    requires l <= n
    ensures Rank(Full(n), l) == l
  {
    assert Full(n)[..l] == Full(l);
    CountFull(l);
  }

  lemma {:induction false} CountBound(m: Mask)
    ensures Count(m) <= |m|
    decreases |m|
  {
    if m != [] {
      CountBound(m[..|m| - 1]);
    }
  }

  /** An empty mask has no set lanes to count, and conversely. */
  lemma {:induction false} CountZero(m: Mask)
    ensures Count(m) == 0 <==> Empty(m)
    decreases |m|
  {
    if m != [] {
      CountZero(m[..|m| - 1]);
      if Count(m) == 0 {
        forall l | 0 <= l < |m| ensures !m[l] {
          if l < |m| - 1 {
            assert m[..|m| - 1][l] == m[l];
          }
        }
      } else {
        if !m[|m| - 1] {
          var l :| 0 <= l < |m| - 1 && m[..|m| - 1][l];
          assert m[l];
        }
      }
    }
  }

  lemma {:induction false} RankMono(m: Mask, i: nat, j: nat)
    requires i <= j <= |m|
    ensures Rank(m, i) <= Rank(m, j)
    ensures Rank(m, j) - Rank(m, i) <= j - i
    decreases j - i
  {
    if i < j {
      RankStep(m, j - 1);
      RankMono(m, i, j - 1);
    }
  }

  /** Set lanes get distinct, increasing ranks. */
  lemma {:induction false} RankStrict(m: Mask, i: nat, j: nat)
    requires i < j <= |m| && m[i]
    ensures Rank(m, i) < Rank(m, j)
  {
    RankStep(m, i);
    RankMono(m, i + 1, j);
  }

  /** The rank of a set lane is below the popcount. */
  lemma {:induction false} RankBelowCount(m: Mask, l: nat)
    requires l < |m| && m[l]
    ensures Rank(m, l) < Count(m)
  {
    RankStrict(m, l, |m|);
    assert m[..|m|] == m;
  }

  /** Every slot below the popcount is the rank of some set lane. */
  lemma {:induction false} RankOnto(m: Mask, r: nat)
    requires r < Count(m)
    ensures exists l :: 0 <= l < |m| && m[l] && Rank(m, l) == r
    decreases |m|
  {
    var k := |m| - 1;
    assert m[..k + 1] == m;
    RankStep(m, k);
    if m[k] && Rank(m, k) == r {
    } else {
      var p := m[..k];
      assert Rank(m, k) == Count(p);
      RankOnto(p, r);
      var l :| 0 <= l < |p| && p[l] && Rank(p, l) == r;
      assert p[..l] == m[..l];
      assert m[l];
    }
  }

  /** Popcount of a concatenation: the two halves of a 16-lane mask count separately. */
  lemma {:induction false} CountAppend(a: Mask, b: Mask)
    ensures Count(a + b) == Count(a) + Count(b)
    decreases |b|
  {
    if b == [] {
      assert a + b == a;
    } else {
      var b' := b[..|b| - 1];
      assert (a + b)[..|a + b| - 1] == a + b';
      CountAppend(a, b');
    }
  }

  /** Ranks in the upper part of a split mask continue after the lower part's popcount. */
  lemma {:induction false} RankSplit(m: Mask, k: nat, l: nat)
    requires k <= l <= |m|
    ensures Rank(m, l) == Count(m[..k]) + Rank(m[k..], l - k)
  {
    assert m[..l] == m[..k] + m[k..][..l - k];
    CountAppend(m[..k], m[k..][..l - k]);
  }

  /**
   * Expand: the set lanes of m take consecutive elements of src in lane
   * order, the other lanes keep their previous value.
   */
  function Expand<T>(prev: seq<T>, m: Mask, src: seq<T>): (r: seq<T>)
    requires |prev| == |m| && Count(m) <= |src|
    ensures |r| == |m|
    ensures forall l :: 0 <= l < |m| && !m[l] ==> r[l] == prev[l]
    ensures forall l {:trigger r[l]} :: 0 <= l < |m| && m[l] ==> Rank(m, l) < |src| && r[l] == src[Rank(m, l)]
  {
    var r := seq(|m|, l requires 0 <= l < |m| => if m[l] then ExpandLane(m, src, l) else prev[l]);
    assert forall l :: 0 <= l < |m| && m[l] ==> r[l] == ExpandLane(m, src, l);
    r
  }

  function ExpandLane<T>(m: Mask, src: seq<T>, l: nat): (r: T)
    requires l < |m| && m[l] && Count(m) <= |src|
    ensures Rank(m, l) < |src| && r == src[Rank(m, l)]
  {
    RankBelowCount(m, l);
    src[Rank(m, l)]
  }

  /**
   * Expanding the lower and the upper part of a mask separately, the upper
   * part reading on after the lower part's popcount, is one expand of the
   * whole mask.
   */
  lemma {:induction false} ExpandSplit<T>(prev: seq<T>, m: Mask, src: seq<T>, k: nat)
    requires |prev| == |m| && k <= |m| && Count(m) <= |src|
    ensures Count(m[..k]) + Count(m[k..]) == Count(m)
    ensures Expand(prev[..k], m[..k], src[..Count(m[..k])]) + Expand(prev[k..], m[k..], src[Count(m[..k])..])
      == Expand(prev, m, src)
  {
    assert m == m[..k] + m[k..];
    CountAppend(m[..k], m[k..]);
    var c := Count(m[..k]);
    var lower := Expand(prev[..k], m[..k], src[..c]);
    var upper := Expand(prev[k..], m[k..], src[c..]);
    var whole := Expand(prev, m, src);
    forall l | 0 <= l < |m|
      ensures (lower + upper)[l] == whole[l]
    {
      if l < k {
        assert m[..k][..l] == m[..l];
      } else if m[l] {
        RankSplit(m, k, l);
        assert m[k..][l - k];
      }
    }
  }

  /** _mm512_mask_mov: lanes of m from a, the others from b. */
  function Select<T>(m: Mask, a: seq<T>, b: seq<T>): (r: seq<T>)
    requires |a| == |m| && |b| == |m|
    ensures |r| == |m|
    ensures forall l :: 0 <= l < |m| ==> r[l] == (if m[l] then a[l] else b[l])
  {
    seq(|m|, l requires 0 <= l < |m| => if m[l] then a[l] else b[l])
  }

  /** The n lowest set lanes of m (all of them when n reaches the popcount). */
  function Keep(m: Mask, n: nat): (r: Mask)
    ensures |r| == |m|
    ensures forall l {:trigger r[l]} :: 0 <= l < |m| ==> r[l] == (m[l] && Rank(m, l) < n)
  {
    seq(|m|, l requires 0 <= l < |m| => m[l] && Rank(m, l) < n)
  }

  /** Keeping n lanes keeps min(n, popcount) of them, each with its old rank. */
  lemma {:induction false} KeepCount(m: Mask, n: nat)
    ensures Count(Keep(m, n)) == if n < Count(m) then n else Count(m)
    ensures forall l {:trigger Rank(Keep(m, n), l)} :: 0 <= l <= |m| ==> Rank(Keep(m, n), l) == if Rank(m, l) < n then Rank(m, l) else n
  {
    var k := Keep(m, n);
    forall l | 0 <= l <= |m|
      ensures Rank(k, l) == if Rank(m, l) < n then Rank(m, l) else n
    {
      KeepRank(m, n, l);
    }
    assert k[..|m|] == k && m[..|m|] == m;
  }

  lemma {:induction false} KeepRank(m: Mask, n: nat, l: nat)
    requires l <= |m|
    ensures Rank(Keep(m, n), l) == if Rank(m, l) < n then Rank(m, l) else n
    decreases l
  {
    var k := Keep(m, n);
    if l > 0 {
      KeepRank(m, n, l - 1);
      RankStep(k, l - 1);
      RankStep(m, l - 1);
    }
  }

  /** Lane-wise or, xor and and-not of masks. */
  function Or(a: Mask, b: Mask): (r: Mask)
    requires |a| == |b|
    ensures |r| == |a| && forall l :: 0 <= l < |a| ==> r[l] == (a[l] || b[l])
  {
    seq(|a|, l requires 0 <= l < |a| => a[l] || b[l])
  }

  function Xor(a: Mask, b: Mask): (r: Mask)
    requires |a| == |b|
    ensures |r| == |a| && forall l :: 0 <= l < |a| ==> r[l] == (a[l] != b[l])
  {
    seq(|a|, l requires 0 <= l < |a| => a[l] != b[l])
  }
}
