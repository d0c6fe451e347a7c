/**
 * The match resolver: once every trie has stored a match index for every
 * key, pick for each key (and each category) the result of the trie whose
 * match has the greatest priority. Priorities are signed 32-bit values.
 * The running best is kept only where it is strictly greater than the next
 * trie's priority, so on equal priority the later trie wins.
 */
module AclResolve {
  import opened AclNode
  import opened AclLanes

  /** RTE_ACL_MAX_CATEGORIES: results (and priorities) per match record. */
  const MAX_CATEGORIES: nat := 16

  /** A signed 32-bit priority. */
  type Pri = x: int | -0x8000_0000 <= x < 0x8000_0000

  /** struct rte_acl_match_results: a result and a priority per category. */
  datatype MatchResult = MatchResult(results: seq<Word>, priority: seq<Pri>)

  /**
   * The match-result table: every record has a slot for each category, and
   * there are few enough records that a record's word offset (index << 5)
   * is a non-negative signed 32-bit gather index.
   */
  predicate TableOk(pr: seq<MatchResult>)
  {
    |pr| <= 0x400_0000 &&
    forall m :: 0 <= m < |pr| ==> |pr[m].results| == MAX_CATEGORIES && |pr[m].priority| == MAX_CATEGORIES
  }

  /** The 32-bit word a signed value is stored as (two's complement). */
  function Bits(p: Pri): (w: Word)
    ensures Signed32(w) == p
  {
    if p < 0 then p + WORD_RANGE else p
  }

  /** A 32-bit word read as a signed value, as _mm512_cmpgt_epi32_mask reads it. */
  function Signed32(w: Word): (p: Pri)
    ensures p % WORD_RANGE == w
  {
    if w < 0x8000_0000 then w else w - WORD_RANGE
  }

  /**
   * resolve_match_idx_avx512x16: a match index shifted left by match_log (5)
   * in a 32-bit lane, the word offset of its record (one record is 1 << 5
   * words: 16 results, then 16 priorities).
   */
  function MatchIdx(m: Word): (mi: Word)
    ensures m < 0x800_0000 ==> mi == m * 32
  {
    (m * 32) % WORD_RANGE
  }

  /**
   * The table as the 32-bit words the resolvers index: `pr->results` is word
   * 0 and `pr->priority` word 16; record m fills words m * 32 to m * 32 + 31,
   * the results of its categories first, then their priorities.
   */
  function Flat(pr: seq<MatchResult>): (f: seq<Word>)
    requires TableOk(pr)
    ensures |f| == |pr| * 32
  {
    seq(|pr| * 32, i requires 0 <= i < |pr| * 32 =>
      var m, o := i / 32, i % 32;
      if o < MAX_CATEGORIES then pr[m].results[o] else Bits(pr[m].priority[o - MAX_CATEGORIES]))
  }

  /**
   * The two loads at a record's offset read its fields: word c of the record
   * is the result of category c, word 16 + c its priority.
   */
  lemma {:induction false} FlatLayout(pr: seq<MatchResult>, m: nat, c: nat)
    requires TableOk(pr) && m < |pr| && c < MAX_CATEGORIES
    ensures MatchIdx(m) + MAX_CATEGORIES + c < |Flat(pr)|
    ensures Flat(pr)[MatchIdx(m) + c] == pr[m].results[c]
    ensures Signed32(Flat(pr)[MatchIdx(m) + MAX_CATEGORIES + c]) == pr[m].priority[c]
  {
    var i, j := m * 32 + c, m * 32 + MAX_CATEGORIES + c;
    assert i / 32 == m && i % 32 == c;
    assert j / 32 == m && j % 32 == MAX_CATEGORIES + c;
  }

  /** The offset of row k of a row-major table with n columns, counted a row at a time as the result pointer advances. */
  function RowStart(k: nat, n: nat): nat
  {
    if k == 0 then 0 else RowStart(k - 1, n) + n
  }

  /** Row k starts at k * n. */
  lemma {:induction false} RowStartProduct(k: nat, n: nat)
    ensures RowStart(k, n) == k * n
  {
    if k > 0 {
      RowStartProduct(k - 1, n);
    }
  }

  /** Every cell of row k' lies before row k. */
  lemma {:induction false} RowStartBefore(k': nat, k: nat, c: nat, n: nat)
    requires k' < k && c < n
    ensures RowStart(k', n) + c < RowStart(k, n)
  {
    if k' + 1 < k {
      RowStartBefore(k', k - 1, c, n);
    }
  }

  /** Where trie i keeps the match index of a key: `at` in trie 0, `skip` words further per trie. */
  function Slot(at: nat, skip: nat, i: nat): nat
  {
    at + RowStart(i, skip)
  }

  /** Slot i of a key is in the match buffer and names a record of the table. */
  predicate SlotOk(pr: seq<MatchResult>, mt: seq<Word>, s: nat)
  {
    s < |mt| && mt[s] < |pr|
  }

  /** The first n slots of a key are in the buffer and name records of the table. */
  predicate KeyOk(pr: seq<MatchResult>, mt: seq<Word>, at: nat, skip: nat, n: nat)
  {
    && SlotsIn(mt, at, skip, n)
    && ColumnOk(pr, KeyColumn(mt, at, skip, n))
  }

  /** The first n slots of a key are in the match buffer. */
  predicate SlotsIn(mt: seq<Word>, at: nat, skip: nat, n: nat)
  {
    forall i :: 0 <= i < n ==> Slot(at, skip, i) < |mt|
  }

  /** The match indexes of one key, one per trie, in trie order. */
  function KeyColumn(mt: seq<Word>, at: nat, skip: nat, n: nat): (col: seq<Word>)
    requires SlotsIn(mt, at, skip, n)
    ensures |col| == n
  {
    seq(n, i requires 0 <= i < n => mt[Slot(at, skip, i)])
  }

  /** Every entry of a column names a record of a well-formed table. */
  predicate ColumnOk(pr: seq<MatchResult>, col: seq<Word>)
  {
    TableOk(pr) && forall i :: 0 <= i < |col| ==> col[i] < |pr|
  }

  /** The priorities in category c of the records a column names. */
  function Priorities(pr: seq<MatchResult>, col: seq<Word>, c: nat): (ps: seq<Pri>)
    requires ColumnOk(pr, col) && c < MAX_CATEGORIES
    ensures |ps| == |col|
  {
    seq(|col|, i requires 0 <= i < |col| => pr[col[i]].priority[c])
  }

  /**
   * The winning trie of a column of priorities: it has the greatest
   * priority, and every later trie a strictly smaller one (the later trie
   * wins a tie).
   */
  function Winner(ps: seq<Pri>): (w: nat)
    requires |ps| > 0
    ensures w < |ps|
    ensures forall i :: 0 <= i < |ps| ==> ps[i] <= ps[w]
    ensures forall i :: w < i < |ps| ==> ps[i] < ps[w]
    decreases |ps|
  {
    if |ps| == 1 then 0
    else
      var w := Winner(ps[..|ps| - 1]);
      if ps[w] > ps[|ps| - 1] then w else |ps| - 1
  }

  /** Only the last maximum has Winner's two properties, so they define it. */
  lemma {:induction false} WinnerIsLastMaximum(ps: seq<Pri>, w: nat)
    requires w < |ps|
    requires forall i :: 0 <= i < |ps| ==> ps[i] <= ps[w]
    requires forall i :: w < i < |ps| ==> ps[i] < ps[w]
    ensures Winner(ps) == w
  {
  }

  /** The resolved result of category c: the result of the winning trie's record. */
  function Best(pr: seq<MatchResult>, col: seq<Word>, c: nat): Word
    requires ColumnOk(pr, col) && |col| > 0 && c < MAX_CATEGORIES
  {
    pr[col[Winner(Priorities(pr, col, c))]].results[c]
  }

  /** The priority of the winning trie's record. */
  function BestPri(pr: seq<MatchResult>, col: seq<Word>, c: nat): Pri
    requires ColumnOk(pr, col) && |col| > 0 && c < MAX_CATEGORIES
  {
    pr[col[Winner(Priorities(pr, col, c))]].priority[c]
  }

  /**
   * The resolved result of category c for the key whose match indexes are
   * in slots at, at + skip, ... of the first n tries.
   */
  function KeyResult(pr: seq<MatchResult>, mt: seq<Word>, at: nat, skip: nat, n: nat, c: nat): Word
    requires KeyOk(pr, mt, at, skip, n) && n > 0 && c < MAX_CATEGORIES
  {
    Best(pr, KeyColumn(mt, at, skip, n), c)
  }

  /**
   * The reduction one trie at a time: a single trie's match is its own
   * result, and one more trie replaces the best so far unless the best so
   * far has the strictly greater priority.
   */
  lemma {:induction false} BestAppend(pr: seq<MatchResult>, col: seq<Word>, m: Word, c: nat)
    requires ColumnOk(pr, col) && m < |pr| && c < MAX_CATEGORIES
    ensures ColumnOk(pr, col + [m])
    ensures |col| == 0 ==> Best(pr, [m], c) == pr[m].results[c] && BestPri(pr, [m], c) == pr[m].priority[c]
    ensures |col| > 0 && BestPri(pr, col, c) > pr[m].priority[c] ==>
      Best(pr, col + [m], c) == Best(pr, col, c) && BestPri(pr, col + [m], c) == BestPri(pr, col, c)
    ensures |col| > 0 && BestPri(pr, col, c) <= pr[m].priority[c] ==>
      Best(pr, col + [m], c) == pr[m].results[c] && BestPri(pr, col + [m], c) == pr[m].priority[c]
  {
    var ps := Priorities(pr, col + [m], c);
    if |col| > 0 {
      assert ps[..|ps| - 1] == Priorities(pr, col, c);
    }
  }

  /**
   * The state of one lane of a resolver after the first n tries: a lane in
   * the mask holds the result and the priority (as its 32-bit word) of the
   * winner so far; any other lane holds zero in both.
   */
  ghost predicate Running(pr: seq<MatchResult>, mt: seq<Word>, at: nat, skip: nat, n: nat, c: nat,
      on: bool, r: Word, p: Word)
    requires TableOk(pr) && n > 0 && c < MAX_CATEGORIES
  {
    if on then
      && KeyOk(pr, mt, at, skip, n)
      && r == KeyResult(pr, mt, at, skip, n, c)
      && Signed32(p) == BestPri(pr, KeyColumn(mt, at, skip, n), c)
    else r == 0 && p == 0
  }

  /** The first n + 1 match indexes of a key are the first n and then slot n. */
  lemma {:induction false} KeyColumnStep(mt: seq<Word>, at: nat, skip: nat, n: nat)
    requires SlotsIn(mt, at, skip, n + 1)
    ensures KeyColumn(mt, at, skip, n + 1) == KeyColumn(mt, at, skip, n) + [mt[Slot(at, skip, n)]]
  {
  }

  /**
   * After the first trie's loads, a lane in the mask holds that trie's
   * result and priority, and a lane outside it zero.
   */
  lemma {:induction false} RunningFirst(pr: seq<MatchResult>, mt: seq<Word>, at: nat, skip: nat, c: nat,
      on: bool, r: Word, p: Word)
    requires TableOk(pr) && c < MAX_CATEGORIES
    requires on ==> SlotOk(pr, mt, Slot(at, skip, 0))
    requires on ==> r == pr[mt[Slot(at, skip, 0)]].results[c] && Signed32(p) == pr[mt[Slot(at, skip, 0)]].priority[c]
    requires !on ==> r == 0 && p == 0
    ensures Running(pr, mt, at, skip, 1, c, on, r, p)
  {
    if on {
      KeyColumnStep(mt, at, skip, 0);
      BestAppend(pr, [], mt[Slot(at, skip, 0)], c);
    }
  }

  /**
   * One more trie: a lane loads trie n's result and priority (zero outside
   * the mask) and keeps its running best only where that is strictly
   * greater; the lane then holds the winner of the first n + 1 tries.
   */
  lemma {:induction false} RunningStep(pr: seq<MatchResult>, mt: seq<Word>, at: nat, skip: nat, n: nat, c: nat,
      on: bool, r: Word, p: Word, nr: Word, np: Word, r': Word, p': Word)
    requires TableOk(pr) && n > 0 && c < MAX_CATEGORIES
    requires Running(pr, mt, at, skip, n, c, on, r, p)
    requires on ==> SlotOk(pr, mt, Slot(at, skip, n))
    requires on ==> nr == pr[mt[Slot(at, skip, n)]].results[c] && Signed32(np) == pr[mt[Slot(at, skip, n)]].priority[c]
    requires !on ==> nr == 0 && np == 0
    requires Signed32(p) > Signed32(np) ==> r' == r && p' == p
    requires Signed32(p) <= Signed32(np) ==> r' == nr && p' == np
    ensures Running(pr, mt, at, skip, n + 1, c, on, r', p')
  {
    if on {
      var m := mt[Slot(at, skip, n)];
      KeyColumnStep(mt, at, skip, n);
      var col := KeyColumn(mt, at, skip, n);
      BestAppend(pr, col, m, c);
    } else {
      assert !(Signed32(p) > Signed32(np));
    }
  }

  /** The lanes 0 .. n - 1: the mask (1 << n) - 1. */
  function LowMask(n: nat): (m: Mask)
    requires n <= LANES
    ensures |m| == LANES && Count(m) == n
    ensures forall l :: 0 <= l < LANES ==> (m[l] <==> l < n)
  {
    CountFull(n);
    CountZero(Clear(LANES - n));
    CountAppend(Full(n), Clear(LANES - n));
    Full(n) + Clear(LANES - n)
  }

  /**
   * _mm512_mask_storeu_epi32: the first n lanes of v are written to
   * result[off ..]; nothing else changes.
   */
  method StoreLanes(result: array<Word>, off: nat, n: nat, v: seq<Word>)
    requires n <= |v| && off + n <= result.Length
    modifies result
    ensures forall j :: 0 <= j < result.Length ==>
      result[j] == if off <= j < off + n then v[j - off] else old(result[j])
  {
    forall j | off <= j < off + n {
      result[j] := v[j - off];
    }
  }

  /**
   * resolve_pri_avx512x16: lane l resolves category 0 of the key whose
   * slots are mt[at + l + i * skip]. The lanes in msk gather trie 0's
   * result and priority, then every further trie's, keeping the running
   * best only where it is strictly greater; the lanes outside msk are zero.
   */
  method ResolvePri16(pr: seq<MatchResult>, mt: seq<Word>, at: nat, msk: Mask, nbTrie: nat, nbSkip: nat)
    returns (cr: seq<Word>)
    requires TableOk(pr) && |msk| == LANES && nbTrie >= 1
    requires forall l {:trigger msk[l]} :: 0 <= l < LANES && msk[l] ==> KeyOk(pr, mt, at + l, nbSkip, nbTrie)
    ensures |cr| == LANES
    ensures forall l :: 0 <= l < LANES ==>
      cr[l] == if msk[l] then KeyResult(pr, mt, at + l, nbSkip, nbTrie, 0) else 0
  {
    var res := Flat(pr);
    var cp;
    cr, cp := GatherPair(pr, res, mt, at, nbSkip, nbTrie, 0, msk);
    forall l | 0 <= l < LANES
      ensures Running(pr, mt, at + l, nbSkip, 1, 0, msk[l], cr[l], cp[l])
    {
      RunningFirst(pr, mt, at + l, nbSkip, 0, msk[l], cr[l], cp[l]);
    }
    var i := 1;
    while i != nbTrie
      invariant 1 <= i <= nbTrie && |cr| == LANES && |cp| == LANES
      invariant forall l :: 0 <= l < LANES ==> Running(pr, mt, at + l, nbSkip, i, 0, msk[l], cr[l], cp[l])
    {
      cr, cp := PriStep(pr, res, mt, at, msk, nbTrie, nbSkip, i, cr, cp);
      i := i + 1;
    }
  }

  /**
   * One trie of the loop of resolve_pri_avx512x16: gather trie i's pair,
   * compare the running priorities with it, and keep the running result and
   * priority only where the running priority is strictly greater.
   */
  method PriStep(pr: seq<MatchResult>, res: seq<Word>, mt: seq<Word>, at: nat, msk: Mask, nbTrie: nat, nbSkip: nat, i: nat,
      cr: seq<Word>, cp: seq<Word>)
    returns (cr': seq<Word>, cp': seq<Word>)
    requires TableOk(pr) && res == Flat(pr) && |msk| == LANES && 1 <= i < nbTrie
    requires forall l {:trigger msk[l]} :: 0 <= l < LANES && msk[l] ==> KeyOk(pr, mt, at + l, nbSkip, nbTrie)
    requires |cr| == LANES && |cp| == LANES
    requires forall l :: 0 <= l < LANES ==> Running(pr, mt, at + l, nbSkip, i, 0, msk[l], cr[l], cp[l])
    ensures |cr'| == LANES && |cp'| == LANES
    ensures forall l :: 0 <= l < LANES ==> Running(pr, mt, at + l, nbSkip, i + 1, 0, msk[l], cr'[l], cp'[l])
  {
    var nr, np := GatherPair(pr, res, mt, at, nbSkip, nbTrie, i, msk);
    // _mm512_cmpgt_epi32_mask(cp, np), then the two blends
    var m := seq(LANES, l requires 0 <= l < LANES => Signed32(cp[l]) > Signed32(np[l]));
    cr', cp' := Select(m, cr, nr), Select(m, cp, np);
    forall l | 0 <= l < LANES
      ensures Running(pr, mt, at + l, nbSkip, i + 1, 0, msk[l], cr'[l], cp'[l])
    {
      RunningStep(pr, mt, at + l, nbSkip, i, 0, msk[l], cr[l], cp[l], nr[l], np[l], cr'[l], cp'[l]);
    }
  }

  /**
   * The loads of one trie in resolve_pri_avx512x16: the masked load of the
   * lanes' match indexes from pm = match + at + i * skip, the shift to record
   * offsets, and the two masked gathers of category 0's result and priority
   * (zero outside the mask).
   */
  method GatherPair(pr: seq<MatchResult>, res: seq<Word>, mt: seq<Word>, at: nat, skip: nat, n: nat, i: nat, msk: Mask)
    returns (nr: seq<Word>, np: seq<Word>)
    requires TableOk(pr) && res == Flat(pr) && |msk| == LANES
    requires i < n && forall l {:trigger msk[l]} :: 0 <= l < LANES && msk[l] ==> KeyOk(pr, mt, at + l, skip, n)
    ensures |nr| == LANES && |np| == LANES
    ensures forall l :: 0 <= l < LANES && msk[l] ==>
      SlotOk(pr, mt, Slot(at + l, skip, i)) &&
      nr[l] == pr[mt[Slot(at + l, skip, i)]].results[0] &&
      Signed32(np[l]) == pr[mt[Slot(at + l, skip, i)]].priority[0]
    ensures forall l :: 0 <= l < LANES && !msk[l] ==> nr[l] == 0 && np[l] == 0
  {
    forall l | 0 <= l < LANES && msk[l]
      ensures SlotOk(pr, mt, Slot(at + l, skip, i))
      ensures MatchIdx(mt[Slot(at + l, skip, i)]) + MAX_CATEGORIES < |res|
    {
      assert KeyColumn(mt, at + l, skip, n)[i] == mt[Slot(at + l, skip, i)];
      FlatLayout(pr, mt[Slot(at + l, skip, i)], 0);
    }
    var mch := seq(LANES, l requires 0 <= l < LANES =>
      if msk[l] then MatchIdx(mt[Slot(at + l, skip, i)]) else 0);
    nr := seq(LANES, l requires 0 <= l < LANES => if msk[l] then res[mch[l]] else 0);
    np := seq(LANES, l requires 0 <= l < LANES => if msk[l] then res[mch[l] + MAX_CATEGORIES] else 0);
    forall l | 0 <= l < LANES && msk[l]
      ensures nr[l] == pr[mt[Slot(at + l, skip, i)]].results[0]
      ensures Signed32(np[l]) == pr[mt[Slot(at + l, skip, i)]].priority[0]
    {
      FlatLayout(pr, mt[Slot(at + l, skip, i)], 0);
    }
  }

  /** Every key 0 .. nbPkt - 1 has its match index in slot k + i * nbPkt of every trie i. */
  predicate MatchesOk(pr: seq<MatchResult>, mt: seq<Word>, nbPkt: nat, nbTrie: nat)
  {
    forall k :: 0 <= k < nbPkt ==> KeyOk(pr, mt, k, nbPkt, nbTrie)
  }

  /**
   * resolve_sc_avx512x16: the n (at most 16) keys from `at` on are resolved
   * in category 0 with the mask (1 << n) - 1 and stored at result[at ..].
   */
  method ResolveSc16(result: array<Word>, pr: seq<MatchResult>, mt: seq<Word>, at: nat, n: nat, nbTrie: nat, nbSkip: nat)
    requires TableOk(pr) && nbTrie >= 1 && n <= LANES && at + n <= result.Length
    requires forall j :: at <= j < at + n ==> KeyOk(pr, mt, j, nbSkip, nbTrie)
    modifies result
    ensures forall j :: 0 <= j < result.Length ==>
      result[j] == if at <= j < at + n then KeyResult(pr, mt, j, nbSkip, nbTrie, 0) else old(result[j])
  {
    var msk := LowMask(n);
    var cr := ResolvePri16(pr, mt, at, msk, nbTrie, nbSkip);
    StoreLanes(result, at, n, cr);
  }

  /** One iteration of the main loop of resolve_sc_avx512x16x2: keys at .. at + 31 in two full 16-lane resolutions. */
  method ResolveSc32(result: array<Word>, pr: seq<MatchResult>, mt: seq<Word>, at: nat, nbPkt: nat, nbTrie: nat)
    requires TableOk(pr) && nbTrie >= 1 && at + 2 * LANES <= nbPkt <= result.Length
    requires MatchesOk(pr, mt, nbPkt, nbTrie)
    modifies result
    ensures forall j :: 0 <= j < result.Length ==>
      result[j] == if at <= j < at + 2 * LANES then KeyResult(pr, mt, j, nbPkt, nbTrie, 0) else old(result[j])
  {
    var full := Full(LANES);
    var cr0 := ResolvePri16(pr, mt, at, full, nbTrie, nbPkt);
    var cr1 := ResolvePri16(pr, mt, at + LANES, full, nbTrie, nbPkt);
    StoreLanes(result, at, LANES, cr0);
    StoreLanes(result, at + LANES, LANES, cr1);
  }

  /**
   * resolve_sc_avx512x16x2: the single-category resolver. Blocks of 32 keys
   * (two full 16-lane resolutions) up to nbPkt & ~31, then at most one full
   * 16-key block and a last partial one; key k's result goes to result[k].
   */
  method ResolveScX2(result: array<Word>, pr: seq<MatchResult>, mt: seq<Word>, nbPkt: nat, nbTrie: nat)
    requires TableOk(pr) && nbTrie >= 1 && nbPkt <= result.Length
    requires MatchesOk(pr, mt, nbPkt, nbTrie)
    modifies result
    ensures forall j :: 0 <= j < result.Length ==>
      result[j] == if j < nbPkt then KeyResult(pr, mt, j, nbPkt, nbTrie, 0) else old(result[j])
  {
    // nb_pkt & ~MSK_AVX512X16X2 clears the low five bits
    var bound := nbPkt - nbPkt % 32;
    var k := 0;
    while k != bound
      invariant k <= bound && k % 32 == 0
      invariant forall j :: 0 <= j < result.Length ==>
        result[j] == if j < k then KeyResult(pr, mt, j, nbPkt, nbTrie, 0) else old(result[j])
    {
      ResolveSc32(result, pr, mt, k, nbPkt, nbTrie);
      k := k + 2 * LANES;
    }
    var n := nbPkt - k;
    if n != 0 {
      if n > LANES {
        ResolveSc16(result, pr, mt, k, LANES, nbTrie, nbPkt);
        k := k + LANES;
        n := n - LANES;
      }
      ResolveSc16(result, pr, mt, k, n, nbTrie, nbPkt);
    }
  }

  /** Loads of the first nbCat words of a record and of its priorities read that record's results and priorities. */
  lemma {:induction false} RecordLoaded(pr: seq<MatchResult>, res: seq<Word>, m: nat, nr: seq<Word>, np: seq<Word>, nbCat: nat)
    requires TableOk(pr) && res == Flat(pr) && m < |pr| && nbCat <= LANES && |nr| == LANES && |np| == LANES
    requires MatchIdx(m) + MAX_CATEGORIES + LANES <= |res|
    requires forall c :: 0 <= c < nbCat ==> nr[c] == res[MatchIdx(m) + c] && np[c] == res[MatchIdx(m) + MAX_CATEGORIES + c]
    ensures forall c :: 0 <= c < nbCat ==> nr[c] == pr[m].results[c] && Signed32(np[c]) == pr[m].priority[c]
  {
    forall c | 0 <= c < nbCat
      ensures nr[c] == pr[m].results[c] && Signed32(np[c]) == pr[m].priority[c]
    {
      FlatLayout(pr, m, c);
    }
  }

  /**
   * The loads of one trie for one key in resolve_mcgt8_avx512x1: the
   * record offset of the key's match index in trie i, then the masked
   * loads of the first nbCat results and priorities of that record (lanes
   * are categories; the others are zero).
   */
  method LoadCategories(pr: seq<MatchResult>, res: seq<Word>, mt: seq<Word>, k: nat, skip: nat, n: nat, i: nat, nbCat: nat)
    returns (nr: seq<Word>, np: seq<Word>)
    requires TableOk(pr) && res == Flat(pr) && nbCat <= LANES
    requires i < n && KeyOk(pr, mt, k, skip, n)
    ensures SlotOk(pr, mt, Slot(k, skip, i))
    ensures |nr| == LANES && |np| == LANES
    ensures forall c :: 0 <= c < nbCat ==>
      nr[c] == pr[mt[Slot(k, skip, i)]].results[c] && Signed32(np[c]) == pr[mt[Slot(k, skip, i)]].priority[c]
    ensures forall c :: nbCat <= c < LANES ==> nr[c] == 0 && np[c] == 0
  {
    assert KeyColumn(mt, k, skip, n)[i] == mt[Slot(k, skip, i)];
    var m := mt[Slot(k, skip, i)];
    FlatLayout(pr, m, LANES - 1);
    var mi := MatchIdx(m);
    nr := seq(LANES, c requires 0 <= c < LANES => if c < nbCat then res[mi + c] else 0);
    np := seq(LANES, c requires 0 <= c < LANES => if c < nbCat then res[mi + MAX_CATEGORIES + c] else 0);
    RecordLoaded(pr, res, m, nr, np, nbCat);
  }

  /**
   * The body of resolve_mcgt8_avx512x1 for key k: the lanes are the
   * categories (cm = (1 << nbCat) - 1); trie 0's record is loaded, then
   * every further trie's, keeping the running best only where it is
   * strictly greater.
   */
  method ResolveKeyCategories(pr: seq<MatchResult>, mt: seq<Word>, k: nat, nbPkt: nat, nbCat: nat, nbTrie: nat)
    returns (cr: seq<Word>)
    requires TableOk(pr) && nbTrie >= 1 && nbCat <= LANES
    requires KeyOk(pr, mt, k, nbPkt, nbTrie)
    ensures |cr| == LANES
    ensures forall c :: 0 <= c < LANES ==> cr[c] == if c < nbCat then KeyResult(pr, mt, k, nbPkt, nbTrie, c) else 0
  {
    var res := Flat(pr);
    var cp;
    cr, cp := LoadCategories(pr, res, mt, k, nbPkt, nbTrie, 0, nbCat);
    forall c | 0 <= c < LANES
      ensures Running(pr, mt, k, nbPkt, 1, c, c < nbCat, cr[c], cp[c])
    {
      RunningFirst(pr, mt, k, nbPkt, c, c < nbCat, cr[c], cp[c]);
    }
    var i := 1;
    while i != nbTrie
      invariant 1 <= i <= nbTrie && |cr| == LANES && |cp| == LANES
      invariant forall c :: 0 <= c < LANES ==> Running(pr, mt, k, nbPkt, i, c, c < nbCat, cr[c], cp[c])
    {
      var nr, np := LoadCategories(pr, res, mt, k, nbPkt, nbTrie, i, nbCat);
      var sm := seq(LANES, c requires 0 <= c < LANES => Signed32(cp[c]) > Signed32(np[c]));
      var cr', cp' := Select(sm, cr, nr), Select(sm, cp, np);
      forall c | 0 <= c < LANES
        ensures Running(pr, mt, k, nbPkt, i + 1, c, c < nbCat, cr'[c], cp'[c])
      {
        RunningStep(pr, mt, k, nbPkt, i, c, c < nbCat, cr[c], cp[c], nr[c], np[c], cr'[c], cp'[c]);
      }
      cr, cp := cr', cp';
      i := i + 1;
    }
  }

  /** Cell c of row k' of a (row-major, nbCat columns) is in a and holds key k''s resolved result in category c. */
  ghost predicate RowCell(a: seq<Word>, pr: seq<MatchResult>, mt: seq<Word>, nbPkt: nat, nbTrie: nat, nbCat: nat, k': nat, c: nat)
    requires TableOk(pr) && nbTrie >= 1 && c < nbCat <= MAX_CATEGORIES && k' < nbPkt
    requires MatchesOk(pr, mt, nbPkt, nbTrie)
  {
    RowStart(k', nbCat) + c < |a| && a[RowStart(k', nbCat) + c] == KeyResult(pr, mt, k', nbPkt, nbTrie, c)
  }

  /** The first k rows of a (row-major, nbCat columns) hold the resolved results of keys 0 .. k - 1. */
  ghost predicate RowsDone(a: seq<Word>, pr: seq<MatchResult>, mt: seq<Word>, nbPkt: nat, nbTrie: nat, nbCat: nat, k: nat)
    requires TableOk(pr) && nbTrie >= 1 && nbCat <= MAX_CATEGORIES && k <= nbPkt
    requires MatchesOk(pr, mt, nbPkt, nbTrie)
  {
    forall k', c :: 0 <= k' < k && 0 <= c < nbCat ==> RowCell(a, pr, mt, nbPkt, nbTrie, nbCat, k', c)
  }

  /** Once every row is done, key k's result in category c is at k * nbCat + c. */
  lemma {:induction false} RowCellProduct(a: seq<Word>, pr: seq<MatchResult>, mt: seq<Word>, nbPkt: nat, nbTrie: nat, nbCat: nat, k: nat, c: nat)
    requires TableOk(pr) && nbTrie >= 1 && nbCat <= MAX_CATEGORIES && k < nbPkt && c < nbCat
    requires MatchesOk(pr, mt, nbPkt, nbTrie)
    requires RowsDone(a, pr, mt, nbPkt, nbTrie, nbCat, nbPkt)
    ensures 0 <= k * nbCat + c < |a| && a[k * nbCat + c] == KeyResult(pr, mt, k, nbPkt, nbTrie, c)
  {
    assert RowCell(a, pr, mt, nbPkt, nbTrie, nbCat, k, c);
    RowStartProduct(k, nbCat);
  }

  /** Storing key k's categories into row k keeps rows 0 .. k - 1 and completes row k. */
  lemma {:induction false} RowsStep(a: seq<Word>, a': seq<Word>, pr: seq<MatchResult>, mt: seq<Word>,
      nbPkt: nat, nbTrie: nat, nbCat: nat, k: nat, off: nat, cr: seq<Word>)
    requires TableOk(pr) && nbTrie >= 1 && nbCat <= MAX_CATEGORIES && k < nbPkt
    requires MatchesOk(pr, mt, nbPkt, nbTrie)
    requires RowsDone(a, pr, mt, nbPkt, nbTrie, nbCat, k)
    requires off == RowStart(k, nbCat) && off + nbCat <= |a| == |a'| && |cr| >= nbCat
    requires forall j :: 0 <= j < |a| ==> a'[j] == if off <= j < off + nbCat then cr[j - off] else a[j]
    requires forall c :: 0 <= c < nbCat ==> cr[c] == KeyResult(pr, mt, k, nbPkt, nbTrie, c)
    ensures RowsDone(a', pr, mt, nbPkt, nbTrie, nbCat, k + 1)
  {
    forall k', c | 0 <= k' < k && 0 <= c < nbCat
      ensures RowCell(a', pr, mt, nbPkt, nbTrie, nbCat, k', c)
    {
      assert RowCell(a, pr, mt, nbPkt, nbTrie, nbCat, k', c);
      RowStartBefore(k', k, c, nbCat);
      assert a'[RowStart(k', nbCat) + c] == a[RowStart(k', nbCat) + c];
    }
    forall c | 0 <= c < nbCat
      ensures RowCell(a', pr, mt, nbPkt, nbTrie, nbCat, k, c)
    {
      assert a'[off + c] == cr[c];
    }
  }

  /** One key of resolve_mcgt8_avx512x1: key k's categories are resolved and stored at result[off ..], the start of row k. */
  method ResolveRow(result: array<Word>, pr: seq<MatchResult>, mt: seq<Word>, nbPkt: nat, nbCat: nat, nbTrie: nat, k: nat, off: nat)
    requires TableOk(pr) && nbTrie >= 1 && 1 <= nbCat <= MAX_CATEGORIES && k < nbPkt && RowStart(nbPkt, nbCat) <= result.Length
    requires MatchesOk(pr, mt, nbPkt, nbTrie) && off == RowStart(k, nbCat)
    requires RowsDone(result[..], pr, mt, nbPkt, nbTrie, nbCat, k)
    modifies result
    ensures off + nbCat <= result.Length
    ensures RowsDone(result[..], pr, mt, nbPkt, nbTrie, nbCat, k + 1)
    ensures forall j :: off + nbCat <= j < result.Length ==> result[j] == old(result[j])
  {
    var cr := ResolveKeyCategories(pr, mt, k, nbPkt, nbCat, nbTrie);
    RowStartBefore(k, nbPkt, nbCat - 1, nbCat);
    ghost var before := result[..];
    StoreLanes(result, off, nbCat, cr);
    RowsStep(before, result[..], pr, mt, nbPkt, nbTrie, nbCat, k, off, cr);
  }

  /**
   * resolve_mcgt8_avx512x1: the multi-category resolver, one key at a
   * time; the first nbCat categories of key k go to row k of the result,
   * which starts at RowStart(k, nbCat) = k * nbCat (the result pointer
   * advances by nbCat per key).
   */
  method ResolveMcgt8(result: array<Word>, pr: seq<MatchResult>, mt: seq<Word>, nbPkt: nat, nbCat: nat, nbTrie: nat)
    requires TableOk(pr) && nbTrie >= 1 && 1 <= nbCat <= MAX_CATEGORIES && RowStart(nbPkt, nbCat) <= result.Length
    requires MatchesOk(pr, mt, nbPkt, nbTrie)
    modifies result
    ensures RowsDone(result[..], pr, mt, nbPkt, nbTrie, nbCat, nbPkt)
    ensures forall j :: RowStart(nbPkt, nbCat) <= j < result.Length ==> result[j] == old(result[j])
  {
    var k, off := 0, 0;
    while k != nbPkt
      invariant k <= nbPkt && off == RowStart(k, nbCat)
      invariant RowsDone(result[..], pr, mt, nbPkt, nbTrie, nbCat, k)
      invariant forall j :: off <= j < result.Length ==> result[j] == old(result[j])
    {
      ResolveRow(result, pr, mt, nbPkt, nbCat, nbTrie, k, off);
      k, off := k + 1, off + nbCat;
    }
  }
}
