/**
 * search_avx512x16x2: the batch is searched in every trie in turn, each
 * trie storing its match indexes in its own stretch of one match buffer
 * (trie i, key k at slot i * total + k); the buffer is then resolved into
 * the results by the single-category or the multi-category resolver.
 */
module AclSearch {
  import opened AclNode
  import opened AclLanes
  import opened AclTrans
  import opened AclWalk
  import opened AclFlow
  import opened AclResolve

  /** The parts of struct rte_acl_ctx the search reads: its tries and the match-result table. */
  datatype Ctx = Ctx(tries: seq<Trie>, pr: seq<MatchResult>)

  /** The scalar walk of key k in trie i ends within F fields on a match whose index names a record. */
  ghost predicate Walked(ctx: Ctx, data: seq<Key>, F: nat, i: nat, k: nat)
    requires i < |ctx.tries| && k < |data|
  {
    var r := ScalarSearch(ctx.tries[i], data[k], F);
    r.Some? && r.value < |ctx.pr|
  }

  /**
   * What a compiled context guarantees for a batch: at least one trie,
   * every trie sound, a well-formed match-result table, and every key
   * walked to a match in every trie.
   */
  ghost predicate CtxOk(ctx: Ctx, data: seq<Key>, F: nat)
  {
    && |ctx.tries| >= 1 && TableOk(ctx.pr)
    && (forall i :: 0 <= i < |ctx.tries| ==> TrieOk(ctx.tries[i]))
    && forall i, k :: 0 <= i < |ctx.tries| && 0 <= k < |data| ==>
      ScalarSearch(ctx.tries[i], data[k], F).Some? && ScalarSearch(ctx.tries[i], data[k], F).value < |ctx.pr|
  }

  /** The scalar answer for key k: the match index its scalar walk finds in each trie, in trie order. */
  ghost function ScalarColumn(ctx: Ctx, data: seq<Key>, F: nat, k: nat): (col: seq<Word>)
    requires CtxOk(ctx, data, F) && k < |data|
    ensures |col| == |ctx.tries| && ColumnOk(ctx.pr, col)
  {
    seq<Word>(|ctx.tries|, i requires 0 <= i < |ctx.tries| =>
      assert Walked(ctx, data, F, i, k);
      ScalarSearch(ctx.tries[i], data[k], F).value)
  }

  /** The stretches of the first n tries hold the scalar match index of every key. */
  ghost predicate TriesDone(a: seq<Word>, ctx: Ctx, data: seq<Key>, F: nat, n: nat)
    requires CtxOk(ctx, data, F) && n <= |ctx.tries|
  {
    forall i, k :: 0 <= i < n && 0 <= k < |data| ==>
      Slot(k, |data|, i) < |a| && Walked(ctx, data, F, i, k) &&
      a[Slot(k, |data|, i)] == ScalarSearch(ctx.tries[i], data[k], F).value
  }

  /** Searching trie i fills its stretch and leaves the earlier tries' stretches alone. */
  lemma {:induction false} TriesStep(a: seq<Word>, a': seq<Word>, ctx: Ctx, data: seq<Key>, F: nat, i: nat, pm: nat)
    requires CtxOk(ctx, data, F) && i < |ctx.tries|
    requires TriesDone(a, ctx, data, F, i)
    requires pm == RowStart(i, |data|) && pm + |data| <= |a|
    requires SameOutside(a', a, pm, |data|)
    requires forall k :: 0 <= k < |data| ==> Walked(ctx, data, F, i, k) && a'[pm + k] == ScalarSearch(ctx.tries[i], data[k], F).value
    ensures TriesDone(a', ctx, data, F, i + 1)
  {
    forall i', k | 0 <= i' < i + 1 && 0 <= k < |data|
      ensures Slot(k, |data|, i') < |a'| && Walked(ctx, data, F, i', k)
      ensures a'[Slot(k, |data|, i')] == ScalarSearch(ctx.tries[i'], data[k], F).value
    {
      if i' < i {
        RowStartBefore(i', i, k, |data|);
        assert a'[Slot(k, |data|, i')] == a[Slot(k, |data|, i')];
      } else {
        assert Slot(k, |data|, i') == pm + k;
      }
    }
  }

  /** Once every trie is searched, the match indexes of key k in the buffer are its scalar column. */
  lemma {:induction false} ColumnsAgree(a: seq<Word>, ctx: Ctx, data: seq<Key>, F: nat, k: nat)
    requires CtxOk(ctx, data, F) && TriesDone(a, ctx, data, F, |ctx.tries|) && k < |data|
    ensures KeyOk(ctx.pr, a, k, |data|, |ctx.tries|)
    ensures KeyColumn(a, k, |data|, |ctx.tries|) == ScalarColumn(ctx, data, F, k)
  {
    assert SlotsIn(a, k, |data|, |ctx.tries|);
    var col, sc := KeyColumn(a, k, |data|, |ctx.tries|), ScalarColumn(ctx, data, F, k);
    forall i | 0 <= i < |ctx.tries|
      ensures col[i] == sc[i]
    {
    }
    assert col == sc;
  }

  /**
   * Once every trie is searched, every key's resolved result in the buffer
   * is the result its scalar column selects.
   */
  lemma {:induction false} ResultsAgree(m: seq<Word>, ctx: Ctx, data: seq<Key>, F: nat)
    requires CtxOk(ctx, data, F) && TriesDone(m, ctx, data, F, |ctx.tries|)
    ensures MatchesOk(ctx.pr, m, |data|, |ctx.tries|)
    ensures forall k, c :: 0 <= k < |data| && 0 <= c < MAX_CATEGORIES ==>
      KeyResult(ctx.pr, m, k, |data|, |ctx.tries|, c) == Best(ctx.pr, ScalarColumn(ctx, data, F, k), c)
  {
    forall k | 0 <= k < |data|
      ensures KeyOk(ctx.pr, m, k, |data|, |ctx.tries|)
      ensures KeyColumn(m, k, |data|, |ctx.tries|) == ScalarColumn(ctx, data, F, k)
    {
      ColumnsAgree(m, ctx, data, F, k);
    }
  }

  /**
   * One trie of the loop of search_avx512x16x2: acl_set_flow_avx512 points
   * a flow at the trie and at its stretch of the match buffer, then
   * search_trie_avx512x16x2 fills that stretch with the scalar match index
   * of every key; the rest of the buffer is unchanged.
   */
  method SearchOneTrie(ctx: Ctx, data: seq<Key>, ghost F: nat, mt: array<Word>, i: nat, pm: nat)
    requires CtxOk(ctx, data, F) && |data| >= 2 * LANES && i < |ctx.tries|
    requires pm == RowStart(i, |data|) && pm + |data| <= mt.Length
    modifies mt
    ensures SameOutside(mt[..], old(mt[..]), pm, |data|)
    ensures forall k :: 0 <= k < |data| ==> Walked(ctx, data, F, i, k) && mt[pm + k] == ScalarSearch(ctx.tries[i], data[k], F).value
  {
    var t := ctx.tries[i];
    ghost var want := seq<Word>(|data|, k requires 0 <= k < |data| =>
      assert Walked(ctx, data, F, i, k);
      ScalarSearch(t, data[k], F).value);
    assert Searchable(t, data, want, F) by {
      forall k | 0 <= k < |data|
        ensures KeyFound(t, data, want, F, k)
      {
        assert Walked(ctx, data, F, i, k);
      }
    }
    var flow := new Flow(t, data, mt, pm);
    flow.SearchTrie(want, F);
    forall k | 0 <= k < |data|
      ensures Walked(ctx, data, F, i, k) && mt[pm + k] == ScalarSearch(ctx.tries[i], data[k], F).value
    {
      assert Walked(ctx, data, F, i, k);
      assert mt[pm + k] == want[k];
    }
  }

  /**
   * The loop of search_avx512x16x2 over the tries: a match buffer of
   * num_tries * total words, trie i's stretch starting at i * total.
   */
  method SearchTries(ctx: Ctx, data: seq<Key>, ghost F: nat) returns (mt: array<Word>)
    requires CtxOk(ctx, data, F) && |data| >= 2 * LANES
    ensures mt.Length == RowStart(|ctx.tries|, |data|)
    ensures TriesDone(mt[..], ctx, data, F, |ctx.tries|)
  {
    var nbTrie, total := |ctx.tries|, |data|;
    RowStartProduct(nbTrie, total);
    mt := new Word[nbTrie * total];
    var i, pm := 0, 0;
    while i != nbTrie
      invariant i <= nbTrie && pm == RowStart(i, total) && mt.Length == RowStart(nbTrie, total)
      invariant TriesDone(mt[..], ctx, data, F, i)
    {
      RowStartBefore(i, nbTrie, total - 1, total);
      ghost var before := mt[..];
      SearchOneTrie(ctx, data, F, mt, i, pm);
      TriesStep(before, mt[..], ctx, data, F, i, pm);
      i, pm := i + 1, pm + total;
    }
  }

  /**
   * The resolve step of search_avx512x16x2: one category goes to the
   * single-category resolver, more to a multi-category one. Key k's result
   * in category c ends up in row k, at results[RowStart(k, categories) + c].
   */
  method ResolveMatches(results: array<Word>, pr: seq<MatchResult>, m: seq<Word>, totalPackets: nat, categories: nat, nbTrie: nat)
    requires TableOk(pr) && nbTrie >= 1 && MatchesOk(pr, m, totalPackets, nbTrie)
    requires 1 <= categories <= MAX_CATEGORIES && RowStart(totalPackets, categories) <= results.Length
    modifies results
    ensures RowsDone(results[..], pr, m, totalPackets, nbTrie, categories, totalPackets)
    ensures forall j :: RowStart(totalPackets, categories) <= j < results.Length ==> results[j] == old(results[j])
  {
    if categories == 1 {
      ResolveSc(results, pr, m, totalPackets, nbTrie);
    } else if categories <= MAX_CATEGORIES / 2 {
      // resolve_mcle8_avx512x1 is not part of this model: the per-key resolver stands in for it
      ResolveMcgt8(results, pr, m, totalPackets, categories, nbTrie);
    } else {
      ResolveMcgt8(results, pr, m, totalPackets, categories, nbTrie);
    }
  }

  /** The single-category branch: row k is the one word results[k]. */
  method ResolveSc(results: array<Word>, pr: seq<MatchResult>, m: seq<Word>, totalPackets: nat, nbTrie: nat)
    requires TableOk(pr) && nbTrie >= 1 && MatchesOk(pr, m, totalPackets, nbTrie)
    requires RowStart(totalPackets, 1) <= results.Length
    modifies results
    ensures RowsDone(results[..], pr, m, totalPackets, nbTrie, 1, totalPackets)
    ensures forall j :: RowStart(totalPackets, 1) <= j < results.Length ==> results[j] == old(results[j])
  {
    RowStartProduct(totalPackets, 1);
    ResolveScX2(results, pr, m, totalPackets, nbTrie);
    forall k, c | 0 <= k < totalPackets && 0 <= c < 1
      ensures RowCell(results[..], pr, m, totalPackets, nbTrie, 1, k, c)
    {
      RowStartProduct(k, 1);
    }
  }

  /** Once the buffer is resolved, key k's result in category c at k * categories + c is what its scalar column selects. */
  lemma {:induction false} ResultCell(results: array<Word>, m: seq<Word>, ctx: Ctx, data: seq<Key>, F: nat, categories: nat, k: nat, c: nat)
    requires CtxOk(ctx, data, F) && TriesDone(m, ctx, data, F, |ctx.tries|)
    requires MatchesOk(ctx.pr, m, |data|, |ctx.tries|) && c < categories <= MAX_CATEGORIES && k < |data|
    requires RowsDone(results[..], ctx.pr, m, |data|, |ctx.tries|, categories, |data|)
    ensures 0 <= k * categories + c < results.Length
    ensures results[k * categories + c] == Best(ctx.pr, ScalarColumn(ctx, data, F, k), c)
  {
    ColumnsAgree(m, ctx, data, F, k);
    RowCellProduct(results[..], ctx.pr, m, |data|, |ctx.tries|, categories, k, c);
  }

  /**
   * search_avx512x16x2: every key's result in every category is the result
   * the scalar walks of the key in all tries select, the trie with the
   * greatest priority winning and the later trie winning a tie. Results
   * are row-major by key; nothing past them changes.
   */
  method SearchAvx512x16x2(ctx: Ctx, data: seq<Key>, results: array<Word>, totalPackets: nat, categories: nat, ghost F: nat)
    returns (r: int)
    requires |data| == totalPackets >= 2 * LANES
    requires 1 <= categories <= MAX_CATEGORIES && totalPackets * categories <= results.Length
    requires CtxOk(ctx, data, F)
    modifies results
    ensures r == 0
    ensures forall k, c :: 0 <= k < totalPackets && 0 <= c < categories ==>
      results[k * categories + c] == Best(ctx.pr, ScalarColumn(ctx, data, F, k), c)
    ensures forall j :: totalPackets * categories <= j < results.Length ==> results[j] == old(results[j])
  {
    var nbTrie := |ctx.tries|;
    var mt := SearchTries(ctx, data, F);
    var m := mt[..];
    ResultsAgree(m, ctx, data, F);
    RowStartProduct(totalPackets, categories);
    ResolveMatches(results, ctx.pr, m, totalPackets, categories, nbTrie);
    forall k, c | 0 <= k < totalPackets && 0 <= c < categories
      ensures 0 <= k * categories + c < results.Length && results[k * categories + c] == Best(ctx.pr, ScalarColumn(ctx, data, F, k), c)
    {
      ResultCell(results, m, ctx, data, F, categories, k, c);
    }
    r := 0;
  }
}
