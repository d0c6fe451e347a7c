# Batched ACL classification with 2x16 vector lanes

This project is a Dafny model of the AVX-512 16-lane classifier of the DPDK
ACL library, `lib/librte_acl/acl_run_avx512x16.h`. The model also carries
proofs about it.

The classifier works in two phases:

- **Trie walk.** It walks a batch of keys through every compiled trie of an
  ACL context, 32 keys at a time, in two halves of 16 lanes.
- **Resolve.** It picks, for every key and every category, the result of the
  match with the greatest priority across the tries.

The model follows the code layer by layer:

- **Node encoding and one transition** (`acl_node.dfy`). This is
  `calc_addr16` per lane, covering DFA nodes and range ("quad"/single) nodes.
  `Step` is the table load at the computed address.
- **Lanes and masks** (`acl_lanes.dfy`). 16-lane registers are sequences of
  16 values, and 16-bit masks are sequences of 16 booleans. This module gives
  popcount, the rank of a lane among the set lanes, masked expand, masked
  move, and the mask operations of the lane manager.
- **Vector transitions** (`acl_trans.dfy`). These are `transition16`,
  `first_trans16` and the match test.
- **Input fetch** (`acl_fetch.dfy`). These are `get_next_bytes_avx512x16` and
  `_m512_mask_gather_epi8x8`.
- **Reference walk** (`acl_walk.dfy`). This is the search of one key in one
  trie, written as a plain recursion over the key's fields. It is the
  specification that the batched walk is proved against.
- **Lane manager** (`acl_flow.dfy`). The class `Flow` holds the per-trie flow
  state that the code mutates: `num_packets` and the trie's stretch of the
  shared match buffer. Its methods are:
  - `start_flow16`;
  - `match_process_avx512x16`;
  - `match_check_process_avx512x16x2`;
  - `search_trie_avx512x16x2`.

  `SearchTrie` is proved to leave, in each key's slot, the match index that
  the key's scalar walk reaches. It also leaves every slot outside the trie's
  stretch unchanged.
- **Resolvers** (`acl_resolve.dfy`). These are `resolve_pri_avx512x16`,
  `resolve_sc_avx512x16`, `resolve_sc_avx512x16x2`, `resolve_mcgt8_avx512x1`
  and `resolve_match_idx_avx512x16`. Each is proved against a max-by-priority
  reduction (`Winner`, `Best`). The running best is replaced unless it is
  strictly greater, so on equal priority the later trie wins.
- **Top level** (`acl_search.dfy`). This is `search_avx512x16x2`. Its
  contract is the end-to-end statement: `results[k * categories + c]` is the
  result that the scalar walks of key k in all tries select for category c.

The lane registers of the code, passed by pointer and updated in place, are
values here. One half's `pdata`, `idx`, `di`, `tr_lo` and `tr_hi` form a
`Half`, which each method takes and returns. The flow structure and the
match and result buffers are updated in place: a class field and arrays.

## Model

| member | source | states |
|---|---|---|
| AclNode.QuadOffsetCountsBelow | lib/librte_acl/acl_run_avx512x16.h:179-219 | On a range node whose signed boundaries ascend, the lzcnt-based offset equals the number of boundaries strictly below the input byte, and it is at most 4 |
| AclNode.QuadOffsetBound | lib/librte_acl/acl_run_avx512x16.h:215-219 | For any boundaries the range offset lies between the count of boundaries below the input and 4 |
| AclNode.UnorderedBoundsMiscount | lib/librte_acl/acl_run_avx512x16.h:179-185 | The ordering of the boundaries is needed: for boundaries that do not ascend, the offset (2) differs from the number of boundaries below the input (1) |
| AclNode.CalcAddrDfa | lib/librte_acl/acl_run_avx512x16.h:196-225 | On a DFA node (no type bits) the next index is tr_lo + b - (byte b/64 of tr_hi), modulo 2^32, where b is the lane's low input byte |
| AclNode.CalcAddrRange | lib/librte_acl/acl_run_avx512x16.h:200-225 | On a range node with ascending boundaries the next index is the node's index bits plus the count of boundaries below the input byte, modulo 2^32 |
| AclNode.Signed | lib/librte_acl/acl_run_avx512x16.h:215 | A boundary byte compared as signed 8-bit lies in -128..127 and is non-negative exactly when it is below 128 |
| AclNode.Shr8Divides | lib/librte_acl/acl_run_avx512x16.h:251 | The input shift by 8 divides the lane value by 256, and the byte consumed is the lane value modulo 256 |
| AclNode.DfaNeverMatches | lib/librte_acl/acl_run_avx512x16.h:14-54 | When the match bits and the index bits are disjoint, a node with only index bits set (a DFA node) is never reported as a match |
| AclNode.IdleAddr | lib/librte_acl/acl_run_avx512x16.h:196-225 | A lane on the idle record fed a zero input byte computes the idle node's own index bits as its next address, whether the idle node is a DFA node or a range node |
| AclNode.IdleStaysIdle | lib/librte_acl/acl_run_avx512x16.h:419-421 | An idle lane fed a zero input byte loads the idle record again and never reports a match |
| AclTrans.Transition16 | lib/librte_acl/acl_run_avx512x16.h:235-257 | Every lane's new (tr_lo, tr_hi) is the record at the address calc_addr16 gives that lane, and every lane's input is shifted right by one byte |
| AclTrans.FirstTrans16 | lib/librte_acl/acl_run_avx512x16.h:266-288 | Lanes in the mask load the record at root_index + (input & 0xff); every other lane keeps tr_lo and tr_hi |
| AclFetch.Gather8x1 | lib/librte_acl/acl_run_avx512x16.h:151-172 | A masked lane reads the byte its pointer points to, zero-extended; an unmasked lane reads the zero sentinel and gets 0 |
| AclFetch.Gather4 | lib/librte_acl/acl_run_avx512x16.h:337-342 | A masked lane's value is the little-endian 32-bit number the 4 key bytes at its offset spell; an unmasked lane is 0 |
| AclFetch.Load4LittleEndian | lib/librte_acl/acl_run_avx512x16.h:337-342 | The lane value of a 4-byte load is the little-endian number the key's 4 bytes spell; a 1-byte load is the byte itself |
| AclFetch.GetNextBytes | lib/librte_acl/acl_run_avx512x16.h:296-348 | Active lanes read 1 or 4 bytes at offset data_index[di] of their key and get di + 1; inactive lanes read 0 and keep di |
| AclWalk.WalkFromMono | lib/librte_acl/acl_run_avx512x16.h:511-537 | A walk that finishes within a field bound gives the same answer under any larger bound |
| AclWalk.WalkFromNext | lib/librte_acl/acl_run_avx512x16.h:511-537 | A walk that finishes and is not on a match node has fuel left, and it equals the walk after consuming its next 4-byte field |
| AclWalk.WalkFromUnfold | lib/librte_acl/acl_run_avx512x16.h:511-537 | Off a match node, a walk with fuel is the walk from the next field's chunk |
| AclWalk.WalkFromResult | lib/librte_acl/acl_run_avx512x16.h:417 | A walk finishes exactly when the record it stops on (`WalkEnd`) is a match node, and its result is then that node's index bits |
| AclWalk.StepLowByte | lib/librte_acl/acl_run_avx512x16.h:197-218 | A transition depends only on the low byte of its lane input |
| AclWalk.ChunkReadsBytesInOrder | lib/librte_acl/acl_run_avx512x16.h:520-532 | Four transitions on a 4-byte load consume the key's four bytes in key order, first byte first |
| AclWalk.IdleChunk | lib/librte_acl/acl_run_avx512x16.h:513-532 | An inactive lane, reading 0, stays on the idle node through a whole round of four transitions |
| AclLanes.CountAppend | lib/librte_acl/acl_run_avx512x16.h:366-372 | The popcount of a mask is the sum of the popcounts of its two halves |
| AclLanes.RankOnto | lib/librte_acl/acl_run_avx512x16.h:389 | Every slot below the popcount is the rank of some set lane, so an expand uses every new element |
| AclLanes.RankBelowCount | lib/librte_acl/acl_run_avx512x16.h:389 | A set lane's rank is below the popcount, so an expand never reads past the new elements |
| AclLanes.Expand | lib/librte_acl/acl_run_avx512x16.h:385-389 | The masked expand: set lanes take consecutive source elements in ascending lane order; the other lanes keep their value |
| AclLanes.ExpandSplit | lib/librte_acl/acl_run_avx512x16.h:365-386 | Expanding the two 8-lane pointer registers separately, the upper one reading after the lower half's popcount, is one 16-lane expand |
| AclLanes.KeepCount | lib/librte_acl/acl_run_avx512x16.h:428 | Keeping the n lowest set lanes keeps min(n, popcount) of them, each with its old rank |
| AclFlow.ScatterRight | lib/librte_acl/acl_run_avx512x16.h:424-425 | When each matched lane carries its key's result, the scatter fills the slot of every matched lane, sets every slot of the region to either its old value or its right value, and writes nothing outside the region |
| AclFlow.StartedByExpand | lib/librte_acl/acl_run_avx512x16.h:381-390 | Expanding consecutive key numbers and pointers into the masked lanes and clearing their di starts them on keys P, P+1, ... in lane order |
| AclFlow.Flow.constructor | lib/librte_acl/acl_run_avx512x16.h:711 | A new flow points at its trie, the batch and its stretch of the match buffer, with no key started |
| AclFlow.Flow.StartFlow16 | lib/librte_acl/acl_run_avx512x16.h:358-393 | The lanes in msk, in ascending lane order, take keys num_packets, num_packets+1, ... (pointer, slot, di = 0); other lanes keep pdata, idx and di; num_packets grows by num |
| AclFlow.Flow.UpdateFlowMask | lib/librte_acl/acl_run_avx512x16.h:428 | The matched lanes leave the active mask, and the min(popcount, keys left) lowest of them re-enter it marked for refill |
| AclFlow.Flow.ScatterMatches | lib/librte_acl/acl_run_avx512x16.h:424-425 | The match buffer becomes the masked scatter of the results into the matched lanes' key slots |
| AclFlow.Flow.MatchProcess | lib/librte_acl/acl_run_avx512x16.h:405-432 | With no match nothing changes and 0 is returned; otherwise each matched lane stores its index bits into its key's slot and is reset to the idle record, the masks are updated and the refilled lanes start on the next keys |
| AclFlow.LanesAfterMatch | lib/librte_acl/acl_run_avx512x16.h:417-429 | After match_process, every lane still walking keeps its state, matched lanes are idle, and refilled lanes are pending on the next keys |
| AclFlow.CoveredAfterMatch | lib/librte_acl/acl_run_avx512x16.h:423-429 | After match_process, every key started so far has its result in its slot or is walked by an active lane |
| AclFlow.ExhaustedAfterMatch | lib/librte_acl/acl_run_avx512x16.h:428-429 | match_process only leaves a lane inactive once every key has been started |
| AclFlow.MatchedRight | lib/librte_acl/acl_run_avx512x16.h:417 | A lane on a match node holds its key's expected match index in its index bits |
| AclFlow.RmOfMatchLanes | lib/librte_acl/acl_run_avx512x16.h:447-448 | The match test yields exactly the active lanes on a match node, because inactive lanes sit on the idle node |
| AclFlow.LanesAfterFirst | lib/librte_acl/acl_run_avx512x16.h:461-467 | After the first transition of the refilled lanes, each lane's remaining walk is its key's whole scalar search |
| AclFlow.Flow.MatchHalf | lib/librte_acl/acl_run_avx512x16.h:454-457 | match_process on one half keeps the search invariants, writes only this trie's slots and, when it starts no key, leaves no matched active lane |
| AclFlow.Flow.FirstTransNew | lib/librte_acl/acl_run_avx512x16.h:461-477 | When keys were started, the refilled lanes read their first input and take their first transition, and the match mask is recomputed to be exactly the active lanes on a match node |
| AclFlow.Flow.MatchRound | lib/librte_acl/acl_run_avx512x16.h:451-478 | One pass of the loop keeps the search invariants, and it leaves both match masks empty when no key is started |
| AclFlow.Flow.MatchCheckProcess | lib/librte_acl/acl_run_avx512x16.h:438-479 | On return no active lane is on a match node, every started key is finished or being walked, and only this trie's slots were written |
| AclFlow.LanesAfterChunk | lib/librte_acl/acl_run_avx512x16.h:513-532 | One round of four transitions brings every active lane one field closer to its result and keeps inactive lanes idle |
| AclFlow.Flow.NextChunk16 | lib/librte_acl/acl_run_avx512x16.h:513-532 | Each lane's record after the round is the four-step chunk over its next input (0 when inactive); active lanes advance di by one |
| AclFlow.Flow.StartSearch | lib/librte_acl/acl_run_avx512x16.h:492-505 | Both flow masks are full, lane l of the first half holds key l and lane l of the second half key 16 + l, the packet count is 32, and every lane has taken its key's first transition and is on its scalar walk |
| AclFlow.Flow.SearchRound | lib/librte_acl/acl_run_avx512x16.h:511-537 | One round of the main loop keeps the invariants; either a key was started or every walk is one field shorter |
| AclFlow.CoveredDone | lib/librte_acl/acl_run_avx512x16.h:511 | Once no lane is active, every key has been started and every key's slot holds its result |
| AclFlow.Flow.SearchTrie | lib/librte_acl/acl_run_avx512x16.h:486-538 | Every key of the batch is started, and each key's slot holds the match index its scalar walk reaches; slots of other tries are untouched |
| AclResolve.Signed32 | lib/librte_acl/acl_run_avx512x16.h:634 | A priority word read as signed 32-bit is congruent to the word modulo 2^32 |
| AclResolve.Bits | lib/librte_acl/acl_run_avx512x16.h:617 | Storing a signed priority as a 32-bit word and reading it back as signed gives the priority back |
| AclResolve.MatchIdx | lib/librte_acl/acl_run_avx512x16.h:588-594 | For a match index below 2^27, the shift by match_log (5) is the word offset m * 32 of its record |
| AclResolve.FlatLayout | lib/librte_acl/acl_run_avx512x16.h:556-566 | At a record's offset, word c is category c's result and word 16 + c its priority |
| AclResolve.RowStartProduct | lib/librte_acl/acl_run_avx512x16.h:561 | Advancing a pointer by n per row puts row k at k * n |
| AclResolve.Winner | lib/librte_acl/acl_run_avx512x16.h:576-578 | The winning trie has the greatest priority, and every later trie's priority is strictly smaller |
| AclResolve.WinnerIsLastMaximum | lib/librte_acl/acl_run_avx512x16.h:634-636 | The winner is the only trie with those two properties: the last trie holding the maximum |
| AclResolve.BestAppend | lib/librte_acl/acl_run_avx512x16.h:634-636 | Adding one trie keeps the best so far exactly when its priority is strictly greater; otherwise the new trie's result and priority win |
| AclResolve.RunningFirst | lib/librte_acl/acl_run_avx512x16.h:612-617 | The first trie's masked loads give each lane in the mask that trie's result and priority, and zero elsewhere |
| AclResolve.RunningStep | lib/librte_acl/acl_run_avx512x16.h:626-636 | One compare-and-blend step turns the winner of the first n tries into the winner of the first n + 1 |
| AclResolve.LowMask | lib/librte_acl/acl_run_avx512x16.h:653 | (1 << n) - 1 as a mask: exactly lanes 0..n-1 are set, n lanes in all |
| AclResolve.StoreLanes | lib/librte_acl/acl_run_avx512x16.h:655 | The masked store writes the first n lanes to result[off..off+n) and nothing else |
| AclResolve.GatherPair | lib/librte_acl/acl_run_avx512x16.h:626-632 | Each lane in the mask gets category 0's result and priority of its key's record in trie i; other lanes get 0 |
| AclResolve.PriStep | lib/librte_acl/acl_run_avx512x16.h:626-636 | One trie of the loop turns the running winner of tries 0..i-1 into the winner of tries 0..i, lane by lane |
| AclResolve.ResolvePri16 | lib/librte_acl/acl_run_avx512x16.h:599-640 | Each lane in the mask returns category 0's result of the trie with the greatest priority for its key (later trie on a tie); other lanes return 0 |
| AclResolve.ResolveSc16 | lib/librte_acl/acl_run_avx512x16.h:645-656 | Keys at..at+n-1 get their resolved single-category result in result[at..at+n); nothing else changes |
| AclResolve.ResolveSc32 | lib/librte_acl/acl_run_avx512x16.h:675-683 | One block of 32 keys is resolved and stored; nothing else changes |
| AclResolve.ResolveScX2 | lib/librte_acl/acl_run_avx512x16.h:661-697 | result[k] is the resolved result of key k for every k < nb_pkt (blocks of 32, then at most two blocks of 16); nothing past nb_pkt changes |
| AclResolve.RecordLoaded | lib/librte_acl/acl_run_avx512x16.h:565-566 | Loads of a record's first nb_cat results and priorities read that record's results and priorities |
| AclResolve.LoadCategories | lib/librte_acl/acl_run_avx512x16.h:571-574 | Lane c < nb_cat gets the result and priority of category c in the key's record of trie i; higher lanes get 0 |
| AclResolve.ResolveKeyCategories | lib/librte_acl/acl_run_avx512x16.h:563-579 | Lane c < nb_cat holds key k's resolved result of category c; higher lanes hold 0 |
| AclResolve.RowsStep | lib/librte_acl/acl_run_avx512x16.h:581 | Storing key k's row keeps the earlier rows and completes row k |
| AclResolve.ResolveRow | lib/librte_acl/acl_run_avx512x16.h:563-581 | One key's categories are resolved into its row; earlier rows stay done and nothing after the row changes |
| AclResolve.ResolveMcgt8 | lib/librte_acl/acl_run_avx512x16.h:543-583 | Key k's result for category c is in row k, column c, for every key and category; nothing past the rows changes |
| AclResolve.RowCellProduct | lib/librte_acl/acl_run_avx512x16.h:561 | Once every row is done, key k's result for category c is at k * nb_cat + c |
| AclSearch.TriesStep | lib/librte_acl/acl_run_avx512x16.h:708-715 | Searching trie i fills its stretch of the match buffer and keeps the earlier tries' stretches |
| AclSearch.ColumnsAgree | lib/librte_acl/acl_run_avx512x16.h:706-708 | Once every trie is searched, key k's match indexes at k + i * total are its scalar walks' results, trie by trie |
| AclSearch.ResultsAgree | lib/librte_acl/acl_run_avx512x16.h:717-729 | Once every trie is searched, the resolver's answer for every key and category is the one its scalar walks select |
| AclSearch.SearchOneTrie | lib/librte_acl/acl_run_avx512x16.h:710-714 | Trie i's stretch at i * total gets every key's scalar match index; the rest of the buffer is unchanged |
| AclSearch.SearchTries | lib/librte_acl/acl_run_avx512x16.h:706-715 | A buffer of num_tries * total words whose stretch for trie i holds every key's scalar match index in that trie |
| AclSearch.ResolveSc | lib/librte_acl/acl_run_avx512x16.h:721-723 | With one category, key k's resolved result is at results[k] |
| AclSearch.ResolveMatches | lib/librte_acl/acl_run_avx512x16.h:721-729 | For every key and category, the resolved result sits in the key's row of the results; nothing past the rows changes |
| AclSearch.ResultCell | lib/librte_acl/acl_run_avx512x16.h:717-731 | After resolution, results[k * categories + c] is the result the scalar walks of key k select for category c |
| AclSearch.SearchAvx512x16x2 | lib/librte_acl/acl_run_avx512x16.h:699-731 | Returns 0, and results[k * categories + c] is the result of the trie with the greatest priority among the scalar walks of key k (later trie on a tie); nothing past the results changes |

## Left out

- The node constants `RTE_ACL_NODE_INDEX`, `RTE_ACL_NODE_MATCH` and `RTE_ACL_IDLE_NODE` are defined outside this file. They are parameters (`NodeConsts`). The model assumes only what the code relies on: match bits and index bits are disjoint, some match bit exists, and the idle node carries no match bit. The idle node may be a DFA node or a range node. The record at the idle node's index bits must be the idle record itself.
- The shuffle, lzcnt, permute and expand encodings (the `zmm_*` constants) are given their per-lane meaning, not their bit layout. Lanes of 32-bit values hold four bytes (`Quad`), and the 64-bit pointer registers are sequences of 8 lanes.
- Bitwise and is defined recursively on naturals. `tr_lo & INDEX` is taken on the 32-bit word.
- Raw pointers and the static `zero` sentinel: an input pointer is the key it points to, and an inactive lane's load yields 0. Reading past the end of a key or of the data-index table is undefined behaviour in C; `KeyByte` and `DataOffset` read 0 there so that every read has a value.
- The transition table is a total function from 32-bit indexes to records. An out-of-range index is not modelled.
- `update_flow_mask` is not part of this model. `AclFlow.Flow.UpdateFlowMask` gives it the contract its call site needs: the matched lanes leave, and as many of them as there are keys left, lowest lanes first, are refilled.
- `acl_set_flow_avx512` is not part of this model. The `Flow` constructor stands in for it.
- `resolve_mcle8_avx512x1` is not part of this model. `AclSearch.ResolveMatches` uses the per-key resolver (`ResolveMcgt8`) for 2 to 8 categories too, which computes the same per-category maximum.
- AclSearch.ResolveMatches: for 2 to 8 categories, the 8-category variant's register layout is not modelled, only the result it has to produce.
- The two halves of `search_trie_avx512x16x2` interleave their calls. They touch disjoint registers, so each half's round is one call (`NextChunk16`) here.
- AclFlow.Flow.SearchTrie: termination is bounded by a ghost bound F on the number of 4-byte fields of any key's walk. Each key's scalar walk is required to finish within F, standing in for the acyclic tries the compiler builds.
- AclFlow.Flow.SearchTrie: the batch is required to hold at least 32 keys. The code starts 32 flows without checking, and its callers only choose this path for such batches.
- AclSearch.SearchAvx512x16x2: requires at least 32 keys, as `SearchTrie` does, and at most `MAX_CATEGORIES` = 16 categories. The per-key resolver loads at most 16 categories into one register, and the record layout (16 results, then 16 priorities) fixes 16.
- AclSearch.SearchAvx512x16x2: requires every key to walk to a match node in every trie whose index names a record of the table. Compiled contexts guarantee this, and the model does not rebuild the compiler.
- AclResolve.TableOk: the match-result table has at most 2^26 records, so a record's word offset (`index << 5`) never wraps in a 32-bit lane.
- The match buffer, a variable-length array on the stack, is a new array of `num_tries * total_packets` words.
- The compile-time size check of `resolve_match_idx_avx512x16` is a build assertion, not behaviour. The model fixes a record at 32 words.
- The lanes of one scatter are written in ascending lane order, the order the scatter instruction gives to writes to the same slot.
- Tie-break: the code keeps the running best only where it is strictly greater than the next trie's priority, so the later trie wins. The model follows the code (`Winner`, `WinnerIsLastMaximum`).
- The match slots (`idx`) and data indexes (`di`) of a half are 32-bit lanes in the code and unbounded naturals here. Key numbers and field counts stay far below 2^32, so no wrap-around is modelled.
