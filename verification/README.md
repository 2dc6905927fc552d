# Verification of the tooling algorithms

A Dafny model of the self-contained algorithms in this repository's tools and benchmarks, with proofs
of what they are for. Each fast or stateful form stands beside a simple specification, and the two are
proved equal on all inputs.

- **Drafting** (`Substrings`, `SuffixAutomaton`, `LongestSuffixDraft`, `NgramDrafts`, `Lookahead`,
  `TurnReplay`): the online suffix automaton against a brute-force search, the n-gram index against backward
  scans, speculative verification and Jacobi rounds against greedy decoding, and the replay of a document's turns.
- **Cache policies** (`CachePolicies`, `LruPolicies`, `PinnedPolicies`): Belady's policy with bypass is optimal
  over all demand policies, hence a ceiling for LRU, pinned LRU and the lazy-pin replay. The proof keeps a
  potential: at every horizon, the other cache's lead in keys used before it is paid for by earlier hits.
- **Huffman coding** (`BitStrings`, `HuffmanCost`, `PrefixCodes`, `CodeLengths`, `CodeTable`, `CodeStream`,
  `HufReader`, `Huf4`): the optimal cost, length-limited code lengths, canonical codes, the lookup table, the
  four-lane decoder with two symbols a lookup, and the round trip.
- **Fixed-width dictionary codec** (`BytePlanes`, `FixedCodes`, `FixedDictionary`, `FixedVector`,
  `FixedContainer`, `FixedRows`, `FixedIndex`): bit planes, scalar and 256-bit vector decoders, parsing as the
  inverse of the layout, two encoders, and the row index.
- **Attention variants** (`MlaAttention`, `MlaVariants`, `MlaLatent`, `MlaAbsorbed`, `MlaExact`): four loop
  structures are identical operation for operation over uninterpreted arithmetic; the absorbed one is equal over
  the reals; and over the reals what all of them leave is attention.
- **Storage** (`DiskCache`, `CacheThreads`, `CacheFiles`, `RangeReads`, `Archive`, `ScalePlan`, `ArchivePacking`):
  the concurrent block cache as interleaved steps, its files on disk, ranged reads, the reader over any archive
  that validates, the plan of a weight file, and the packers.

`Numbers` holds shared arithmetic. `dafny verify dfyconfig.toml` checks everything.

Conventions: what a method updates in place is an array or a field; token ids and cache keys are integers;
machine words are unbounded integers with the wrap-around or mask written out where the code relies on it. A
heap, a sorted list of keys or a most-common query is any choice the library could make: the results hold
whatever ties it breaks.

Where the code and its own words differ, the model follows the code:

- The block cache documents a bound that includes the digests and all in-flight bytes (tools/remote_model.py:222-227).
  A bad block is forgotten under the lock but its file is removed outside it (tools/remote_model.py:312-316). One
  thread alone never breaks the bound and never loses the file of an entry, whatever its reads return; for every
  number of threads from two on some run does both, when another thread fills the block in between. `CacheFiles`
  proves both equivalences (`BytesBoundedIffAlone`, `FilesKeptIffAlone`), the inputs of the failure, and what holds
  for any number of threads.
- A comment takes a cache key to be the digest of its content (tools/remote_model.py:296); the key is the digest
  of the manifest, the shard and the block's offset (tools/remote_model.py:377-378).

## Model

| member | source | states |
|---|---|---|
| SuffixAutomata.SuffixAutomaton.Extend | tools/spec_replay.py:277-308 | before `commit`, the returned state's length, last end and count are those of the longest suffix that also ended earlier, for every history, across cloning |
| SuffixAutomata.SuffixAutomaton.Commit | tools/spec_replay.py:310-316 | after `commit` every state's last end and count describe the whole text again |
| SuffixAutomata.LongestSuffixMatch | tools/spec_replay.py:319-330 | the brute-force search returns the longest earlier-occurring suffix with its most recent end and its count, or (0, -1, 0) |
| SuffixAutomata.LongestMatchIsUnique | tools/spec_replay.py:319-330 | there is one such match, so the automaton and the search agree at every position |
| SuffixAutomata.WalkFindsLongestOld | tools/spec_replay.py:289-293 | the walk over suffix links stops at the longest suffix that has occurred before |
| SuffixAutomata.ExtendGraph | tools/spec_replay.py:277-308 | one extension turns the states, links and edges of a text into those of the longer text, with or without a clone |
| SuffixAutomata.EndsOfClass | tools/spec_replay.py:301-304 | all strings of a state's class end at the same places, which is why a clone may copy its figures |
| Substrings.MaximalAppend | tools/spec_replay.py:290-307 | appending an id makes at most two new left-maximal strings: the whole text and the longest old suffix |
| Substrings.ClassContinuesMaximal | tools/spec_replay.py:289-296 | following an id from a left-maximal string reaches one determined left-maximal string |
| LongestSuffixDrafts.MatchNext | tools/spec_replay.py:427-452 | one draft point: extend, read the match, commit |
| LongestSuffixDrafts.MatchHistory | tools/spec_replay.py:424-452 | one pass finds the longest earlier suffix at every position of a document |
| LongestSuffixDrafts.PeriodicCopyIsUnique | tools/spec_replay.py:333-335 | the periodic copy is the one continuation of the history with that period, past its end too |
| LongestSuffixDrafts.DraftFollowsMatch | tools/spec_replay.py:440-443 | the draft continues the match with the distance to its last end as period, which the matched suffix already has |
| LongestSuffixDrafts.DraftCounts | tools/spec_replay.py:379-393 | the feature walk reads the counts of the states reached, and zero once an edge is missing |
| LongestSuffixDrafts.DraftCountsAreOccurrences | tools/spec_replay.py:379-393 | read between `extend` and `commit`, a walked count is the number of occurrences in the text of the matched suffix with the draft so far |
| NgramDrafts.StartsAreOccurrences | tools/spec_replay.py:190-194 | the listed starts are exactly the occurrences below a bound, in increasing order |
| NgramDrafts.SpecDraft | tools/spec_replay.py:122-171 | the engine's scan copies what follows the most recent repeat of the last four ids, up to the cap, the end, or where the repeat before it says otherwise; only when that proposes nothing, the same for three ids |
| NgramDrafts.EagerScan | tools/spec_replay.py:174-184 | the eager scan copies what follows the most recent repeat of the longest repeating n-gram of four, three or two last ids, up to the cap and the end, and is empty only when the cap is zero or none repeats |
| NgramDrafts.AgreedIsLongest | tools/spec_replay.py:156-168 | the gated draft copies what follows the latest start and stops only at the cap, the end, or the first disagreement of the two histories |
| NgramDrafts.NgramIndex.Advance | tools/spec_replay.py:203-215 | after each advance the index lists every start of every n-gram of the history, its own suffix aside |
| NgramDrafts.NgramIndex.P0 | tools/spec_replay.py:223-242 | the index drafts what follows the most recent repeat, gated by the one before it, as the scan does |
| NgramDrafts.NgramIndex.P1 | tools/spec_replay.py:244-252 | the index drafts what follows the most recent repeat of the longest repeating n-gram, as the eager scan does |
| NgramDrafts.EagerDraftIsEager | tools/spec_replay.py:174-184 | what the eager draft is, read off the history: the longest order that repeats, its last repeat, and the ids after it |
| NgramDrafts.GatedDraftIsGated | tools/spec_replay.py:122-171 | what the gated draft is, read off the history: four ids before three, the last repeat and the one before it, and the ids on which they agree |
| NgramDrafts.DraftsAgree | tools/spec_replay.py:122-252 | for every history, number of advances and cap, both index drafts equal both scans |
| TurnReplays.Analyze | tools/spec_replay.py:408-430 | for any list of turns, later ones over earlier ones, one pass records exactly the draft points, in order, with the ids left in the last turn that covers them, the draft's length, and how much of it the document agrees with; of turns in order and apart, what is left counts down to one |
| TurnReplays.CommonPrefix | tools/spec_replay.py:400-405 | the agreeing part is the longest part of the draft that the document has there, within the turn |
| TurnReplays.ShorterDraftAgrees | tools/spec_replay.py:415-417 | a shorter cap accepts the smaller of the cap and the longer draft's agreement |
| TurnReplays.EveryPolicyStaysInTurn | tools/spec_replay.py:597-599 | what any policy emits from a draft point is at least one id and stays within the turn |
| TurnReplays.Orbit | tools/spec_replay.py:580-587 | the points visited start at the first and go on by what each emits until none is left |
| TurnReplays.OrbitKeepsTurns | tools/spec_replay.py:580-599 | of turns in order and apart, a run visits the first draft point of every turn, never jumps past a turn's end, and emits as many ids as there are draft points |
| TurnReplays.Replay | tools/spec_replay.py:408-615 | from any turns and any drafter: the ids emitted at every point are the document's, and as many as the capped draft, its agreement and the turn allow; of turns in order and apart, the run visits every turn's first draft point and stays in each turn |
| Lookahead.VerifyPrefix | tools/lookahead_gate.py:45-53 | verification emits the greedy continuation, one id longer than the longest agreeing part of the draft |
| Lookahead.MatchingIsLongest | tools/lookahead_gate.py:45-53 | the agreeing part is greedy and cannot be longer |
| Lookahead.JacobiProposal | tools/lookahead_gate.py:31-42 | r rounds make the first r proposals greedy, so at least r are accepted, and every place of a round's guess comes from the places before it in the old guess; windows and round counts out of range are refused |
| Lookahead.FixedPointIsGreedy | tools/lookahead_gate.py:40-42 | a guess that a round leaves unchanged is greedy throughout |
| CachePolicies.Belady | tools/sim_cache.py:51-76 | the hits are the maximum over all demand policies with that many slots, bypass included |
| CachePolicies.StaysAhead | tools/sim_cache.py:63-75 | one request keeps the policy ahead: its hits outweigh any other cache's by what that cache holds that will be used sooner |
| CachePolicies.PolicyAchieves | tools/sim_cache.py:36-110 | a policy given by its contents after each request is one of the runs the optimum ranges over |
| LruPolicies.Lru | tools/sim_cache.py:36-48 | the ordered-dictionary loop counts the hits of least-recently-used replacement |
| LruPolicies.LruIsNewest | tools/sim_cache.py:36-48 | it always holds the most recently used keys, in order |
| LruPolicies.LruInclusion | tools/sim_cache.py:36-48 | a larger cache holds everything a smaller one holds |
| LruPolicies.LruHitsGrow | tools/sim_cache.py:36-48 | hits never fall as capacity grows |
| LruPolicies.LruHitIffRecent | tools/sim_cache.py:36-48 | a request hits exactly when fewer than cap distinct keys came since the last request for it |
| LruPolicies.LruIsBounded | tools/sim_cache.py:36-48 | the optimum is a ceiling for LRU |
| PinnedPolicies.PinnedLru | tools/sim_cache.py:79-110 | for any choice among equally frequent keys and any number of pins, the hits of holding the pins requested so far and, in the room left, the other keys used latest |
| PinnedPolicies.PinnedIsBounded | tools/sim_cache.py:79-110 | the optimum is a ceiling even when the pins are chosen from the trace itself |
| PinnedPolicies.CompulsoryMisses | tools/sim_cache.py:51-76 | every key's first request misses under any policy |
| PinnedPolicies.ReplayTrace | tools/expert_profile.py:82-109 | the lazy-pin replay counts the hits of holding, of the keys requested so far, the pins and as many of the others used latest as fit; a bad capacity is refused |
| PinnedPolicies.ReplayKeepsNewest | tools/expert_profile.py:86-101 | after every request the residents are the pins requested so far and the newest of the other keys, as many as the capacity allows |
| PinnedPolicies.NewestIsUnique | tools/expert_profile.py:86-101 | the pins, the capacity and the last uses leave one set of residents |
| PinnedPolicies.ReplayIsBounded | tools/expert_profile.py:82-109 | the optimum is a ceiling for the lazy-pin replay at the same capacity |
| PinnedPolicies.ReplayFillsUp | tools/expert_profile.py:86-101 | pins that were not requested reserve no slot |
| PinnedPolicies.ReplayWithoutPins | tools/expert_profile.py:82-109 | without pins the replay is LRU |
| PrefixCodes.HuffmanBits | tools/trunk_dictionary_gate.py:123-141 | the bits returned are the least sum of count times length over all decodable prefix codes; a lone symbol costs one bit a time; bad counts are refused |
| PrefixCodes.PrefixCodeObeysKraft | tools/trunk_dictionary_gate.py:123-125 | every prefix code obeys Kraft's inequality |
| HuffmanCosts.MergesAreLeast | tools/trunk_dictionary_gate.py:133-141 | no lengths that obey Kraft's inequality cost less than the merges |
| PrefixCodes.HuffmanCodeIsOptimal | tools/trunk_dictionary_gate.py:133-141 | undoing the merges gives a prefix code that costs exactly the merges |
| PrefixCodes.LeastCostIsUnique | tools/trunk_dictionary_gate.py:123-141 | the least cost is one number, so the total does not depend on tie-breaking |
| CodeLengths.HuffmanLengths | tools/bench_huf4.py:27-35 | for every way of choosing among least groups, the lengths are those the merging ends in, fill the code space, and cost the least merge total |
| CodeLengths.MergeTwo | tools/bench_huf4.py:30-35 | popping two least groups, lengthening their symbols and pushing the two together is one merge of the chosen groups, and keeps the forest and the total |
| HuffmanCosts.EqualWeightsAreShallow | tools/bench_huf4.py:40-42 | an optimal full code for at most 256 equal weights has no code longer than eight bits |
| CodeLengths.CodesFor | tools/bench_huf4.py:23-42 | floor doubling ends for every input; lengths are at most twelve, positive exactly for the symbols present, within the code space; the weights are the counts raised to a floor; the floor is the first doubling at which the tree that the algorithm builds is at most twelve deep, whatever way it breaks ties; at floor one the cost is least |
| CodeLengths.FloorHasTree | tools/bench_huf4.py:27-37 | at every floor, one that is skipped too, the lengths that decide whether it is too deep are those of a full tree of least cost for the raised weights |
| CodeTables.AssignCodes | tools/bench_huf4.py:43-48 | the running assignment gives each symbol the code at the start of its interval |
| CodeTables.CanonicalSuccessor | tools/bench_huf4.py:43-48 | in the order of length and symbol, each code is the one before plus one, widened with zero bits |
| CodeTables.CanonicalFirst | tools/bench_huf4.py:43-48 | the first code is zero |
| CodeTables.CanonicalIsPrefixFree | tools/bench_huf4.py:43-48 | no canonical code word is a prefix of another |
| CodeTables.OwnsIffPrefix | docs/notes/k3_huf.h.shelved:87-95 | a twelve-bit word lies in a symbol's interval exactly when it starts with the symbol's code word |
| CodeTables.BuildTable | docs/notes/k3_huf.h.shelved:60-97 | the table maps each twelve-bit word to the symbol whose code it starts with, or 0; over-long, over-full and empty lengths are refused |
| CodeStreams.EncodeBits | tools/bench_huf4.py:52-64 | the bit writer emits the code words in order and fewer than eight zero bits |
| CodeStreams.LaneIsUnique | tools/bench_huf4.py:52-64 | a lane determines its text, given how many symbols it has |
| CodeStreams.TableLookup | benchmarks/huf4.h:39-47 | a lookup in a zero-padded window gives the one code word that starts the stream, or none |
| HufReaders.BuildPairs | benchmarks/huf4.h:52-62 | a pair entry holds both symbols exactly when both codes fit in the twelve bits |
| HufReaders.HufReader.Refill | benchmarks/huf4.h:13-30 | refilling loses no bit and leaves twelve held or the lane read out |
| HufReaders.HufReader.IndexIsWindow | benchmarks/huf4.h:32-37 | the index is the next twelve bits, zero padded |
| HufReaders.HufReader.Symbol | benchmarks/huf4.h:39-47 | one symbol off the front of the lane, or -1 when no code word starts it |
| HufReaders.HufReader.Pair | benchmarks/huf4.h:64-76 | one or two symbols written four positions apart, or -1 when the lane does not start with two symbols |
| FourStreams.PairRejects | benchmarks/huf4.h:91-96 | a refused pair means that no text of the lane's length is held, zero padding of the window included |
| FourStreams.Decode | benchmarks/huf4.h:78-110 | status 0 exactly when the four lanes hold some high bytes with only padding after them; then the output is those bytes and the low bytes |
| FourStreams.HoldsOne | benchmarks/huf4.h:78-110 | the lanes determine the high bytes |
| FourStreams.DecodeBySymbols | benchmarks/huf4.h:39-110 | decoding every lane one symbol at a time has status 0 exactly when the lanes hold some high bytes, and then gives them and the low bytes |
| FourStreams.DecodeBothWays | benchmarks/huf4.h:39-110 | on every input, damaged or not, the pair decoder and the symbol decoder have the same status, and on success the same output |
| FourStreams.Encode | tools/bench_huf4.py:67-75 | the encoder's lanes hold every fourth high byte, and its lengths build a table even without high bytes |
| FourStreams.RoundTrip | tools/bench_huf4.py:67-75 | encoding and then decoding is the identity for every buffer, of even or odd length |
| FixedCodes.CodeAtIsField | benchmarks/fixed_dictionary.h:193-199 | code i is the field of the little-endian bitstream at bits [bits * i, bits * i + bits) |
| FixedCodes.CodeAtOfPlane | benchmarks/fixed_dictionary.h:193-199 | reading a written plane gives back its codes |
| FixedCodes.PutCode | benchmarks/bench_decode_contention.c:112-116 | OR-ing a code into one or two bytes adds exactly its bits to the plane |
| FixedCodes.PutCodes | tools/bench_fixed_dictionary.py:27-29 | the in-place encoder writes the plane of its codes with zero padding; at four bits this is the nibble encoder |
| FixedCodes.PutWords | tools/bench_fixed_dictionary.py:48-54 | eight codes to a 24-bit word, truncated at the end, write the same plane |
| FixedCodes.PlaneIsUnique | tools/bench_fixed_dictionary.py:27-54 | one plane holds given codes, so encoders that write it agree byte for byte |
| FixedDictionaries.DecodeScalar | benchmarks/fixed_dictionary.h:82-98 | status 0 exactly when there is room and the codes escape as often as the header says; then every value is decoded and nothing else is touched |
| FixedDictionaries.DecodedStream | benchmarks/fixed_dictionary.h:82-98 | a view decodes to one byte string |
| FixedVectors.MultiplyShift | benchmarks/fixed_dictionary.h:219-221 | multiplying by 2^(13-s) in sixteen bits and shifting right by 13 extracts three bits at s |
| FixedVectors.TablesAreRight | benchmarks/fixed_dictionary.h:256-261 | the shuffle and multiplier constants address every code of a step |
| FixedVectors.StepCodes | benchmarks/fixed_dictionary.h:262-265 | the gathered register holds the stream's codes |
| FixedVectors.RanksCount | benchmarks/fixed_dictionary.h:268-273 | the log-step sums are, within each half, the number of escapes up to each lane |
| FixedVectors.HalvesCount | benchmarks/fixed_dictionary.h:274-275 | population counts of the mask's halves are the escapes of the halves |
| FixedVectors.High32 | benchmarks/fixed_dictionary.h:253-282 | a step's 32 high bytes, from table and escapes, and the escapes it used |
| FixedVectors.StoreStep | benchmarks/fixed_dictionary.h:341-346 | the unpacks and four stores interleave low and high bytes and touch nothing else |
| FixedVectors.DecodeNative | benchmarks/fixed_dictionary.h:332-401 | the vector decoder has the scalar decoder's status on every readable view and its bytes on success; every load lies in its plane |
| FixedContainers.Parse | benchmarks/fixed_dictionary.h:48-69 | a buffer is accepted exactly when it is the layout of a valid view, and that view is returned |
| FixedContainers.LayoutIsInjective | benchmarks/fixed_dictionary.h:165-190 | a layout determines its view |
| FixedContainers.EncodeScript | tools/bench_fixed_dictionary.py:21-54 | the script's encoders write a stream that decodes to their input and names by its place every high byte that the dictionary has, or refuse a bad dictionary or length |
| FixedContainers.EncodeBenchmark | benchmarks/bench_decode_contention.c:95-120 | the benchmark's encoder writes a stream that decodes to its input and names by its place every high byte that the dictionary has, at either width |
| FixedContainers.EncodingIsUnique | benchmarks/bench_decode_contention.c:95-120 | encoders that write the stream write the same bytes |
| FixedContainers.EncodedDecodes | benchmarks/fixed_dictionary.h:201-217 | the view of an encoded buffer is consistent and decodes to the buffer |
| FixedContainers.DecodeEncoding | benchmarks/fixed_dictionary.h:404-413 | encode, parse and decode is the identity for every buffer and distinct dictionary |
| FixedRows.EscapesBeforeRow | benchmarks/fixed_dictionary.h:465-472 | a row's count is its group's checkpoint plus the escapes from the group's start |
| FixedRows.RowsView | benchmarks/fixed_dictionary.h:474-490 | with true checkpoints a range is refused only when it is not one, and its view starts at the true count |
| FixedRows.CodeOfSlice | benchmarks/fixed_dictionary.h:483-484 | code i of an index slice is code k + i of the plane |
| FixedRows.RangeConsistent | benchmarks/fixed_dictionary.h:478-487 | a range decodes exactly when its two counts differ by the escapes in it |
| FixedRows.RangeDecodes | benchmarks/fixed_dictionary.h:474-490 | decoding a range gives the whole's bytes for those rows |
| FixedRows.DecodeChunks | benchmarks/bench_decode_contention.c:150-157 | chunks of any number of rows, decoded by the native decoder at three bits, concatenate to the whole decode |
| FixedRows.DecodedGroupsProveCheckpoints | benchmarks/fixed_dictionary.h:437-490 | an index whose every group decodes has only true checkpoints, and the stream is consistent |
| FixedIndexes.ParseRows | benchmarks/fixed_dictionary.h:437-463 | a row index is accepted exactly when it is the layout of one that fits the stream |
| FixedIndexes.TrueIsValid | benchmarks/fixed_dictionary.h:447-457 | a true index of a consistent stream is never refused |
| FixedIndexes.RowIndex | benchmarks/bench_decode_contention.c:122-137 | one checkpoint a row: the escapes before it |
| FixedIndexes.RowIndexIsTrue | benchmarks/bench_decode_contention.c:122-137 | the counted index is true of the encoded stream |
| MlaAttentions.Kvb | benchmarks/mla_variants.h:227-232 | one application gives every head's rows and counts all rows of the matrix |
| MlaAttentions.Dot4 | benchmarks/mla_variants.h:406-421 | four interleaved chains are four separate chains |
| MlaAttentions.SoftmaxRow | benchmarks/mla_variants.h:334-345 | for any arithmetic, the exponentials, the normaliser and the quotients of the three passes, in order and in place |
| MlaExact.SoftmaxOfReals | benchmarks/mla_variants.h:334-345 | over the reals the three passes leave positive weights that sum to one, each times the normaliser the exponential of its score less the greatest score |
| MlaAttentions.AppendExpanded | benchmarks/mla_variants.h:265-277 | appending keeps the expanded rows equal to kv_b of the latents, one application a token |
| MlaVariants.AttendE | benchmarks/mla_variants.h:352-390 | E computes each score, normaliser and output as one fixed chain of operations, for any arithmetic |
| MlaExact.AttendReals | benchmarks/mla_variants.h:352-390 | over the reals E leaves attention: scores are the scaled products of query and key, and each output entry is the softmax-weighted mean of the values of the positions seen, hence within their bounds |
| MlaExact.FinishedIsAttention | benchmarks/mla_variants.h:352-774 | whatever finishes E's chains, as every variant does, leaves that attention |
| MlaVariants.AttendEP | benchmarks/mla_variants.h:423-480 | E+ computes the same chains, positions outside and four at a time |
| MlaLatents.AttendL0 | benchmarks/mla_variants.h:485-534 | L0 computes the same chains from rows rebuilt in halves, and applies one matrix for each visible position |
| MlaLatents.AttendL1 | benchmarks/mla_variants.h:539-613 | L1 computes the same chains for every budget, and applies N + (N - vcap) matrices |
| MlaVariants.FinishedIsUnique | benchmarks/mla_variants.h:37-86 | variants that compute those chains leave identical outputs, scores and normalisers, whatever the arithmetic |
| MlaLatents.SeenByAllClosed | benchmarks/mla_variants.h:798-803 | visible positions over all tokens are T(C + 1) + T(T - 1)/2 |
| MlaLatents.Attend | benchmarks/mla_variants.h:762-774 | append and attend leave E's results for E, E+, L0 and L1, and the rows counted are `mla_rebuilds` times the rows of kv_b |
| MlaAbsorbed.AbsorbedChain | benchmarks/mla_variants.h:634-664 | q . (W c) equals (W^T q) . c over the reals, row by row |
| MlaAbsorbed.ValueOfSum | benchmarks/mla_variants.h:717-756 | sum p (W c) equals W (sum p c) over the reals, position by position |
| MlaAbsorbed.LatentChains | benchmarks/mla_variants.h:679-694 | the four-term statements are the sequential sum |
| MlaAbsorbed.LatentSums | benchmarks/mla_variants.h:717-743 | blocked accumulation is the sum over the positions each token sees |
| MlaAbsorbed.AttendA | benchmarks/mla_variants.h:618-756 | over the reals the absorbed variant leaves E's results for every weight, cache and query, or refuses the layout, and counts no application of kv_b |
| DiskCaches.OpenCache | tools/remote_model.py:228-262 | opening keeps the plausible files in their order, less the fewest oldest that bring it within the limit, or refuses a limit below one block |
| DiskCaches.DiskCache.Evict | tools/remote_model.py:264-268 | the shortest front of oldest entries goes that makes room, or everything; accounts and limit are kept |
| DiskCaches.DiskCache.TryClaim | tools/remote_model.py:276-290 | accounts and limit are kept; a key being filled is waited for, a stored key is read and made the newest with the others in order, and another is filled exactly when it fits beside what is reserved, after dropping the fewest oldest entries, and waits otherwise |
| DiskCaches.DiskCache.Drop | tools/remote_model.py:312-315 | the entry of the key is forgotten and no other, and accounts and limit are kept |
| DiskCaches.DiskCache.Commit | tools/remote_model.py:326-334 | a pending fill becomes the newest entry, its reservation becomes bytes in use with the sum unchanged, and accounts and limit are kept |
| DiskCaches.DiskCache.Abort | tools/remote_model.py:336-344 | a failed fill gives exactly its reservation back, stores nothing, and keeps accounts and limit |
| DiskCaches.ClaimedAccounted | tools/remote_model.py:276-290 | a claim keeps the accounts and the limit, and waits only when the key is pending or something is reserved |
| DiskCaches.ClaimedWaits | tools/remote_model.py:276-290 | a claim reads, fills or waits by three conditions on the key, the entries and the reserved bytes that exclude each other |
| CacheThreads.StepKeepsInv | tools/remote_model.py:270-344 | every step of every thread keeps the accounts |
| CacheThreads.InvOnRuns | tools/remote_model.py:228-344 | in every interleaving used is the sum of entries, reserved the sum of fills, no entry is pending, both stay within the limit, and threads wait only while a fill is under way |
| CacheThreads.NoLostWakeup | tools/remote_model.py:270-344 | in every interleaving a thread waits only while its key is being filled or the reserved bytes leave no room for it: no wake-up is lost |
| CacheThreads.SomeThreadCanStep | tools/remote_model.py:270-344 | while a call is under way some thread that is not waiting can step |
| CacheFiles.FilesOnRuns | tools/remote_model.py:264-317 | every block file belongs to an entry or to a thread about to remove it |
| CacheFiles.EntriesKeepFiles | tools/remote_model.py:264-333 | every entry has its file in every state of a run if and only if no step removes the file of a key that is stored at that moment |
| CacheFiles.VerifiedReadsKeepFiles | tools/remote_model.py:293-316 | while every file read verifies, every entry keeps its file, for any number of threads |
| CacheFiles.OneThreadKeepsFiles | tools/remote_model.py:270-344 | one thread alone keeps the file of every entry, whatever its reads return |
| CacheFiles.EntryCanOutliveItsFile | tools/remote_model.py:312-316 | with any number of threads from two on, an entry can be without its file: a removal outside the lock takes a block that another thread has just filled |
| CacheFiles.BytesOnRuns | tools/remote_model.py:222-268 | for any number of threads, files and reserved bytes exceed the limit by at most the files that no entry stores, each about to be removed; when entries have files, bytes on disk are the bytes in use plus those |
| CacheFiles.VerifiedReadsBoundBytes | tools/remote_model.py:222-227 | while every file read verifies, files and reserved bytes stay within the limit |
| CacheFiles.OneThreadBoundsBytes | tools/remote_model.py:222-344 | one thread alone keeps files and reserved bytes within the limit, whatever its reads return |
| CacheFiles.BytesCanExceedLimit | tools/remote_model.py:312-316 | with any number of threads from two on, they can be twice the limit, when another thread refills a block between its entry's being forgotten and its file's being removed |
| CacheFiles.FilesKeptIffAlone | tools/remote_model.py:264-344 | every entry has its file in every state of every run of so many threads, if and only if there is at most one thread |
| CacheFiles.BytesBoundedIffAlone | tools/remote_model.py:222-344 | files and reserved bytes are within the limit in every state of every run of so many threads, if and only if there is at most one thread |
| RangeReads.Read | tools/remote_model.py:360-387 | whatever the block store holds or evicts, a read that succeeds returns the shard's bytes through aligned requests inside the shard; offline it fails exactly when a block of the range is not stored |
| Archives.UnshuffleShuffle | tools/offline_model.py:53-57 | unshuffling undoes the byte shuffle, odd lengths included |
| Archives.Validate | tools/offline_model.py:66-125 | the reader's validation accepts exactly the index conditions |
| Archives.ExtentsTile | tools/offline_model.py:93-123 | the extents of any archive that validates tile its file without gap or overlap |
| Archives.OnePartEach | tools/offline_model.py:176-192 | every position of the file, and no other, lies in exactly one extent |
| Archives.StoredApart | tools/offline_model.py:109-123 | what extents store is after the index, inside the data, and apart |
| Archives.Reader.Block | tools/offline_model.py:151-168 | a block, cached or decoded, is what its extent gives, or is refused for a wrong length, identity, position or transform |
| Archives.MisplacedIsRefused | tools/offline_model.py:162-164 | a frame is given exactly in its own place: with another archive identity, index or transform it is refused, whatever it holds |
| Archives.Reader.Read | tools/offline_model.py:170-197 | over any archive that validates, a read spells the file's bytes from the cursor and moves it by them, and is refused exactly when an extent it meets is damaged |
| Archives.Reader.Seek | tools/offline_model.py:140-149 | seeks from start, cursor or end; negative targets and unknown origins are refused |
| Archives.SpellsOriginal | tools/offline_model.py:170-197 | of a packed form, the bytes a read spells are the original's |
| ScalePlans.ScalePlan | tools/offline_model.py:224-295 | a header is refused exactly for the tests it fails or a plan that is too long; otherwise the plan partitions the file, its frames cover exactly the scale tensors' bytes, and no two pieces could be joined |
| ScalePlans.NeighboursSuffice | tools/offline_model.py:263-265 | of sorted ranges that are not empty it is enough to compare neighbours |
| ScalePlans.SelectedAreSpans | tools/offline_model.py:266-281 | paired scale tensors are ranges of the header, so they are apart when its tensors are |
| ArchivePacking.PackPlan | tools/offline_model.py:298-407 | packing succeeds exactly when every frame survives its round trip and the output stays within the limit, otherwise whichever fails first is reported; an extent is what the codec makes of its piece when that is smaller, and plain otherwise; the archive validates, holds the file, has the size that follows, and keeps raw extents aligned |
| ArchivePacking.PlanTriedOnce | tools/offline_model.py:326-375 | which frames survive and how long the output is after each piece is determined |
| ArchivePacking.PackBlocks | tools/offline_model.py:410-488 | the same for whole blocks; an extent is what the codec makes of the block, shuffled when that is asked for or saves more than a fiftieth, and as it is otherwise |
| ArchivePacking.OutcomesDiffer | tools/offline_model.py:326-375 | success, a lossy frame and an exceeded limit exclude each other, so the reported outcome is determined |
| ArchivePacking.PackPlanAndRead | tools/offline_model.py:60-407 | pack by plan, open, seek and read: the part of the file asked for |
| ArchivePacking.PackBlocksAndRead | tools/offline_model.py:60-488 | pack by blocks, open, seek and read: the part of the file asked for |

## Left out

- Timing, JSON reports, argument parsing, OpenMP scheduling and input/output: parallel loops are modelled in sequence, files and shards as byte sequences, and a fetch as the bytes it returns.
- Zstd, SHA-256 and FNV: a codec is a pair of functions that the packer checks for losslessness; that stored digests catch damage is not part of this model.
- Archives.Validate: takes the header and the index as fields; magic bytes, reserved fields and the index checksum are not part of this model.
- ScalePlans.ScalePlan: takes the header as named entries; parsing its JSON is not part of this model.
- ArchivePacking.PackBlocks: compares candidate sizes in exact hundredths where the script multiplies by a float, and leaves out the tests that the source file has not changed meanwhile.
- CodeTables.AssignCodes: sorts by a double loop over lengths and symbols where the script calls a sort.
- CodeLengths.PopLightest: searches a list where the script keeps a heap; ties are broken by any function of the groups, of which the script's order of symbol tuples (`HeapTop`) is one.
- FixedContainers.Parse: covers both widths in one method, as the two parsers differ only in constants; the scalar decoders are joined in the same way.
- FixedVectors.DecodeNative: models the 256-bit form; the 128-bit and NEON forms, the four-bit vector decoder and the bit-trick population count without a population instruction are not part of this model.
- FixedContainers.EncodeBenchmark: takes the dictionary as a parameter where the benchmark has a constant.
- NgramDrafts.NgramIndex.Advance: keeps the tables of two-, three- and four-grams in one map, whose keys differ in length.
- MlaLatents.Attend: covers the four variants of uninterpreted arithmetic; projections, the output gate and probes of quotients are not part of this model, and score rows are sequences updated in place by index.
- MlaExact.SoftmaxOfReals: the scan for the greatest score starts from a real, which the clause about the greatest score takes to be below the row's scores; the source starts from minus infinity.
- MlaAbsorbed.AttendA: reads kv_b's elements as reals; bf16 widening and rounding are not part of this model.
- CacheThreads.InvOnRuns: takes notification as waking every waiter at once, as the code does; timing, spurious wake-ups and process locks are not part of this model.
- RangeReads.Read: takes a stored block as named by its offset, so that no two keys collide; what concurrent readers evict is any set of blocks.
- TurnReplays.Replay: takes turns that end inside the document, past which the script can fail; per-tier cost sums are not part of this model.
- The bucketed acceptance table, bootstrap statistics and cost model of the draft simulation, and corpus building.
- Window coverage, budget sums and schedule lists: easy beside the rest.
