# fnprint, modelled and proved in Dafny

fnprint runs each function of a binary in an emulator, hashes what the function does
into a fingerprint, and matches functions of different builds by those prints. This
project models the parts of it where an answer is computed from many pieces, and proves
what those parts promise for every input, every run and every history.

- **Alignment** (`Assign`, `Graph`, `Renumber`, `Align`, `AlignTheorems`, `Reorder`,
  `Instances`, `Orders`): the greedy 1:1 assignment is the only stable matching and at least
  half as good as any other; leaving the re-scoring rounds early is exact; the call-graph
  score is a Dice ratio, and exactly when; no pair that may be paired is overlooked, with
  or without a band in common; at any weight and after any number of rounds the report ignores the order of both inputs exactly as long as
  the searches of the corpus lists find the same callees.
- **Prints and bands** (`Fnv`, `Trace`, `MinHash`, `Sig`, `Slots`, `Prints`, `Bands`,
  `BandIndex`): effect encodings can be read back, every slot hash is a permutation and no
  two slots have the same, two slots agree
  exactly when the least element of the union is shared, prints depend on the set of runs,
  and a band index loses no pair above similarity 3/4, which is tight.
- **Store, search and triage** (`Corpus`, `Search`, `Triage`): the band table is the exact
  image of the rows over every history if and only if no lone insert was torn; both corpora
  find the same rows; an indexed search equals the full scan once anything is close; triage
  against swapped corpora turns every verdict around.
- **Reports** (`Indexed`, `Counting`, `Report`): the diff accounts for every function of
  both builds once, and the evaluation's counters balance.
- **Emulator side** (`Hooks`, `RecorderTheorems`, `Histories`, `Recorder`, `Pages`, `Setup`):
  what any order of hook calls keeps, and that the recorder's fields and trace are a function
  of the calls alone, as theorems about call sequences and as the contract of the recorder
  object that remembers them; how long a run can be; what the page mapper asks of
  the engine, and why the setup of a loaded image stays far from its limits.
- **Loader, shards and builds** (`Loader`, `Contents`, `Shards`, `Builds`): what a successful
  load holds, byte for byte, and when its segments are disjoint, why the number of worker processes never changes a
  corpus, and why the list indexing leaves meets every condition of the alignment results.

Numbers (`Machine`): similarities, scores and weights are exact reals; addresses, sizes and
signature slots are naturals with the machine's bounds and saturation written out; the
hashes work on 64-bit vectors with wrapping arithmetic. `Sorting` states the standard
library's stable `sort_by` and `dedup` as functions and proves that they sort, permute
and keep ties in order. `BinarySearch` in `Graph` is the halving loop of the current
standard library, which promises an answer only for lists in order. What the results say
about lists out of order (`Graph.SearchableIff`, `Graph.DiceIff`,
`Instances.BackwardsLosesAMatch`) they say about that loop; all others use it where the
lists are in order, or use only that a hit is a member.

Where the code and its comments disagree, the code is modelled:

- The comment on the assignment says the result never depends on input order. It does
  when two functions of one side carry the same address. `Assign.OrderIndependentIff`
  gives the exact condition.
- The same comment, and a test that reverses the corpus, promise this of the whole alignment.
  The b neighbour lists keep the order of the input and are searched by halving, which finds
  every neighbour exactly when the list ascends (`Graph.SearchableIff`). Two orders of b give
  every target the same report, whatever the prints and the options, exactly when the searches
  find the same callees, as they do in every corpus in entry order (`Orders.OrderUnseenIff`,
  `Reorder.CorpusOrderIsEnough`). A corpus listed backwards can lose a match under the default
  options (`Instances.BackwardsLosesAMatch`).
- A pair's graph score is documented to lie in [0, 1]. A repeated callee on the target side
  breaks that; `Graph.WithinUnitIff` gives the exact condition, which every indexed build
  meets (`Builds.BuildIsInOrder`), and `Instances.RepeatedCalleeExceedsUnit` an input on which
  align reports 4/3.
- The loader's overlap check is documented to reject any byte-level overlap. The saturated
  end of a segment at the top of the address space hides one; `Loader.ClearMeansApartIff`
  gives the exact condition and `Loader.TopClashLoads` an instance. It also refuses some files
  whose segments share no byte; `Loader.DisjointIsClearIff` says which.
- A page span that reaches into the last page of the address space is rounded short of it,
  and succeeds; `Pages.SpanCoversIff` gives the exact condition.
- An insert outside a batch is several statements without a transaction; one that fails half
  way leaves a row the index only partly knows. `Corpus.IndexExactIff` gives the exact
  condition.
- Triage is said to leave a function that sits at the same similarity on both sides
  inconclusive. A margin of zero or less accuses it: `Triage.SameRecordIsAccused` and
  `Instances.UnchangedIsAccused` show such a function; `Triage.SwapIsOppositeIff`,
  `Triage.SwappedTriageMirrorsIff` and `Triage.SameCorporaAccuseNobodyIff` give the exact
  conditions on the corpora, the minimum and the margin.

## Model

| member | source | states |
|---|---|---|
| Sorting.SortInPlace | crates/fnprint-core/src/align.rs:290-297 | the in-place sort leaves the stable sort of what was there |
| Sorting.SortBySorts | crates/fnprint-core/src/align.rs:290-297 | the sort is a permutation and, for a total preorder, sorted |
| Sorting.SortByIsStable | crates/fnprint-loader/src/lib.rs:222-226 | elements that tie keep their order |
| Sorting.SortDedupAscends | crates/fnprint-core/src/align.rs:141-142 | sort and dedup keep every element once, in strictly ascending order |
| Sorting.StrLessIs | crates/fnprint-core/src/lib.rs:352-358 | the order of strings is that of a dictionary |
| Fnv.OddMulInjective | crates/fnprint-sig/src/lib.rs:146 | multiplication by an odd word is injective modulo 2^64 |
| Fnv.OneByteNeverCollides | crates/fnprint-trace/src/lib.rs:213-216 | FNV-1a tells any two inputs of one length apart that differ in exactly one byte |
| Fnv.KnownAnswers | crates/fnprint-trace/src/lib.rs:205-216 | two published answers of FNV-1a |
| Trace.BytesRoundTrip | crates/fnprint-trace/src/lib.rs:80-159 | the hashed bytes of an effect can be parsed back to that effect, symbol names included |
| Trace.TokensKeepOneByteApart | crates/fnprint-trace/src/lib.rs:80-122 | different effects whose encodings line up and differ in one byte have different tokens |
| Trace.Hasher.Byte | crates/fnprint-trace/src/lib.rs:213-216 | the hasher's state is the hash of everything fed so far, plus this byte |
| Trace.Hasher.U64 | crates/fnprint-trace/src/lib.rs:220-224 | feeds the eight little-endian bytes of a word |
| Trace.Hasher.HashRegion | crates/fnprint-trace/src/lib.rs:126-136 | feeds the region's tag and index |
| Trace.Hasher.HashValue | crates/fnprint-trace/src/lib.rs:140-158 | feeds the value class's tag and payload |
| Trace.ComputeToken | crates/fnprint-trace/src/lib.rs:80-122 | the incremental hash of an effect is the hash of its parseable encoding |
| MinHash.AgreeIffLeastIsShared | crates/fnprint-sig/src/lib.rs:139-154 | for any collision-free hash, least hashes of two sets agree exactly when the least element of their union is in both |
| MinHash.ChainAgreement | crates/fnprint-sig/src/lib.rs:139-154 | along a chain of sets the ends agree exactly when both links agree |
| MinHash.InjectiveIsOnto | crates/fnprint-sig/src/lib.rs:131-132 | an injection of the 64-bit words hits every word |
| Sig.Mix | crates/fnprint-sig/src/lib.rs:120-129 | the hash loop over words is the hash of their bytes |
| Sig.ShingleSet | crates/fnprint-sig/src/lib.rs:95-118 | returns exactly the unigrams and trigrams of the tokens, each once, ascending |
| Sig.ShinglesAre | crates/fnprint-sig/src/lib.rs:95-118 | a shingle is the hash of one token behind the mark 1 or of three in a row behind the mark 3 |
| Sig.ShinglesKeepOneByteApart | crates/fnprint-sig/src/lib.rs:95-129 | windows that differ in one byte of one token have different shingles, whichever token it is |
| Sig.FamilyInjective | crates/fnprint-sig/src/lib.rs:139-148 | no two shingles share a hash in any slot |
| Sig.SlotIsAPermutation | crates/fnprint-sig/src/lib.rs:131-148 | every slot's odd-multiply, add, xorshift is a bijection of the 64-bit words |
| Slots.SlotsDifferAtZero | crates/fnprint-sig/src/lib.rs:139-148 | no two slots of the signature of {0} agree: the 128 addends differ |
| Slots.SlotsMoveDifferently | crates/fnprint-sig/src/lib.rs:139-148 | nor is one slot's hash another's shifted by a constant: the 128 multipliers differ |
| Sig.MinHash | crates/fnprint-sig/src/lib.rs:133-156 | each slot holds the least slot hash of the set; the empty set gives zeros |
| Sig.SignatureIsUnique | crates/fnprint-sig/src/lib.rs:133-156 | a set has one signature |
| Sig.SlotTheorem | crates/fnprint-sig/src/lib.rs:131-156 | a slot of two signatures agrees exactly when the union's least element there lies in both sets |
| Sig.UnionIsSlotwiseMin | crates/fnprint-sig/src/lib.rs:40-58 | the signature of a union is, and is only, the slotwise minimum |
| Sig.SimilarityBounds | crates/fnprint-sig/src/lib.rs:60-72 | similarity is symmetric and lies in [0, 1] |
| Sig.SimilarityCountsSlots | crates/fnprint-sig/src/lib.rs:60-72 | the similarity of two full signatures is the share of slots they agree in |
| Sig.SimilarityExtremes | crates/fnprint-sig/src/lib.rs:60-72 | equal sets have similarity 1, disjoint nonempty sets 0 |
| Sig.NestedPrints | crates/fnprint-sig/src/lib.rs:36-72 | along nested sets the agreeing slots of the ends are those of both links, so similarity only falls |
| Prints.MeasureComplexity | crates/fnprint-trace/src/lib.rs:190-203 | the loop sums the weights of the effects |
| Prints.ComplexityCounts | crates/fnprint-trace/src/lib.rs:186-203 | three for each call or syscall, two for each write or first touch, one for each read and each return of an input |
| Prints.FromTrace | crates/fnprint-sig/src/lib.rs:24-34 | one run's print is the print of the one-element list |
| Prints.FromTraces | crates/fnprint-sig/src/lib.rs:40-58 | the print has the signature of the union of the runs' shingles, their number, the largest complexity and whether any run was capped |
| Prints.PrintDependsOnSetOfTraces | crates/fnprint-sig/src/lib.rs:36-58 | reordering or repeating runs changes nothing |
| Prints.MoreTracesMoveAway | crates/fnprint-sig/src/lib.rs:36-58 | adding runs to a print only lowers its similarity to where it started |
| Bands.BandKeys | crates/fnprint-sig/src/lib.rs:74-92 | one hash per chunk of rows, with zero rows read as one |
| Bands.SomeBandAgrees | crates/fnprint-sig/src/lib.rs:74-92 | with fewer disagreeing slots than bands, some band agrees entirely |
| Bands.AboveThreeQuartersShareABand | crates/fnprint-sig/src/lib.rs:61-92 | two prints above similarity 3/4 share a band key, whatever their length |
| Bands.ThreeQuartersIsTight | crates/fnprint-sig/src/lib.rs:61-92 | two 128-slot prints at exactly 3/4 can share no band key at all |
| BandIndex.AddPrint | crates/fnprint-core/src/align.rs:123-125 | files an id under its key in each band and changes nothing else |
| BandIndex.Collect | crates/fnprint-core/src/align.rs:136-140 | collects exactly the ids filed under one of the keys |
| Assign.AssignGreedy | crates/fnprint-core/src/align.rs:289-317 | sorts the candidates by rank in place and returns the greedy assignment in order of the a index |
| Assign.ByRankOrders | crates/fnprint-core/src/align.rs:290-297 | the four-level comparison is a total preorder |
| Assign.StableIsGreedy | crates/fnprint-core/src/align.rs:301-314 | the only stable part of a list is the greedy one |
| Assign.UniqueStableMatching | crates/fnprint-core/src/align.rs:286-317 | with distinct addresses, a 1:1 choice in which every rejected candidate is blocked by a better-ranked chosen one is the choice made, and conversely |
| Assign.LoserIsOutranked | crates/fnprint-core/src/align.rs:286-314 | a candidate is left out only for a chosen one that takes one of its functions and comes first by score, similarity, a entry, group and b entry |
| Assign.OrderIndependentIff | crates/fnprint-core/src/align.rs:286-288 | the assignment ignores the order of its candidates exactly when neither side repeats an address |
| Assign.GreedyIsHalfOptimal | crates/fnprint-core/src/align.rs:289-317 | every 1:1 choice of candidates has at most twice the greedy choice's total score and at most twice its size |
| Assign.AssignmentIsOneToOne | crates/fnprint-core/src/align.rs:301-316 | no function is claimed twice and every pair is a chosen candidate with its score cut at 1 |
| Graph.CalleesAscend | crates/fnprint-core/src/align.rs:174-182 | sorted callees over nodes in entry order resolve to neighbour lists in index order |
| Graph.CalleesNoDup | crates/fnprint-core/src/align.rs:165-182 | callee lists without repeats resolve to neighbour lists without repeats |
| Graph.CalleesAre | crates/fnprint-core/src/align.rs:165-182 | the neighbours of a corpus function are the functions of its own group at the entries it calls |
| Graph.TargetCalleesAre | crates/fnprint-core/src/align.rs:159-173 | the neighbours of a target function are the functions at the entries it calls |
| Graph.CallersOfIsReverse | crates/fnprint-core/src/align.rs:223-235 | the callers of a function are exactly those whose callees name it, ascending |
| Graph.Reverse | crates/fnprint-core/src/align.rs:223-235 | pushing, sorting and deduplicating yields the reversed edges |
| Graph.BinarySearchDecides | crates/fnprint-core/src/align.rs:271 | on a list in order the search decides membership |
| Graph.SearchableIff | crates/fnprint-core/src/align.rs:271 | on a list without repeats it finds every member exactly when the list ascends |
| Graph.ComputeGraphScore | crates/fnprint-core/src/align.rs:245-284 | the counting loops compute the score the lemmas below are about |
| Graph.GraphScoreWithinUnit | crates/fnprint-core/src/align.rs:237-284 | duplicate-free neighbours of a keep the score in [0, 1] for every b and every 1:1 pairing |
| Graph.WithinUnitIff | crates/fnprint-core/src/align.rs:91-92 | the score stays within 1 for every b and every pairing exactly when a's callees do not repeat |
| Graph.GraphScoreIsDice | crates/fnprint-core/src/align.rs:237-284 | with lists in order the score is the Dice coefficient of the two paired neighbourhoods |
| Graph.DiceIff | crates/fnprint-core/src/align.rs:237-284 | the score is that coefficient for every other function and pairing exactly when b's lists ascend |
| Renumber.CalleesRenumber | crates/fnprint-core/src/align.rs:159-182 | over a reordered side a function's callees resolve to the same functions in the same order |
| Renumber.CallersRenumber | crates/fnprint-core/src/align.rs:223-235 | over a reordered side a function has the same callers |
| Renumber.ScoreRenumbers | crates/fnprint-core/src/align.rs:245-284 | the score depends on who the neighbours are, who is paired with whom and whom the searches find, not on the numbering |
| Instances.RepeatedCalleeExceedsUnit | crates/fnprint-core/src/align.rs:91-92 | two functions a side, one callee listed twice: at any positive weight, after any number of rounds above zero and for any threshold up to 1 align reports graph score 4/3 |
| Align.FindCandidates | crates/fnprint-core/src/align.rs:115-155 | the band index, its fallback and the floor yield exactly the candidate list, in order |
| AlignTheorems.CandidatesAre | crates/fnprint-core/src/align.rs:115-155 | two functions are a candidate exactly when both have signal, their similarity reaches 0.2, and they share a band key or the target function shares none with anybody |
| Align.PoolKeepsCloseNodes | crates/fnprint-core/src/align.rs:115-155 | every usable pair above similarity 3/4 is a candidate |
| Align.RescoreInPlace | crates/fnprint-core/src/align.rs:189-199 | rewrites the graph field of every candidate by the current pairing and nothing else |
| Align.UnmovedIsFixed | crates/fnprint-core/src/align.rs:186-206 | a round that moved nothing is a fixed point of all further rounds |
| Align.RunRounds | crates/fnprint-core/src/align.rs:186-206 | stopping at the first unmoved round returns what all rounds would |
| Align.Align | crates/fnprint-core/src/align.rs:111-221 | returns the accepted pairs of the full run of rounds, best first |
| AlignTheorems.AlignedIsSound | crates/fnprint-core/src/align.rs:85-96 | each function in at most one pair, usable, with its true similarity at or above the floor, its score, above the threshold; best score first, then similarity, then a entry |
| AlignTheorems.PartnerIsConsistent | crates/fnprint-core/src/align.rs:189-194 | a 1:1 assignment gives an injective partner map and matching marks |
| AlignTheorems.GraphLiftIsBounded | crates/fnprint-core/src/align.rs:208-213 | graph scores lie in [0, 1] and lift a pair by at most the weight |
| AlignTheorems.NoPairIsLost | crates/fnprint-core/src/align.rs:111-221 | at any weight and rounds, two functions that may be paired and reach the threshold are accepted, or one of them is in an accepted pair scoring no less |
| AlignTheorems.NoClosePairIsLost | crates/fnprint-core/src/align.rs:111-221 | in particular every pair above 3/4 and the threshold |
| AlignTheorems.AcceptedMayPair | crates/fnprint-core/src/align.rs:115-155 | every accepted pair is one that may be paired |
| AlignTheorems.GraphOff | crates/fnprint-core/src/align.rs:157-206 | without a weight or without rounds every score is the similarity |
| AlignTheorems.ReportedGraphIsDice | crates/fnprint-core/src/align.rs:186-213 | over a corpus in order, every reported graph score is the Dice coefficient under the assignment of the round before |
| Renumber.SearchedAlikeIff | crates/fnprint-core/src/align.rs:263-284 | next to an order of b in which every callee is found, another order finds the same callees exactly when it finds every callee too |
| Reorder.AlignIgnoresInputOrder | crates/fnprint-core/src/align.rs:111-221 | permuting both inputs leaves the report, its numbers and its order unchanged, at any weight and number of rounds; b may be permuted in any way that lets the searches find the same callees, and in any way at all while the graph is off |
| Orders.OrderUnseenIff | crates/fnprint-core/src/align.rs:286-288 | two orders of one corpus give every target the same report, for all prints and options, exactly when the searches find the same callees; next to a searchable order, exactly when the other is searchable |
| Reorder.CorpusOrderIsEnough | crates/fnprint-core/src/align.rs:286-288 | a corpus whose entries ascend within each binary and whose callees ascend gives the same report however its binaries are interleaved |
| Instances.BackwardsLosesAMatch | crates/fnprint-core/src/align.rs:471-497 | under the default options a corpus listed backwards loses a match that the same corpus in order gives |
| Corpus.EncodeSig | crates/fnprint-db/src/lib.rs:545-551 | the blob of a word list |
| Corpus.Decode | crates/fnprint-db/src/lib.rs:553-567 | reads whole words and drops a ragged tail |
| Corpus.BlobRoundTrip | crates/fnprint-db/src/lib.rs:545-567 | reading a stored signature gives it back, eight bytes per word |
| Corpus.RowRoundTrip | crates/fnprint-db/src/lib.rs:258-291 | a stored print reads back unchanged, callees cut at the cap |
| Corpus.BatchIsStored | crates/fnprint-db/src/lib.rs:303-313 | a batch that goes through stores every print, in order, under new ids, behind what was there |
| Corpus.RecordsAre | crates/fnprint-db/src/lib.rs:315-353 | a read lets through exactly the rows with a 1024-byte signature and texts within 1 MiB |
| Corpus.RecordsAreSane | crates/fnprint-db/src/lib.rs:499-543 | what is read has 128 slots and at most 4096 callees, however the database was made |
| Corpus.Db.Insert | crates/fnprint-db/src/lib.rs:258-291 | adds the row and one band entry per band, as far as the statements got |
| Corpus.Db.InsertAll | crates/fnprint-db/src/lib.rs:303-313 | adds every print or, on any failure, nothing |
| Corpus.Db.All | crates/fnprint-db/src/lib.rs:315-353 | returns the readable rows in order exactly when they are within both budgets |
| Corpus.Db.Candidates | crates/fnprint-db/src/lib.rs:356-401 | returns each readable row filed under a band key of the print once |
| Corpus.IndexExactIff | crates/fnprint-db/src/lib.rs:258-313 | over every history the band table is the exact image of the rows if and only if no lone insert stopped half way |
| Corpus.MemCorpus.FromRecords | crates/fnprint-db/src/lib.rs:457-465 | files every record under its band keys |
| Corpus.MemCorpus.Candidates | crates/fnprint-db/src/lib.rs:480-494 | returns the records that share a band, in index order |
| Corpus.CandidatesAgree | crates/fnprint-db/src/lib.rs:356-401 | with an exact index the table and the rebuilt corpus find the same records |
| Search.BestInCorpus | crates/fnprint-core/src/lib.rs:378-412 | the answer is an eligible record of the pool that none beats by similarity, then name and binary |
| Search.BestIs | crates/fnprint-core/src/lib.rs:395-412 | the best hit is as similar as any record with a name and complexity 4, and of the equally similar has the least name, then the least binary |
| Search.BestIgnoresPoolOrder | crates/fnprint-core/src/lib.rs:395-404 | the answer depends on the set of records, not their order |
| Search.IndexedSearchIsFullScan | crates/fnprint-core/src/lib.rs:375-412 | once some eligible record exceeds 3/4, the best of the band hits is the best of all, and conversely |
| Search.CloseRecordMakesSearchExact | crates/fnprint-core/src/lib.rs:378-412 | then the method's answer is the full scan's, with the named records as fallback |
| Triage.Triage | crates/fnprint-core/src/lib.rs:508-570 | one hit for each function with signal, read off the best of either corpus, in queue order |
| Triage.HitIsUnique | crates/fnprint-core/src/lib.rs:516-563 | a function has one hit, whatever the order of the records |
| Triage.TriageIgnoresRecordOrder | crates/fnprint-core/src/lib.rs:508-570 | corpora with the same records give the same queue |
| Triage.HitReportsClosest | crates/fnprint-core/src/lib.rs:516-556 | a hit carries the highest similarity among the records either search may look at, and the verdict those two give |
| Triage.VerdictIs | crates/fnprint-core/src/lib.rs:542-554 | vulnerable exactly when a side reaches the minimum and the vulnerable side leads by the margin; patched exactly when it does not and the patched side leads |
| Triage.ClosestIs | crates/fnprint-core/src/lib.rs:378-412 | the closest similarity is the highest among named records of complexity 4 that share a band key, or among all of them if no record does |
| Triage.HitNamesClosest | crates/fnprint-core/src/lib.rs:536-563 | a hit names, on either side, a closest record, of equally close ones the one with the least name |
| Triage.SwapIsOppositeIff | crates/fnprint-core/src/lib.rs:542-563 | searched with the corpora swapped a function gets the mirrored hit, exactly unless a corpus is close enough and the closest similarities lead each other both ways by the margin, which no positive margin allows; then it is accused both times |
| Triage.SwappedTriageMirrorsIff | crates/fnprint-core/src/lib.rs:508-570 | the swapped triage holds the mirrored hits, each verdict turned around, exactly when no function with signal is led both ways |
| Triage.SameCorporaAccuseNobodyIff | crates/fnprint-core/src/lib.rs:517-521 | with equal corpora every verdict is inconclusive, exactly when the margin is positive or no function's closest record reaches the minimum similarity |
| Triage.SameRecordIsAccused | crates/fnprint-core/src/lib.rs:542-554 | without a positive margin a function present unchanged in both corpora is called vulnerable, at any minimum up to 1 |
| Instances.UnchangedIsAccused | crates/fnprint-core/src/lib.rs:517-521 | one record in both corpora, margin 0 and minimum 1/2: the verdict is vulnerable |
| Triage.QueueIsOrdered | crates/fnprint-core/src/lib.rs:564-569 | vulnerable leads come first, strongest on top, and patched ones last, with one hit per function with signal |
| Triage.QueueIsComplete | crates/fnprint-core/src/lib.rs:536-563 | every function with complexity 4 and a shingle is reported, and nobody else |
| Report.MatchAligned | crates/fnprint-core/src/lib.rs:299-360 | reports the aligned pairs, and compared, changed, only-sided and low-signal functions add up to both builds |
| Report.ReadPairs | crates/fnprint-core/src/lib.rs:314-336 | counts the pairs, splits them at the same-threshold and marks both sides |
| Report.ReportBalances | crates/fnprint-core/src/lib.rs:216-225 | the three sums hold for any 1:1 list of pairs with signal |
| Report.ReportIs | crates/fnprint-core/src/lib.rs:299-360 | same counts the pairs from 0.88 on; changes come least similar first, then by name; the others by name |
| Report.ChangedAre | crates/fnprint-core/src/lib.rs:322-336 | one entry for each pair below 0.88, with both entries, the similarity and the names |
| Report.HexReadsBack | crates/fnprint-core/src/lib.rs:337 | a printed entry reads back as that entry, without a digit to spare |
| Report.UnpairedAre | crates/fnprint-core/src/lib.rs:337-347 | listed are exactly the functions with signal that nobody took, by name or else entry |
| Report.Eval | crates/fnprint-core/src/lib.rs:678-778 | every counter is the number of scored functions with its property |
| Report.IsScoredIff | crates/fnprint-core/src/lib.rs:679-728 | a function is evaluated exactly when it has signal and a name that some function of b with signal has |
| Report.ScoreIs | crates/fnprint-core/src/lib.rs:731-775 | its rank is the place of its closest namesake, behind everybody strictly closer; the top similarity is the highest; the partner is the alignment's |
| Report.ScoresAre | crates/fnprint-core/src/lib.rs:717-776 | each function evaluated contributes once, and nothing else does |
| Report.PartnerOfAIs | crates/fnprint-core/src/lib.rs:712-715 | the partner of a function is its one pair, if it has one |
| Report.TallyIs | crates/fnprint-core/src/lib.rs:739-775 | the counters count by top hit and partner, trusted from 0.88 on |
| Report.EvalBalances | crates/fnprint-core/src/lib.rs:574-674 | scored, ranks, tp, fp, fn, abstained, reciprocal sum and alignment counters balance, and recall at 1 is rank-1 accuracy |
| Report.RecallGrows | crates/fnprint-core/src/lib.rs:632-640 | recall lies in [0, 1] and grows with k |
| Hooks.ArgOfFinds | crates/fnprint-emu/src/lib.rs:172-200 | an address belongs to the first argument window that holds it |
| Hooks.ValueIs | crates/fnprint-emu/src/lib.rs:172-191 | a value's class: an argument's base, a pointer into one, 0, within 4096 of 0 modulo 2^64, or none of these |
| Hooks.AddressIs | crates/fnprint-emu/src/lib.rs:194-210 | an address's region and the offset it is counted by |
| Hooks.BucketIs | crates/fnprint-emu/src/lib.rs:1174-1182 | an offset is kept to the 8 bytes it falls in, toward 0, and no further out than 2048 |
| Hooks.MaskIs | crates/fnprint-emu/src/lib.rs:1164-1172 | a write is classed by the low 1, 2, 4 or 8 bytes of its value |
| Recorder.Recorder.NoteRegion | crates/fnprint-emu/src/lib.rs:213-240 | reports a first touch of an argument, of global data, or of a page while pages are left |
| Recorder.Recorder.UnmappedHook | crates/fnprint-emu/src/lib.rs:710-742 | puts one more call on record: the object stays what its calls made of it, its fields told by the calls (`Histories.FieldsAre`), its trace bounded and without repeats, its counters true, and short of its pace while stop is honoured; says whether the access was handled |
| Recorder.Recorder.ReadHook | crates/fnprint-emu/src/lib.rs:746-780 | the same for a read, which is counted, held against the ceiling, and kept once per token outside the stack |
| Recorder.Recorder.WriteHook | crates/fnprint-emu/src/lib.rs:783-820 | the same for a write, which is counted, held against both ceilings, and recorded outside the stack |
| Recorder.Recorder.CodeHook | crates/fnprint-emu/src/lib.rs:823-935 | the same for an instruction, which is counted, held against the caps, then covered and recorded by its kind |
| Recorder.Recorder.SteerBy | crates/fnprint-emu/src/lib.rs:864-934 | records a call by import name or anonymously, with direct in-image targets as edges, or a syscall, return or branch |
| Recorder.Recorder.Finish | crates/fnprint-emu/src/lib.rs:502-544 | hands over the trace its calls tell, bounded and marked once and last exactly if the run was cut, and the covered body, whose lengths are the bytes counted |
| RecorderTheorems.RunKeeps | crates/fnprint-emu/src/lib.rs:707-938 | every order of hook calls keeps visits summing to instructions, covered bytes summing the covered body, the page bound and the effect accounting |
| RecorderTheorems.EffectsStayBounded | crates/fnprint-emu/src/lib.rs:213-240 | at most max_effects + 64 + 7 + max_heapish effects, no argument, global touch or read token twice |
| RecorderTheorems.HonestRunsEnd | crates/fnprint-emu/src/lib.rs:59-66 | if the engine honours stop, at most instr_cap + 1 instructions and a number of hook calls fixed by the configuration |
| RecorderTheorems.CapMarksCutRuns | crates/fnprint-emu/src/lib.rs:502-529 | the cap mark stands exactly on cut runs, once, last; an unmarked run returned cleanly under every cap |
| Histories.RunTells | crates/fnprint-emu/src/lib.rs:707-938 | however the hooks are called, every field of the recorder is a function of the calls alone: the trace is what each call acted on shows, the callees are the direct targets inside the image, the coverage is the first instruction at each address of the body |
| Histories.ActsAreTold | crates/fnprint-emu/src/lib.rs:783-914 | beside first touches and reads the trace holds, in order, one effect for each call, syscall, return and branch within the caps and each such write outside the stack, and nothing else |
| Histories.ReadIsTold | crates/fnprint-emu/src/lib.rs:746-780 | a read outside the stack within the caps is in the trace by its token, while fewer than 64 tokens are |
| Histories.TouchIsTold | crates/fnprint-emu/src/lib.rs:213-240 | an argument or the image, once touched within the caps, is in the trace |
| Pages.Engine.MemMap | crates/fnprint-emu/src/lib.rs:1100-1105 | the engine maps a fresh region or changes nothing |
| Pages.RunsAreMaximal | crates/fnprint-emu/src/lib.rs:1113-1131 | the runs are exactly the gaps of the mirror, each stopping only at a mapped page or the span's edge |
| Pages.EnsurePages | crates/fnprint-emu/src/lib.rs:1087-1147 | on success the engine was asked for exactly the maximal gaps, at most 64; on failure for a proper prefix; the mirror is true either way and nothing is lost or mapped outside |
| Pages.MapGaps | crates/fnprint-emu/src/lib.rs:1113-1146 | the same for the fallback alone |
| Pages.SpanCoversIff | crates/fnprint-emu/src/lib.rs:1093-1099 | the rounded span covers every byte asked for exactly when the range stays out of the last page of the address space; inside that page it is empty |
| Pages.SpanIsTight | crates/fnprint-emu/src/lib.rs:1093-1099 | no page is in the span without holding a byte of the range |
| Pages.MapAll | crates/fnprint-emu/src/lib.rs:441-457 | on success the engine holds exactly the pages of all spans, in one region per gap met; a failure stops within one span, because that span has more than 64 gaps or the engine refuses; the mirror is true either way |
| Setup.RunsAreFew | crates/fnprint-emu/src/lib.rs:1121-1132 | two runs of one span have a mapped page between them |
| Setup.SpanRuns | crates/fnprint-emu/src/lib.rs:1133-1138 | over segments that passed the loader's check a segment has at most 1 run, an argument window 4 and the stack 32 |
| Setup.SetUp | crates/fnprint-emu/src/lib.rs:441-457 | on success every byte of the segments below the last page, of the six argument windows and of the stack is mapped; over such segments the setup can only fail because the engine refuses, and it asks for at most one region per segment and 56 more |
| Setup.LoadedImageFits | crates/fnprint-emu/src/lib.rs:1100-1138 | for every file that loads the limit of 64 runs is never reached and at most 312 regions are asked for |
| Loader.PlanSegments | crates/fnprint-loader/src/lib.rs:128-178 | plans every PT_LOAD, or reports the first header that breaks a limit |
| Loader.PlansSucceedIffSound | crates/fnprint-loader/src/lib.rs:120-175 | the running checks pass exactly when each header and the totals are within their limits |
| Loader.LoadSegments | crates/fnprint-loader/src/lib.rs:112-215 | copies and zero-fills the planned windows, sorts them, and refuses overlapping neighbours |
| Loader.LoadedSegments | crates/fnprint-loader/src/lib.rs:112-215 | a load holds exactly the counted bytes, at most 2 GiB in at most 256 segments, in order, and disjoint for a well-formed file |
| Contents.SegmentsAreWindows | crates/fnprint-loader/src/lib.rs:128-195 | one segment for each loadable header, at its address and with its flags: byte k is the file's byte at offset + k while k < filesz and the file has it, and 0 from there to memsz |
| Contents.RefusalNamesHeader | crates/fnprint-loader/src/lib.rs:128-178 | the error names the limit the first bad header breaks, after headers that break none |
| Contents.CodeIsTheFiles | crates/fnprint-loader/src/lib.rs:60-80 | in a well-formed file that loads, the code at an address is those bytes |
| Loader.ClearMeansApartIff | crates/fnprint-loader/src/lib.rs:197-215 | the neighbour check makes all ranges disjoint exactly when no saturated end has a nonempty segment behind it |
| Loader.DisjointIsClearIff | crates/fnprint-loader/src/lib.rs:205-215 | of the disjoint lists the check accepts all but those with an empty segment inside the one before it |
| Loader.TopClashLoads | crates/fnprint-loader/src/lib.rs:205-215 | two headers that pass and still overlap at the last address |
| Loader.CodeAt | crates/fnprint-loader/src/lib.rs:64-80 | returns the bytes from the first segment that holds them all |
| Loader.CodeAtIgnoresOrder | crates/fnprint-loader/src/lib.rs:60-80 | over disjoint segments a nonempty lookup has one answer, whatever the order |
| Loader.FinalFuncsHold | crates/fnprint-loader/src/lib.rs:219-227 | one function per entry, ascending, named if any was, the first discovered of its kind |
| Shards.ShardSpecRoundTrip | cli/src/main.rs:538-550 | a worker reads back the spec its parent printed |
| Shards.ShardSpecIsValid | cli/src/main.rs:536-550 | any spec yields a shard that exists |
| Shards.ClampIsLargest | cli/src/main.rs:599-608 | the clamp grants the most requested shards the memory budget allows, never none |
| Shards.Merge | cli/src/main.rs:644-714 | the sorted union of all replies, or the first failure and no partial corpus |
| Shards.MergedIsClean | cli/src/main.rs:644-714 | whatever the workers reply, the merged functions have full signatures and coverages in [0, 1], and are exactly those delivered |
| Shards.WholeIsCanonical | crates/fnprint-core/src/lib.rs:94-102 | the single-process list is already in canonical order, without ties |
| Shards.WholeIs | crates/fnprint-core/src/lib.rs:128-140 | the single-process list holds exactly the kept functions, indexed |
| Shards.BestCoverageIsMax | crates/fnprint-core/src/lib.rs:151-155 | the coverage is the highest any run reached |
| Shards.ShardCountNeverChangesTheCorpus | cli/src/main.rs:639-714 | for every shard count the merged replies are the single-process list, element for element |
| Shards.EdgesHold | crates/fnprint-core/src/lib.rs:156-175 | a function's callees are, once each and ascending, all targets the sweep or a run saw, except itself |
| Shards.LoadedCorpusIgnoresShardCount | crates/fnprint-core/src/lib.rs:103-188 | the same for the functions the loader leaves and the prints, coverage and callees their observation gives, whatever was discovered and observed; each entry stands once, ascending |
| Builds.MergedIsBuild | cli/src/main.rs:639-714 | the merged replies of any number of workers are an indexed list, so what follows holds of them |
| Builds.BuildIsInOrder | crates/fnprint-core/src/lib.rs:103-188 | an indexed list has ascending entries and ascending callees, and repeats neither |
| Builds.DiffOfBuilds | crates/fnprint-core/src/lib.rs:294-315 | between any two indexed builds every graph score lies in [0, 1], every pair has similarity 0.45 less the weight at least, and the order of the first build is not seen |
| Builds.DiffReportsDice | crates/fnprint-core/src/lib.rs:294-315 | between any two indexed builds every graph score of the diff and of the evaluation is the Dice coefficient under the assignment of round one |
| Builds.ThresholdsAre | crates/fnprint-core/src/lib.rs:304-313 | the diff pairs from 0.45 on and the evaluation from 0.2 on, and neither leaves out two functions that may be paired unless one of them is in a better pair |

## Left out

- The emulator, the disassembler, sqlite, the ELF parser and the reply encoding: the emulator is an arbitrary caller of the hooks whose mapping may fail, sqlite is an abstract table with atomic batches, and decoded instructions and headers are inputs.
- Processes, threads, pipes, deadlines, resource limits, the seccomp jail, the command line and every output format.
- Path forcing, recorded branch directions and blanket restarts: experimental and off by default.
- Stubbed return values, register writes and page contents: they shape what the environment does next, and the environment is arbitrary here.
- The x86-64 and aarch64 instruction decoders and the static call sweep: finite tables of bit patterns.
- Rounding and not-a-number of the floating-point arithmetic: scores are exact reals.
- match_by_name and query_corpus: renderings of the alignment.
- Triage over a database handle, which can fail to read: triage runs on corpora in memory here, as the command line does.
- Symbol discovery, eh_frame and plt parsing, and name clamping: the function list starts from what discovery found.
- Schema checks and text decoding of an untrusted database image: rows are well typed here.
- Statistical quality of the MinHash estimate and measured accuracy: not statements about the code.
- Recorder.Recorder.SteerBy: does not model the stubbed return values, the writes to the program counter, forced branches or recorded branch directions; they steer the engine, which is arbitrary here, and the last two are off by default.
- Corpus.Db.Candidates: the order of the returned rows is unspecified, as the id set's iteration order is.
- Corpus.Db.Insert: numbers rows by the largest id plus one, the table's default, without its overflow case.
