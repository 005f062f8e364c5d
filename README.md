# Affinity propagation and embedding link-prediction evaluators, in Dafny

This project models three C/C++ programs from a knowledge-graph embedding
toolkit and proves properties about the models.

- **`apcluster`** clusters points by affinity propagation (Frey and Dueck, Science 315, 2007).
  - It reads sparse similarity records `i k s` with 1-based point indices, then one preference per point.
  - The records and the preferences become parallel edge arrays. The last `n` edges are the self edges that carry the preferences.
  - It iterates damped responsibility and availability messages over the edges. Exemplar decisions are kept in a circular window of `convits` slots.
  - It stops when every point's decision has been stable over the whole window (and at least one exemplar exists), or after `maxits` iterations.
  - It then assigns every point to an exemplar in three passes and reports the net similarity and its two parts.
  - Modules: `ApParams`, `ApLoad`, `ApMessages`, `ApDecisions`, `ApAssign`, `ApCluster`.
- **`eval-soft`** evaluates embeddings by link prediction with neighbour-averaged relation directions.
  - For each test triple it predicts the tail from the head, then the head from the tail.
  - The relation direction of a query comes from the `k_nns` training triples of the same relation that are most similar to the given entity.
  - Every entity is ranked by score, optionally skipping known triples (the filtered setting). The tool counts the rank of the true entity and whether it is among the top `k_max`.
  - Modules: `EvalSoft`, plus the shared modules below.
- **`eval-rel`** is the same evaluator with learnt relation vectors.
  - It uses one vocabulary: entity words get ids `0 .. entity_size-1`, relation words the ids after them.
  - Known (head, tail) pairs are stored per relation as 64-bit keys.
  - The top-k list is written out inline in the evaluation loop.
  - Module: `EvalRel`.

Shared modules:

- `Vocab`: the open-addressing word table that both evaluators use. It has a base-257 hash that wraps at 2^64 and linear probing over `HashSize` slots.
- `TopK`: the bounded descending list `kmax_list` and the facts about what it keeps.
- `Ranking`: what the rank and the hits of a query mean, how the test triples are split into thread ranges, and sums over ranges.
- `Wrappers`: `Option` and `Result`.

Code that updates arrays in place is modelled as methods over Dafny arrays or classes. Examples are the message passes, the decision window, the hash table and the top-k list. Each method is proved against a specification function, and the specification functions carry the lemmas.

The score and similarity functions of the evaluators stay abstract. They compute vector arithmetic over embeddings in Eigen, so in the model they are parameters (`sim`, `score`). Every result is proved for every such function.

The models follow the code, not its description, in two places, and depart from it in one:

- **Assignment tie-break.** Assignment passes 1 and 3 in `apcluster.cpp` take the first edge that attains the largest availability plus similarity. The comparison is strict `>`, so a later edge with an equal value does not replace it (`ApAssign.Chosen`, `ApAssign.ChosenUnique`).
- **Similarity file without records.** After the counting loop over the records, `flag` still holds `EOF`. The preference check then reports too few preferences, so an input without records is a load error (`ApLoad.Load`).
- **Tail hits in `eval-rel`.** The tail query of `eval-rel` counts hits over all `k_max` slots, which can count one query more than once; see Findings. That count is modelled as written (`EvalRel.TailQueryAsWritten`, `EvalRel.EvaluateTripleAsWritten`). The evaluation totals (`EvalRel.EvaluateTriple`, `EvalRel.EvaluateThread`, `EvalRel.TrainModel`) use the corrected count over the filled slots, as the head query does.

## Model

| member | source | states |
|---|---|---|
| ApParams.Validate | triple/single-thread/KB2E/cluster/apcluster.cpp:105-116 | The parameters are accepted exactly when maxits >= 1, convits >= 1 and 0.5 <= lam < 1. Each error is reported exactly when its check is the first to fail, in the source's order: maxits, then convits, then damping. |
| ApParams.DampingBoundaries | triple/single-thread/KB2E/cluster/apcluster.cpp:113-116 | The damping interval is half open: 0.5 is accepted, 1.0 and 0.49 are rejected. |
| ApParams.DefaultIsValid | triple/single-thread/KB2E/cluster/apcluster.cpp:85 | The defaults used without optional arguments (500, 50, 0.9) pass validation unchanged. |
| ApLoad.MaxIndex | triple/single-thread/KB2E/cluster/apcluster.cpp:128-133 | The point count bounds every index of every record, and it is attained by some record unless there are no records. |
| ApLoad.CountPoints | triple/single-thread/KB2E/cluster/apcluster.cpp:126-133 | The counting pass returns the number of records and the largest index. |
| ApLoad.CopyRecords | triple/single-thread/KB2E/cluster/apcluster.cpp:153-156 | Edge j is record j with both indices shifted to 0-based. |
| ApLoad.AppendPreferences | triple/single-thread/KB2E/cluster/apcluster.cpp:163-166 | The record edges are kept, and edge m+p is the self edge of point p carrying preference p. |
| ApLoad.Load | triple/single-thread/KB2E/cluster/apcluster.cpp:126-173 | Loading fails exactly when there are no records or fewer preferences than points. Otherwise the edge list is well formed and holds the records, then the preference edges. |
| ApMessages.Fill | triple/single-thread/KB2E/cluster/apcluster.cpp:187 | Every entry becomes the given value. |
| ApMessages.Top2Extend | triple/single-thread/KB2E/cluster/apcluster.cpp:188-194 | One step of the max pass keeps mx1/mx2 as the largest and second-largest value over the point's edges seen so far, with two sentinels taking part. |
| ApMessages.AllTop2Extend | triple/single-thread/KB2E/cluster/apcluster.cpp:188-194 | The same for all points: only the pair of the edge's source moves. |
| ApMessages.Push2 | triple/single-thread/KB2E/cluster/apcluster.cpp:190-193 | The arrays change only at the point's index, to the updated top two. |
| ApMessages.MaxStep | triple/single-thread/KB2E/cluster/apcluster.cpp:188-194 | One turn of the max pass extends the top-two invariant by one edge. |
| ApMessages.ComputeMaxes | triple/single-thread/KB2E/cluster/apcluster.cpp:187-194 | After the pass, mx1[p] and mx2[p] are the top two of a+s over the edges with source p, for every point p. |
| ApMessages.CompetitorIsBestOther | triple/single-thread/KB2E/cluster/apcluster.cpp:195-199 | The value subtracted in the responsibility update (mx2 when the edge attains mx1, mx1 otherwise) is the largest a+s over the other edges of the same source. |
| ApMessages.UpdateResponsibilities | triple/single-thread/KB2E/cluster/apcluster.cpp:195-199 | Every r[j] becomes lam times its old value plus (1-lam) times s[j] minus the best competing a+s. |
| ApMessages.SupportBelowSplit | triple/single-thread/KB2E/cluster/apcluster.cpp:203 | Over the similarity edges, srp sums the positive parts of the responsibilities. |
| ApMessages.SupportAboveSplit | triple/single-thread/KB2E/cluster/apcluster.cpp:204 | The preference edges add exactly r(q,q) to srp[q]. |
| ApMessages.PosIntoSkip | triple/single-thread/KB2E/cluster/apcluster.cpp:206 | Subtracting an edge's positive part from the sum leaves the sum over the other edges. |
| ApMessages.AvailabilityTarget | triple/single-thread/KB2E/cluster/apcluster.cpp:202-209 | For a similarity edge into q, srp[q] minus the edge's own positive part is r(q,q) plus the positive responsibilities of all other edges into q. For q's self edge, it is the positive responsibilities of all similarity edges into q. |
| ApMessages.SumSupport | triple/single-thread/KB2E/cluster/apcluster.cpp:202-204 | srp[q] becomes the support of q. |
| ApMessages.DampSimilarityEdges | triple/single-thread/KB2E/cluster/apcluster.cpp:205-208 | Each similarity edge moves towards min(0, srp minus its positive part). An availability that was at most 0 stays at most 0. The self edges are unchanged. |
| ApMessages.DampSelfEdges | triple/single-thread/KB2E/cluster/apcluster.cpp:209 | Each self edge moves towards srp[q] - r(q,q). The similarity edges are unchanged. |
| ApMessages.UpdateAvailabilities | triple/single-thread/KB2E/cluster/apcluster.cpp:202-209 | srp is the support, and every availability is the damped target of its kind. Off-diagonal availabilities that were at most 0 stay at most 0. |
| ApMessages.DampedNonPositive | triple/single-thread/KB2E/cluster/apcluster.cpp:207 | With lam in [0,1], damping two non-positive values gives a non-positive value. |
| ApDecisions.NextSlot | triple/single-thread/KB2E/cluster/apcluster.cpp:212 | The cursor step wraps from the initial value convits to slot 0, and otherwise moves to the next slot modulo convits. |
| ApDecisions.SumUpdate | triple/single-thread/KB2E/cluster/apcluster.cpp:213-217 | Replacing one decision changes the rolling sum by the difference. |
| ApDecisions.SumBitsExtremes | triple/single-thread/KB2E/cluster/apcluster.cpp:220 | A sum of 0/1 decisions is 0 exactly when all are 0, and full exactly when all are 1. |
| ApDecisions.WindowZero | triple/single-thread/KB2E/cluster/apcluster.cpp:180-181 | The zeroed buffer and sums satisfy the window invariant. |
| ApDecisions.ConvergedMeansStable | triple/single-thread/KB2E/cluster/apcluster.cpp:220 | When a rolling sum is 0 or convits, that point made the same decision in every slot. |
| ApDecisions.WindowBound | triple/single-thread/KB2E/cluster/apcluster.cpp:220 | Every rolling sum lies in [0, convits]. |
| ApDecisions.Evict | triple/single-thread/KB2E/cluster/apcluster.cpp:213 | decsum[p] plus the evicted slot's decision is the sum over the whole window. |
| ApDecisions.Record | triple/single-thread/KB2E/cluster/apcluster.cpp:214-215 | Slot d holds each point's decision a(p,p)+r(p,p) > 0, and the other slots are unchanged. |
| ApDecisions.CountRow | triple/single-thread/KB2E/cluster/apcluster.cpp:216 | K is the number of exemplars in the slot. |
| ApDecisions.Admit | triple/single-thread/KB2E/cluster/apcluster.cpp:217 | Adding the new slot back restores the window invariant. |
| ApDecisions.UpdateDecisions | triple/single-thread/KB2E/cluster/apcluster.cpp:212-217 | The cursor advances, the new slot holds this iteration's decisions, the other slots are unchanged, the window invariant holds and K counts the new slot. |
| ApCluster.Step | triple/single-thread/KB2E/cluster/apcluster.cpp:186-217 | One iteration keeps the window invariant and advances the cursor. Off-diagonal availabilities that were at most 0 stay at most 0. |
| ApCluster.Converged | triple/single-thread/KB2E/cluster/apcluster.cpp:220 | The test passes exactly when every rolling sum is 0 or convits. |
| ApCluster.Iterate | triple/single-thread/KB2E/cluster/apcluster.cpp:182-224 | The loop runs between 1 and maxits iterations. It stops early only when it >= convits, the test passed and K > 0. It keeps the window invariant and non-positive off-diagonal availabilities. |
| ApCluster.Finish | triple/single-thread/KB2E/cluster/apcluster.cpp:226-265 | After the three passes every exemplar of the final slot is assigned to itself. netsim = dpsim + expref is the similarity along the assignment. |
| ApCluster.Report | triple/single-thread/KB2E/cluster/apcluster.cpp:226-272 | The report carries the last iteration's decision slot. It holds the assignment and statistics exactly when K > 0, and then its K is the loop's K. Its iteration count and convergence flag are the loop's `it` and `conv`. |
| ApCluster.Run | triple/single-thread/KB2E/cluster/apcluster.cpp:178-277 | The reported K is the number of exemplars in the last iteration's decision slot (lines 216, 266), and no clusters are reported exactly when that number is 0. The run takes 1 to maxits iterations, and fewer only when it converged with K > 0 after at least convits iterations. With clusters, exemplars are assigned to themselves and netsim = dpsim + expref is the similarity along the assignment. |
| ApCluster.Cluster | triple/single-thread/KB2E/cluster/apcluster.cpp:19-277 | Invalid parameters are rejected exactly when validation fails. Input is rejected exactly when the parameters are valid and there are no records or too few preferences. Otherwise the run reports on the loaded edge list. |
| ApAssign.MaskAvailabilities | triple/single-thread/KB2E/cluster/apcluster.cpp:227-228 | Edges into exemplars get availability 0, all others the sentinel. |
| ApAssign.ChosenUnique | triple/single-thread/KB2E/cluster/apcluster.cpp:229-236 | The chosen edge of a point is unique: the first edge of largest value. |
| ApAssign.ChosenExtend | triple/single-thread/KB2E/cluster/apcluster.cpp:231-235 | Only a strictly larger value replaces the point's choice. |
| ApAssign.AllChosenExtend | triple/single-thread/KB2E/cluster/apcluster.cpp:229-236 | The same for all points: only the pass state of the edge's source moves. |
| ApAssign.ArgMaxPass | triple/single-thread/KB2E/cluster/apcluster.cpp:229-236 | Every point takes the target of its chosen edge, or keeps its old assignment when no edge beats the sentinel. |
| ApAssign.SelfAssign | triple/single-thread/KB2E/cluster/apcluster.cpp:237 | Exemplars are assigned to themselves, and the other points are unchanged. |
| ApAssign.Assign | triple/single-thread/KB2E/cluster/apcluster.cpp:227-237 | Pass 1 (and pass 3) in full: the mask, the chosen edge of every point, and the resulting assignment. |
| ApAssign.AssignedToMostSimilarExemplar | triple/single-thread/KB2E/cluster/apcluster.cpp:227-237 | With bounded similarities, a point with some edge into an exemplar is assigned along an edge into an exemplar, one of largest similarity. |
| ApAssign.ClusterSums | triple/single-thread/KB2E/cluster/apcluster.cpp:238-239 | srp[q] is the sum of similarities into q from points with the same assignment. |
| ApAssign.ClusterMaxes | triple/single-thread/KB2E/cluster/apcluster.cpp:240-241 | mx1[c] is the largest in-cluster sum among the members of cluster c, or the sentinel. |
| ApAssign.Reselect | triple/single-thread/KB2E/cluster/apcluster.cpp:238-243 | Pass 2: the members whose in-cluster sum equals their cluster's largest become the exemplars. Other slots are unchanged. |
| ApAssign.ReselectMarksBest | triple/single-thread/KB2E/cluster/apcluster.cpp:240-243 | Every cluster with a member above the sentinel gets an exemplar, and every exemplar has the largest in-cluster sum of its cluster. |
| ApAssign.Stats | triple/single-thread/KB2E/cluster/apcluster.cpp:258-265 | expref sums assigned self edges and dpsim sums assigned edges between distinct points. netsim is their sum and equals the similarity along the assignment. |
| ApAssign.ExpRefIsExemplarPreferences | triple/single-thread/KB2E/cluster/apcluster.cpp:259-263 | Without self-similarity records, expref is the sum of the preferences of the points assigned to themselves. |
| Vocab.WrapPolyIsPolyMod | evaluation/eval-soft.cpp:172-177 | Wrapping the hash at 2^64 at every step equals the base-257 polynomial taken modulo 2^64 once. |
| Vocab.GetWordHash | evaluation/eval-soft.cpp:172-177 | The hash loop returns the slot Hash(w), below the table size. `GetWordHash` in eval-rel.cpp:90-95 is the same. |
| Vocab.ProbeStep | evaluation/eval-soft.cpp:186 | The step (hash + 1) % hash_size is the next position of the probe sequence. |
| Vocab.NumberedLookup | evaluation/eval-soft.cpp:244-248 | Numbering distinct words from base gives word k the id base+k, and no other word an id. |
| Vocab.Table.constructor | evaluation/eval-soft.cpp:563-567 | A table with every slot -1 represents the empty dictionary. |
| Vocab.Table.Search | evaluation/eval-soft.cpp:180-188 | The search returns the word's id when the word is stored and -1 otherwise. `SearchRelation` (201-209) and eval-rel.cpp's `SearchVocab` (98-107) are the same loop. |
| Vocab.Table.AddWord | evaluation/eval-soft.cpp:191-198 | The dictionary gains w -> id, the text of id becomes w, and exactly one previously empty slot on w's probe path changes. `AddWordToVocab` in eval-rel.cpp:109-116 is the same. |
| Vocab.Table.AddAll | evaluation/eval-soft.cpp:244-248 | The reading loop adds word k with id base+k: the dictionary is the old one plus the numbering. |
| Vocab.Table.Grow | evaluation/eval-soft.cpp:217-220 | The text array gains 1000 entries and keeps its texts. |
| Vocab.Table.AppendName | evaluation/eval-soft.cpp:214-220 | The text of id `size` is recorded and `size` grows by one. The array grows by 1000 exactly when size+2 reaches its length. |
| Vocab.Table.AddWordGrowing | evaluation/eval-soft.cpp:212-225 | The new word gets the next id, the array grows as above, and the dictionary gains the word. |
| TopK.InsertDescSorted | evaluation/eval-soft.cpp:98-113 | The bubble insertion keeps the list in non-increasing order. |
| TopK.InsertDescPerm | evaluation/eval-soft.cpp:98-113 | The insertion adds the pair and loses nothing, as a multiset. |
| TopK.InsertAfterEqual | evaluation/eval-soft.cpp:100-112 | The pair stops after every entry of equal or larger value, so earlier equal entries stay in front. |
| TopK.InsertDescTruncate | evaluation/eval-soft.cpp:95-116 | Dropping the entry that falls off the end of a bounded list loses nothing the unbounded list would keep in its first k. |
| TopK.TopKLargest | evaluation/eval-soft.cpp:95-116 | The kept prefix and the rest partition the added pairs, and every kept value is at least every dropped value. |
| TopK.SortDescCounts | evaluation/eval-soft.cpp:95-116 | The sorted list has the same number of entries above any score and with any id as the added pairs. |
| TopK.BubbleInsert | evaluation/eval-soft.cpp:97-115 | The first list_size+1 slots become the insertion of the pair, and the size grows up to k_max. |
| TopK.ClearSlots | evaluation/eval-soft.cpp:88-92 | Every slot holds the cleared pair. |
| TopK.KmaxList.Init | evaluation/eval-soft.cpp:73-83 | A fresh list of k_max+1 cleared slots, empty. |
| TopK.KmaxList.Clear | evaluation/eval-soft.cpp:85-93 | The list is empty and every slot is cleared (id -1). |
| TopK.KmaxList.Add | evaluation/eval-soft.cpp:95-116 | The pair is recorded as added, the size is min(size+1, k_max), and the filled slots stay sorted. |
| TopK.KmaxList.Scan | evaluation/eval-soft.cpp:430-431 | Scanning all k_max slots for an id counts the kept entries with that id, plus the unfilled slots when the id is -1. |
| TopK.KmaxList.Rows | evaluation/eval-soft.cpp:400-406 | The ids of the non-empty slots among the first k_max are the ids of the kept entries. |
| TopK.ScanHits | evaluation/eval-soft.cpp:430-431 | The loop counts the slots carrying the id. |
| TopK.ScanRows | evaluation/eval-soft.cpp:400-406 | The loop collects the ids of the non-empty slots. |
| Ranking.CandidateCount | evaluation/eval-soft.cpp:414-428 | An entity is a candidate once exactly when the filter keeps it, and never otherwise. |
| Ranking.HitsAtMostOne | evaluation/eval-soft.cpp:430-431 | The kept entries carry the true entity at most once. |
| Ranking.HitMeansRankWithin | evaluation/eval-soft.cpp:413-431 | A hit within the kept top k means a rank of at most k. |
| Ranking.QueryFacts | evaluation/eval-soft.cpp:413-431 | A query scores at most one hit, a hit means rank <= k, and a kept true entity ranks within the number of candidates. |
| Ranking.RangeBounds | evaluation/eval-soft.cpp:356-359 | Each thread's range lies within the test triples and is not reversed. |
| Ranking.RangesPartition | evaluation/eval-soft.cpp:356-359 | Consecutive thread ranges meet, so all threads together cover every test triple exactly once. |
| Ranking.TotalSplit | evaluation/eval-soft.cpp:516-523 | Totals over adjacent ranges add up to the total over their union. |
| Ranking.SumSplit | evaluation/eval-rel.cpp:380-387 | Sums over adjacent ranges add up to the sum over their union. |
| EvalSoft.LessIsLexicographic | evaluation/eval-soft.cpp:51-59 | `triple::operator<` is the lexicographic order on (h, r, t). |
| EvalSoft.LessIrreflexive | evaluation/eval-soft.cpp:51-59 | No triple is below itself. |
| EvalSoft.LessTransitive | evaluation/eval-soft.cpp:51-59 | The order is transitive. |
| EvalSoft.LessTotal | evaluation/eval-soft.cpp:51-59 | Distinct triples are ordered one way and not both, so the set of known triples is well defined. |
| EvalSoft.InternRelation | evaluation/eval-soft.cpp:283-284 | A known relation word keeps its id. A new word gets the next id. Either way the dictionary maps the word to the returned id. |
| EvalSoft.OfRelationMembers | evaluation/eval-soft.cpp:324-352 | A group holds exactly the training triples of its relation. |
| EvalSoft.GroupsCoverTraining | evaluation/eval-soft.cpp:324-352 | With every relation id below the relation count, the group sizes add up to the number of training triples. |
| EvalSoft.Process | evaluation/eval-soft.cpp:324-352 | One group per relation, each the relation's training triples in training order. |
| EvalSoft.NbCands | evaluation/eval-soft.cpp:390-396 | Neighbour candidate k is training triple k of the relation, scored by the similarity of the given entity to that triple's entity on the same side. |
| EvalSoft.FillNeighbours | evaluation/eval-soft.cpp:389-396 | The neighbour list has had exactly the neighbour candidates added. |
| EvalSoft.CollectRows | evaluation/eval-soft.cpp:399-406 | The collected rows are the ids of the kept neighbour entries. |
| EvalSoft.Neighbours | evaluation/eval-soft.cpp:389-406 | The rows averaged into the direction are the k_nns most similar training triples of the relation. |
| EvalSoft.Dir | evaluation/eval-soft.cpp:389-409 | The direction uses min(group size, k_nns) valid rows of the query's relation. |
| EvalSoft.RankSide | evaluation/eval-soft.cpp:411-431 | crank is one plus the number of kept candidates scoring strictly above the true triple. hits counts the true entity among the kept top k_max. |
| EvalSoft.QuerySide | evaluation/eval-soft.cpp:386-435 | One query returns the rank and hits its specification functions define. |
| EvalSoft.EvaluateTriple | evaluation/eval-soft.cpp:386-486 | The tail query, then the head query, with the total rank and hits of both. |
| EvalSoft.TripleHits | evaluation/eval-soft.cpp:430-483 | A test triple scores at most two hits, one per query. |
| EvalSoft.TotalsAreSums | evaluation/eval-soft.cpp:376-487 | A thread's running totals are the sums of the per-triple ranks and hits over its range. |
| EvalSoft.EvaluateThread | evaluation/eval-soft.cpp:354-493 | Over its range a thread accumulates the ranks and hits of its triples, two queries each, and phit <= qhit. |
| EvalSoft.Effective | evaluation/eval-soft.cpp:510 | A k_nns of 0 stands for the training size, and nothing else in the setup changes. |
| EvalSoft.TrainModel | evaluation/eval-soft.cpp:495-526 | The summed totals are the ranks and hits of all test triples, with two queries per triple, so sPhit <= sQhit. |
| EvalRel.KeyInjective | evaluation/eval-rel.cpp:72-77 | `hash(h, t)` is injective while tails fit in 32 bits. |
| EvalRel.UnkeyKey | evaluation/eval-rel.cpp:72-77 | The head and tail can be read back from a key. |
| EvalRel.KeyFits | evaluation/eval-rel.cpp:72-77 | For ids that fit a 32-bit int, the key is non-negative and fits a signed 64-bit value. |
| EvalRel.CheckExact | evaluation/eval-rel.cpp:79-82 | `check(h, t, r)` answers 1 exactly for the inserted triples. |
| EvalRel.LayoutOfNumbering | evaluation/eval-rel.cpp:131-163 | Numbering the entities from 0 and the relations after them gives the id layout. |
| EvalRel.LayoutRanges | evaluation/eval-rel.cpp:131-163 | Entity ids are exactly those below entity_size, and relation ids are those from entity_size up to vocab_size. |
| EvalRel.RelationsFresh | evaluation/eval-rel.cpp:139-162 | After the entities, no relation word is in the table yet. |
| EvalRel.ReadVocab | evaluation/eval-rel.cpp:118-163 | The table holds every entity and relation word with the layout's ids. |
| EvalRel.KnownMembers | evaluation/eval-rel.cpp:204-219 | A line is skipped exactly when one of its words is unknown, and each line with known words gives its triple. |
| EvalRel.AppearMembers | evaluation/eval-rel.cpp:185-219 | A key is known for a relation exactly when some inserted triple of that relation packs to it. |
| EvalRel.LookUp | evaluation/eval-rel.cpp:189-193 | The three searches give the line's triple, or nothing when a word is unknown. |
| EvalRel.Insert | evaluation/eval-rel.cpp:198 | Inserting a triple's key gives the known pairs of all triples read so far. |
| EvalRel.BadRelation | evaluation/eval-rel.cpp:198 | A known line whose relation word is an entity word makes the file fail the relation check. |
| EvalRel.ReadLines | evaluation/eval-rel.cpp:185-220 | A file fails exactly when some known line names an entity as its relation. Otherwise it yields the known pairs, triples and count of its known lines. |
| EvalRel.ReadTriple | evaluation/eval-rel.cpp:175-227 | The training file only adds known pairs. The test file adds known pairs and becomes the evaluation data, with the count of test triples read. |
| EvalRel.RankInline | evaluation/eval-rel.cpp:260-299 | crank is one plus the kept candidates scoring above the true triple, and the list holds the top k_max of the candidates. |
| EvalRel.InlineStep | evaluation/eval-rel.cpp:277-298 | One kept entity extends the count and the top-k list by one candidate. |
| EvalRel.TailQueryAsWritten | evaluation/eval-rel.cpp:259-302 | The tail query as written: its hits are counted over all k_max slots. |
| EvalRel.TailHitsAsWrittenCountsTwice | evaluation/eval-rel.cpp:301-302 | With one entity, k_max 2 and entity 0 as the true tail, the as-written count is 2 where the intended count is 1. |
| EvalRel.Query | evaluation/eval-rel.cpp:309-350 | A query with hits counted over the filled slots [0, list_size), as the head query does. |
| EvalRel.EvaluateTriple | evaluation/eval-rel.cpp:255-354 | Both queries of a test triple, with their total rank and their hits counted over the filled slots (the corrected tail count). |
| EvalRel.EvaluateTripleAsWritten | evaluation/eval-rel.cpp:255-354 | Both queries exactly as written: the same total rank, with the tail hits counted over all k_max slots. |
| EvalRel.AsWrittenAgrees | evaluation/eval-rel.cpp:301-302 | The as-written count of a triple is never below the corrected one, and equals it exactly when the true tail is not entity 0 or the kept candidates fill all k_max slots. |
| EvalRel.AsWrittenHitsExceedQueries | evaluation/eval-rel.cpp:301-302 | On the Finding's input the code counts 3 hits for the 2 queries of one triple, so as written phit can exceed qhit. |
| EvalRel.TotalsAt | evaluation/eval-rel.cpp:246-354 | Entry j of the per-triple ranks and hits belongs to test triple j. |
| EvalRel.EvaluateThread | evaluation/eval-rel.cpp:229-361 | Over its range a thread's totals are the sums of the per-triple ranks and corrected hits, two queries each. |
| EvalRel.TrainModel | evaluation/eval-rel.cpp:363-390 | The summed totals are the sums over all test triples of the ranks and corrected hits, with two queries each, so sPhit <= sQhit for the corrected count. |

## Left out

- Random noise: the tiny random noise added to the similarities (`apcluster.cpp:176`) is not modelled, because `rand()` is outside the model. The loaded similarities are the ones read.
- The `MINDOUBLE` precision warning (`apcluster.cpp:80-82`) only prints a message.
- Files and output: opening and parsing files, `printf` and writing the index file are not modelled. Inputs are sequences of records, preferences, words and lines; outputs are return values.
- Command-line handling: `ArgPos`, `main`'s argument parsing and the usage text are not modelled. `sscanf` failures of the optional `apcluster` arguments are folded into the values given to `Validate`.
- Floating point: `double`/`float` arithmetic is modelled by Dafny's `real`, so rounding is not captured. The sentinel `-MAXDOUBLE` is the real -1.7976e308.
- ApAssign.ArgMaxPass: in passes 1 and 3 (`apcluster.cpp:230-236`, 246-253) an edge into a non-exemplar has the value -MAXDOUBLE + s. In `double` this rounds back to -MAXDOUBLE for any ordinary s, so it never beats the sentinel and the point keeps its old `idx`. With `real` it beats the sentinel whenever s > 0, so the model can assign a point with no edge into an exemplar to a non-exemplar. The same holds for ApAssign.Assign and ApCluster.Finish.
- ApLoad.Load: requires every record index to be at least 1. The source decrements the indices unchecked (`apcluster.cpp:155`), so an index 0 wraps to `ULONG_MAX` and indexes `mx1` out of bounds, which is undefined behaviour. ApLoad.CopyRecords and ApCluster.Cluster carry the same requirement.
- ApCluster.Run: the outcome states K and the decision slot it counts, and that pass-2 exemplars are assigned to themselves. It does not relate the pass-2 `exemplar` slot to the decision slot beyond both being 0/1; that relation is stated pass by pass by ApAssign.Reselect and ApAssign.ReselectMarksBest. As in the source, the reported K counts the exemplars before pass 2 re-selects them.
- Threads: `pthread` threads are modelled one after another, thread by thread. The `cur_data_size` progress counter and its output are not modelled.
- Scores and similarities: the Eigen vector arithmetic (`score`, the dot products and the direction average) is replaced by abstract functions passed in. Nothing is proved about the values they compute.
- Embedding vectors: `ReadVector` is modelled only in its vocabulary part; the vector values and their normalisation are not modelled.
- `eval-soft` triple reading: in `ReadTriple` of eval-soft.cpp only the relation interning is modelled (`EvalSoft.InternRelation`). The file loop that collects training, test and known triples is not; its results are inputs to `Process` and `Evaluate`.
- `emb-io.py` is not part of this model.
- Vocab.Table.AddWord: requires the word to be absent. The source would store a second slot for a duplicate word, which its callers never do for distinct vocabulary files; duplicate words in a vector file are not modelled.
- Vocab.Table.AddWord: requires a free slot, which the source assumes: its probe loop would not terminate on a full table. It also requires an id no slot holds yet, as the callers' consecutive numbering gives.
- Word lengths: `MAX_STRING` limits and the `strcpy` overflow of long words are not modelled. Words are unbounded sequences of bytes.
- EvalRel.ReadLines: a relation word that names an entity makes `appear[r - entity_size]` index before the array, which is undefined behaviour in the source. The model reports it as an error.
- EvalSoft.TrainModel: the `long long` totals are unbounded integers, so overflow of the sums is not modelled. The same holds for EvalRel.TrainModel.
- EvalRel.EvaluateTriple: counts the tail hits over the filled slots, the corrected count, not over all k_max slots as `eval-rel.cpp:301-302` does. The as-written count is EvalRel.EvaluateTripleAsWritten.
- EvalRel.EvaluateThread: its phit sums the corrected hits, and its `phit <= qhit` holds for those. As written a thread can count more hits than queries (EvalRel.AsWrittenHitsExceedQueries).
- EvalRel.TrainModel: its sPhit and `sPhit <= sQhit` hold for the corrected tail count. As written sPhit can exceed sQhit.
- EvalRel.KeyInjective: stated for tails in [0, 2^32), the range entity ids take. The shift of a negative head is not modelled.

## Findings

| source | as written | input that shows it | evidently intended | confidence | as-written member | corrected member |
|---|---|---|---|---|---|---|
| evaluation/eval-rel.cpp:301-302 | The tail query counts hits over all `k_max` slots, and a cleared slot carries id 0, so entity 0 is also counted in every unfilled slot. | One entity, `k_max` = 2, no known pairs, constant score, test triple (0, 1, 0) with relation id 1 and true tail entity 0: the list holds entity 0 once and one cleared slot with id 0, so 2 hits are counted for one query. | Count over the filled slots `[0, list_size)`, as the head query does (eval-rel.cpp:349-350). | not executed | EvalRel.TailHitsAsWrittenCountsTwice | EvalRel.Query |
