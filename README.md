# Random forest: a Dafny model

This project models the core of a Java random-forest classifier. It covers:

- samples: a map from attribute name to value, plus a decision;
- decision trees: a leaf decision, or a split on one attribute;
- the counter that tallies the trees' votes, and the list helpers;
- the sequential forest: grow it from bootstrap samples, decide a sample by plurality vote, count the correctly decided test samples;
- the shared-memory parallel forest and the cluster forest, whose parallel loops are split into contiguous chunks;
- the reader that turns comma-separated lines into samples and fills the caller's attribute map in place.

Modules, one per source file:

| module | file | source |
|---|---|---|
| `Wrappers` | wrappers.dfy | `Option` (null) and `Result` (a thrown exception) |
| `Samples` | samples.dfy | Sample.java |
| `Counters` | counter.dfy | Counter.java |
| `ListUtils` | list_utils.dfy | ListUtils.java |
| `DecisionTrees` | decision_tree.dfy | DecisionTree.java |
| `Forests` | random_forest.dfy | RandomForest.java |
| `ForestSmp` | random_forest_smp.dfy | RandomForestSmp.java |
| `ForestCluster` | random_forest_cluster.dfy | RandomForestCluster.java |
| `ForestInput` | random_forest_input.dfy | RandomForestInput.java |

The source gets some inputs from outside the core. Here they are parameters:

- Randomness: each value the source derives from `Math.random()` is an index. Its range is a precondition:
  - `draws` holds the bootstrap picks: `draws[i][j] < |samples|`.
  - `offsets` holds the Fisher–Yates offsets: `offsets[i] < n - i`.
- Tree induction: `DecisionTree.growDecisionTree` becomes a function parameter `grow`.
- Key order: the order in which a `HashMap` iterates its keys becomes the parameter `keys` (for `Counter.mode`) or `order` (for the forest's vote). For a map of strings, that order is fixed by the keys and the order they arrived in. So `order` maps the sequence of votes cast to a duplicate-free list of exactly the voted values.
- Parallel loops: the chunks run one after another. The parameter `bounds` gives the split: chunk `c` covers `bounds[c] .. bounds[c + 1] - 1`.
- File reading: the data file is given as its sequence of lines.

State the source changes in place is modelled as classes:

- `Counter`: the counts, a `map`.
- `RandomForest` and `RandomForestCluster`: the trees.
- `StringList`: a decision list that `merge` appends to.
- `AttributeMap`: the attribute domains that `readData` fills.

Methods follow the source's loops and are proved against specification functions. Lemmas prove those functions' properties.

## Model

| member | source | states |
|---|---|---|
| `Counters.Lookup` | Counter.java:6-9 | Definition: a key's count, or 0 for a key the counts do not hold. |
| `Counters.Counter.Get` | Counter.java:6-9 | The count is never negative. It is 0 exactly for a key never added; otherwise it is the stored count. |
| `Counters.Counter.Add` | Counter.java:11-18 | Returns the old count plus one and stores it. No other key's count changes, and every stored count stays at least 1. |
| `Counters.Counter.AddAll` | Counter.java:20-24 | The new counts are the old ones with `items` added in order. Every key's count grows by its number of occurrences in `items`. |
| `Counters.Added` | Counter.java:11-24 | Definition: the counts after adding `items` one by one, each `add` storing the key's count plus one. Adding nothing leaves the counts as they were. |
| `Counters.AddedCounts` | Counter.java:11-24 | After adding `items`, each key's count is its count before plus its occurrences in `items`. A key is present exactly when it was before or occurs in `items`. |
| `Counters.AddedFromEmpty` | Counter.java:11-24 | A counter filled from empty holds exactly the added items. Each item's count is its number of occurrences, which is at least 1. |
| `Counters.Counter.Mode` | Counter.java:26-37 | `mode()` is the first strict maximum in the key order. It is null exactly for an empty counter; otherwise it is a stored key whose count is at least every other key's. |
| `Counters.BestCount` | Counter.java:28-33 | Definition: the scan's `maxCount`: the current mode's count, or 0 while there is no mode. |
| `Counters.ModeScan` | Counter.java:26-37 | Definition: the mode scan over a key order, starting with no mode and count 0, replacing the mode only on a strictly greater count. |
| `Counters.ModeScanIsFirstMaximum` | Counter.java:26-37 | Over a duplicate-free key order, the scan: yields null exactly when no key has a positive count; otherwise yields a listed key with a positive, maximal count, and every key before it has a strictly smaller count. |
| `Counters.CounterModeIsFirstMaximum` | Counter.java:26-37 | For a counter's own key set: null exactly when the counter is empty; otherwise a stored key with a maximal count, and keys before it in the iteration order have strictly smaller counts. |
| `ListUtils.Filtered` | ListUtils.java:15-27 | The filtered list is no longer than the input. Each of its elements is in the input and passes the predicate. |
| `ListUtils.FilteredSingleton` | ListUtils.java:15-27 | One element is kept exactly when it passes the predicate. |
| `ListUtils.FilteredDistributes` | ListUtils.java:15-27 | `filter(a ++ b) == filter(a) ++ filter(b)`: order is kept. |
| `ListUtils.FilteredCounts` | ListUtils.java:15-27 | Each element occurs in the result as often as in the input if it passes the predicate, and otherwise not at all. |
| `ListUtils.Filter` | ListUtils.java:15-27 | The loop's result is the filtered list. |
| `ListUtils.Map` | ListUtils.java:36-42 | The result has the input's length, and element `i` is the transform of input element `i`. |
| `ListUtils.ReachIndex` | ListUtils.java:52-70 | The position where `x`'s running count reaches `c`: it holds `x`, and `x` occurs `c - 1` times before it. |
| `ListUtils.MaxCount` | ListUtils.java:54-66 | Definition: the scan's `max`: the current mode's number of occurrences, or 0 while there is no mode. |
| `ListUtils.ModeOf` | ListUtils.java:52-70 | Definition: the list mode scan, where an element becomes the mode when its running count exceeds the running maximum. |
| `ListUtils.ModeOfIsMaximal` | ListUtils.java:52-70 | The scan's mode is null exactly for an empty list. Otherwise it is an element no value outnumbers. |
| `ListUtils.ModeOfIsFirstToReachMax` | ListUtils.java:52-70 | Ties go to the element whose running count reached the top count first. |
| `ListUtils.NewModeHasNoTie` | ListUtils.java:64-67 | An element that overtakes the running maximum is strictly the most frequent so far. |
| `ListUtils.Occurrences` | ListUtils.java:54-66 | Definition: the scan's `counts` map after the given elements, each element's entry raised by one per occurrence. |
| `ListUtils.OccurrencesCount` | ListUtils.java:55-63 | The scan's count map holds exactly the elements seen, each with its number of occurrences. |
| `ListUtils.Mode` | ListUtils.java:52-70 | The loop's result is the scan's mode. It is null exactly for an empty list; otherwise it is a list element that occurs at least as often as any value. |
| `ListUtils.Random` | ListUtils.java:75-78 | The element at the drawn index belongs to the list. |
| `ListUtils.Bootstrap` | ListUtils.java:83-89 | One element per draw, each from the source. |
| `ListUtils.Choices` | ListUtils.java:83-89 | `n` draws with replacement: element `j` is the element at pick `j`, so there are `n` elements, all from the source. |
| `ListUtils.TakeOut` | ListUtils.java:102-106 | Taking the drawn element out and moving the front into its place keeps the rest of the pool's elements. |
| `ListUtils.Drawn` | ListUtils.java:102-106 | The partial Fisher–Yates draws: one element per offset. |
| `ListUtils.DrawnFromDistinctPositions` | ListUtils.java:102-106 | The draws are a sub-multiset of the pool: no position is drawn twice. |
| `ListUtils.Sample` | ListUtils.java:95-108 | If the source has at most `m` elements, the result is a copy of it. Otherwise the in-place loop's result is the Fisher–Yates draw of length `m`. Either way the result is a sub-multiset of the source. |
| `DecisionTrees.Decide` | DecisionTree.java:9-20 | A decided value is the value of one of the tree's leaves. |
| `DecisionTrees.DecideDefinedIffAdmissible` | DecisionTree.java:17-20 | `decide` returns a value exactly when every visited split finds its attribute and a child for the value. Otherwise it dereferences null. |
| `DecisionTrees.UniformTreeDecides` | DecisionTree.java:9-20 | A tree whose leaves all hold `v` decides `v` wherever it reaches a leaf. |
| `DecisionTrees.DecideReadsOnlyTested` | DecisionTree.java:17-20 | The decision depends only on the attributes the tree tests. |
| `Forests.Grown` | RandomForest.java:25-38 | One tree per bootstrap. |
| `Forests.GrownFromBootstraps` | RandomForest.java:25-38 | `size` trees, each grown from `n` samples drawn from the training samples. |
| `Forests.GrowTrees` | RandomForest.java:32-36 | The loop grows tree `i` from bootstrap `i`, in order. |
| `Forests.RandomForest.GrowRandomForest` | RandomForest.java:25-38 | A new forest holding exactly the grown trees. |
| `Forests.Ballots` | RandomForest.java:59-61 | One vote per tree. |
| `Forests.VotesFor` | RandomForest.java:59-61 | The number of trees that vote `v` is at most the forest size. |
| `Forests.Tally` | RandomForest.java:58-61 | Definition: the vote counter: the trees' votes added to an empty counter. |
| `Forests.TallyCountsVotes` | RandomForest.java:58-61 | The counter's entry for `v` is the number of trees that decided `v`. It is present exactly when that number is positive. |
| `Forests.BallotsCountVotes` | RandomForest.java:59-61 | `v` occurs among the votes as often as trees decide `v`. |
| `Forests.Vote` | RandomForest.java:57-63 | Definition: the trees' votes added to an empty counter, then the counter's mode scan in the key order. |
| `Forests.VoteIsPlurality` | RandomForest.java:57-63 | `decide` is null exactly for an empty forest. Otherwise it is a value some tree decided, with at least as many votes as any value. Every value before it in the counter's key order has strictly fewer votes. |
| `Forests.SumCountsBump` | RandomForest.java:59-61 | One more vote raises the sum over distinct keys by one when the value is listed. |
| `Forests.SumOccurrencesIsLength` | RandomForest.java:59-61 | Summed over distinct keys that cover the votes, the occurrence counts add up to the number of votes. |
| `Forests.SumCountsOfAdded` | RandomForest.java:58-61 | Counts read from the counter equal occurrence counts, key by key. |
| `Forests.VotesSumToForestSize` | RandomForest.java:57-63 | The counts over the counter's key set add up to the number of trees: one vote per tree. |
| `Forests.Hit` | RandomForest.java:74 | Definition: the forest's vote on the sample equals the sample's decision. |
| `Forests.Correct` | RandomForest.java:71-79 | The correct count is at most the number of samples. |
| `Forests.CorrectAppend` | RandomForest.java:71-79 | `test(a ++ b) == test(a) + test(b)`. |
| `Forests.CorrectStep` | RandomForest.java:73-77 | One more sample raises the count by one exactly when the forest decides it correctly. |
| `Forests.CorrectAllIff` | RandomForest.java:71-79 | The count equals the number of samples exactly when every sample is decided correctly. |
| `Forests.RandomForest.Decide` | RandomForest.java:57-63 | The counter's mode over the trees' votes, scanned in the counter's key order. Its properties are those of `Forests.VoteIsPlurality`. |
| `Forests.RandomForest.Test` | RandomForest.java:71-79 | The loop's count is the number of correctly decided samples, at most the number of samples. |
| `ForestSmp.Unwrapped` | RandomForestSmp.java:64-65 | A fully filled slot list gives its trees in slot order. |
| `ForestSmp.Chunking` | RandomForestSmp.java:50 | Definition: the parallel loop's split of `0 .. total - 1` into contiguous chunks in order, from 0 to `total`. |
| `ForestSmp.GrowChunk` | RandomForestSmp.java:51-58 | A chunk fills slots `first .. last - 1` with the trees grown from those bootstraps. Other slots are unchanged. |
| `ForestSmp.GrowRandomForest` | RandomForestSmp.java:34-66 | The slot list first holds `size` null slots (`prefilled`). Once the chunks cover every index, no slot is null (`filled`), and the new forest holds the filled slots' trees, which are exactly the trees the sequential forest grows from the same picks. |
| `ForestSmp.DecidesAllSlice` | RandomForestSmp.java:94 | Every tree decides every sample of a sub-list of samples it decides. |
| `ForestSmp.ChunkSum` | RandomForestSmp.java:84-110 | Definition: the shared total after every chunk has added the number of samples of its sub-list that the forest decides correctly. |
| `ForestSmp.ChunkSumIsCorrect` | RandomForestSmp.java:81-111 | For any split into contiguous chunks, the chunk counts add up to the sequential test's count. |
| `ForestSmp.ChunkSumOfPrefix` | RandomForestSmp.java:89-103 | The chunk counts so far add up to the sequential count of the samples covered so far. |
| `ForestSmp.TestChunk` | RandomForestSmp.java:93-99 | A chunk's count is the sequential count of its sub-list. |
| `ForestSmp.Test` | RandomForestSmp.java:81-111 | The shared total equals the sequential test's count whatever the split. It is at most the number of samples, and 0 for no samples. |
| `ForestCluster.RandomForestCluster.GrowRandomForest` | RandomForestCluster.java:35-50 | A new forest with `size` trees: tree `i` is grown from bootstrap `i`, as in the sequential forest. |
| `ForestCluster.StringList.AddAll` | RandomForestCluster.java:90 | `addAll` appends the other list in order. |
| `ForestCluster.Merge` | RandomForestCluster.java:72-100 | The result has exactly the keys `0 .. |gather| - 1`. Each value is the input's own list object, now its old contents followed by gather's list. Gather's lists and any other list are unchanged. |
| `ForestCluster.RunStep` | RandomForestCluster.java:89-91 | Definition: one statement of the merge loop on the shared state: load list `i` into `results`, append gather's list `i` to the list `results` names, or put `results` at key `i`. |
| `ForestCluster.RunShared` | RandomForestCluster.java:83-91 | Definition: the shared state after the loop statements of one interleaving, in schedule order. |
| `ForestCluster.RunSharedAppend` | RandomForestCluster.java:85-95 | Running a schedule of loop statements in two parts equals running it whole. |
| `ForestCluster.BodyAlone` | RandomForestCluster.java:89-91 | The loop body for index `k`, with no other thread in between: list `k` grows by gather's list `k`, `results` refers to list `k`, and list `k` is stored at key `k`. |
| `ForestCluster.OneThread` | RandomForestCluster.java:83-91 | Definition: the merge loop run by one thread: load, append and put for index 0, then 1, up to `n - 1`. |
| `ForestCluster.OneThreadMerges` | RandomForestCluster.java:72-100 | Run by one thread, the merge as written gives `Merge`'s result. Each list `i < n` is its old contents followed by gather's list `i`, stored at key `i`. Other lists are unchanged. |
| `ForestCluster.SharedResultsRace` | RandomForestCluster.java:89-91 | With two threads that both load `results` before either appends, both appends go to list 1. List 0 keeps its old contents, and key 0 maps to list 1. |
| `ForestCluster.Agrees` | RandomForestCluster.java:124 | Definition: the mode of index `i`'s vote list equals test sample `i`'s decision. |
| `ForestCluster.CountRange` | RandomForestCluster.java:109-140 | The number of indices whose vote list's mode equals the sample's decision is at most the range's length. |
| `ForestCluster.CountRangeSplit` | RandomForestCluster.java:117-135 | Counts over adjacent ranges add up, so any chunking gives the same total. |
| `ForestCluster.CountRangeAllIff` | RandomForestCluster.java:109-140 | The count reaches the range's length exactly when every index agrees. |
| `ForestCluster.CountChunk` | RandomForestCluster.java:120-131 | A chunk's count is the number of agreeing indices in its range. |
| `ForestCluster.NumberOfCorrectDecisionsCluster` | RandomForestCluster.java:109-140 | The total is the number of test samples whose vote list's mode equals their decision. It is at most the number of test samples. |
| `ForestInput.Split` | RandomForestInput.java:38 | Definition: Java's `line.split(",")`. A line without a comma is its own single field; otherwise the comma-separated pieces with trailing empty ones removed. |
| `ForestInput.Fields` | RandomForestInput.java:38 | Splitting at every comma gives at least one field. |
| `ForestInput.FieldsCommaFree` | RandomForestInput.java:38 | No field holds a comma. |
| `ForestInput.JoinFields` | RandomForestInput.java:38 | Joining the fields with commas gives the line back. |
| `ForestInput.FieldsJoin` | RandomForestInput.java:38 | Splitting comma-free fields joined with commas gives the fields back. |
| `ForestInput.DropTrailingEmpty` | RandomForestInput.java:38 | Definition: the fields with their trailing empty strings removed, as `split` does. |
| `ForestInput.DropTrailingEmptyIsPrefix` | RandomForestInput.java:38 | `split` keeps a prefix of the fields that does not end in an empty string, and drops only empty strings. |
| `ForestInput.SplitJoin` | RandomForestInput.java:38 | `split(",")` inverts joining comma-free fields whose last field is non-empty, or a single field. |
| `ForestInput.SplitIsFieldsPrefix` | RandomForestInput.java:38 | `split(",")` gives the comma-separated pieces minus the trailing empty ones. |
| `ForestInput.SplitEmptyIff` | RandomForestInput.java:38-39 | `split(",")` gives no field exactly for a non-empty line made only of commas. |
| `ForestInput.FirstFieldIsTextBeforeComma` | RandomForestInput.java:38-39 | The decision is the line's text before its first comma. |
| `ForestInput.NatToString` | RandomForestInput.java:46 | `String.valueOf(i)` is a non-empty string of decimal digits. |
| `ForestInput.DigitsValueOfNatToString` | RandomForestInput.java:46 | Reading the decimal text back gives the number. |
| `ForestInput.NatToStringInjective` | RandomForestInput.java:46 | Distinct indices get distinct attribute names. |
| `ForestInput.ChoicesUpTo` | RandomForestInput.java:43-48 | Definition: the choices map after the attribute loop has put fields `1 .. k - 1` under `String.valueOf(i)`. |
| `ForestInput.ChoicesOf` | RandomForestInput.java:40-48 | Definition: the choices map of a line's fields, holding field `i` under `String.valueOf(i)` for `1 <= i < |fields|`. |
| `ForestInput.SampleOf` | RandomForestInput.java:38-61 | Definition: the sample of a line's fields: its choices, with field 0 as the decision. |
| `ForestInput.ChoicesUpToKeys` | RandomForestInput.java:43-48 | Every key put so far names an index already processed. |
| `ForestInput.NewKeyIsFresh` | RandomForestInput.java:43-48 | Attribute `i`'s name is not a key before `i` is put. |
| `ForestInput.ChoicesUpToIndexed` | RandomForestInput.java:43-48 | After attributes `1 .. k - 1`, the choices map holds field `i` under `String.valueOf(i)` and has `k - 1` keys. |
| `ForestInput.ChoicesOfIndexed` | RandomForestInput.java:40-48 | A line's choices hold field `i` under `String.valueOf(i)` for every field after the decision, and nothing else. |
| `ForestInput.Ext1` | RandomForestInput.java:54-56 | Definition: a list with `v` added at the end unless it already holds `v`. |
| `ForestInput.Noted` | RandomForestInput.java:51-56 | Definition: the attribute map after recording value `v` for attribute `a`, creating an empty list for `a` first if it has none. |
| `ForestInput.Extend` | RandomForestInput.java:54-56 | Definition: a list after adding each of `vs` in turn, each unless already present. |
| `ForestInput.FirstIndex` | RandomForestInput.java:54-56 | The first position of `x`. |
| `ForestInput.Recorded` | RandomForestInput.java:43-56 | Definition: the attribute map after the attribute loop has recorded fields `1 .. k - 1`, one `Noted` per field. |
| `ForestInput.RecordLine` | RandomForestInput.java:43-56 | Definition: the attribute map after one line's attributes are recorded. A line with no field records nothing. |
| `ForestInput.RecordedIsExt` | RandomForestInput.java:51-56 | Recording a line's attributes extends attribute `a`'s list by the value the line gives `a`. `a` has an entry exactly when it had one or the line gives it a value. |
| `ForestInput.RecordLineIsExtend` | RandomForestInput.java:43-58 | One line extends each attribute's list by that line's value for it. |
| `ForestInput.ExtendAppend` | RandomForestInput.java:54-56 | Extending by `vs` and then by `ws` equals extending by `vs ++ ws`. |
| `ForestInput.AccumulatedLines` | RandomForestInput.java:35-63 | Definition: the attribute map after recording every line's attributes in line order. A line without a field records nothing. |
| `ForestInput.AccumulatedIsExtend` | RandomForestInput.java:35-63 | After reading, attribute `a`'s list is its old list extended by every value the lines give `a`, in line order. |
| `ForestInput.ExtendAddsMissingValues` | RandomForestInput.java:54-56 | The old list stays a prefix, and exactly the missing values are added. A duplicate-free list stays duplicate-free. |
| `ForestInput.ExtendAddsInFirstAppearanceOrder` | RandomForestInput.java:54-56 | Added values come in order of their first appearance. |
| `ForestInput.ColumnHasLineValue` | RandomForestInput.java:43-58 | Every value a line gives an attribute is in that attribute's column. |
| `ForestInput.ReadValuesAreInDomains` | RandomForestInput.java:21-68 | After reading, every field `i >= 1` of every line is in the list of attribute `String.valueOf(i)`. |
| `ForestInput.DomainsStayDistinct` | RandomForestInput.java:21-68 | Lists without duplicates stay without duplicates. |
| `ForestInput.AttributeMap.Note` | RandomForestInput.java:51-56 | Creates the attribute's list if missing, then adds the value unless it is already there. The value is then in the list. |
| `ForestInput.AccumulatedStep` | RandomForestInput.java:35-63 | Reading one more line records that line's attributes. |
| `ForestInput.ReadLine` | RandomForestInput.java:38-61 | One line gives its sample: the choices, with field 0 as the decision. Its attribute values are recorded. |
| `ForestInput.SamplesOf` | RandomForestInput.java:35-63 | Definition: the samples of lines that all parse, one per line, in line order. |
| `ForestInput.SamplesOfIndexed` | RandomForestInput.java:21-68 | Sample `k` is the sample of line `k`. |
| `ForestInput.ParseStep` | RandomForestInput.java:35-63 | One more line that parses adds its sample at the end. |
| `ForestInput.ReadData` | RandomForestInput.java:21-68 | Success exactly when every line's split has a field: the samples are the lines' samples in order, and `attrs` holds its old lists extended by every line. A line of commas only fails at field 0, giving `Failure(k)` for the first such line `k`, after the lines before it have been recorded. |

## Findings

| source | as written | input that shows it | evidently intended | confidence | as-written member | corrected member |
|---|---|---|---|---|---|---|
| RandomForestCluster.java:89-91 | The merge loop keeps the list it is extending in the static field `results`, which every thread of the parallel team writes. | Two threads handle indices 0 and 1, and both load `results` before either appends. Both of gather's lists are appended to list 1, list 0 is not extended, and key 0 maps to list 1. | Each index's list is extended by gather's list for that index and stored under that index, which is what a single thread does. | not executed | `ForestCluster.SharedResultsRace` (with `ForestCluster.OneThreadMerges` for the single-thread case) | `ForestCluster.Merge` |

## Left out

- Main programs: the `main` methods, `usage`, and the Main classes are not modelled. This covers argument parsing, shuffling, the training/test split, timing and printing.
- Parallel execution: the parallel team and thread scheduling are not modelled. Loops run their chunks one after another. The shared counters' `addAndGet` is a plain addition, and the chunk split is the `bounds` parameter.
- ForestSmp.Test: per-chunk counts are added one chunk at a time. The source keeps one counter per thread across all that thread's chunks and adds it once in `finish`. The two sums are equal.
- ForestCluster.NumberOfCorrectDecisionsCluster: per-chunk counts are added one chunk at a time. The source keeps one `counter_value` per thread across all that thread's chunks and adds it once in `finish`. The two sums are equal.
- ForestCluster.Merge: requires both maps to hold a list at every index `0 .. |gather| - 1` (`HasIndices`). When either map lacks an index, `get` returns null and `addAll` throws a `NullPointerException`; that error is not modelled. The merge's caller builds both maps with every index. It also requires the lists to be distinct objects (`Unshared`). What the source does with aliased lists is not modelled. `Merge` holds each list in a variable of its own; the source's shared static field `results` is modelled separately (see Findings). The unsynchronised `HashMap` that the threads share for the result is not modelled.
- ForestInput.AttributeMap: holds the attribute domains as a `map` from name to list value. So two keys of the caller's map cannot share one list object, and no key can map to null. In the source, a shared `ArrayList` would receive both attributes' values, and a null list would throw at the `contains` call. The documented input is an empty map, so the reading does not depend on this.
- `Math.random()`: not modelled. Its draws are the index parameters `draws` and `offsets`, whose ranges are preconditions. The truncating cast `(int)(Math.random() * k)` only ever gives an index below `k`.
- ListUtils.Random: requires a drawn index inside the list. On an empty list the source's `list.get(0)` throws, and this is not modelled as an error result.
- ListUtils.Sample: takes `m` as a `nat`. For a negative `m` the source throws, because `new ArrayList(m)` rejects a negative capacity. `m` is a `nat` here, so that error is not modelled.
- `DecisionTree.growDecisionTree` and tree induction: not modelled. The tree builder is the parameter `grow`, a pure total function. So two trees grown from equal bootstraps are equal, and an empty bootstrap (`n == 0`) still yields a tree. The source's builder picks its own random attribute subsets of size `m`, and may fail on an empty sample list. The claim that `ForestSmp.GrowRandomForest` grows the same trees as the sequential forest relies on this determinism.
- Floating point: the accuracy percentage and the split ratio belong to the main programs and are not modelled.
- File I/O: `BufferedReader` and `FileReader` are not modelled. The file is its sequence of lines, and I/O errors are not modelled.
- Serialization: `java.io.Serializable` and the cluster's message passing are not modelled.
- Generic decisions: the decision type `D` is fixed to `string` in samples, trees and forests, as in every use in the source. `Counter` and `ListUtils` stay generic.
- Null values inside data: a null `Decision.value`, a null key in a tree's children and a null sample decision are not modelled. A null vote can only come from a null leaf value.
- Forests.RandomForest.Decide, Forests.RandomForest.Test, ForestSmp.Test: require every tree to reach a leaf (`Decides` / `DecidesAll`), because the source throws a `NullPointerException` otherwise and nothing catches it. `DecisionTrees.Decide` models the throw as `None`.
- ForestCluster.NumberOfCorrectDecisionsCluster: requires a vote list for every test index, because `ListUtils.mode(null)` throws.
- Integer width: Java's `int` and `Integer` are unbounded `int`/`nat` here. A count that would overflow 2^31 - 1 is not modelled.
- Negative sizes: `size` and `n` are `nat`. For a negative `size` or `n`, `new ArrayList(size)` throws, so negative sizes are not modelled. The forests' `m` is an `int` passed unchanged to `grow`. `ListUtils.Sample`'s `m` is covered on its own line.
- Duplicate mode: DecisionTree.java:25-43 repeats ListUtils.java:52-70 word for word. It is modelled once, as `ListUtils.Mode`.
- HashMap iteration order: an input (`keys`, `order`), as stated above. Its one assumption is that the order lists each key once.
- Subclassing: `RandomForestSmp extends RandomForest`. It has a static factory `growRandomForest` that hides the parent's, and an overriding `test`. Both are module-level methods of `ForestSmp` that return or take a `Forests.RandomForest`.
- Counter tie-break: on a tie, `Counter.mode` keeps the key met first in the key set's iteration order, because it replaces the mode only on a strictly greater count. The model follows the code, not the plurality-vote description, which gives no tie-break.
- Parallel bounds: the source's parallel loops run over the closed range `first .. last`. The model's chunks are half-open `[bounds[c], bounds[c + 1])`. Both cover the same indices.
- The `Predicate.getAttr` and `getVal` accessors belong to tree induction and are not modelled. `filter` takes the predicate as a function.
- String handling: `split(",")` is modelled for its literal single-character separator only. A line break inside a line, and Unicode beyond `char`, are not modelled.
