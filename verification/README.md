# Property-graph schema inference: clustering, flattening and schema helpers, in Dafny

This project models the core of a property-graph schema inference tool.
The tool reads a graph's nodes as *signatures*: a string of sorted labels followed by sorted property keys, separated by spaces.
It groups signatures into *basic types* by label set.
It then bisects each basic type recursively into a binary cluster tree, splitting on a mixture model over Dice similarities to a reference signature.
Finally it flattens the trees into a supertype/subtype table (`data.csv`).
In that table, tokens present in every member are written plainly and tokens present in only some members carry a `?` mark.

The labels-oriented pipeline contributes the rest of the model:

- supertype discovery from pairwise label-set intersections, and the `SubtypeOf` edges between comparable label sets;
- edge cardinality strings built from instance counts;
- the decoder of the MapReduce schema tree (`__Kind` / `__Content` / `__Optional`);
- the two schema merge procedures;
- the Rand index used to compare clusterings;
- the aggregation of query rows into signatures.

Modules:

| module | what it holds |
|---|---|
| `Wrappers`, `Seqs`, `Orders`, `Sorting`, `Strs`, `StrSets`, `Tally` | Python building blocks: `Option`/`Result`, filters and `list.index`, string and list `<`, `sorted`, `itertools.groupby`, `str.split`/`join`/`lstrip`, sets of strings as ascending lists, and a first-appearance counter |
| `Json` | Python dicts (insertion-ordered lists of distinct keys) with `d[k]`, `d[k] = v`, `update`, `setdefault`, truthiness, `str`/`repr` |
| `Similarity` | `dice_coefficient` |
| `Reference` | `to_format`, `count_labs_props`, `max_labs_props`, `compute_similarities` |
| `Clustering` | `iter_gmm`, `rec_clustering`, with the mixture model as an oracle parameter |
| `Storing` | `storing`, `rec_storing` |
| `FormatUtils` | `label_format` |
| `Hierarchies` | `list_intersections`, `crt_inheritance_edge`, the computation in `infer_node_hierarchies` |
| `Cardinality` | `get_edges_card` |
| `MapReduce` | the `equiv` check, `find_data_type`, `merge_schema_infos`, `merge_unlabeled_nodes` |
| `RandIndex` | `adjusted_random_index` |
| `Preprocessing` | the signature aggregation loop of `preprocessing` |

Modelling conventions:

- A Python set of strings is a strictly ascending list (`StrSets.IsCanon`). Every set operation the source uses (`&`, `-`, `issubset`, `==`, `set(list)`) is stated on such lists.
- Where the source depends on set iteration order (`list(some_set)`), the model iterates in ascending order.
- Python dicts keep insertion order and hold each key once. A `KeyError`, `IndexError` or `TypeError` the source can raise becomes an `Err` or `None` result.
- Integers are unbounded, as in Python. Floats are `real`.
- The mixture model `BayesianGaussianMixture(...).fit(v).predict(v)` becomes a parameter `split: seq<real> -> seq<bool>`. Its only assumption is that it returns one component per value (`Clustering.SameLength`).
- `all_clusters` is an explicit list threaded through the recursion.
- `rec_clustering` does not recurse on its structure. It terminates because each recursive call first records a new subset of the finite set of signatures. The `decreases` clause counts the subsets not yet recorded.
- Three details of the source shape the model:
  - `iter_gmm` selects a node for a non-empty label set when the node carries *every* label of the set, so nodes with extra labels are accepted (`GMM_clustering.py:251-258`).
  - The recursion keeps passing the original `amount_dict` down (`GMM_clustering.py:343`, `:358`). It is not replaced by counts of one.
  - A tree root holds the label set itself, not the member signatures (`GMM_clustering.py:267`).

## Model

| member | source | states |
|---|---|---|
| Similarity.Bigrams | GMM_clustering.py:384-385 | one bigram per adjacent pair of characters; none for a string shorter than two |
| Similarity.MatchCount | GMM_clustering.py:394-407 | the merge scan never counts more matches than either list has entries |
| Similarity.MatchCountIsIntersection | GMM_clustering.py:394-407 | on two sorted lists the merge scan counts exactly the common elements, with multiplicity (the size of the multiset intersection) |
| Similarity.SortedBigrams | GMM_clustering.py:387-389 | the sorted bigram list is an ascending permutation of the bigrams |
| Similarity.Matches | GMM_clustering.py:384-407 | the number of matches is the size of the multiset intersection of the two bigram bags, at most each bag's size |
| Similarity.BigramScore | GMM_clustering.py:391-410 | `2*matches/(lena+lenb)` equals twice the shared bigram count over the total bigram count, and lies in [0, 1] |
| Similarity.Dice | GMM_clustering.py:363-412 | 1.0 for equal strings; 0.0 for different strings when either has one character; always within [0, 1] |
| Similarity.DiceSymmetric | GMM_clustering.py:363-412 | the coefficient does not depend on the order of its arguments |
| Reference.ToFormat | GMM_clustering.py:11-40 | the list has one value per instance (the sum of the amounts), and the block of each signature, in list order, is its similarity repeated `amount` times |
| Reference.BlockAppend | GMM_clustering.py:34-38 | appending one signature's instances leaves the blocks of the earlier signatures unchanged, and the new block is the appended part |
| Reference.NodeStream | GMM_clustering.py:78-82 | the words visited by the counting loop are exactly the space-separated tokens of the listed signatures |
| Tally.CountWhere | GMM_clustering.py:82-105 | the counted keys are the kept tokens in order of first appearance, each once, and each count is the summed weight of all occurrences of that token |
| Tally.Bump | GMM_clustering.py:88-95 | a known token gets the weight added to its count at its first index; a new token is appended with the weight as its count; earlier keys keep their place and every other count is unchanged |
| Reference.CountLabsProps | GMM_clustering.py:42-107 | `labs` are the tokens in `distinct_labels`, `props` the others; both lists are duplicate-free in first-discovery order; each count is the sum of `amount_dict[node]` over every occurrence of the token |
| Reference.LabelsAndPropertiesPartition | GMM_clustering.py:84-105 | every token of every signature is counted either as a label or as a property, never both, according to membership in `distinct_labels` |
| Reference.Max | GMM_clustering.py:139 | `max(values)` is one of the values and no value exceeds it |
| Reference.ArgMax | GMM_clustering.py:148 | `values.index(max(values))` is a maximal position with every earlier value strictly smaller, i.e. the first maximum |
| Reference.RemoveFirst | GMM_clustering.py:154-155 | `list.remove(x)` drops exactly the first occurrence of `x` |
| Reference.FreqLabel | GMM_clustering.py:137-141 | `""` when there are no labels; otherwise a label of maximal count that is the first in discovery order with that count |
| Reference.TopProps | GMM_clustering.py:144-157 | selects `min(n, #props)` pairwise-distinct properties (none for `n <= 0`); each selected property's count is at least that of every property not selected before it |
| Reference.ReferenceSplits | GMM_clustering.py:159 | `lab + " " + " ".join(sel)` splits on spaces into the label followed by the chosen properties, with one empty piece when none was chosen |
| Reference.MaxLabsProps | GMM_clustering.py:109-160 | the reference splits on spaces into the most frequent label followed by the top properties; the separating space is always there, even when either part is empty |
| Reference.ComputeSimilarities | GMM_clustering.py:162-192 | one entry per listed signature, holding its Dice coefficient with the reference, within [0, 1]; a signature equal to the reference gets 1.0 |
| Clustering.Select | GMM_clustering.py:228-264 | a signature is selected exactly when it carries no known label (empty label set) or carries every label of the set (extra labels allowed); list order is kept, and so is duplicate-freedom |
| Clustering.Route | GMM_clustering.py:321-329 | the copies of a signature sent to one side are present exactly when one of its predictions names that side |
| Clustering.RouteSplits | GMM_clustering.py:327-329 | each instance's prediction sends it to exactly one side |
| Clustering.Assign | GMM_clustering.py:315-329 | the predictions are consumed one per instance in list order; a signature is in a candidate cluster exactly when one of its own instances was predicted there |
| Clustering.AssignCovers | GMM_clustering.py:315-329 | every signature with at least one instance lands in one candidate cluster or the other, possibly both |
| Clustering.Measures | GMM_clustering.py:296-303 | one value per instance: the Dice coefficient of the signature with the reference built by `max_labs_props(..., 1, ...)` |
| Clustering.RecordNew | GMM_clustering.py:335-337 | appending a set not yet in `all_clusters` keeps it duplicate-free and only extends it |
| Clustering.MeasureDrops | GMM_clustering.py:334-343 | recording a new subset strictly shrinks the set of subsets of the signatures not yet recorded, so the recursion terminates |
| Clustering.MeasureMono | GMM_clustering.py:343-358 | clusters recorded by the first child never enlarge the unrecorded remainder that bounds the second |
| Clustering.Explore | GMM_clustering.py:331-359 | a candidate is explored exactly when it is non-empty and not yet in `all_clusters`; it is then appended before its own sub-clusters; `all_clusters` only grows by append and stays duplicate-free; every child is a non-empty subset of the current nodes; an explored child is itself bisected (`Bisected`) over its own signatures with the same `amount_dict`, against `all_clusters` with its own set appended |
| Clustering.RecClustering | GMM_clustering.py:271-361 | the tree's root is the given set; `all_clusters` grows by exactly the tree's sub-cluster sets in recursion order and stays duplicate-free; children are non-empty subsets of the current nodes; with at most one instance there are no children and the oracle is not used; otherwise the left child exists exactly when the oracle's first candidate cluster is non-empty and not yet recorded, and holds that cluster's set, and the right child likewise for the second candidate, checked against the clusters recorded including the left child's; recursively, every child is in turn bisected by the oracle over its own signatures with the original `amount_dict`, against the clusters recorded by the time it is explored (`Bisected`) |
| Clustering.ExploredSplit | GMM_clustering.py:315-359 | exploring the two candidate clusters in turn, each listed in ascending order, keeps a child exactly when its candidate is non-empty and its set is not yet recorded, the second candidate checked against the clusters recorded while exploring the first |
| Clustering.TreeOfLabelSet | GMM_clustering.py:229-267 | the tree of one label set is rooted at the set itself and its children lie within the nodes selected for it; it is the recursive bisection (`Bisected`) of exactly the selected nodes, against the clusters the earlier label sets recorded |
| Clustering.IterGmm | GMM_clustering.py:194-269 | exactly one tree per label set, in order, each rooted at its label set with children among its selected nodes; the shared `all_clusters` is the trees' sub-cluster sets in order and has no duplicate; each tree is the recursive bisection (`Bisected`) of its label set's selected nodes, against the clusters recorded by the trees before it |
| Storing.Tokens | storing.py:115-140 | a node's labels (or properties) are exactly its space-separated tokens that are (or are not) in `distinct_labels` |
| Storing.AllOf | storing.py:107-140 | `all_labels` / `all_properties` are the tokens of the kind found in some member, as an ascending set |
| Storing.AlwaysOf | storing.py:109-143 | `always_labels` / `always_properties` are the tokens of the kind found in every member, and empty for a cluster without members |
| Storing.AlwaysWithinAll | storing.py:142-147 | what every member has is within what some member has |
| Storing.MemberOrderIrrelevant | storing.py:115-143 | both token sets depend only on which members the cluster has, not on which comes first |
| Storing.QuestionedJoin | storing.py:151 | `"?" + ":?".join(o)` is the `:`-join of the tokens each prefixed with `?` |
| Storing.RenderSplits | storing.py:150-158 | split on `:`, the rendered cell gives the sorted always tokens (one empty piece if none) followed by the sorted optional tokens, each marked with `?` |
| Storing.DescribeSplits | storing.py:145-158 | the optional tokens are those of some member but not of every member, and the cell reads back as always tokens then marked optional tokens |
| Storing.Cells | storing.py:163-179 | a written line has one cell per header column |
| Storing.CellsRoundTrip | storing.py:163-179 | every written line reads back as the id, labels, properties, parent id, type number and base flag it was written from |
| Storing.Emit | storing.py:160-193 | a line is written exactly when its key `labels+properties` is not yet known; a skipped node writes nothing, visits no children and leaves the id, the type counter and the key list unchanged; otherwise the line comes first, followed by exactly the lines `Children` writes for the node's children under that line, with the line's key already recorded |
| Storing.RecStoring | storing.py:84-195 | lines get consecutive ids from `i` and type numbers from `k`; each line's parent is the given parent or an earlier line of the same call; the returned id and type counter advance by the number of lines written; the key list grows by exactly their keys and stays duplicate-free; the first line written is the node's own, under the given parent |
| Storing.Children | storing.py:189-193 | exactly the left child's lines followed by the right child's, the ids, type counter and key list threaded from the first call to the second, all under the same parent |
| Storing.Child | storing.py:189-193 | an absent child writes nothing and leaves the id, type counter and key list as they were; a present one writes nothing exactly when its key is already known, and otherwise its own line comes first, under the given parent |
| Storing.ChildIs | storing.py:189-193 | a present child is stored by exactly one `rec_storing` call with the same id, parent, key list and type counter |
| Storing.BaseNames | storing.py:49-52 | each base line's labels cell is the basic type's label set joined by `:` |
| Storing.RecStoringListsTree | storing.py:160-193 | when no sub-cluster key repeats or is already known, `rec_storing` writes one line for the node and one for every sub-cluster below it, depth first with the left child before the right, each under its parent cluster's line, with consecutive ids and type numbers; the key list grows by all their keys in that order |
| Storing.StoreAppendsType | storing.py:43-79 | each basic type adds its base line, then exactly the lines `rec_storing` writes for its two children under that base line, against the keys of all earlier basic types |
| Storing.StoreBasicsStored | storing.py:43-79 | every prefix of the file, one basic type at a time, keeps the invariant described under `Storing.Store` |
| Storing.StoreStep | storing.py:43-79 | adding one basic type (base line, then its sub-cluster lines) keeps the file invariant: numbering from 1, base lines in order, type counters, parents and distinct keys |
| Storing.Store | storing.py:30-81 | ids run 1, 2, 3, … over the whole file; each basic type gets a base line with no properties, no parent and type `T1`; the type counter restarts at `T2` after every base line and counts up; a sub-cluster line's parent is an earlier line of its basic type; sub-cluster keys are distinct and shared across basic types |
| Storing.StoreAddsType | storing.py:43-79 | the file for a list of basic types is the file for all but the last, followed by the last type's base line (its label set joined by `:`) and exactly the lines `rec_storing` writes for its two children under that base line |
| Storing.StoreListsTypes | storing.py:30-81 | when no two sub-clusters anywhere show the same labels and properties, the file is exactly, per basic type, its base line followed by one line per sub-cluster, depth first, each under its parent cluster's line and typed from `T2`; the recorded keys are all sub-cluster keys in file order |
| Storing.ListsStep | storing.py:43-79 | when a basic type's sub-cluster keys are all new, the file after it is the earlier file, then its base line, then one line per sub-cluster depth first under its parent's line, and the recorded keys grow by exactly those keys |
| Storing.Csv | storing.py:38-79 | the file is the header followed by one row per line |
| Storing.CsvReadsBack | storing.py:38-79 | every row after the header reads back as the line it was written from |
| FormatUtils.LabelFormat | format_utils.py:21-24 | the empty collection gives `""` and a single label gives itself |
| FormatUtils.LabelFormatPermutation | format_utils.py:22 | any reordering of the same labels gives the same key |
| FormatUtils.LabelFormatSplit | format_utils.py:21-22 | for labels without `:`, splitting the key on `:` gives the labels back, ascending |
| Sorting.Sort | format_utils.py:22 | `sorted` returns a permutation of its argument |
| Sorting.SortSorted | format_utils.py:22 | `sorted` returns an ascending list |
| Sorting.SortDependsOnlyOnMultiset | format_utils.py:22 | `sorted` depends only on the multiset of its argument |
| Sorting.DedupAdjacent | labelsOriented/find_hierarchies_labels.py:63 | the `groupby` keys hold exactly the elements of the list, no more entries than it, starting with its first |
| Sorting.DedupAdjacentStrict | labelsOriented/find_hierarchies_labels.py:61-63 | grouping a sorted list leaves it strictly ascending |
| StrSets.Inter | labelsOriented/find_hierarchies_labels.py:50 | `x & y` holds exactly the common elements, as an ascending set |
| StrSets.Diff | storing.py:146-147 | `a - b` holds exactly the elements of `a` not in `b`, as an ascending set |
| Hierarchies.PairInter | labelsOriented/find_hierarchies_labels.py:47-50 | `tab[i] & tab[j]` holds exactly the labels in both sets |
| Hierarchies.RowInters | labelsOriented/find_hierarchies_labels.py:48-55 | the inner loop appends exactly the qualifying intersections of row `i` with each later set |
| Hierarchies.Inters | labelsOriented/find_hierarchies_labels.py:46-55 | the double loop appends exactly the intersections `tab[i] & tab[j]`, `i < j`, that are non-empty and differ from `tab[i]` |
| Hierarchies.SortDedup | labelsOriented/find_hierarchies_labels.py:57-63 | sort-then-groupby keeps the same sets, each once, strictly ascending |
| Hierarchies.IntersCanon | labelsOriented/find_hierarchies_labels.py:51 | every kept intersection is a non-empty set |
| Hierarchies.ListIntersections | labelsOriented/find_hierarchies_labels.py:24-65 | a set is returned exactly when it is a qualifying pairwise intersection (both directions); the result is strictly ascending, duplicate-free, and every entry is non-empty |
| Hierarchies.EdgeKeyOf | labelsOriented/find_hierarchies_labels.py:456-477 | there is an edge exactly when one set strictly contains the other; its key is `larger::SubtypeOf::smaller` |
| Hierarchies.InheritanceEdge | labelsOriented/find_hierarchies_labels.py:456-477 | equal or incomparable sets add nothing; otherwise exactly the edge key is set to an empty dict, added last if new, and no other entry changes |
| Hierarchies.InheritanceEdgeSymmetric | labelsOriented/find_hierarchies_labels.py:456-477 | the order of the two sets does not matter |
| Hierarchies.LabelSet | labelsOriented/find_hierarchies_labels.py:507-508 | a node key's label set holds exactly the pieces of the key, stripped of leading `:`, split on `:` |
| Hierarchies.LabelSets | labelsOriented/find_hierarchies_labels.py:523-524 | one label set per node entry, in key order |
| Json.SetDefault | labelsOriented/find_hierarchies_labels.py:519 | a new key is added last with the default; an existing key and all other entries are left alone |
| Hierarchies.AddSupertypes | labelsOriented/find_hierarchies_labels.py:515-519 | existing node entries keep their place and value; each supertype's key is added after them with an empty dict, and nothing else is added |
| Hierarchies.SupertypeNodes | labelsOriented/find_hierarchies_labels.py:503-519 | the node entries after supertype discovery: the old ones unchanged, plus an empty entry for every supertype key, and no other key |
| Hierarchies.InferNodeHierarchies | labelsOriented/find_hierarchies_labels.py:503-534 | the nodes keep their entries in place and gain an empty entry for each supertype and nothing else; every comparable pair of the new node list's label sets gets its `SubtypeOf` edge as an empty dict, and every edge entry no pair produces is untouched |
| Hierarchies.RowPairs | labelsOriented/find_hierarchies_labels.py:530-531 | the inner loop visits each `j` from its start to the end once, for the fixed `i` |
| Hierarchies.PairsExactlyOnce | labelsOriented/find_hierarchies_labels.py:527-534 | the nested loops visit every index pair `i < j` exactly once |
| Hierarchies.EdgesFor | labelsOriented/find_hierarchies_labels.py:527-534 | after the visited pairs, every key produced by some pair holds an empty dict and every other entry is unchanged |
| Hierarchies.InferEdges | labelsOriented/find_hierarchies_labels.py:527-534 | over all pairs `i < j`: every comparable pair's edge key is present with an empty dict, and any key no pair produces is untouched |
| Hierarchies.HierarchyEdges | labelsOriented/find_hierarchies_labels.py:521-534 | over the node entries including the supertypes, exactly the comparable pairs' edge keys are set and every other edge entry is left alone |
| Cardinality.Locate | labelsOriented/preprocessing_labels.py:483-487 | the first node type whose label list equals the given one, or none when no node type matches (the source's `IndexError`) |
| Cardinality.ShapeFacts | labelsOriented/preprocessing_labels.py:520-570 | exactly one case applies, tested in the source's order; swapping source and target counts swaps many-to-one and one-to-many |
| Cardinality.BoundRoundTrip | labelsOriented/preprocessing_labels.py:523-570 | each of `1`, `0..1`, `1..*`, `0..*` reads back as the multiplicity it renders |
| Cardinality.CardinalityRoundTrip | labelsOriented/preprocessing_labels.py:523-570 | a `"<source> : <target>"` string reads back as its two multiplicities, so distinct cases give distinct strings |
| Cardinality.CardStringReadsBack | labelsOriented/preprocessing_labels.py:516-570 | the source end is "many" in the many-to-one and many-to-many cases and the target end in the one-to-many and many-to-many cases; each end is mandatory as given |
| Cardinality.EdgeEntry | labelsOriented/preprocessing_labels.py:473-570 | the entry has keys `meta_mandatory`, `meta_cardinality`; `meta_mandatory` is false iff `nbSource < nbn` or `nbTarget < nbm`; the cardinality's source end is mandatory iff `nbSource >= nbn` and its target end iff `nbTarget >= nbm` |
| Cardinality.MandatoryBothEnds | labelsOriented/preprocessing_labels.py:495-514 | the edge type is mandatory exactly when both of its ends are |
| Cardinality.EdgesCard | labelsOriented/preprocessing_labels.py:432-574 | fails exactly when an end node type is missing; otherwise one entry per key `label_format(n)::e::label_format(m)`, each key once, holding the entry of the last edge type with that key |
| Json.Assign | labelsOriented/preprocessing_labels.py:572 | repeated `d[k] = v` from an empty dict: each key once, holding the value of its last assignment |
| MapReduce.CheckEquiv | mapreduce_labels.py:42-45 | accepted exactly when `equiv` is `"k"` or `"l"` |
| MapReduce.FindDataType | mapreduce_labels.py:59-159 | a false value decodes to `'Null'`; a missing `__Kind` is an error; a kind other than array, record or union decodes to itself; for an array, record or union a missing `__Content` is an error; an array decodes as its content does (`DecodeArray`), a one-element list; a record whose content is a dict decodes field by field (`DecodeRecord`) to a dict with exactly the content's keys, and fails otherwise; a union fails when a member fails and otherwise gives its members' strings joined by `" + "` |
| MapReduce.DecodeArray | mapreduce_labels.py:84-90 | a one-element list: for a record or union content, the content as `find_data_type` decodes it, failing when that fails; otherwise the content's kind |
| MapReduce.DecodeRecord | mapreduce_labels.py:92-145 | a dict with exactly the content's keys, plus `meta_mandatory` when the content is an optional record inside a record-typed field (line 116), where it decodes to false; it succeeds exactly when every field decodes, and each key then holds what its last field decodes to (`FieldValue`: marked optional strings and lists get `" ?"`) |
| MapReduce.DecodeValues | mapreduce_labels.py:94-145 | the value each field receives, in order; an error exactly when some field fails |
| MapReduce.DecodeFields | mapreduce_labels.py:94-145 | fails exactly when some field fails; otherwise the dict has exactly the keys of the fields seen, each once, each holding the value of its last field (the decoded field, or false for a `meta_mandatory` entry written in place) |
| MapReduce.FieldsAssigned | mapreduce_labels.py:94-145 | assigning the field values in order leaves under each key the value of its last field, and false under `meta_mandatory` when it is written in place |
| MapReduce.DecodeField | mapreduce_labels.py:95-143 | a mandatory field is decoded as is; an optional field's string gets `" ?"`, its list becomes `[str(first) + " ?"]`, anything else is kept; errors propagate |
| MapReduce.MarkOptional | mapreduce_labels.py:131-139 | fails only on an empty list, where `propType[0]` raises |
| MapReduce.DecodeBody | mapreduce_labels.py:104-129 | by kind: an array is decoded as a whole value; a basic kind is itself; a missing kind, or a record or union without `__Content`, is an error; a record's dict content is decoded field by field with its fields marked (any other content fails), and when `meta_mandatory` is added it is false; a union fails when a member fails and otherwise gives its members' strings joined by `" + "` |
| MapReduce.DecodeUnion | mapreduce_labels.py:147-153 | one string per member, in order, each the string form of its decoding; fails exactly when some member fails |
| MapReduce.DecodeItems | mapreduce_labels.py:148-150 | the first `n` members decoded in order; fails exactly when one of them fails |
| MapReduce.StringElems | mapreduce_labels.py:149-150 | iterating a dict or a string yields strings, which decode to `'Null'` when empty and fail otherwise |
| MapReduce.StringElemDecodes | mapreduce_labels.py:76-82 | a string decodes without error exactly when it is empty, and then to `'Null'` |
| MapReduce.MetaMarkDecodes | mapreduce_labels.py:116 | the mark `{'__Kind': False}` decodes to `False` |
| Json.Update | mapreduce_labels.py:253 | `d.update(e)`: the keys of either; entries of `e` win; other entries of `d` are kept |
| MapReduce.MergeEdges | mapreduce_labels.py:256-257 | succeeds exactly when every schema edge key has a dict in `edgesCard`; keys are unchanged, each schema edge's entry gains its properties, others are untouched |
| MapReduce.MergeSchemaInfos | mapreduce_labels.py:232-258 | the nodes gain the no-property node types; the edges become `edgesCard` with each schema edge's properties merged into its entry; fails exactly when a schema edge key is missing from `edgesCard` |
| Json.Set | mapreduce_labels.py:284-285 | `d[k] = v`: an existing key keeps its place, a new one goes last, and no other entry changes |
| MapReduce.AddVoidLabels | mapreduce_labels.py:282-284 | each label of the key becomes a `"Void"` entry and other entries are kept |
| MapReduce.LabelNode | mapreduce_labels.py:281-287 | a labelled node type gets its labels as `"Void"` and its number as `meta_id`, other entries kept |
| MapReduce.NumberNode | mapreduce_labels.py:289-291 | an unlabelled node type gets its number as `meta_id`, other entries kept |
| MapReduce.Labelled | mapreduce_labels.py:280-287 | the labelled node types, numbered from 0 in order |
| MapReduce.Unlabelled | mapreduce_labels.py:289-291 | the unlabelled node types, numbered on from the labelled ones |
| MapReduce.MergeUnlabeledNodes | mapreduce_labels.py:261-293 | labelled node types first, then unlabelled ones; `meta_id` runs 0, 1, 2, …; labels become `"Void"` keys; every other entry is kept; fails exactly when a node type is not a dict |
| MapReduce.MetaIdIsPosition | mapreduce_labels.py:277-293 | every merged node type carries its own position as `meta_id` |
| RandIndex.SameBlock | rand_index.py:43-51 | the scan finds exactly whether some block holds both elements |
| RandIndex.PairCounts | rand_index.py:26-63 | the loops count, among the pairs of distinct elements, those together in both partitions (`a`), in neither (`b`), only in `X` (`c`) and only in `Y` (`d`) |
| RandIndex.RowTotal | rand_index.py:53-60 | each pair falls in exactly one of the four kinds |
| RandIndex.PairTotal | rand_index.py:35-63 | every unordered pair is counted exactly once: `2(a+b+c+d) = n(n-1)` |
| RandIndex.Rand | rand_index.py:65-66 | undefined (division by zero) exactly when `S` has fewer than two elements; otherwise within [0, 1] |
| RandIndex.AdjustedRandIndex | rand_index.py:3-67 | the procedure returns `(a+b)/(a+b+c+d)` over the pair counts |
| RandIndex.RandSymmetric | rand_index.py:53-66 | swapping the partitions swaps `c` and `d` and leaves the index unchanged |
| RandIndex.RandOfAgreeingPartitions | rand_index.py:53-66 | partitions that put the same pairs together have index 1 |
| Preprocessing.SignatureSplits | preprocessing_step.py:78-84 | a signature splits on spaces into the sorted labels followed by the sorted property keys |
| Preprocessing.SignatureOrderIrrelevant | preprocessing_step.py:78-84 | the signature does not depend on the order of the labels or keys |
| Preprocessing.Aggregate | preprocessing_step.py:71-89 | the signature list is duplicate-free in first-appearance order and holds exactly the rows' signatures; the dict has the same keys, each mapped to the sum of `COUNT(n)` over the rows with that signature |
| Preprocessing.SignaturesListed | preprocessing_step.py:85-89 | every row's signature is listed, and every listed signature comes from a row |
| Preprocessing.WeightIsRowSum | preprocessing_step.py:85-89 | a signature's accumulated amount is the sum of the counts of the rows producing it |
| Preprocessing.CountsAreRowSums | preprocessing_step.py:85-89 | every accumulated amount equals the row sum for its signature |

## Left out

- The mixture model fit and predict (`GMM_clustering.py:309-312`) is an oracle parameter. The model assumes only that it yields one component per value. Which split it picks is not modelled.
- Similarity values are `real` rather than floats, so rounding in `float(2*matches)/float(lena+lenb)` and in the Rand index is not modelled.
- Neo4j access, the CSV and JSON file writes, the `spark-submit` call and the file reads in the MapReduce wrapper are left out as I/O.
  - `data.csv` is modelled as its sequence of rows (`Storing.Csv`).
  - `infer_node_hierarchies` is modelled up to the computed nodes and edges (`Hierarchies.InferNodeHierarchies`), without the output file.
  - The query results of `preprocessing` are an input list of rows.
- Python set iteration order is not modelled. Wherever the source turns a set into a list, the model takes ascending order: the base line's labels (`storing.py:49`), `list(set_cluster)` in `rec_clustering`, and `list(map(list, inters))` before sorting.
- `Json.Repr` simplifies `repr`: strings are always single-quoted and never escaped. It only affects the `str(...)` of a decoded value inside a union or an optional list.
- Python dicts are modelled with distinct keys. `MapReduce.MergeSchemaInfos` therefore requires the schema's edge keys to be distinct, as any dict's keys are.
- `MapReduce.FindDataType` and the merges model the `TypeError`, `KeyError` and `AttributeError` paths as `Err`. They do not model how Python would behave on values of other types that happen to support the same operations.
- `RandIndex.PairCounts`, `RandIndex.AdjustedRandIndex`: `S` is required to be duplicate-free, as the set it stands for is. The source skips equal elements and already-counted pairs, which on a duplicate-free `S` is exactly the pairs `i < j`.
- Storing keys concatenate `labels + properties` without a separator, as the source does. The model keeps this as written; two different clusters can share a key.
- Storing.RecStoringListsTree, Storing.StoreListsTypes: the flat depth-first listing is proved only when no two sub-clusters show the same cells. In general a repeated key cuts off that node and everything below it, which `Storing.Emit` and `Storing.Children` state step by step.
- `merge_data_types`, `get_list_content`, `get_dict_content`, `prop_intersections` and `supertype_prop` are left out. They do string-encoded type merging through `ast.literal_eval`/`json.dumps` and have no contract worth stating.
- Also left out:
  - `convert_to_num`;
  - `mutual_information.py`, `sampling.py`, `f_score.py` and `hdbscan_indexes.py`;
  - the orchestration scripts (`cluster_script.py`, `SchemI_labels_oriented.py`, `example.py`, `infer.py`);
  - the Neo4j conversion helpers (`pg_to_json`, `Neo4jNode_to_json`, `Neo4jEdge_to_json`).

  Each is floating point, randomness, external libraries or I/O.
- The `parse_mapreduce_*` readers and `merge_nodes_edges` read the MapReduce output files and are left out with that I/O.
