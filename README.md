# calibre tag browser and preference editors, modelled in Dafny

This project models the core of calibre's tag browser, the tree of categories and values beside the book list from which searches are built. It also models several smaller list, set and map editors from the preferences, the device drivers and the delete and auto-add actions.

The tag browser (`src/calibre/gui2/tag_browser/model.py`) is modelled in these files:

- `tag_data.dfy`: the tree as an arena of nodes. The root is node 0, each node lists its children by index, and the Tag records sit in a second arena because the source shares one Tag between several nodes. It also holds the read-only parts of `TagTreeItem`: the search-state transition loop, `item_count` as the size of a union of id sets over a subtree, `average_rating` with its ValueError, and `all_children` and `child_tags`.
- `tag_tree.dfy`: class `TagsModel`, holding the nodes, the Tags, `category_nodes` and `intermediate_nodes`. It covers node creation, `toggle`, the cached item count, `rebuild_node_tree` and its guard, the category pass that builds the user-category hierarchy, `process_one_node` (partition buckets, first-letter buckets and hierarchical value levels), and `rename_item`.
- `name_components.dfy`: `get_name_components`.
- `partition.dfy`: the rule that says where a partition bucket starts.
- `first_letter.dfy`: the first-letter interval merge and its labels.
- `tag_prune.dfy`: the removal of empty user categories and the filtering and ordering of the top level.
- `tag_paths.dfy`: `path_for_index` and `index_for_path`.
- `tag_tokens.dfy`: `tokens`, which turns marked nodes into search clauses.
- `user_categories.dfy`: the user-category editors and `process_source_node` (copy or move on a drop).
- `category_rename.dfy`: the user-category rename in `setData`.

The smaller cores are one file each:

- `toolbar.dfy` (`src/calibre/gui2/preferences/toolbar.py`): the available and current action lists, wrap-around moves, guarded add and remove, and commit.
- `metadata_sources.dfy` (`src/calibre/gui2/preferences/metadata_sources.py`): the source and field tables with their override maps.
- `mtp_driver.dfy` (`src/calibre/devices/mtp/driver.py`): which folders are ignored, `get_pref`, the Kindle-app send-to order, and the book-list reconciliation in `books()`.
- `single_download.dfy` (`src/calibre/gui2/metadata/single_download.py`): `CoversModel`'s cover list and per-plugin row tables, and the "please wait" dots.
- `kobo_books.dfy` (`src/calibre/devices/kobo/books.py`): `get_collections`, `is_debugging_title` and the book kinds.
- `delete.dfy` (`src/calibre/gui2/actions/delete.py`): "delete all but", `MultiDeleter` and the next-row arithmetic.
- `auto_add.dfy` (`src/calibre/gui2/auto_add.py`): the allowed formats and filename admission.

`common.dfy` and `sorting.dfy` hold Python's string operations and `sorted`, which the other modules share.

The style follows the source:

- Objects whose fields the source updates in place are classes with `modifies` frames. Each method's `ensures` ties the new state to a specification function, and lemmas prove what the source promises about those functions.
- Pure helpers are functions.
- Errors the source raises or reports are outcomes in the result type, not preconditions.

## Model

| member | source | states |
|---|---|---|
| NameComponents.GetNameComponents | src/calibre/gui2/tag_browser/model.py:709-713 | a name always has at least one hierarchy level; padding is judged by Python's `str.strip()` whitespace set |
| NameComponents.GetNameComponentsSpec | src/calibre/gui2/tag_browser/model.py:709-713 | the levels are exactly the dot-separated segments when every segment is non-empty and unpadded, otherwise the whole name is the single level; either way joining the levels with dots gives back the name |
| NameComponents.StrippedNonEmptyProps | src/calibre/gui2/tag_browser/model.py:710 | the stripped, non-empty segments kept by the comprehension are non-empty and unpadded, and dot-free when the split segments were |
| NameComponents.CleanIsFixed | src/calibre/gui2/tag_browser/model.py:710-711 | segments that are already non-empty and unpadded pass through the strip-and-filter unchanged |
| NameComponents.ComponentsCases | src/calibre/gui2/tag_browser/model.py:710-712 | the fallback to the whole name happens exactly when some segment is empty or padded |
| NameComponents.FirstComponents | src/calibre/gui2/tag_browser/model.py:836-843 | lists, position by position, the first hierarchy level of each value name |
| NameComponents.FirstComponentsOk | src/calibre/gui2/tag_browser/model.py:836-843 | the list of first levels satisfies the recursive per-position characterisation used by the partition pass |
| NameComponents.FirstsAt | src/calibre/gui2/tag_browser/model.py:836-843 | from that characterisation, entry i is the first level of name i |
| Partition.Breaks | src/calibre/gui2/tag_browser/model.py:813-870 | every bucket start is the position of one of the category's values |
| Partition.BreaksSpaced | src/calibre/gui2/tag_browser/model.py:815-870 | bucket starts are increasing and at least `collapse` values apart, and `last_idx` is the latest start, or `-collapse` before the first one |
| Partition.FirstValueBreaks | src/calibre/gui2/tag_browser/model.py:813-829 | with `top_level_component` seeded as 'z' followed by the first name, the first value always opens a bucket |
| Partition.BreaksPrefix | src/calibre/gui2/tag_browser/model.py:817-870 | the bucket starts decided over a prefix of the values are a prefix of those over all values (decisions never look ahead) |
| Partition.BreaksAfter | src/calibre/gui2/tag_browser/model.py:817-870 | bucket starts after a prefix's starts lie beyond that prefix |
| Partition.NoBreakInsidePrefix | src/calibre/gui2/tag_browser/model.py:824-829 | a value whose name continues the first level of the hierarchical value just before it never opens a bucket, so a hierarchy is not split across buckets |
| Partition.BreaksSnoc | src/calibre/gui2/tag_browser/model.py:817-870 | one more value moves the cursor by one step and adds its position to the starts exactly when that step opens a bucket |
| FirstLetter.Label | src/calibre/gui2/tag_browser/model.py:805-810 | an interval whose first and last letters agree is labelled by that letter, any other by "first - last" |
| FirstLetter.ExpandLabels | src/calibre/gui2/tag_browser/model.py:803-812 | the per-value labels of a list of intervals number exactly the values the intervals cover |
| FirstLetter.SumConcat | src/calibre/gui2/tag_browser/model.py:762-767 | the number of values covered by two lists of intervals together is the sum of their counts |
| FirstLetter.LettersStep | src/calibre/gui2/tag_browser/model.py:752-762 | one more value keeps the letter list correct: the previous letter while the collation ordinal is unchanged, its own first collation element when it changes |
| FirstLetter.RunsStep | src/calibre/gui2/tag_browser/model.py:752-762 | one iteration of the first pass keeps the letters, the last ordinal and letter, and the closed runs consistent with the values seen |
| FirstLetter.RunsCoverStep | src/calibre/gui2/tag_browser/model.py:757-759 | closing a run when the ordinal changes keeps every run non-empty and single-lettered and the closed runs covering exactly the values before the open one |
| FirstLetter.Runs | src/calibre/gui2/tag_browser/model.py:746-764 | every value gets the letter the ordinal rule gives it; without merging there are no runs; with merging the runs are non-empty, single-lettered and together cover every value |
| FirstLetter.FindShort | src/calibre/gui2/tag_browser/model.py:777-779 | finds the first interval shorter than the threshold, or reports that none is |
| FirstLetter.FoldProps | src/calibre/gui2/tag_browser/model.py:788-797 | folding two neighbouring intervals into one removes one interval, keeps the total count of values and keeps the first letter of the first interval and the last letter of the last |
| FirstLetter.MergeAt | src/calibre/gui2/tag_browser/model.py:780-798 | merging a short interval into the previous one (when there is no next one or the previous is strictly shorter) or else into the next removes one interval, keeps the number of values covered and the outer letters |
| FirstLetter.Merge | src/calibre/gui2/tag_browser/model.py:774-798 | the merge loop ends with the same values covered by no more intervals, the outer letters kept, and either a single interval or every interval at least the threshold long |
| FirstLetter.MergeAtAsWritten | src/calibre/gui2/tag_browser/model.py:775-798 | one merge step with the 100000000-long stand-in for a missing neighbour and Python's negative and past-the-end indexing: when it succeeds it removes one interval |
| FirstLetter.MergeAsWrittenLosesValues | src/calibre/gui2/tag_browser/model.py:775-790 | a first interval of one value next to one of 100000001 values is folded into the last interval under an empty first letter, losing a value, where the corrected step keeps every value |
| FirstLetter.MergeAsWrittenIndexError | src/calibre/gui2/tag_browser/model.py:775-797 | a last interval of one value after one of 100000000 values makes the step index past the end of the list |
| FirstLetter.AsWrittenFoldsPrev | src/calibre/gui2/tag_browser/model.py:788-798 | with every interval shorter than the stand-in, updating the previous interval and deleting the current one folds the pair |
| FirstLetter.AsWrittenFoldsNext | src/calibre/gui2/tag_browser/model.py:792-798 | with every interval shorter than the stand-in, updating the next interval and deleting the current one folds the pair |
| FirstLetter.MergeAsWrittenAgrees | src/calibre/gui2/tag_browser/model.py:775-798 | while every interval is shorter than 100000000 values the step as written is exactly the corrected step |
| FirstLetter.Fill | src/calibre/gui2/tag_browser/model.py:806-812 | writing one interval's label leaves the letter list unchanged outside that interval's positions and puts the label at each of them |
| FirstLetter.FillShape | src/calibre/gui2/tag_browser/model.py:806-812 | a list agreeing with the label inside a range and with the old list elsewhere is the old list with the range replaced |
| FirstLetter.ApplyStep | src/calibre/gui2/tag_browser/model.py:804-812 | labelling the values of one more interval extends the labelled prefix by that interval's labels and moves the cursor past it |
| FirstLetter.ApplyLabels | src/calibre/gui2/tag_browser/model.py:803-812 | the correction pass replaces the covered prefix of the letter list by each interval's label repeated over its length and leaves the rest |
| FirstLetter.CollapseLetters | src/calibre/gui2/tag_browser/model.py:743-812 | with at most one interval left each value keeps the letter the ordinal rule gives it; with more, each value carries the label of the interval covering it, the intervals cover every value and each holds at least `tags_browser_collapse_fl_at` values |
| TagData.CategoryTag | src/calibre/gui2/tag_browser/model.py:80-87 | a category node's Tag is searchable unless its key is "search", editable unless its key is one of news, search, identifiers and languages, and starts clear in its own category |
| TagData.ChildrenBelow | src/calibre/gui2/tag_browser/model.py:64-74 | in a well-formed tree every child of a node was created after it |
| TagData.Walk | src/calibre/gui2/tag_browser/model.py:346-354 | the pre-order walk over a list of siblings lists only nodes created after their ancestor |
| TagData.AllChildren | src/calibre/gui2/tag_browser/model.py:346-354 | every node all_children lists was created after the node, so the node itself is never listed |
| TagData.AllChildrenSubtree | src/calibre/gui2/tag_browser/model.py:346-354 | all_children lists every child of the node and every child of a listed node, and each listed node lies below the node by parent links |
| TagData.ChildTagsWalk | src/calibre/gui2/tag_browser/model.py:356-370 | the depth-limited walk lists no category node |
| TagData.ChildTags | src/calibre/gui2/tag_browser/model.py:356-370 | child_tags lists only non-category nodes below the node |
| TagData.UnionOverConcat | src/calibre/gui2/tag_browser/model.py:213-217 | the union of id sets over two lists of nodes is the union of the two unions |
| TagData.UnionOverCons3 | src/calibre/gui2/tag_browser/model.py:213-217 | the union over a node, a list and another list is the node's ids united with both unions |
| TagData.WalkUnfold | src/calibre/gui2/tag_browser/model.py:349-352 | the walk of a sibling list is the first sibling, then its own walk, then the walk of the rest |
| TagData.WalkUnion | src/calibre/gui2/tag_browser/model.py:213-217 | the ids over a walk are the first sibling's ids, those over its subtree's walk and those over the rest's walk |
| TagData.ForestIdsIsUnionOverWalk | src/calibre/gui2/tag_browser/model.py:213-217 | the recursive child_item_set over a sibling list equals the union of id sets over the nodes all_children's walk lists |
| TagData.SubtreeIdsIsUnionOverAllChildren | src/calibre/gui2/tag_browser/model.py:213-218 | the set item_count counts is the node's ids united with the ids of every node all_children() returns |
| TagData.ItemCountSpec | src/calibre/gui2/tag_browser/model.py:209-221 | a non-hierarchical or childless node reports its tag's count; any other reports the number of distinct book ids in its own and all its descendants' id sets |
| TagData.AverageRating | src/calibre/gui2/tag_browser/model.py:195-206 | a non-value node rates 0, a saved search has no rating, and the read raises exactly for a hierarchical value node with children whose rating has not been computed |
| TagData.RatingsReadyNeverRaises | src/calibre/gui2/tag_browser/model.py:203-206 | once every value node with children has its rating computed, reading any node's average rating never raises |
| TagData.Advance | src/calibre/gui2/tag_browser/model.py:322-342 | the state the toggle loop stops on is always one the node may hold: + and - only when searchable, ++ and -- only when searchable, with children and five-state |
| TagData.DefaultGraph | src/calibre/gui2/tag_browser/model.py:327-330 | the shipped search order gives every state a successor |
| TagData.DefaultGraphBehaviour | src/calibre/gui2/tag_browser/model.py:322-342 | under the shipped order the loop stops within five steps, an unsearchable node always returns to clear, and a node that may not hold ++ or -- never lands on them |
| TagData.AdvanceMoreFuel | src/calibre/gui2/tag_browser/model.py:326-342 | once the loop stops within some number of steps, allowing more steps does not change where it stops |
| Common.IndexOf | src/calibre/gui2/tag_browser/model.py:185-188 | `list.index` finds the first position holding the node, here a child among its parent's children; Toolbar and MtpDriver use it for actions and folders |
| TagPaths.Row | src/calibre/gui2/tag_browser/model.py:185-188 | a node's row is a position among its parent's children that holds the node |
| TagPaths.Index | src/calibre/gui2/tag_browser/model.py:1829-1845 | the index for a row below a parent is valid exactly when the row is in range, and then it is that child, whose parent is that node |
| TagPaths.Exact | src/calibre/gui2/tag_browser/model.py:1812-1827 | strictly following a path from a node reaches, when every step exists, a node created no earlier |
| TagPaths.Resolve | src/calibre/gui2/tag_browser/model.py:1812-1827 | the tolerant walk of index_for_path always lands on a node of the tree, attached to it when the start is |
| TagPaths.PathForIndex | src/calibre/gui2/tag_browser/model.py:1804-1810 | the loop that climbs to the root collecting rows and reverses them returns the rows from the top level down to the node |
| TagPaths.IndexForPath | src/calibre/gui2/tag_browser/model.py:1812-1827 | the loop returns the tolerant walk's node: each step descends into the row's child, a missing last row falls back to the row before it, any other missing row stops at the last valid node |
| TagPaths.ExactAppend | src/calibre/gui2/tag_browser/model.py:1812-1827 | following a concatenated path strictly is following the first part, then the second from where it led |
| TagPaths.ResolveAppend | src/calibre/gui2/tag_browser/model.py:1812-1827 | where the strict walk of a prefix succeeds, the tolerant walk of the whole path continues from that node |
| TagPaths.PathIsExact | src/calibre/gui2/tag_browser/model.py:1804-1827 | every step of a node's path exists, and strictly following it from the root reaches the node |
| TagPaths.PathRoundTrip | src/calibre/gui2/tag_browser/model.py:1804-1827 | index_for_path(path_for_index(n)) is n for every node listed among its parent's children |
| TagPaths.LastRowFallsBack | src/calibre/gui2/tag_browser/model.py:1816-1819 | a path whose last row is one past the end of its parent's children resolves to the sibling before it |
| TagPaths.StopsAtDeepestValid | src/calibre/gui2/tag_browser/model.py:1816-1826 | a step that cannot be taken, other than a last row with a row before it, stops the walk at the deepest node reached so far |
| TagPrune.UcChildrenAsWritten | src/calibre/gui2/tag_browser/model.py:972-985 | process_uc_children as written, judging a child category's emptiness before pruning below it, changes children lists only and keeps the number of nodes; the empty node it can leave behind is shown by TagPrune.AsWrittenKeepsEmptyUserCategory |
| TagPrune.AsWrittenKeepsEmptyUserCategory | src/calibre/gui2/tag_browser/model.py:972-985 | as written, '@A' holding only '@A.B', which holds only the empty '@A.B.C', keeps '@A.B' although the pass leaves it empty |
| TagPrune.UcChildren | src/calibre/gui2/tag_browser/model.py:972-985 | the corrected pass, pruning a child category before judging its emptiness, keeps the number of nodes; its effect is stated by TagPrune.UcChildrenFrame and TagPrune.UcChildrenPruned |
| TagPrune.ChildOf | src/calibre/gui2/tag_browser/model.py:190-193 | a listed child was created after its parent and points back at it |
| TagPrune.BelowAtLeast | src/calibre/gui2/tag_browser/model.py:190-193 | every node of a subtree was created no earlier than the subtree's top |
| TagPrune.BelowParent | src/calibre/gui2/tag_browser/model.py:190-193 | the subtree of a child lies inside the subtree of its parent |
| TagPrune.BelowTrimmed | src/calibre/gui2/tag_browser/model.py:984 | reassigning children lists leaves which node lies below which unchanged, since parent links are untouched |
| TagPrune.SiblingsApart | src/calibre/gui2/tag_browser/model.py:190-193 | of two different children of a node neither lies below the other |
| TagPrune.TrimmedTrans | src/calibre/gui2/tag_browser/model.py:984 | dropping children twice is dropping children once |
| TagPrune.DistinctDropFirst | src/calibre/gui2/tag_browser/model.py:974-983 | moving the next child from the unvisited ones to the kept ones keeps every child listed at most once |
| TagPrune.UcChildrenFrame | src/calibre/gui2/tag_browser/model.py:972-985 | the corrected pass keeps the tree well formed, only drops entries from children lists, and changes no node outside the subtree it prunes |
| TagPrune.UcEachFrame | src/calibre/gui2/tag_browser/model.py:974-984 | the loop over a node's children keeps the tree well formed, only drops children, and touches nothing outside the node and the subtrees of the children still to visit |
| TagPrune.BelowBoth | src/calibre/gui2/tag_browser/model.py:190-193 | two subtrees that share a node are nested |
| TagPrune.SiblingSubtreesApart | src/calibre/gui2/tag_browser/model.py:190-193 | the subtrees of two different children of one node share no node |
| TagPrune.PrunedFrame | src/calibre/gui2/tag_browser/model.py:972-985 | whether a subtree holds an empty user category depends on that subtree alone |
| TagPrune.UcChildrenPruned | src/calibre/gui2/tag_browser/model.py:972-985 | after the corrected pass no category reachable below the node is a user category without children |
| TagPrune.UcEachPruned | src/calibre/gui2/tag_browser/model.py:974-984 | the loop over a node's children, given pruned kept children, leaves every reachable category below the node non-empty or not a user category |
| TagPrune.PruneStep | src/calibre/gui2/tag_browser/model.py:986-988 | one turn of the loop over the root's children prunes a user category and leaves any other node alone, keeping the number of nodes; what the loop achieves is stated by TagPrune.PruneRootsOk |
| TagPrune.PruneRoots | src/calibre/gui2/tag_browser/model.py:986-988 | the loop over the root's children keeps the number of nodes; what it achieves is stated by TagPrune.PruneRootsOk |
| TagPrune.PruneRootsOk | src/calibre/gui2/tag_browser/model.py:971-988 | with the corrected process_uc_children pass (see Findings), after the loop every top-level user category is pruned, the root is untouched and the tree stays well formed with only children lists shortened |
| TagPrune.TreeOf | src/calibre/gui2/tag_browser/model.py:190-193 | a well-formed tag tree satisfies the tree shape the pruning relies on |
| TagPrune.TrimmedWellFormed | src/calibre/gui2/tag_browser/model.py:984 | shortening children lists of a well-formed tree into a tree keeps it well formed |
| TagPrune.Pruning | src/calibre/gui2/tag_browser/model.py:971-988 | with the corrected process_uc_children pass (see Findings), the stage keeps the tree well formed, the tags and the root unchanged, only shortens children lists, and, when empty categories are hidden, leaves every top-level user category pruned |
| TagPrune.UnderHiddenUserCategory | src/calibre/gui2/tag_browser/model.py:1000-1005 | the loop over the hidden categories finds one exactly when some hidden user category is a dotted prefix of the key |
| TagPrune.KeepShown | src/calibre/gui2/tag_browser/model.py:992-1008 | the loop keeps, in order, exactly the top-level nodes that are not empty (when hiding empties), have a key in the category list, and are neither hidden nor inside a hidden user category |
| TagPrune.ShownAmongMembers | src/calibre/gui2/tag_browser/model.py:992-1008 | a node is kept iff it is among the root's children and shown, and the kept list has no repeats when the children had none |
| TagPrune.RowPosition | src/calibre/gui2/tag_browser/model.py:1009 | `row_map.index(key)` is the first position holding the key, and is in range exactly when the key is listed |
| TagPrune.OrderByRowMap | src/calibre/gui2/tag_browser/model.py:1009 | the sort is a permutation of the kept nodes ordered by their key's position in the category list |
| Common.RepeatCounts | src/calibre/gui2/tag_browser/model.py:1009 | a list in which a node appears at two positions counts it at least twice |
| Common.DistinctCounts | src/calibre/gui2/tag_browser/model.py:1009 | a list without repeats counts every node at most once |
| Common.DistinctPermutation | src/calibre/gui2/tag_browser/model.py:1009 | a permutation of a list without repeats has no repeats, so sorting lists no category twice |
| TagPrune.NewRootChildren | src/calibre/gui2/tag_browser/model.py:1008-1009 | giving the root any selection of its children, each once, in any order keeps the tree well formed |
| TagPrune.NewOrder | src/calibre/gui2/tag_browser/model.py:990-1009 | the root's new children are exactly its shown children, each once, ordered by their position in the category list |
| TagPrune.FixUp | src/calibre/gui2/tag_browser/model.py:966-1009 | the whole fix-up leaves a well-formed tree |
| TagPrune.FixUpTop | src/calibre/gui2/tag_browser/model.py:966-1009 | after the fix-up the root holds exactly its shown children ordered by the category list, every other node is as the pruning left it, and children lists only lost entries |
| TagPrune.FixUpPruned | src/calibre/gui2/tag_browser/model.py:966-1009 | with the corrected process_uc_children pass (see Findings) and empty categories hidden, no top-level user category is left empty and none has an empty user category anywhere below it |
| TagTokens.QuoteMarks | src/calibre/gui2/tag_browser/model.py:1998 | escaping quote marks never starts the result with a quote mark, keeps it empty exactly when the name is, and keeps a leading dot where there was one |
| TagTokens.QuoteMarksRoundTrip | src/calibre/gui2/tag_browser/model.py:1998 | reading `\"` back as a quote mark recovers the name from its escaped form |
| TagTokens.EscapeNameRoundTrip | src/calibre/gui2/tag_browser/model.py:1998-2000 | escaping quote marks and doubling a leading dot loses nothing: the name can be read back from the clause |
| TagTokens.RenderAll | src/calibre/gui2/tag_browser/model.py:1911-2005 | the list of strings has one entry per clause, the clause rendered as the source formats it |
| TagTokens.LettersSeen | src/calibre/gui2/tag_browser/model.py:1950-1957 | the character class is the first characters of the bucket's non-empty sort keys, regular-expression specials escaped, each once in the order first seen |
| TagTokens.Visit | src/calibre/gui2/tag_browser/model.py:1947-2002 | one turn of the inner loop adds exactly the clause the node calls for (a first-letter bucket's expression, a rating, or a value not searched yet) and updates `tags_seen` and `nodes_seen` as the walk specifies |
| TagTokens.MarkCategory | src/calibre/gui2/tag_browser/model.py:1929-1936 | a marked category adds `key:true`/`.true`/`false`/`.false`, or the News clause for 'news', and a clear one adds nothing; the seen sets are untouched |
| TagTokens.VisitAll | src/calibre/gui2/tag_browser/model.py:1939-2002 | the loop over all_children() produces the clauses and seen sets of the walk over those nodes |
| TagTokens.RunSnoc | src/calibre/gui2/tag_browser/model.py:1928-1939 | the walk over one more category node is its category clause followed by the clauses of its descendants |
| TagTokens.Tokens | src/calibre/gui2/tag_browser/model.py:1911-2005 | tokens() returns the rendered clauses of the walk over the category nodes: each marked category, then each marked descendant in all_children() order |
| TagTokens.ValueTagsSnoc | src/calibre/gui2/tag_browser/model.py:1993-1995 | appending a clause adds its Tag to the Tags searched for exactly when it is a value clause |
| TagTokens.OtherClauseOk | src/calibre/gui2/tag_browser/model.py:1929-1983 | a category, letter or rating clause keeps `nodes_seen` equal to the Tags searched for and `tags_seen` matching the 'tags' names searched for |
| TagTokens.ValueClauseOk | src/calibre/gui2/tag_browser/model.py:1986-2002 | a value clause for a Tag not yet searched, whose 'tags' name was not seen, keeps the seen sets matching the clauses and no Tag or 'tags' name repeated |
| TagTokens.ItemStepOk | src/calibre/gui2/tag_browser/model.py:1940-2002 | every turn of the inner loop keeps the seen sets matching the clauses and the clauses free of repeats |
| TagTokens.ItemsOk | src/calibre/gui2/tag_browser/model.py:1939-2002 | the inner loop keeps those facts |
| TagTokens.RunOk | src/calibre/gui2/tag_browser/model.py:1928-2002 | the whole walk keeps those facts |
| TagTokens.TokensNoRepeats | src/calibre/gui2/tag_browser/model.py:1913-1995 | tokens() searches for each Tag at most once and for each name in the 'tags' field at most once, however many nodes show it |
| TagTokens.ItemsGrow | src/calibre/gui2/tag_browser/model.py:1988-1995 | the inner loop only ever adds to `tags_seen` and `nodes_seen` |
| TagTokens.ItemsCover | src/calibre/gui2/tag_browser/model.py:1961-1995 | after the inner loop, every marked non-rating value it visited has its Tag in `nodes_seen` or, in the 'tags' field, its name in `tags_seen` |
| TagTokens.RunCovers | src/calibre/gui2/tag_browser/model.py:1928-1995 | the same holds at the end of the walk for every marked value below any category node of the list |
| TagTokens.TokensComplete | src/calibre/gui2/tag_browser/model.py:1911-2005 | every marked value below a category node that is not a rating is searched for by its original name, by the clause of its own Tag unless another 'tags' value of that name was searched for first |
| TagTokens.OneAuthorShape | src/calibre/gui2/tag_browser/model.py:346-354 | the one-author tree is well formed and its category's descendants are the author's node |
| TagTokens.QuoteMarksPlain | src/calibre/gui2/tag_browser/model.py:1998 | a name without quote marks is left as it is |
| TagTokens.OneAuthorRun | src/calibre/gui2/tag_browser/model.py:1961-2002 | marking one plain author + or - gives a single value clause for that author, negated for - |
| TagTokens.OneAuthorTokens | src/calibre/gui2/tag_browser/model.py:1911-2005 | marking one plain author + gives exactly `authors:"=<name>"` and - gives exactly `not authors:"=<name>"` |
| TagBrowser.TrimmedKeepsCaches | src/calibre/gui2/tag_browser/model.py:984-1008 | reassigning children lists keeps every node's kind and cached count, keeps computed ratings where they are needed, and adds no node |
| TagBrowser.ValueMapExtends | src/calibre/gui2/tag_browser/model.py:897-898 | entries of `category_child_map` keep naming value nodes as the tree grows |
| TagBrowser.ExtendsTrans | src/calibre/gui2/tag_browser/model.py:1491-1499 | growing the tree twice is growing it once |
| TagBrowser.BucketsExtend | src/calibre/gui2/tag_browser/model.py:824-880 | the buckets chosen for earlier values stay buckets of the category as the tree grows |
| TagBrowser.DistinctValuesGrow | src/calibre/gui2/tag_browser/model.py:818 | the values of a category stay valid Tag references as more Tags are made |
| TagBrowser.NamesOf | src/calibre/gui2/tag_browser/model.py:818 | lists, position by position, the original names of a category's values |
| TagBrowser.RestKept | src/calibre/gui2/tag_browser/model.py:818-946 | placing one value leaves the original names of the values still to come unchanged |
| TagBrowser.ViewsOkStep | src/calibre/gui2/tag_browser/model.py:818-829 | one more value extends the record of what the partition decision read by that value's name and first component |
| TagBrowser.PartitionTraceStep | src/calibre/gui2/tag_browser/model.py:824-869 | a value that starts no bucket joins its predecessor's, so values between two starts share a bucket |
| TagBrowser.PartitionOkStep | src/calibre/gui2/tag_browser/model.py:824-870 | one iteration keeps `top_level_component` and `last_idx` equal to the cursor of the bucket-start rule and the starts equal to Partition.Breaks |
| TagBrowser.LetterTraceStep | src/calibre/gui2/tag_browser/model.py:871-880 | one more value keeps consecutive values in the same first-letter bucket exactly when they share a letter |
| TagBrowser.NamesKeptTrans | src/calibre/gui2/tag_browser/model.py:818-946 | keeping the other values' names twice keeps them once |
| TagBrowser.WithChild | src/calibre/gui2/tag_browser/model.py:64-74 | creating a node under a parent adds exactly one node and no Tag |
| TagBrowser.WithChildProps | src/calibre/gui2/tag_browser/model.py:64-74 | creating a node keeps the tree well formed, keeps every existing node's kind, tag and parent, caches no count, and keeps every hierarchical value with children rated |
| TagBrowser.WithChildWellFormed | src/calibre/gui2/tag_browser/model.py:64-74 | a node created under an existing one, appended to its children, keeps the tree well formed |
| TagBrowser.SameShapeWellFormed | src/calibre/gui2/tag_browser/model.py:218-220 | changing only caches keeps the tree well formed |
| TagBrowser.MoreTagsWellFormed | src/calibre/gui2/tag_browser/model.py:920-926 | making more Tags keeps the tree well formed |
| TagBrowser.SameShapeForestIds | src/calibre/gui2/tag_browser/model.py:213-217 | the union of id sets over a subtree does not depend on the caches |
| TagBrowser.CacheKeepsFresh | src/calibre/gui2/tag_browser/model.py:218-220 | caching one node's item count changes no subtree, so every cached count still equals its subtree's count |
| TagBrowser.KeyHead | src/calibre/gui2/tag_browser/model.py:723 | `key.partition('.')[0]` is a dot-free prefix of the key, the whole key when it has no dot |
| TagBrowser.SelectCollapseModel | src/calibre/gui2/tag_browser/model.py:694-707 | collapsing is off exactly when the threshold is 0 or the configured model is off; first-letter mode is used exactly when configured and the tree is sorted by name, otherwise partition |
| TagBrowser.HierBranch | src/calibre/gui2/tag_browser/model.py:888-899 | a hierarchical value always takes the hierarchical path, and in a category that is not hierarchical only a hierarchical value does |
| TagBrowser.ChildMapOf | src/calibre/gui2/tag_browser/model.py:903-905 | the per-level child map names only value children of the node |
| TagBrowser.MarkLevel | src/calibre/gui2/tag_browser/model.py:936-939 | a level's Tag is named by the component and becomes '5state', or '3state' in the search category; nothing else of it changes |
| TagBrowser.IntermediateCopy | src/calibre/gui2/tag_browser/model.py:922-932 | an intermediate Tag is the value's Tag with the joined prefix as original name, count 0 and not editable; for the search key it is also not searchable and has no search expression; books, category and name are the value's |
| TagBrowser.IdsGrowTrans | src/calibre/gui2/tag_browser/model.py:914-915 | merging books into Tags twice is merging them once |
| TagBrowser.ChainIncreasing | src/calibre/gui2/tag_browser/model.py:940-944 | along a value's chain of levels each node is made no later than the deepest one |
| TagBrowser.WalkStep | src/calibre/gui2/tag_browser/model.py:903-944 | one more level extends the walk: the top is the map entry or a new node under the parent, a lower level hangs under the level above, a new level is named by its component, and every node the walk made is on the chain |
| TagBrowser.CatMapExtends | src/calibre/gui2/tag_browser/model.py:899-944 | entries of `category_child_map` stay under buckets of the category as the tree grows |
| TagBrowser.CatMapAdd | src/calibre/gui2/tag_browser/model.py:899-944 | a new entry whose node hangs under a bucket keeps every entry of `category_child_map` under a bucket |
| TagBrowser.ShownGrows | src/calibre/gui2/tag_browser/model.py:818-955 | a value once shown stays shown as nodes are added and books merged |
| TagBrowser.AllShownGrows | src/calibre/gui2/tag_browser/model.py:818-955 | the same for every value placed so far |
| TagBrowser.AllShownAppend | src/calibre/gui2/tag_browser/model.py:818-955 | showing one more value extends the record of values shown |
| TagBrowser.CategoryShownGrows | src/calibre/gui2/tag_browser/model.py:958-964 | a category's values stay shown as later categories add nodes and merge books |
| TagBrowser.CategoryShownNew | src/calibre/gui2/tag_browser/model.py:958-964 | a category's turn shows its values with at least the books the loop started with |
| TagBrowser.CategoriesShownGrow | src/calibre/gui2/tag_browser/model.py:958-964 | every category done so far stays shown through the next turn |
| TagBrowser.CategoriesShownFrom | src/calibre/gui2/tag_browser/model.py:585-607 | shown with the books of the Tags after the category pass is shown with those of the data, as that pass only adds Tags |
| TagBrowser.FirstLetterKeys | src/calibre/gui2/tag_browser/model.py:753-754 | each value's first-letter key is its sort when non-empty, otherwise its name |
| TagBrowser.TraceStep | src/calibre/gui2/tag_browser/model.py:818-946 | one placed value advances the loop's record: its view, its parent and, in partition mode, the start rule's cursor and starts |
| TagBrowser.ChildRenames | src/calibre/gui2/tag_browser/model.py:1640-1646 | the renames of the child loop name existing Tags |
| TagBrowser.ChildRename | src/calibre/gui2/tag_browser/model.py:1641-1646 | one turn of the child loop renames at most one Tag |
| TagBrowser.RenamePlan | src/calibre/gui2/tag_browser/model.py:1628-1646 | the renames rename_item performs name existing Tags |
| TagBrowser.ApplyRenames | src/calibre/gui2/tag_browser/model.py:1622-1623 | renaming keeps the number of Tags |
| TagBrowser.CatsAfter | src/calibre/gui2/tag_browser/model.py:1625 | the renames keep the set of user categories |
| TagBrowser.RenameKeepsIdentity | src/calibre/gui2/tag_browser/model.py:1622-1623 | a rename changes only a Tag's name and state |
| TagBrowser.RenameSnoc | src/calibre/gui2/tag_browser/model.py:1612-1625 | one more do_one_item renames one more Tag and adds the new name to the user categories holding the old one |
| TagBrowser.RenamedEverywhere | src/calibre/gui2/tag_browser/model.py:1703-1725 | add_renamed_item_to_user_categories keeps the set of user categories and updates each one as UserCategories.WithRenamed does |
| TagBrowser.ClearParent | src/calibre/gui2/tag_browser/model.py:1633-1636 | clearing the parent's state keeps the number of Tags |
| TagBrowser.PlanSnoc | src/calibre/gui2/tag_browser/model.py:1640-1646 | the child loop's renames over one more child are those so far followed by that child's |
| TagBrowser.ApplyRenamesKeeps | src/calibre/gui2/tag_browser/model.py:1622-1623 | renames change names and search states only: every Tag keeps its original name, category and editability |
| TagBrowser.ApplyRenamesResult | src/calibre/gui2/tag_browser/model.py:1622-1623 | when no Tag is renamed twice, each renamed Tag ends with its new name and a clear state and every other Tag is unchanged |
| TagBrowser.ChildRenamesHas | src/calibre/gui2/tag_browser/model.py:1641-1646 | an editable descendant whose original name starts with the searched name is renamed to the new name followed by the rest of its own name |
| TagBrowser.ChildRenamesOnly | src/calibre/gui2/tag_browser/model.py:1641-1646 | the child loop renames nothing but editable descendants whose original name starts with the searched name |
| TagBrowser.RenameItemNames | src/calibre/gui2/tag_browser/model.py:1611-1646 | after rename_item an editable item has the new name and every editable descendant whose original name starts with the item's has the new name followed by the rest of its own, provided no Tag is renamed twice |
| TagBrowser.RenamePlanHas | src/calibre/gui2/tag_browser/model.py:1640-1646 | every matching editable descendant has its rename in rename_item's plan |
| TagBrowser.CatsAfterHolds | src/calibre/gui2/tag_browser/model.py:1703-1725 | a user category that held a renamed item's original name holds its new name once rename_item is done |
| TagBrowser.CatsAfterPrefix | src/calibre/gui2/tag_browser/model.py:1703-1725 | renames only append to user categories: after a prefix of the renames each category's list is a prefix of its final list |
| TagBrowser.LastDot | src/calibre/gui2/tag_browser/model.py:653-671 | finds the last '.' of a path, or reports there is none |
| TagBrowser.Up | src/calibre/gui2/tag_browser/model.py:653-671 | the enclosing user category of a dotted user-category path is a shorter path starting with '@' |
| TagBrowser.LastDotAppend | src/calibre/gui2/tag_browser/model.py:656-671 | the last dot of a path followed by a dot-free segment is the dot before that segment |
| TagBrowser.UserKeyParts | src/calibre/gui2/tag_browser/model.py:653 | the segments of a user-category key start with '@' and contain no dot |
| TagBrowser.PathAtUp | src/calibre/gui2/tag_browser/model.py:656-671 | each segment's path starts with '@' and sits in the path of the segment before it; the first sits under the root |
| TagBrowser.Range | src/calibre/gui2/tag_browser/model.py:664 | the consecutive node numbers from one bound up to the other |
| TagBrowser.PathBeforeNext | src/calibre/gui2/tag_browser/model.py:657-671 | `path += p` then `path += '.'` builds each segment's path from the previous one |
| TagBrowser.KeyPath | src/calibre/gui2/tag_browser/model.py:653-671 | the path built for the last segment of a user-category key is the key itself |
| TagBrowser.JoinPathAt | src/calibre/gui2/tag_browser/model.py:656-671 | a segment's path is the segments up to it joined by '.' |
| TagBrowser.JoinSnoc | src/calibre/gui2/tag_browser/model.py:656-671 | joining one more segment adds a dot and that segment |
| TagBrowser.MapOkExtends | src/calibre/gui2/tag_browser/model.py:624-681 | `category_node_map` stays right as the tree grows |
| TagBrowser.MapOkStep | src/calibre/gui2/tag_browser/model.py:658-679 | recording a new category node under its key keeps every entry naming a category node with that key under its enclosing user category's node, or under the root |
| TagBrowser.FreshStep | src/calibre/gui2/tag_browser/model.py:658-667 | the same step keeps every user-category node made in the pass recorded as its path's one node |
| TagBrowser.PassStep | src/calibre/gui2/tag_browser/model.py:658-679 | a new category node, recorded in `category_node_map` and appended to `category_nodes`, keeps the pass's invariant |
| TagBrowser.RangeSnoc | src/calibre/gui2/tag_browser/model.py:666-680 | appending the next node to `category_nodes` extends the range of nodes made |
| TagBrowser.TagsModel.constructor | src/calibre/gui2/tag_browser/model.py:598-606 | a model starts from a fresh root with no Tags, category nodes or intermediate Tags |
| TagBrowser.TagsModel.NewTag | src/calibre/gui2/tag_browser/model.py:923-926 | a new Tag object is appended and its index returned |
| TagBrowser.TagsModel.CreateNode | src/calibre/gui2/tag_browser/model.py:1491-1499 | the new node is the last one, created after its parent, holds the given kind and Tag with no children or caches, and is appended to its parent's children; nothing else changes |
| TagBrowser.TagsModel.Toggle | src/calibre/gui2/tag_browser/model.py:322-344 | with `set_to` the state is stored as given; without it the state becomes the first one along the search order that the node may hold; no other Tag changes |
| TagBrowser.TagsModel.ItemCount | src/calibre/gui2/tag_browser/model.py:209-221 | returns the count item_count specifies, caching it on the node at most, so every cached count stays fresh and the tree keeps its shape |
| TagBrowser.TagsModel.SetTag | src/calibre/gui2/tag_browser/model.py:821-822 | one Tag's attributes are replaced and nothing else |
| TagBrowser.TagsModel.SetRating | src/calibre/gui2/tag_browser/model.py:948-955 | one node's cached average rating is set and nothing else |
| TagBrowser.TagsModel.Remember | src/calibre/gui2/tag_browser/model.py:913-933 | records one entry of `intermediate_nodes` |
| TagBrowser.TagsModel.ReuseLevel | src/calibre/gui2/tag_browser/model.py:908-913 | an existing level's Tag becomes hierarchical and gains the value's books, keeping every name |
| TagBrowser.TagsModel.LevelTag | src/calibre/gui2/tag_browser/model.py:915-943 | the whole new list of Tags and `intermediate_nodes` is stated: the level's Tag (the value's own at the last level, else the shared intermediate Tag or a fresh IntermediateCopy) becomes MarkLevel of what it was, so it is named by the component and hierarchical; no other value's name changes and no Tag loses books |
| TagBrowser.TagsModel.LevelChild | src/calibre/gui2/tag_browser/model.py:907-946 | a level already in the child map reuses that node, keeping its name and gaining the value's books; otherwise one new value node is made under the current one, named by the component, and at the last level it holds the value's own Tag |
| TagBrowser.TagsModel.LowerLevel | src/calibre/gui2/tag_browser/model.py:904-944 | below the top level the level is the child of the node above that has the component's name, else one new value node under it named by the component; at the last level it holds at least the value's books |
| TagBrowser.TagsModel.HierLevel | src/calibre/gui2/tag_browser/model.py:900-955 | one level lands on a value node with its rating computed: at the top level the `category_child_map` entry or one new node under the bucket, below it a child of the node above; a level made new is named by its component and at the last level holds the value's own Tag; only the top level records it in `category_child_map` |
| TagBrowser.TagsModel.PrepareValue | src/calibre/gui2/tag_browser/model.py:819-822 | the value's rating is cleared for categories that show none and its state is restored from `state_map`, clear when absent |
| TagBrowser.TagsModel.FormatterInputs | src/calibre/gui2/tag_browser/model.py:834-853 | the template gets, in a hierarchical category, copies of the first and last values named and sorted by their first component, otherwise the values themselves with a missing sort set to the name |
| TagBrowser.TagsModel.PartitionBucket | src/calibre/gui2/tag_browser/model.py:830-868 | a bucket spans at most `collapse` values, ending at the category's end or `collapse` values on; it is a new non-searchable category named by the template, or the category itself when the template fails |
| TagBrowser.TagsModel.LetterBucket | src/calibre/gui2/tag_browser/model.py:873-882 | a new first letter gets a new temporary category under the category, named by the letter |
| TagBrowser.TagsModel.AttachValue | src/calibre/gui2/tag_browser/model.py:888-955 | a value takes the hierarchical path exactly when HierBranch says so. A flat value gets one new node holding its Tag under the chosen parent. A hierarchical value gets one node per name component: the top one is the `category_child_map` entry or a new node under the parent, each next one is a child of the one above, each level made is named by its component, and the last level holds at least the value's books (its own Tag, named by the last component, when made new). The top-level component becomes the first name component |
| TagBrowser.TagsModel.AttachFlat | src/calibre/gui2/tag_browser/model.py:897-900 | a flat value gets one new node holding its own Tag under the chosen parent, recorded in `category_child_map` under its name and category |
| TagBrowser.TagsModel.WalkLevels | src/calibre/gui2/tag_browser/model.py:902-955 | the name components are walked from the top: one level per component, the top one the `category_child_map` entry or a new node under the parent, each next one a child of the one above, every level made named by its component and every node made on the chain; the last level holds at least the value's books |
| TagBrowser.TagsModel.WalkOne | src/calibre/gui2/tag_browser/model.py:903-955 | one turn of that walk places the next level below the previous one and keeps the walk's record |
| TagBrowser.TagsModel.ChooseParent | src/calibre/gui2/tag_browser/model.py:824-887 | without collapsing the parent is the category; in partition mode a break (at least `collapse` after the last start and not continuing the top component) opens a bucket and sets `last_idx`, otherwise the value joins the current bucket; in first-letter mode a new letter opens a new bucket |
| TagBrowser.TagsModel.PlaceValue | src/calibre/gui2/tag_browser/model.py:818-955 | one value is prepared, placed under the bucket the rules choose and shown as Shown states (its own node under that bucket, or one level per name component ending in a node with its books), advancing the loop's record |
| TagBrowser.TagsModel.ProcessOneNode | src/calibre/gui2/tag_browser/model.py:715-956 | every value of the category is placed in a bucket of its node: directly under it when not collapsing; in partition mode buckets start exactly at Partition.Breaks from 'z' + the first name with values between starts sharing one; in first-letter mode consecutive values share a bucket exactly when they share a letter. Every value ends shown under a bucket of the node: a flat value by a node holding its own Tag under its bucket, a hierarchical one by one level per name component ending in a node with at least its books |
| TagBrowser.TagsModel.ProcessValues | src/calibre/gui2/tag_browser/model.py:730-956 | the same for a category with at least one value, including where each value ends |
| TagBrowser.TagsModel.PlaceNext | src/calibre/gui2/tag_browser/model.py:818-955 | one iteration of the value loop shows one more value and keeps every earlier value shown, with the loop's record and invariants |
| TagBrowser.TagsModel.PlaceAll | src/calibre/gui2/tag_browser/model.py:813-956 | the value loop shows every value as Shown states, with `top_level_component`, `last_idx` and the starts following the partition rule and first-letter buckets following the letters |
| TagBrowser.TagsModel.FixUpTree | src/calibre/gui2/tag_browser/model.py:966-1009 | the tree becomes exactly TagPrune.FixUp of what it was, the fix-up with the corrected process_uc_children pass (see Findings) |
| TagBrowser.TagsModel.DoOneItem | src/calibre/gui2/tag_browser/model.py:1612-1625 | the Tag gets its new name and a clear state, and every user category is updated as add_renamed_item_to_user_categories does |
| TagBrowser.TagsModel.RenameItem | src/calibre/gui2/tag_browser/model.py:1611-1648 | the Tags become the plan's renames applied after clearing a middle node's value parent, and the user categories become those after each rename in turn |
| TagBrowser.TagsModel.RenameChildren | src/calibre/gui2/tag_browser/model.py:1640-1646 | the child loop applies the child renames after those already done |
| TagBrowser.TagsModel.RenameChild | src/calibre/gui2/tag_browser/model.py:1641-1646 | one turn applies that child's rename, if any |
| TagBrowser.TagsModel.CategoryNode | src/calibre/gui2/tag_browser/model.py:658-680 | a category node is created under its parent with a new category Tag and appended to `category_nodes` |
| TagBrowser.TagsModel.SetEditable | src/calibre/gui2/tag_browser/model.py:667 | one node's edit flag is set and nothing else |
| TagBrowser.TagsModel.UserCategoryLevel | src/calibre/gui2/tag_browser/model.py:658-670 | a new user-category level is editable exactly when it is the key's last segment and not a grouped search term, and is '5state' unless a grouped search term |
| TagBrowser.TagsModel.UserCategoryPath | src/calibre/gui2/tag_browser/model.py:653-671 | after the segment loop the key is in `category_node_map`, every earlier entry is unchanged, and the map stays right |
| TagBrowser.TagsModel.CategoryPass | src/calibre/gui2/tag_browser/model.py:640-681 | every category key gets an entry in `category_node_map` naming a category node with that key under its enclosing user category's node or the root, and every node made is in `category_nodes` |
| TagBrowser.TagsModel.AddPlainCategory | src/calibre/gui2/tag_browser/model.py:673-681 | a category that is not a user category gets a node under the root that replaces any earlier entry for its key |
| TagBrowser.TagsModel.UserCategoryStep | src/calibre/gui2/tag_browser/model.py:656-671 | the segment's path is found in `category_node_map` or made under the previous segment's node, and earlier entries are kept |
| TagBrowser.TagsModel.AddUserLevel | src/calibre/gui2/tag_browser/model.py:658-670 | a new path is recorded with a node under its enclosing user category, keeping the map right |
| TagBrowser.TagsModel.FillCategories | src/calibre/gui2/tag_browser/model.py:958-964 | each category node in turn gets its values; the tree only grows, no Tag loses books, and every value of every category ends shown under its category node with at least the books it started with (CategoryShown) |
| TagBrowser.TagsModel.FillOne | src/calibre/gui2/tag_browser/model.py:960-964 | one category node's turn shows each of its values under it with at least the books they had before the loop |
| TagBrowser.TagsModel.CreateNodeTree | src/calibre/gui2/tag_browser/model.py:684-1009 | with no data nothing changes; otherwise the filled tree extends the old one and shows every value of every category under its category node (CategoryShown), and the final tree is its fix-up, with the corrected process_uc_children pass |
| TagBrowser.TagsModel.ResetTree | src/calibre/gui2/tag_browser/model.py:598-607 | the model restarts from a lone root with the data's Tags and no category nodes or intermediate Tags |
| TagBrowser.TagsModel.RebuildNodeTree | src/calibre/gui2/tag_browser/model.py:585-682 | a rebuild during a build changes nothing; otherwise every category key has a category node under its enclosing user category's node, the filled tree shows every value of its category with at least the books the data gave it, and the final tree is the fix-up of the filled tree, with the corrected process_uc_children pass |
| UserCategories.Without | src/calibre/gui2/tag_browser/model.py:1694-1698 | the filtered list keeps exactly the items that are not the named item of the named field |
| UserCategories.WithoutConcat | src/calibre/gui2/tag_browser/model.py:1694-1698 | filtering a joined list is joining the filtered parts, so kept items keep their order |
| UserCategories.WithoutCounts | src/calibre/gui2/tag_browser/model.py:1694-1698 | every other item is kept as many times as it occurred and no copy of the named item is left |
| UserCategories.WithoutNothing | src/calibre/gui2/tag_browser/model.py:1694-1698 | a list that does not hold the item is left as it is |
| UserCategories.Filter | src/calibre/gui2/tag_browser/model.py:1694-1698 | the copy loop returns exactly the filtered list |
| UserCategories.WithRenamed | src/calibre/gui2/tag_browser/model.py:1716-1724 | the list only grows at its end, by at most one item; it holds the new name when it held the original, and holds the new name exactly when it held either |
| UserCategories.WithRenamedIdempotent | src/calibre/gui2/tag_browser/model.py:1716-1724 | adding a renamed item a second time changes nothing |
| UserCategories.Scan | src/calibre/gui2/tag_browser/model.py:1717-1722 | the scan reports exactly whether the field's items include the original and the new name |
| UserCategories.FindItem | src/calibre/gui2/tag_browser/model.py:1183-1185 | the scan reports exactly whether the destination already holds the item |
| UserCategories.RenamedSpec | src/calibre/gui2/tag_browser/model.py:1652-1675 | the corrected rename leaves no copy of the old item, holds the new one exactly when the list held the old or the new one, and keeps every other item with its count |
| UserCategories.RenameAsWrittenLosesAuthor | src/calibre/gui2/tag_browser/model.py:1660-1667 | renaming the tag X to Y in a category holding the author Y and the tag X leaves only the tag Y: the author is lost |
| UserCategories.RenameAsWrittenDropsOtherField | src/calibre/gui2/tag_browser/model.py:1660-1667 | renaming the tag X to Y in a category holding the author X and the tag Y removes the author X, which is not the item renamed |
| UserCategories.DictOfDistinct | src/calibre/gui2/tag_browser/model.py:1660 | when names are distinct the dict built from the list pairs each name with its field in list order |
| UserCategories.LookupPairs | src/calibre/gui2/tag_browser/model.py:1665-1669 | looking a name up in such a dict gives the field of the item with that name, or nothing when no item has it |
| UserCategories.DropPairs | src/calibre/gui2/tag_browser/model.py:1666-1671 | deleting a name from such a dict is filtering its item out of the list |
| UserCategories.ListOfPairs | src/calibre/gui2/tag_browser/model.py:1668-1673 | rebuilding the list from the dict gives it back when every third slot is 0 |
| UserCategories.RebuiltAfterRename | src/calibre/gui2/tag_browser/model.py:1670-1673 | deleting the old name and setting the new one rebuilds the list without the old item and with the new one last |
| UserCategories.AgreesWhenNewPresent | src/calibre/gui2/tag_browser/model.py:1665-1668 | when the new name is already there, the dict-based rename agrees with the corrected one on lists without shared names |
| UserCategories.AgreesWhenRenaming | src/calibre/gui2/tag_browser/model.py:1669-1673 | when only the old name is there, the dict-based rename agrees with the corrected one on such lists |
| UserCategories.RenameAsWrittenAgrees | src/calibre/gui2/tag_browser/model.py:1652-1675 | on lists where names are distinct, every third slot is 0 and the two names occur only in the renamed field, the code as written gives the corrected rename |
| UserCategories.DestField | src/calibre/gui2/tag_browser/model.py:1181-1182 | an item dropped from a user category keeps its field, and a news item from elsewhere is recorded as a tag |
| UserCategories.DropOne | src/calibre/gui2/tag_browser/model.py:1168-1187 | dropping one item keeps the set of user categories |
| UserCategories.DropForest | src/calibre/gui2/tag_browser/model.py:1189-1191 | dropping a list of sibling subtrees keeps the set of user categories |
| UserCategories.DropTree | src/calibre/gui2/tag_browser/model.py:1160-1192 | dropping a node and its subtree keeps the set of user categories |
| UserCategories.ForestUnfold | src/calibre/gui2/tag_browser/model.py:1189-1191 | the child loop handles the first child's subtree, then the rest |
| UserCategories.Steps | src/calibre/gui2/tag_browser/model.py:1168-1187 | applying the one-item drop to nodes in turn keeps the set of user categories |
| UserCategories.StepsConcat | src/calibre/gui2/tag_browser/model.py:1168-1191 | the one-item drops over two lists of nodes are those of the first followed by those of the second |
| UserCategories.ForestIsSteps | src/calibre/gui2/tag_browser/model.py:1160-1192 | the recursion over sibling subtrees drops their nodes one by one in pre-order |
| UserCategories.Visited | src/calibre/gui2/tag_browser/model.py:1160-1192 | the nodes the recursion visits start with the dropped node itself |
| UserCategories.TreeIsSteps | src/calibre/gui2/tag_browser/model.py:1160-1192 | process_source_node drops the node, then each node of its subtree, in pre-order |
| UserCategories.DropOneKeeps | src/calibre/gui2/tag_browser/model.py:1168-1187 | an item already in the destination is still there after one more drop, even when the move takes it out first |
| UserCategories.DropOneAdds | src/calibre/gui2/tag_browser/model.py:1180-1187 | after dropping an item the destination holds it under its recorded field |
| UserCategories.StepsKeep | src/calibre/gui2/tag_browser/model.py:1160-1192 | an item in the destination stays there through any number of drops |
| UserCategories.StepsAdd | src/calibre/gui2/tag_browser/model.py:1160-1192 | after the drops the destination holds every visited node's item |
| UserCategories.StepsRemove | src/calibre/gui2/tag_browser/model.py:1168-1175 | a move from a user category other than the destination leaves none of the visited items in it |
| UserCategories.StepsKeepOut | src/calibre/gui2/tag_browser/model.py:1168-1175 | a move never puts an item into its source category |
| UserCategories.StepsOthers | src/calibre/gui2/tag_browser/model.py:1160-1192 | only the destination and, on a move, the source category change |
| UserCategories.WithoutNoDuplicates | src/calibre/gui2/tag_browser/model.py:1172-1177 | filtering keeps a list free of repeated items |
| UserCategories.DropOneNoDuplicates | src/calibre/gui2/tag_browser/model.py:1180-1187 | one drop adds no item the destination already holds |
| UserCategories.StepsNoDuplicates | src/calibre/gui2/tag_browser/model.py:1183-1187 | a destination free of repeated items stays free of them through the drops |
| UserCategories.DropTreeSpec | src/calibre/gui2/tag_browser/model.py:1160-1192 | dropping a node puts every item of its subtree in the destination, takes all of them out of the source category on a move from another category, changes no other category, and adds no repeated item |
| UserCategories.UserCategoryPrefs.constructor | src/calibre/gui2/tag_browser/model.py:1657 | the preference object holds the user categories read |
| UserCategories.UserCategoryPrefs.DeleteItemFromUserCategory | src/calibre/gui2/tag_browser/model.py:1689-1701 | the named category becomes its filtered list; no other category changes |
| UserCategories.UserCategoryPrefs.DeleteItemFromAllUserCategories | src/calibre/gui2/tag_browser/model.py:1677-1687 | every user category becomes its filtered list, and the set of categories is kept |
| UserCategories.UserCategoryPrefs.AddRenamedItemToUserCategories | src/calibre/gui2/tag_browser/model.py:1703-1725 | every user category becomes WithRenamed of its list, and the set of categories is kept |
| UserCategories.UserCategoryPrefs.RenameItemInAllUserCategories | src/calibre/gui2/tag_browser/model.py:1652-1675 | every user category becomes the corrected rename of its list |
| UserCategories.UserCategoryPrefs.ProcessOne | src/calibre/gui2/tag_browser/model.py:1165-1187 | the categories become the one-item drop of the old ones; the result says the item was copied exactly when the drop is not a move |
| UserCategories.UserCategoryPrefs.ProcessSourceNode | src/calibre/gui2/tag_browser/model.py:1160-1192 | the categories become the subtree drop of the old ones, whose meaning DropTreeSpec states; the result says copied exactly when the drop is not a move |
| UserCategories.UserCategoryPrefs.ProcessChildren | src/calibre/gui2/tag_browser/model.py:1189-1192 | the child loop drops each child's subtree in turn and keeps the copied result |
| CategoryRename.LastIndex | src/calibre/gui2/tag_browser/model.py:1547 | `rfind` returns -1 or a position holding the character, with none after it |
| CategoryRename.NewKeySameParent | src/calibre/gui2/tag_browser/model.py:1547-1551 | the renamed key keeps the parent path and ends with the new name |
| CategoryRename.LastIndexAfter | src/calibre/gui2/tag_browser/model.py:1547-1551 | the last dot of a parent path followed by a dot-free name is the parent path's last dot |
| CategoryRename.LastIndexAt | src/calibre/gui2/tag_browser/model.py:1547 | `rfind` finds a dot with no dot after it |
| CategoryRename.PlacedMove | src/calibre/gui2/tag_browser/model.py:1563-1579 | moving a key to a target no processed key holds keeps every category under its current key |
| CategoryRename.PlacedStay | src/calibre/gui2/tag_browser/model.py:1558-1579 | a key whose target is itself keeps every category where it is |
| CategoryRename.NotInLowerKeys | src/calibre/gui2/tag_browser/model.py:1544-1571 | a name whose lowercase form is not among the lowercased keys is not a key |
| CategoryRename.TargetsDiffer | src/calibre/gui2/tag_browser/model.py:1570-1575 | two sub-category keys under the renamed one get different new keys |
| CategoryRename.Moves | src/calibre/gui2/tag_browser/model.py:1559-1575 | a matching key spelt as the category's moves when the name changes |
| CategoryRename.FoldAgrees | src/calibre/gui2/tag_browser/model.py:1558-1579 | the loop over the sorted keys takes, key by key, the precomputed target and clash decisions |
| CategoryRename.TargetsApart | src/calibre/gui2/tag_browser/model.py:1558-1579 | keys that do not clash go to distinct targets and a moving key goes to a name no key has |
| CategoryRename.FoldSpec | src/calibre/gui2/tag_browser/model.py:1558-1579 | from any point of the loop: with no clash left every category ends under its target, otherwise the loop stops at a clashing key's target name |
| CategoryRename.FoldOutcome | src/calibre/gui2/tag_browser/model.py:1558-1579 | over all keys: with no clash every category ends under its target, otherwise the rename stops naming a clashing target |
| CategoryRename.PlacedIsRenaming | src/calibre/gui2/tag_browser/model.py:1558-1579 | the loop's end state is the renamed map |
| CategoryRename.RenameUserCategorySpec | src/calibre/gui2/tag_browser/model.py:1534-1582 | the rename does nothing exactly when the name is unchanged; otherwise it completes exactly when no renamed key takes a name already used (in any case), and then moves every category and sub-category to its new key with its items, and it reports a used name exactly when one would be taken |
| CategoryRename.RenameUserCategoryKeys | src/calibre/gui2/tag_browser/model.py:1534-1582 | the method's outcome is RenameUserCategory's, and the user categories change only when the rename completes |
| Toolbar.PrefName | src/calibre/gui2/preferences/toolbar.py:88-90 | the stored name is None exactly for a separator, else the action's name |
| Toolbar.Names | src/calibre/gui2/preferences/toolbar.py:84-92 | one stored name per selected row, in selection order, separators as None |
| Toolbar.HasAction | src/calibre/gui2/preferences/toolbar.py:94-98 | true exactly when some action in the list has the name |
| Toolbar.KeepHas | src/calibre/gui2/preferences/toolbar.py:140-143 | a row that is not removed keeps its action in the rebuilt list |
| Toolbar.KeptFrom | src/calibre/gui2/preferences/toolbar.py:140-143 | every action of the rebuilt list is the action of a row that was not removed |
| Toolbar.Without | src/calibre/gui2/preferences/toolbar.py:140-145 | the rebuild loop keeps the actions of the rows not removed, in their order |
| Toolbar.SortByRank | src/calibre/gui2/preferences/toolbar.py:128 | sorting by sort_key_for_action yields a list sorted by rank with the same actions as often as before |
| Toolbar.AllModel.constructor | src/calibre/gui2/preferences/toolbar.py:103-109 | the available list holds the given actions and collation rank |
| Toolbar.AllModel.Add | src/calibre/gui2/preferences/toolbar.py:120-129 | None and separator names are skipped, the others' actions are appended and the list ends sorted by rank, holding the old actions and the added ones |
| Toolbar.AllModel.Remove | src/calibre/gui2/preferences/toolbar.py:131-146 | exactly the selected non-separator rows whose name is in allowed are removed; every other row's action stays and nothing new appears |
| Toolbar.AcceptedMeans | src/calibre/gui2/preferences/toolbar.py:194-199 | the actions added at a location are exactly those whose dont_add_to does not name it |
| Toolbar.MovedSingle | src/calibre/gui2/preferences/toolbar.py:166-176 | move_single keeps the length and the actions: past the top the action goes to the end, past the bottom to the front, otherwise it swaps with nrow |
| Toolbar.MovedSinglePermutes | src/calibre/gui2/preferences/toolbar.py:166-176 | move_single keeps every action as often as it was there |
| Toolbar.NewRow | src/calibre/gui2/preferences/toolbar.py:168 | nrow, (row + delta + len) % len, is a row of the list |
| Toolbar.MovedSingleLands | src/calibre/gui2/preferences/toolbar.py:166-176 | a step of one puts the action on nrow, wrapping around at both ends |
| Toolbar.MoveBack | src/calibre/gui2/preferences/toolbar.py:166-176 | a step back from where a step of one landed restores the list |
| Toolbar.BackFromBottom | src/calibre/gui2/preferences/toolbar.py:169-171 | the top action moved up to the end comes back to the top when moved down |
| Toolbar.BackFromTop | src/calibre/gui2/preferences/toolbar.py:172-174 | the bottom action moved down to the front comes back to the bottom when moved up |
| Toolbar.MovedMany | src/calibre/gui2/preferences/toolbar.py:183-184 | move_many's first loop keeps the length and the actions |
| Toolbar.MovedManyPermutes | src/calibre/gui2/preferences/toolbar.py:183-184 | move_many's first loop keeps every action as often as it was there |
| Toolbar.RowItems | src/calibre/gui2/preferences/toolbar.py:180 | the items are the actions of the selected rows, in selection order |
| Toolbar.MoveOrder | src/calibre/gui2/preferences/toolbar.py:182 | the rows to move, each as often as selected, from the bottom up when moving down and from the top down when moving up |
| Toolbar.Positions | src/calibre/gui2/preferences/toolbar.py:186-189 | the answer maps every selected row, and only those, to the row now holding its action |
| Toolbar.CurrentModel.constructor | src/calibre/gui2/preferences/toolbar.py:157-164 | the current list holds the given actions for the location |
| Toolbar.CurrentModel.MoveSingle | src/calibre/gui2/preferences/toolbar.py:166-176 | the list becomes its move_single image |
| Toolbar.CurrentModel.MoveMany | src/calibre/gui2/preferences/toolbar.py:178-189 | the selected actions are moved one at a time in MoveOrder, and the answer maps every selected row to the row holding its action afterwards |
| Toolbar.CurrentModel.MoveItems | src/calibre/gui2/preferences/toolbar.py:183-184 | the loop moves each item in turn from wherever the earlier moves left it |
| Toolbar.CurrentModel.Add | src/calibre/gui2/preferences/toolbar.py:191-204 | the actions allowed at the location are appended in order, and the rejected set is exactly the actions barred from it |
| Toolbar.CurrentModel.Remove | src/calibre/gui2/preferences/toolbar.py:206-222 | the selected rows are removed except those barred by dont_remove_from, whose actions are returned as rejected; the rest keep their order and nothing new appears |
| Toolbar.CurrentModel.Commit | src/calibre/gui2/preferences/toolbar.py:224-238 | afterwards gprefs gives the list's layout (separators as None); nothing is written when it already did, and the pref is deleted exactly when the layout equals the defaults |
| Toolbar.MoveManyShiftsDown | src/calibre/gui2/preferences/toolbar.py:178-189 | with distinct actions and distinct rows above the bottom, moving down in MoveOrder puts every selected action one row lower |
| Toolbar.MoveManyShiftsUp | src/calibre/gui2/preferences/toolbar.py:178-189 | with distinct actions and distinct rows below the top, moving up in MoveOrder puts every selected action one row higher |
| Toolbar.SeparatorsKeepIdentity | src/calibre/gui2/preferences/toolbar.py:178-189 | two separators are distinct objects: moving the lower one up past an action gives [sep, sep, x], moving that separator rather than the first |
| Toolbar.SelectionOrderUndoes | src/calibre/gui2/preferences/toolbar.py:183-184 | moving the two top rows of [a, b, c] down in selection order, as the loop is written, leaves the list unchanged |
| Toolbar.CheckLayouts | src/calibre/gui2/preferences/toolbar.py:370-384 | the commit aborts with "Preferences missing" exactly when neither the toolbar nor the menubar has Preferences, then with "Location manager missing" exactly when neither device bar has the Location Manager, and otherwise saves |
| MetadataSources.CheckStateOf | src/calibre/gui2/preferences/metadata_sources.py:104 | Qt.CheckState(val) is defined exactly for 0, 1 and 2 |
| MetadataSources.CommittedPriorities | src/calibre/gui2/preferences/metadata_sources.py:140-147 | an override of 1 removes the source from cover_priorities, any other override is stored, other sources keep their stored value; every source then shows the priority it showed before the commit |
| MetadataSources.CommittedDisabled | src/calibre/gui2/preferences/metadata_sources.py:134-138 | an override to Checked enables, to Unchecked disables, PartiallyChecked and no override leave the source as it was; every source not overridden to PartiallyChecked shows the same enabled state after the commit |
| MetadataSources.SourcesModel.constructor | src/calibre/gui2/preferences/metadata_sources.py:42-44 | a new table starts with empty override maps |
| MetadataSources.SourcesModel.Data | src/calibre/gui2/preferences/metadata_sources.py:68-83 | no data outside the table; the priority cell shows the override, else the stored priority, else 1; the check box shows the override, else Unchecked for a disabled source and Checked otherwise |
| MetadataSources.SourcesModel.SetData | src/calibre/gui2/preferences/metadata_sources.py:96-124 | a row outside the table changes nothing and returns False; the check box records the state (a Douban source only once confirmed); the priority column stores max(1, int(val)), and a value that is not an integer leaves the overrides unchanged and returns False |
| MetadataSources.SourcesModel.Commit | src/calibre/gui2/preferences/metadata_sources.py:133-150 | the disabled set and cover_priorities become their committed forms, cover_priorities is written only when there are cover overrides, and both override maps are empty afterwards |
| MetadataSources.SourcesModel.RestoreDefaults | src/calibre/gui2/preferences/metadata_sources.py:152-158 | every source gets an override: Unchecked iff it is disabled by default, and its default cover priority (1 when it has none) |
| MetadataSources.WritePriorities | src/calibre/gui2/preferences/metadata_sources.py:141-147 | the loop over the cover overrides produces exactly the committed priorities |
| MetadataSources.RestoredPriorities | src/calibre/gui2/preferences/metadata_sources.py:152-158 | after restore_defaults and a commit every source shows its default priority |
| MetadataSources.State | src/calibre/gui2/preferences/metadata_sources.py:201-204 | a field's state is Unchecked exactly when it is ignored, and never PartiallyChecked |
| MetadataSources.MergedIgnored | src/calibre/gui2/preferences/metadata_sources.py:250-254 | the new ignored fields are the old ones without an override, together with the fields overridden to Unchecked |
| MetadataSources.CommitKeepsFieldStates | src/calibre/gui2/preferences/metadata_sources.py:206-214 | after a commit every field not overridden to PartiallyChecked shows the state it showed before: its override, or its old state |
| MetadataSources.FieldsModel.constructor | src/calibre/gui2/preferences/metadata_sources.py:169-181 | a new list has no fields and no overrides |
| MetadataSources.FieldsModel.Initialize | src/calibre/gui2/preferences/metadata_sources.py:189-199 | the fields are exactly those some source touches, other than identifier:* fields, series_index and language; they are sorted by description and listed once each |
| MetadataSources.FieldsModel.Data | src/calibre/gui2/preferences/metadata_sources.py:206-215 | no check state outside the list; inside it the field's override, else its state |
| MetadataSources.FieldsModel.SetData | src/calibre/gui2/preferences/metadata_sources.py:236-247 | the check box role on a listed row records the override and returns True; anything else changes nothing and returns False |
| MetadataSources.FieldsModel.SelectAll | src/calibre/gui2/preferences/metadata_sources.py:226-229 | every field is overridden to Checked |
| MetadataSources.FieldsModel.ClearAll | src/calibre/gui2/preferences/metadata_sources.py:231-234 | every field is overridden to Unchecked |
| MetadataSources.FieldsModel.RestoreDefaults | src/calibre/gui2/preferences/metadata_sources.py:221-224 | every field is overridden to its state under the default ignored fields |
| MetadataSources.FieldsModel.Commit | src/calibre/gui2/preferences/metadata_sources.py:249-254 | ignore_fields becomes the old ignored fields without an override together with the fields overridden to Unchecked |
| MetadataSources.FieldsModel.CommitUserDefaults | src/calibre/gui2/preferences/metadata_sources.py:265-270 | user_default_ignore_fields is rebuilt by the same rule |
| MtpDriver.LowerAll | src/calibre/devices/mtp/driver.py:106 | lpath has one lower-cased component per component of the path |
| MtpDriver.DefaultIgnored | src/calibre/devices/mtp/driver.py:115-141 | the default policy ignores a path exactly when it breaks one of the keep rules: listed top-level names, hidden top-level folders other than .tolino and .notebooks, system off a Kindle or outside system/thumbnails, and android outside android/data and android/data/com.amazon.kindle |
| MtpDriver.IsFolderIgnored | src/calibre/devices/mtp/driver.py:102-141 | a Kindle .sdr folder is always ignored; with user settings for the storage a path is ignored iff its lower-cased '/'-join is in the lower-cased configured set; otherwise the default policy decides, and an empty path there is the IndexError |
| MtpDriver.DefaultIgnoredInherited | src/calibre/devices/mtp/driver.py:115-141 | under the default policy a folder inside an ignored folder is ignored too |
| MtpDriver.KindleAppFolderKept | src/calibre/devices/mtp/driver.py:131-137 | the Kindle app's book folder android/data/com.amazon.kindle/files is scanned by the default policy |
| MtpDriver.GetPref | src/calibre/devices/mtp/driver.py:766-773 | the device-specific value if present, else the device default while a device is connected, else the global pref; a key the global prefs lack fails |
| MtpDriver.RemoveFirst | src/calibre/devices/mtp/driver.py:150-151 | list.remove guarded by membership takes out the first occurrence only, and nothing when there is none |
| MtpDriver.RemoveFirstMultiset | src/calibre/devices/mtp/driver.py:150-151 | removing takes one occurrence out of the multiset |
| MtpDriver.FrontTwo | src/calibre/devices/mtp/driver.py:149-152 | the loop over two folders puts the second one first and the first one second, ahead of the list with one occurrence of each removed |
| MtpDriver.KindleSendToOrder | src/calibre/devices/mtp/driver.py:148-153 | afterwards send_to starts with the Kindle app folder, then 'kindle', then the other folders in their old order |
| MtpDriver.KindleSendToCounts | src/calibre/devices/mtp/driver.py:148-153 | each of the two folders occurs once afterwards if it occurred at most once before, and every other folder as often as before |
| MtpDriver.KindleSendToIdempotent | src/calibre/devices/mtp/driver.py:143-153 | configuring for the Kindle app twice gives the same send_to as once |
| MtpDriver.SendSettings.constructor | src/calibre/devices/mtp/driver.py:155-158 | a fresh settings object stores none of the three settings |
| MtpDriver.SendSettings.ConfigureForKindleApp | src/calibre/devices/mtp/driver.py:143-153 | format_map and send_template get the Kindle values and send_to becomes the reordered old list |
| MtpDriver.SendSettings.ConfigureForGenericEpubApp | src/calibre/devices/mtp/driver.py:155-158 | the three settings are deleted, so send_to reads as its default again |
| MtpDriver.CacheIndex | src/calibre/devices/mtp/driver.py:310 | relpath_cache maps each relpath of the list to the last position holding it |
| MtpDriver.Reread | src/calibre/devices/mtp/driver.py:333-342 | a book read again describes the file: its size, time and id path |
| MtpDriver.Books | src/calibre/devices/mtp/driver.py:290-353 | every file on the device is in the list with its current size, time and path; cache entries no file matches are gone; a cached entry whose size matches keeps its metadata without being read again; without need_sync every entry keeps the cache's relpath, size and metadata, while its datetime and path are refreshed from the file |
| MtpDriver.ReconcileFile | src/calibre/devices/mtp/driver.py:312-342 | one turn of the loop keeps the reconciliation invariant |
| MtpDriver.DropGone | src/calibre/devices/mtp/driver.py:344-347 | deleting the unmatched positions from the highest down leaves the other books in order, and sets need_sync iff something was deleted |
| MtpDriver.StepMatched | src/calibre/devices/mtp/driver.py:315-325 | a file with a cache entry consumes the entry and makes it describe the file, re-reading its metadata only when the size differs |
| MtpDriver.StepNew | src/calibre/devices/mtp/driver.py:326-330 | a file without a cache entry gets a new book appended and sets need_sync |
| MtpDriver.BooksFinal | src/calibre/devices/mtp/driver.py:344-353 | after the deletion loop the list has the properties Books promises |
| SingleDownload.Comments.constructor | src/calibre/gui2/metadata/single_download.py:359-360 | a new message starts with no dots |
| SingleDownload.Comments.UpdateWait | src/calibre/gui2/metadata/single_download.py:364-367 | the count becomes (dots + 1) mod 10, or 1 instead of 0, so it is always in 1..9 |
| SingleDownload.Comments.ShowWait | src/calibre/gui2/metadata/single_download.py:359-362 | show_wait restarts the count and ticks once, leaving one dot |
| SingleDownload.NextDotsRange | src/calibre/gui2/metadata/single_download.py:364-367 | whatever the count was, one tick leaves between one and nine dots |
| SingleDownload.DotsCycle | src/calibre/gui2/metadata/single_download.py:359-367 | from show_wait on, the dots count 1, 2, ..., 9 and start again at 1 |
| SingleDownload.FirstOwner | src/calibre/gui2/metadata/single_download.py:706-710 | plugin_for_index answers a source whose rows hold the row, and None only when no source's rows do |
| SingleDownload.FirstOwnerUnique | src/calibre/gui2/metadata/single_download.py:706-710 | with disjoint rows the source plugin_for_index finds is exactly the one whose rows hold the row |
| SingleDownload.InsertBeforeLast | src/calibre/gui2/metadata/single_download.py:773 | list.insert(-1, x) puts x just before the last element, keeping the others |
| SingleDownload.ShiftList | src/calibre/gui2/metadata/single_download.py:770-772 | the inner loop bumps every row at or after last_row by one and leaves the others |
| SingleDownload.ShiftEach | src/calibre/gui2/metadata/single_download.py:769-772 | the outer loop bumps the rows of every source and keeps the sources |
| SingleDownload.InsertAt | src/calibre/gui2/metadata/single_download.py:774 | list.insert puts the new cover at the row and lengthens the list by one |
| SingleDownload.InsertKeepsEntries | src/calibre/gui2/metadata/single_download.py:769-774 | after the insertion and the bump every row still points at the entry it pointed at before |
| SingleDownload.MaxOf | src/calibre/gui2/metadata/single_download.py:764 | max(rows) is one of the rows and no row exceeds it |
| SingleDownload.MultiInsertValid | src/calibre/gui2/metadata/single_download.py:764-774 | inserting a multi-cover source's new cover keeps the row tables valid: the current cover first, each source with its own increasing rows |
| SingleDownload.MultiInsertEntries | src/calibre/gui2/metadata/single_download.py:764-774 | the new cover's row belongs to its source, and every old row still points at its old entry |
| SingleDownload.WaitingList | src/calibre/gui2/metadata/single_download.py:673-675 | one waiting entry per cover source, in order |
| SingleDownload.ResetDone | src/calibre/gui2/metadata/single_download.py:670-676 | after reset_covers the tables are valid, the sources are exactly the cover sources, and with distinct names source i owns exactly row i+1 |
| SingleDownload.TaggedAll | src/calibre/gui2/metadata/single_download.py:723-724 | every entry paired with its row before the list is rearranged |
| SingleDownload.Arranged | src/calibre/gui2/metadata/single_download.py:722-724 | the current cover stays first, then the other entries |
| SingleDownload.ArrangedTags | src/calibre/gui2/metadata/single_download.py:722-724 | every arranged entry is the entry at the row it is paired with |
| SingleDownload.Owners | src/calibre/gui2/metadata/single_download.py:723 | cmap holds plugin_for_index of every row |
| SingleDownload.CompactTable | src/calibre/gui2/metadata/single_download.py:724-732 | the compaction loop keeps the finished entries in order and lists every kept entry under the source cmap gives it, at its new position |
| SingleDownload.SurvivorsMember | src/calibre/gui2/metadata/single_download.py:725 | an entry survives exactly when it is not waiting |
| SingleDownload.SurvivorsPermutation | src/calibre/gui2/metadata/single_download.py:722-726 | dropping the waiting entries of two rearrangements of one list leaves rearrangements of each other |
| SingleDownload.SurvivorsSorted | src/calibre/gui2/metadata/single_download.py:722-726 | dropping entries from a sorted list leaves it sorted |
| SingleDownload.HeadUnowned | src/calibre/gui2/metadata/single_download.py:723 | no source owns row 0, the current cover |
| SingleDownload.ClearFailedValid | src/calibre/gui2/metadata/single_download.py:712-735 | clear_failed leaves valid tables: the current cover first, every source with increasing rows of its own |
| SingleDownload.ClearFailedOwners | src/calibre/gui2/metadata/single_download.py:712-735 | every kept entry is the entry at the row it came from, and it is listed under exactly the source that owned that row |
| SingleDownload.ArrangedRestSorted | src/calibre/gui2/metadata/single_download.py:717-722 | the finished entries after the first come by decreasing area, an entry without a pixmap counting as area 1 |
| SingleDownload.ClearFailedSorted | src/calibre/gui2/metadata/single_download.py:712-735 | after clear_failed the current cover comes first and the others follow by decreasing area |
| SingleDownload.ClearFailedKeeps | src/calibre/gui2/metadata/single_download.py:712-735 | clear_failed keeps exactly the entries that are not waiting, each once |
| SingleDownload.CompactLoop | src/calibre/gui2/metadata/single_download.py:724-732 | the loop builds good and the new plugin_map as the compaction does |
| SingleDownload.ExampleValid | src/calibre/gui2/metadata/single_download.py:756-789 | the example list with two single-cover sources is a valid state of the tables |
| SingleDownload.ClearFailedAsWrittenMisfiles | src/calibre/gui2/metadata/single_download.py:722-732 | on the example, clear_failed as written files the larger cover, moved to row 1, under the source that found the smaller one; the corrected rebuild files it under its own source |
| SingleDownload.CoversModel.constructor | src/calibre/gui2/metadata/single_download.py:658-668 | a new model holds the current cover and one waiting entry per cover source, with valid tables |
| SingleDownload.CoversModel.ResetCovers | src/calibre/gui2/metadata/single_download.py:670-676 | the current cover at row 0, then one waiting entry per source, the sources exactly the cover sources, and with distinct names plugin_map[plugin] == [i+1] |
| SingleDownload.CoversModel.PluginForIndex | src/calibre/gui2/metadata/single_download.py:706-710 | the loop returns the first source in iteration order whose rows hold the row, else None |
| SingleDownload.CoversModel.PointerFromIndex | src/calibre/gui2/metadata/single_download.py:737-742 | the full-size pixmap of a row inside the list, and nothing for a row beyond it either way |
| SingleDownload.CoversModel.IndexFromPointer | src/calibre/gui2/metadata/single_download.py:744-748 | the first row showing the pixmap, falling back to row 0 |
| SingleDownload.CoversModel.CoverPixmap | src/calibre/gui2/metadata/single_download.py:791-796 | a pixmap is returned exactly for rows in [1, len(covers)) with a pixmap that is not null |
| SingleDownload.CoversModel.ShiftRows | src/calibre/gui2/metadata/single_download.py:769-772 | every row of every source at or after the insertion row moves down by one |
| SingleDownload.CoversModel.UpdateResult | src/calibre/gui2/metadata/single_download.py:756-789 | an unknown source or a null pixmap changes nothing; a multi-cover result is inserted at its source's last row with every later row bumped; a single-cover result replaces the entry at its source's first row; the tables stay valid |
| SingleDownload.CoversModel.OwnerMap | src/calibre/gui2/metadata/single_download.py:723 | the loop computes plugin_for_index of every row |
| SingleDownload.CoversModel.ClearFailed | src/calibre/gui2/metadata/single_download.py:712-735 | the list and plugin_map become the corrected compaction, each kept entry under the source that owned its old row, and the tables stay valid |
| KoboBooks.BookKinds | src/calibre/devices/kobo/books.py:83-94 | a book is never both sideloaded and a purchased kepub, and it is one of them exactly when it has a non-empty content ID |
| KoboBooks.IsDebuggingTitle | src/calibre/devices/kobo/books.py:308-316 | false when DEBUG is off, and true only with a non-empty debugging title and a title |
| KoboBooks.DebuggingTitleIgnoresCase | src/calibre/devices/kobo/books.py:312-313 | while debugging, the test is a case-insensitive substring test, and an empty title always matches |
| KoboBooks.RatingText | src/calibre/devices/kobo/books.py:245 | str(orig_val / 2.0) of a half-star rating ends in ".0" or ".5" by its parity |
| KoboBooks.SplitOn | src/calibre/devices/kobo/books.py:225 | nv.split(':@:') gives at least one piece |
| KoboBooks.JoinSplitOn | src/calibre/devices/kobo/books.py:225 | joining the pieces of the split with the separator gives the template output back |
| KoboBooks.StrippedNonEmpty | src/calibre/devices/kobo/books.py:225 | the kept pieces are exactly the non-empty stripped pieces, each already stripped |
| KoboBooks.TemplateValues | src/calibre/devices/kobo/books.py:219-225 | the template's collection names are non-empty and stripped of Python's whitespace set |
| KoboBooks.FieldCategories | src/calibre/devices/kobo/books.py:228-259 | a falsy field value gives no categories |
| KoboBooks.CategoryName | src/calibre/devices/kobo/books.py:263-280 | a named collection comes from a truthy category and is str(category).strip(' ,'); a falsy category names nothing |
| KoboBooks.BracketedNeverNamed | src/calibre/devices/kobo/books.py:267-274 | a value "[x]" of tags or of a custom text column never names a collection |
| KoboBooks.CategoryNamed | src/calibre/devices/kobo/books.py:276-280 | every other truthy value names the collection str(category).strip(' ,') |
| KoboBooks.AttrsFor | src/calibre/devices/kobo/books.py:169-200 | a new book under manual management uses device_collections and the metadata attributes, under other modes the metadata attributes; an existing book under on_connect the metadata attributes, otherwise only device_collections; the template comes last when there is one |
| KoboBooks.LowerAll | src/calibre/devices/kobo/books.py:141-144 | the collection attributes lower-cased, one for one |
| KoboBooks.KeptNames | src/calibre/devices/kobo/books.py:185-192 | the device-managed collections the book is already in |
| KoboBooks.Updated | src/calibre/devices/kobo/books.py:181-195 | an existing eligible book under on_connect has its device_collections cleared; any other book is unchanged |
| KoboBooks.IneligibleUnnamed | src/calibre/devices/kobo/books.py:158-165 | a book without an lpath, without an application id or that cannot be put on shelves is in no collection |
| KoboBooks.ExistingKeepsDeviceCollections | src/calibre/devices/kobo/books.py:167-169 | an existing book outside on_connect, without a template, is put exactly in the collections it is in on the device |
| KoboBooks.Add | src/calibre/devices/kobo/books.py:282-289 | adding a book creates the collection when missing and touches no other collection |
| KoboBooks.Entries | src/calibre/devices/kobo/books.py:147-291 | one entry per book of the list |
| KoboBooks.BooksOf | src/calibre/devices/kobo/books.py:294-300 | the result has one list of books per collection, in the order they were added |
| KoboBooks.AddAllConcat | src/calibre/devices/kobo/books.py:185-289 | putting a book in the collections of a then of b is putting it in those of a + b |
| KoboBooks.GatherDistinct | src/calibre/devices/kobo/books.py:282-289 | no collection built from the entries holds an lpath twice |
| KoboBooks.GatherValid | src/calibre/devices/kobo/books.py:147-291 | every entry of a collection comes from a book whose names include it, and every book is in every collection it names |
| KoboBooks.CollectDistinct | src/calibre/devices/kobo/books.py:282-289 | each book appears at most once per collection, keyed by lpath |
| KoboBooks.CollectSound | src/calibre/devices/kobo/books.py:147-291 | every entry of a collection is an eligible book of the list, under its lpath, whose names include the collection |
| KoboBooks.CollectComplete | src/calibre/devices/kobo/books.py:147-291 | every eligible book is, by its lpath, in every collection it names |
| KoboBooks.UpdatedAll | src/calibre/devices/kobo/books.py:195 | the books as the loop leaves them, each updated on its own |
| KoboBooks.LowerAttributes | src/calibre/devices/kobo/books.py:141-144 | the loop lower-cases every collection attribute |
| KoboBooks.AddKept | src/calibre/devices/kobo/books.py:185-194 | the loop puts the book in every device-managed collection it is already in |
| KoboBooks.AddCategories | src/calibre/devices/kobo/books.py:263-291 | the loop puts the book in the collection each category names |
| KoboBooks.AddAttributes | src/calibre/devices/kobo/books.py:202-291 | the loop puts the book in the collections every attribute names |
| KoboBooks.AddBook | src/calibre/devices/kobo/books.py:158-291 | one eligible book goes in all its collections and is left updated |
| KoboBooks.CollectLoop | src/calibre/devices/kobo/books.py:147-291 | the loop over the books builds the collections of all of them and leaves every book updated |
| KoboBooks.KTCollectionsBookList.constructor | src/calibre/devices/kobo/books.py:132-134 | a new list holds the books and no device-managed collections |
| KoboBooks.KTCollectionsBookList.SetDeviceManagedCollections | src/calibre/devices/kobo/books.py:302-303 | the device-managed collections become the given names |
| KoboBooks.KTCollectionsBookList.GetCollections | src/calibre/devices/kobo/books.py:136-300 | the result maps every collection to its books as the specification of the loop gives them, and the books are left updated |
| Delete.RemovalFor | src/calibre/gui2/actions/delete.py:222-230 | a book is recorded iff its format list exists and at least one of its lower-cased formats is kept; it then loses exactly its formats minus the kept ones |
| Delete.NeverRemovesAll | src/calibre/gui2/actions/delete.py:227-230 | a recorded book keeps at least one format: its removal set is a strict subset of its formats |
| Delete.Removals | src/calibre/gui2/actions/delete.py:220-230 | the removals map has exactly the selected books with a kept format, each mapped to its formats minus the kept ones |
| Delete.CountRemovedIsPairs | src/calibre/gui2/actions/delete.py:360-361 | with one entry per book, the count in the undo message is the number of distinct (book, format) pairs removed |
| Delete.MultiDeleter.constructor | src/calibre/gui2/actions/delete.py:33-38 | a new deleter queues the ids with nothing deleted or failed |
| Delete.MultiDeleter.DeleteOne | src/calibre/gui2/actions/delete.py:44-62 | with no ids left it cleans up and hands over the deleted ids; otherwise the last id is popped and appended to deleted_ids or failures, and every original id stays queued, deleted or failed exactly once |
| Delete.MultiDeleter.Record | src/calibre/gui2/actions/delete.py:48-59 | the popped id goes to deleted_ids on success and to failures with its title otherwise, nothing else changing |
| Delete.Shown | src/calibre/gui2/actions/delete.py:49-53 | the title shown is the database's title when non-empty, else "id:" followed by the id |
| Delete.DeviceNextRow | src/calibre/gui2/actions/delete.py:305-307 | the new row is row-1 when row > 0, else row+1, clamped to [0, rowCount] |
| Delete.LibraryCurrentRow | src/calibre/gui2/actions/delete.py:332-337 | a valid current row is kept, an invalid one becomes row_count()-1, and no row stays no row |
| AutoAdd.AutoAdded | src/calibre/gui2/auto_add.py:20 | a format is auto-added exactly when it is a book extension other than pdr, mbp and tan |
| AutoAdd.AllowedFormats | src/calibre/gui2/auto_add.py:23-38 | with auto_add_everything a format is admitted iff it is not blocked; otherwise iff it is in AUTO_ADDED and not blocked |
| AutoAdd.SplitExt | src/calibre/gui2/auto_add.py:64 | os.path.splitext splits the path into two parts that concatenate back to it, the second being empty or a dot followed by no dot or slash |
| AutoAdd.SplitExtOf | src/calibre/gui2/auto_add.py:64 | a name "stem.e" whose last component has a non-dot before its last dot splits into ("stem", ".e") |
| AutoAdd.ExtensionOf | src/calibre/gui2/auto_add.py:64 | the extension the worker tests never contains a dot |
| AutoAdd.ExtensionOfName | src/calibre/gui2/auto_add.py:64 | the extension of "stem.e" is e lower-cased |
| AutoAdd.CompileAll | src/calibre/gui2/auto_add.py:55 | compiling the rules succeeds iff every rule compiles, and then yields each rule's compiled form in order |
| AutoAdd.Worker.constructor | src/calibre/gui2/auto_add.py:43-51 | a new worker holds allowed_formats() and the rules read by read_rules |
| AutoAdd.Worker.ReadRules | src/calibre/gui2/auto_add.py:53-59 | the compiled rules are all rules compiled when every one compiles, and empty when any one fails |
| AutoAdd.Worker.IsFilenameAllowed | src/calibre/gui2/auto_add.py:61-66 | the rules' verdict when they give one; otherwise whether the lower-cased extension after the last dot is admitted |
| AutoAdd.DefaultPolicyAdmits | src/calibre/gui2/auto_add.py:32-38 | under the default policy "stem.e" is admitted iff lower(e) is a book extension other than pdr, mbp, tan and is not blocked |

## Left out

- Qt presentation: icons (`ensure_icon`, value and category icons, `rename_user_category_icon`), fonts, tooltips, `data` roles, `flags`, and model-reset and change signals. A `QModelIndex` is modelled by the node it points at, and the invalid index is the root.
- Drag and drop transport: `mimeData`, `dropMimeData`, `handle_drop`, `do_drop_from_library`, and the outer loop of `move_or_copy_item_to_user_category`, which resolves each dragged path with `index_for_path` and writes the preference back. `process_source_node` itself is modelled.
- The database and preference collaborators: `get_categories`, `field_metadata`, `prefs`/`gprefs`, `rename_items`, `saved_search_rename`, `set_in_tag_browser`, `research_required`, and `clean_items_from_user_categories`, which queries the database. Category lists, field metadata and settings are parameters, and the user categories are a map held by `UserCategoryPrefs`.
- `setData` on value nodes: the blank-name check, the author '&' check and the saved-search rename are not modelled. Value renames are modelled through `rename_item`.
- ICU: `collation_order_for_partitioning`, `sort_key` and `primary_sort_key` orders are parameters. `icu_lower` and `icu_upper`, and Python's `str.lower()`, are ASCII case mapping; `str.strip()` uses Python's full whitespace set. `strcmp` is plain equality, and `startswith` is a plain prefix test.
- The collapse-label template formatter is a parameter with a failed outcome.
- The translated category name `_('News')` is the literal "News".
- The average-rating computation is left out because it is floating point. A hierarchical node's computed rating is a value the caller supplies, and only whether it is set (the ValueError) is modelled.
- KoboBooks.LowerAll: `str.lower()` is modelled as ASCII lower-casing, so letters outside ASCII keep their case.
- KoboBooks.IsDebuggingTitle: the title comparison lower-cases with ASCII lower-casing only, as `str.lower()` is modelled.
- AutoAdd.Worker.IsFilenameAllowed: the extension is lower-cased with ASCII lower-casing only, as `str.lower()` is modelled.
- MtpDriver.LowerAll: the path components are lower-cased with ASCII lower-casing only, as `str.lower()` is modelled.
- TagPrune.PruneRootsOk, TagPrune.Pruning, TagPrune.FixUpPruned, TagBrowser.TagsModel.FixUpTree, TagBrowser.TagsModel.CreateNodeTree and TagBrowser.TagsModel.RebuildNodeTree: these state the tree after the corrected process_uc_children pass listed under Findings, not the pass as written.
- Toolbar actions: the identity of an action object is its `id` field, so two separators with equal names are two actions.
- Tag identity, which `tokens` uses in `nodes_seen` and which `intermediate_nodes` shares, is modelled by the Tag's index in the Tag arena.
- TagBrowser.TagsModel.AttachValue, TagBrowser.TagsModel.WalkLevels and TagBrowser.TagsModel.PlaceValue: the name of each level's Tag is stated as it was when the level was placed. That later levels, values and categories leave it unchanged is not proved, because a Tag object is shared between levels and between categories and a later level can rename it. The books a value's last level holds are proved to persist.
- TagBrowser.TagsModel.ProcessOneNode: the values of each category are taken to be distinct Tag objects, as `get_categories` builds them.
- TagBrowser.TagsModel.Toggle: the configured transition graph must reach a state the node may hold. Over the five search states it then does so within five steps. A graph that never reaches one makes the source loop forever, and that case is excluded by the precondition.
- TagBrowser.RenameItemNames: stated for plans that rename no Tag twice. When two renames reach the same shared Tag, the later one wins, and the lemma does not describe that case.
- CategoryRename.RenameUserCategorySpec: stated when no key differs from the renamed one only in letter case. With such keys the source can raise KeyError, which the model returns as the `MissingKey` outcome but the lemma does not characterise.
- Sorting.Sort: stability is not stated. Callers rely only on the result being ordered and a permutation of the input.
- SingleDownload.ClearFailedSorted: covers of equal area are not proved to keep their relative order.
- Threads and processes: the cover and identify workers, `fork_job`, and the auto-add `Worker.run`, `auto_add` and `do_add` with the `staging` set they share.
- MTP device I/O (transfers, thumbnails, `_update_drive_info`, `recursive_delete`) and the metadata readers. The files listed, the cache as decoded, and the result of reading one file's metadata are parameters.
- `Book.mtp_relpath` is not part of this model: a new book's relpath is taken to be its file's relpath.
- MtpDriver.Books: the deletion loop `for idx in sorted(values, reverse=True)` is modelled as a descending scan over positions that tests membership in the set of positions to delete. It makes the same deletions in the same order.
- Kobo `Book.__init__` date parsing and `SafeFormat` template evaluation are left out; the template output is a parameter.
- Kobo type errors: a rating whose original value is not a number, or a composite value that is not text, would raise in the source. The model falls back to the value's list form instead.
- Cover areas come from the pixmaps passed in. Image scaling and loading downloaded bytes are done by the caller.
- Dialogs and confirmations are left out. The Douban confirmation, the answers of `delete_book`, and `int(val)` for a cover priority are parameters.

## Findings

| source | as written | input that shows it | evidently intended | confidence | as-written member | corrected member |
|---|---|---|---|---|---|---|
| src/calibre/gui2/tag_browser/model.py:1652-1675 | each user category's list is turned into a dict keyed by the item name alone, and the old name is popped without checking its field | a category holding the author "Y" and the tag "X", with the tag X renamed to "Y": only the tag "Y" is left and the author is lost | only the item of the renamed field changes; items of other fields are kept | not executed | UserCategories.RenameAsWrittenLosesAuthor | UserCategories.RenamedSpec |
| src/calibre/gui2/tag_browser/model.py:775-798 | a missing neighbour is a sentinel interval of length 100000000, and the merge writes `intervals[idx-1]` or `intervals[idx+1]` by comparing lengths alone | lengths [1, 100000001] with the first one short: the sentinel is shorter, so `intervals[-1]`, the last interval, is overwritten and its 100000001 values are lost. Lengths [100000000, 1] with the last one short: the sentinel is not shorter, so `intervals[2]` is written and raises IndexError | the first interval merges into the next one, the last into the previous one, and the total length is kept | not executed | FirstLetter.MergeAsWrittenLosesValues | FirstLetter.Merge |
| src/calibre/gui2/metadata/single_download.py:722-732 | `cmap` maps each row of the list before sorting to its plugin, but is read with the position after sorting | the current cover, then plugin P's 2x5 cover at row 1 and plugin Q's 10x10 cover at row 2: sorting by area puts Q's cover at position 1, where it is filed under P | each kept cover stays filed under the plugin that produced it | not executed | SingleDownload.ClearFailedAsWrittenMisfiles | SingleDownload.CoversModel.ClearFailed |
| src/calibre/gui2/preferences/toolbar.py:178-189 | `indices` is sorted by row, but the moves iterate over `items`, which keeps the selection order | actions [a, b, c] with rows 0 and 1 moved down by one: a moves past b, then b moves back past a, and the list ends as [a, b, c] | the selected block moves down by one, giving [c, a, b] | not executed | Toolbar.SelectionOrderUndoes | Toolbar.CurrentModel.MoveMany |
| src/calibre/gui2/tag_browser/model.py:972-985 | `process_uc_children` tests whether a child is empty before pruning that child's own children | '@A' holding '@A.B', which holds only an empty '@A.B.C': '@A.B.C' is removed, '@A.B' is then empty but is kept | a user category left empty once its empty sub-categories are removed is removed too | not executed | TagPrune.AsWrittenKeepsEmptyUserCategory | TagPrune.UcChildrenPruned |
