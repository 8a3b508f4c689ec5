# Client logic of an online role-playing game, verified

The client draws a world that a server describes. Behind the drawing it keeps several tables of its own that have to
agree with each other at every moment. This project models five of these components in Dafny and proves what they
are for.

- **The bounding-box tree** (`Geometry`, `BBox*`): an adaptive binary tree over static boxes, with dynamic boxes added
  to and deleted from the nodes of a path, answers which boxes a view frustum can see. The tree over an array of nodes
  is built, changed and searched by methods of the class `BBoxTree`; an inductive tree stands beside the array, and
  the theorems about it say that the lists shown are at every moment what a brute-force test would give.
- **Actors** (`Actors*`, `Command*`): a dense registry with index links between rider and horse that are patched when
  elements move, and the bounded queue of commands of an actor, with the position of the server running ahead.
- **The calculator** (`Calc*`): a shift-reduce parser on an array of tokens computes exactly the language of its
  grammar, and the operators L and X are inverse to each other.
- **The cache system** (`Cache*`): sorted arrays with two-level accounting of sizes in wrapping arithmetic and a
  deletion that calls itself through the removal of its own entry.
- **Clusters and channel tabs** (`Cluster*`, `Chat*`): two-pass labelling of a grid, and the in-place renumbering of
  tabs.

Each component has specification modules of functions and lemmas and a module of classes and methods that change arrays
and fields in place; the methods are proved against the functions. `dafny verify dfyconfig.toml` checks everything.

The functions that the methods are proved against are tied to what they are for by statements that do not use them:
lists show what is in sight in terms of points and planes (`BBoxShown`), nodes are split for what it is worth in volumes
(`BBoxPlan`), results of the calculator obey the laws of arithmetic (`CalcResults`), actors end up sitting and fighting
as they were told (`CommandStarts`), objects stay in a cache as long as they are used and not much longer
(`CacheAges`), and the tab bar is given tab by tab (`ChatNew`).

Where the code does not always do what one would expect, the exact condition is proved.

- Deletion with several entries of one key: what it leaves (`DeleteClearsKeyIff`, `DeleteIs`), when the cached lists
  agree with the list of the root all the same (`DeletionStaysFreshIff`) and when with what a check would collect
  (`DeletionAgreesWithCullIff`); the two differ (`ThirdIsShown`). What holds in every run: `EveryRunIsBounded`.
- The command queue: cancellation when it is full (`CancelsThePairIff`), and what is lost of where an actor ends up
  (`ReceivedKeepsTheEndIff`) and of whether it fights (`ReceivedKeepsFightingIff`).
- Positions: a step is lost if a move finds the queue full (`ReceiveKeepsStepIff`), if a command starts while a step is
  in flight, as it may once an animation has freed the actor (`NextKeepsStepIff`, `ReleasedStepIsLostIff`), and for every
  run_* command; in no run is any other step lost (`EveryStepIsAccountedFor`).
- The calculator: sentences too deep for the stack (`SentencesAreEvaluatedIff`). Tabs that move up:
  `SequentialIsRightIff`; the comment on `update_tab_idx` (Client/chat.c:97-102) asks for new indices below the old ones,
  the proved condition is weaker.
- Labels of connected cells may differ (`ConnectedMayDiffer`), but not if no join loses a link (`LosslessIsExact`), and
  none does on a grid with few forks (`FewForksIsExact`). These two conditions are not necessary (`LossMayHeal`).

## Model

| member | source | states |
|---|---|---|
| Geometry.CornersAreExtreme | Client/vmath.h:277-301 | The two corners chosen by a plane mask bound the plane value of every point of the box from below and above. |
| Geometry.DotsMonotone | Client/bbox_tree.c:116-126 | Shrinking a box moves both chosen corners inwards: the reason why a verdict on a node says something about what it contains. |
| Geometry.CalcPlaneMask | Client/frustum.c:73-78 | The masks it computes agree with the signs of the plane, as all tests of boxes rely on; the plane itself stays. |
| Geometry.FarDotMeaning | Client/bbox_tree.c:116-122 | The value at the far corner is negative exactly if every point of the box lies behind the plane. |
| Geometry.NearDotMeaning | Client/bbox_tree.c:124-130 | The value at the near corner is negative exactly if some point of the box lies behind the plane. |
| Geometry.VolumeOfParts | Client/bbox_tree.c:617-619 | What the area tables hold is a volume: it adds up when a box is cut across any of the three axes. |
| Geometry.VolumeSign | Client/bbox_tree.c:617-619 | It is never negative, and 0 exactly for a box that is flat along some axis. |
| Geometry.VolumeUnit | Client/bbox_tree.c:617-619 | It is 1 for a unit cube anywhere, and moving a box does not change it. |
| BBoxItems.PassesByPoints | Client/bbox_tree.c:170-192 | A box passes the test exactly if for each plane of the mask some point of it is not behind the plane. |
| BBoxItems.ClassifyByPoints | Client/bbox_tree.c:102-136 | The verdict by points: OUTSIDE if all of the box is behind one plane, INSIDE if none of it is behind any, otherwise INTERSECT with exactly the planes that some of it is behind. |
| BBoxItems.TypesDiffer | Client/bbox_tree.c:946-976 | The sixteen combinations of flags give sixteen types, which no other kind of object has. |
| BBoxItems.KeyOfAdded | Client/bbox_tree.h:372-385 | An entry added for a material of a 3D object has the key by which that object is deleted, whatever the material; all other entries go by their own number and type. |
| BBoxItems.OneKeyIff | Client/bbox_tree.h:372-385 | Two entries of 3D objects are deleted together exactly if they are of one object and their types have one mask. |
| BBoxItems.VerdictOnContents | Client/bbox_tree.c:102-136 | OUTSIDE means that every contained box is rejected by the full mask, INSIDE that every one passes, INTERSECT that the narrowed mask decides for every contained box as the full one does. |
| BBoxItems.VerdictOnItems | Client/bbox_tree.c:289-315 | The same for whole item lists: filtering with the narrowed mask, or not at all, gives the list that filtering with the full mask gives. |
| BBoxItems.HullIsLeast | Client/bbox_tree.c:261-268 | Folding VMin/VMax over boxes gives the least box around them: it fits in a box exactly if the start and every item do. |
| BBoxItems.HullOfItems | Client/bbox_tree.c:607-616 | Starting from the inverted box of 10^31 makes no difference as long as one box comes within that: the hull is the least box around the items. |
| BBoxItems.HullOfSameBoxes | Client/bbox_tree.c:1273-1277 | A hull depends only on which boxes it covers, not on order or repetition. |
| BBoxItems.DeleteMaskMatchesInsertedType | Client/bbox_tree.c:946-1011 | The mask computed for deleting a 3D or water object is the mask of the type it was inserted with; for 2D objects the two never agree. |
| BBoxTreeSpec.RecomputedIsExact | Client/bbox_tree.c:1259-1280 | The box recomputed after a deletion from the static box, the children and the own entries is the exact hull of the static range and the own entries. |
| BBoxTreeSpec.InsertKeeps | Client/bbox_tree.c:1119-1140 | Adding a dynamic entry, with a key in use or not, keeps the invariant of every node (exact boxes; entries of children contained in the parent and of no key more than the parent has; `extra` names the first child exactly when the entry is there), for any growth test. |
| BBoxTreeSpec.InsertRootKeeps | Client/bbox_tree.c:1119-1140 | At the root the entries are the old ones and the new one, and the static part of the tree is untouched. |
| BBoxPaths.FitsIffGrowthIsSmall | Client/bbox_tree.c:1069-1085 | A box fits a node exactly if the two together have at most the given multiple of the volume of the node, also where the node is flat and the division is by zero. |
| BBoxPaths.InsertGives | Client/bbox_tree.c:1119-1140 | For every node below: it gets the entry, at the end of its list and with a wider box, exactly if the box fits all nodes on the way and no first child that the way passes by; the flag says whether the first child takes it; all other nodes stay as they are. |
| BBoxPaths.InsertRootGives | Client/bbox_tree.c:1142-1153 | So it is in the whole tree, where the root gets the entry in any case. |
| BBoxTreeSpec.DeleteSettles | Client/bbox_tree.c:1187-1287 | Whatever a deletion of a key leaves or skips: entries with other keys stay at every node, no child ever has more entries with the key than its parent, and the box of a node that is rid of the key is exact. |
| BBoxTreeSpec.DeleteKeeps | Client/bbox_tree.c:1251-1287 | If no two entries with the key are neighbours at the root, deletion removes the key and nothing else, from every node, reports whether it was there, and keeps the invariant, also where entries are neighbours further down. |
| BBoxTreeSpec.DeleteUndoesInsert | Client/bbox_tree.c:1119-1287 | Inserting below a node and deleting the same fresh key gives the node back, with every box and list. |
| BBoxTreeSpec.DeleteUndoesInsertRoot | Client/bbox_tree.c:1142-1297 | Inserting into a tree and deleting the same fresh key gives the tree back. |
| BBoxTreeSpec.ScanSkims | Client/bbox_tree.c:1231-1246 | Without the assumption that keys are unique: the deleting scan keeps what a filter keeps and every entry that moves into a freed slot. |
| BBoxTreeSpec.DeleteClearsKeyIff | Client/bbox_tree.c:1224-1249 | A deletion clears a key from the root list exactly if no two entries with it are neighbours there. |
| BBoxTreeSpec.TwoMaterialsLeaveOne | Client/bbox_tree.c:1231-1246 | So it is with two materials of one 3D object, alpha or not: added in a row to any tree, one of them stays behind. |
| BBoxRemains.DeleteIs | Client/bbox_tree.c:1187-1287 | What a deletion leaves at every node, from the lists before it and for any keys: the list of the root skimmed, and each child deleted from once for each hit on its flag; a box is recomputed exactly if there was a hit. |
| BBoxRemains.DeleteKeepsBoxes | Client/bbox_tree.c:1251-1287 | After any deletion every box in the tree is what a recomputation would give. |
| BBoxRemains.InsertRootKeepsBoxes | Client/bbox_tree.c:1119-1153 | So it is after any insertion. |
| BBoxCull.CullIsBruteForce | Client/bbox_tree.c:289-317 | In any tree with right boxes, whatever its dynamic lists hold, the recursive cull collects every static item exactly as often as the brute-force filter with the full mask does. |
| BBoxCull.CullDynIsBruteForce | Client/bbox_tree.c:289-317 | The dynamic entries collected are, as a set, the root entries that pass the full mask. |
| BBoxCull.CullEntries | Client/bbox_tree.c:289-317 | Together: the collected entries are those of a brute-force filter over all static items and dynamic entries. |
| BBoxCull.CullIsExact | Client/bbox_tree.c:289-317 | Also where the lists of parents and children disagree: of what is in sight, the cull collects all static items and exactly the entries on the root list and on the lists below it as long as the frustum crosses the boxes on the way. |
| BBoxCull.CalcBoxIsLeast | Client/bbox_tree.c:319-347 | The box accumulated by the recursive scan fits in a box exactly if the start and every surviving static and dynamic box do. |
| BBoxCull.CalcSceneBoxIsHull | Client/bbox_tree.c:502-514 | The scene box is the hull of all boxes that survive the brute-force test, although nodes fully inside contribute only their own box. |
| BBoxRuns.DeletionAgreesWithRecomputation | Client/bbox_tree.c:447-481 | Deleting a key in place from the type segments of an up-to-date list gives what a fresh cull of the tree without the key would give. |
| BBoxRuns.CheckIsFresh | Client/bbox_tree.c:483-500 | A stale list is up to date after a check: segment by segment it holds the brute-force result. |
| BBoxRuns.DeletionStaysFreshIff | Client/bbox_tree.c:1289-1297 | Without any assumption on dynamic keys: a cached list that agreed with the list of the root still does after a deletion exactly if all entries with the key that the skimmed root list keeps are out of sight. |
| BBoxRuns.StepKeepsInv | Client/bbox_tree.c:1142-1297 | Every insertion (of a key in use or not), check, change of frustum or of view, and every deletion of a key of which no two entries are neighbours at the root, keeps the tree sound and all lists not marked stale up to date. |
| BBoxRuns.RunsStayFresh | Client/bbox_tree.c:483-500 | So it is at every moment of every run of these. |
| BBoxShown.CheckShows | Client/bbox_tree.c:483-500 | After the check of a stale list each of its segments holds exactly the static and dynamic objects of its type that have, for each plane of the frustum set, some point not behind it. |
| BBoxShown.SetAndCheckShows | Client/bbox_tree.c:1771-1782 | That frustum is the one last given to set_frustum. |
| BBoxShown.CheckShowsItemsOnce | Client/bbox_tree.c:289-317 | Static objects come as often as they were put in, however the tree splits them. |
| BBoxShown.RunsShowWhatIsInSight | Client/bbox_tree.c:483-500 | At every moment of every such run a list not marked stale shows, for each type, exactly the static objects and those added and not deleted since that are in sight, by points, through the frustum it was last checked with. |
| BBoxAnyRuns.DeletionAgreesWithCullIff | Client/bbox_tree.c:447-500 | When a deletion in place agrees with a check of the tree left over: exactly if the entries with the key on the lists that the check looks at (the list of the root, and those below it as long as the frustum crosses the boxes on the way) are out of sight. |
| BBoxAnyRuns.ThirdStaysBelow | Client/bbox_tree.c:1187-1246 | Three entries with one key of which the last two fit the first child: after a deletion the root keeps the second and the child the third, which the root has lost. |
| BBoxAnyRuns.ThirdIsShown | Client/bbox_tree.c:289-317 | In that tree, with the second out of sight and the third in sight, a check collects the third again although nothing on the list of the root is in sight. |
| BBoxAnyRuns.EveryRunIsBounded | Client/bbox_tree.c:1142-1297 | In every run whatsoever, with any dynamic and static keys added and deleted in any order: all boxes stay right, and a cached list that is not stale shows only what is in the tree, in sight and has no key deleted since its last check, and shows all of that that is static or on the list of the root. |
| BBoxAnyRuns.BoundedIsFreshIff | Client/bbox_tree.c:483-500 | While parents and children agree, such a list is right exactly if nothing with a key deleted since its last check is in sight. |
| BBoxBuild.BestSplitMeaning | Client/bbox_tree.c:815-851 | The chosen split is the leftmost one of least cost, and there is one exactly if its cost is below that of keeping a leaf. |
| BBoxBuild.ThresholdOfPermutation | Client/bbox_tree.c:815-834 | The keep-as-leaf threshold does not depend on the order into which an axis sorts the items. |
| BBoxBuild.FewNodes | Client/bbox_tree.c:892-914 | A built tree of n items has at most 2n-1 nodes, so the array of nodes never has to grow. |
| BBoxPlan.SplitPays | Client/bbox_tree.c:819-846 | Every node that is split gains by it: the volumes of its halves, each times the number of its items, make less than its volume times its number of items less three. |
| BBoxPlan.SplitInOrder | Client/bbox_tree.c:584-599 | Along some axis no item of the second half has its lower corner below that of an item of the first. |
| BBoxPlan.BigLeaf | Client/bbox_tree.c:819-851 | In a leaf of more than 8 items no cut pays, of the items sorted by their lower corners along x, along y or along z. |
| BBoxPlan.FlatIsNeverSplit | Client/bbox_tree.c:827-851 | Items that all lie in one plane across an axis are never split, however many there are. |
| BBoxPlan.WidestFirst | Client/bbox_tree.c:659-688 | The widest axis is tried first and the narrowest last. |
| BBoxBuild.FreshTreeIsSound | Client/bbox_tree.c:892-914 | A built tree without dynamic entries satisfies the dynamic invariant. |
| BBoxTrees.CheckAabbInFrustum | Client/bbox_tree.c:102-136 | The loop over the mask returns the verdict; for a proper box OUTSIDE says that all its points are behind one plane, INSIDE that none is behind any, and the mask names exactly the planes that some are behind. |
| BBoxTrees.CheckAabbOutsideFrustum | Client/bbox_tree.c:170-192 | The loop says outside exactly if all points of the box are behind one plane of the mask. |
| BBoxTrees.BuildStartStop | Client/bbox_tree.c:415-445 | On any list sorted by type the tables delimit, for each type, exactly the slots of that type, and nothing for absent types. |
| BBoxTrees.ExactSegments | Client/bbox_tree.c:415-445 | Segments of a list so delimited hold each type as often as the list does. |
| BBoxTrees.DeleteFromSegment | Client/bbox_tree.c:447-481 | The in-place deletion leaves of one segment the entries without the key, and touches no slot outside it. |
| BBoxTrees.CheckAabbInsidePortals | Client/bbox_tree.c:194-222 | True exactly if for one portal all four planes keep the box. |
| BBoxTrees.PortalByPoints | Client/bbox_tree.c:194-222 | A portal shows a box exactly if for each of its four planes some point of the box is not behind it. |
| BBoxTrees.ReflectionPortalChecks | Client/bbox_tree.c:1784-1803 | Items outside all portals are hidden behind the last type, all others stay where they are. |
| BBoxTrees.MarkingFilters | Client/bbox_tree.c:1784-1821 | After hiding, each type has exactly the items that pass a portal. |
| BBoxTrees.BBoxTree.BuildAreaTable | Client/bbox_tree.c:601-632 | The prefix and suffix tables hold the volumes (Geometry.VolumeOfParts, VolumeSign, VolumeUnit) of hulls computed from scratch. |
| BBoxTrees.BBoxTree.FindAxisAndBBox | Client/bbox_tree.c:634-689 | The box is the hull of the range and the axes come in decreasing extent. |
| BBoxTrees.BBoxTree.ScanCosts | Client/bbox_tree.c:819-834 | The scan yields the leftmost cheapest split below the threshold, or none. |
| BBoxTrees.BBoxTree.FindSplit | Client/bbox_tree.c:815-851 | The split is that of the first axis, in decreasing extent, whose cheapest split beats the threshold, in terms of volumes; the range is left sorted by that axis. |
| BBoxTrees.BBoxTree.SortAndSplit | Client/bbox_tree.c:793-890 | The recursion terminates, only permutes its range, and builds nodes for a tree whose leaves partition the range and whose boxes are hulls; every node is a leaf or split as the search along the axes says (BBoxBuild.Planned), also after re-sorting below. |
| BBoxTrees.BBoxTree.InitBBoxTree | Client/bbox_tree.c:892-914 | From any items: a tree over a permutation of them that satisfies the invariant of runs, with every node a leaf or split as the search says; BBoxPlan draws the consequences. |
| BBoxTrees.BBoxTree.CheckSubNodes | Client/bbox_tree.c:289-317 | The recursion over the node array appends to the current list what the cull of the tree yields, which BBoxCull.CullIsExact and BBoxItems.PassesByPoints give by points. |
| BBoxTrees.BBoxTree.CalcBBoxSubNodes | Client/bbox_tree.c:319-347 | The recursion over the node array computes the box of the tree. |
| BBoxTrees.BBoxTree.CalcSceneBBox | Client/bbox_tree.c:502-514 | The scene box of the current view is the hull of all survivors. |
| BBoxTrees.BBoxTree.AddDynamicAabbToAbtNode | Client/bbox_tree.c:1119-1140 | The recursion over the node array inserts into the tree, and reports whether the box fitted. |
| BBoxTrees.BBoxTree.DeleteDynamicItemFromNode | Client/bbox_tree.c:1187-1222 | Closing the gap in a dynamic list and recomputing the box. |
| BBoxTrees.BBoxTree.DynamicAabbIsInNode | Client/bbox_tree.c:1224-1249 | The scan that deletes while it goes, following the extra flags. |
| BBoxTrees.BBoxTree.DeleteDynamicAabbFromNode | Client/bbox_tree.c:1251-1287 | The recursion over the node array deletes from the tree. |
| BBoxTrees.BBoxTree.CheckBBoxTree | Client/bbox_tree.c:483-500 | A step of runs; the current list is then exact, no longer stale, and if it was stale its segments show exactly the objects in sight by points. |
| BBoxTrees.BBoxTree.AddAabbToAbt | Client/bbox_tree.c:1142-1153 | A step of runs that marks all lists stale; the growth test is the source's, with the limit 1.1. |
| BBoxTrees.BBoxTree.DeleteAabbFromAbt | Client/bbox_tree.c:1289-1297 | A step of runs that edits every list in place. |
| BBoxTrees.BBoxTree.DeleteItemFromIntersectList | Client/bbox_tree.c:447-481 | From every list, stale or not, the key goes and the segments stay well formed. |
| BBoxTrees.BBoxTree.ReflectionPortalCheck | Client/bbox_tree.c:1805-1821 | On a freshly built list: the segments hold exactly the items that pass a portal. |
| CalcLanguage.SentencesAreEvaluatedIff | Client/calc.c:72-99 | Every sentence for which the stack has room, however long, is evaluated to its meaning in the grammar (sums below products below prefix L and X, all left-associative), with the same error where that has one; a sentence with a value that needs more room is reported as too much. The room is a function of the nesting of the sentence. |
| CalcLanguage.FeedAllInRoom | Client/calc.c:80-88 | While there is room a whole run follows the automaton and fails where that fails. |
| CalcLanguage.AcceptedAreSentences | Client/calc.c:72-99 | Any token string accepted without error is a sentence for which there was room, and its value is the result. |
| CalcLanguage.CalcComputesTheLanguage | Client/calc.c:72-99 | Both directions, for token strings of any length: one yields a value exactly if it is a sentence with that value and the stack has room for it. What the values are by ordinary arithmetic: CalcResults. |
| CalcResults.SumsAdd | Client/calc.c:169-185 | On the results of calc_exp itself: for a sum or difference that fits the stack the result is the sum or difference of the results of its two parts; the error of the first part that has one counts. |
| CalcResults.ProductsMultiply | Client/calc.c:147-156 | The same for products. |
| CalcResults.QuotientsDivide | Client/calc.c:157-168 | The same for quotients: the result times that of the divisor is that of the dividend; the divisor 0 is an error. |
| CalcResults.RemaindersRemain | Client/calc.c:186-197 | The same for remainders: what a whole multiple of the divisor leaves, smaller in size than it and 0 or with the sign of the dividend; the divisor 0 is an error. |
| CalcResults.RemainderIsUnique | Client/calc.c:186-197 | There is just one such remainder. |
| CalcResults.AtomsStand | Client/calc.c:198-204 | A number is its own result, and parentheses change none. |
| CalcResults.LooksUp | Client/calc.c:116-128 | L of a whole level is its entry in the table, and fails exactly for what is not between 0 and 179. |
| CalcResults.LooksBack | Client/calc.c:129-146 | X fails exactly for what is not between 0 and the last entry. |
| CalcResults.LookUpsCancel | Client/calc.c:116-146 | Written before any factor with a result, X undoes L on all levels above 0, and L undoes X on all experience above the first entry. |
| CalcParse.FeedFollowsDelta | Client/calc.c:102-214 | One shift and all reductions follow one step of an automaton that reads the grammar. |
| CalcParse.FeedAllFollowsWalk | Client/calc.c:80-88 | So does a whole run; once off the language a run never ends in a single number. |
| Calc.EndNeverFails | Client/calc.c:90-92 | The reductions after END raise no error. |
| Calc.Calculator.CalcPush | Client/calc.c:309-316 | Shifts a token, or reports a full stack and leaves it. |
| Calc.Calculator.CalcInspect | Client/calc.c:328-331 | The token below the top, none below the bottom. |
| Calc.Calculator.ReduceStack | Client/calc.c:102-214 | One reduction on the array of tokens is one reduction of the stack, with the value that CalcResults gives by the laws of arithmetic. |
| Calc.Calculator.CalcExp | Client/calc.c:72-99 | The whole loop on the array computes the result of the run, of which CalcResults gives the arithmetic; the last result is kept on errors. |
| Calc.XOperator | Client/calc.c:133-140 | The search for the level finds the least entry not below the value. |
| CalcXp.LOnSegment | Client/calc.c:116-124 | L on a segment of the table is the straight line between its ends, also at the upper end. |
| CalcXp.XOnSegment | Client/calc.c:129-143 | X is the inverse line on the segment, also at the upper end, where the search steps back. |
| CalcXp.XUndoesL | Client/calc.c:116-146 | X(L(v)) = v for every level above 0 up to 179, whole levels included, in any strictly increasing table. |
| CalcXp.LUndoesX | Client/calc.c:116-146 | L(X(v)) = v for all experience above the first entry up to the last. |
| ActorsSpec.DestroyIsExact | Client/actor_scripts.c:1749-1800 | Destroying an actor removes exactly it and its attachment; every survivor keeps its id and is attached to the same object, wherever the two were moved; ids stay unique, links mutual, the list dense. |
| ActorsSpec.AttachKeepsIff | Client/actors.c:244-271 | Attaching keeps the links mutual exactly if the actor had no attachment. |
| ActorsSpec.DetachIsExact | Client/actors.c:321-351 | Detaching removes the attachment only and leaves its bearer without a partner. |
| ActorsSpec.AddKeeps | Client/actors.c:225-235 | Adding keeps ids unique and links mutual. |
| ActorsSpec.WithoutIdIsGone | Client/actors.c:1554-1567 | One removal leaves no actor of an id. |
| ActorsSpec.StepKeepsOk | Client/actor_scripts.c:1749-1800 | Every add, attach, detach and destroy keeps the registry sound. |
| ActorsSpec.RunsStayOk | Client/actor_scripts.c:1749-1800 | So it is in every run. |
| Actors.Registry.RemoveSlot | Client/actor_scripts.c:1766-1777 | The last element moves into the gap and its partner is told. |
| Actors.Registry.DestroyActor | Client/actor_scripts.c:1749-1800 | The two removals on the array of pointers are the destruction of the actor; no effect for an unknown id. |
| Actors.Registry.AddActor | Client/actors.c:225-235 | The first free slot is the one after the last. |
| Actors.Registry.AddActorAttachment | Client/actors.c:244-271 | Two actors are linked to each other; nothing happens for an unknown id or kind. |
| Actors.Registry.RemoveActorAttachment | Client/actors.c:321-351 | The attachment is removed from the array of pointers. |
| Actors.Registry.RemoveDuplicates | Client/actors.c:1554-1567 | The search that goes on at the refilled slot leaves no actor with the id, and removes one actor and its attachment at most. |
| Actors.Registry.AddActorFromServer | Client/actors.c:1554-1627 | The newcomer replaces an actor of the same id and brings its own attachment; the registry stays sound. |
| Actors.Registry.GetActorPtrFromId | Client/actors.c:1684-1693 | Null exactly if there is no actor with the id. |
| CommandSpec.ReceivedKeepsOk | Client/actor_scripts.c:1906-2074 | After any command the queue is a prefix without holes of at most 30 entries. |
| CommandSpec.CancelsThePairIff | Client/actor_scripts.c:2049-2074 | leave_combat and enter_combat with only turns between them cancel and the turns stay in order, exactly if the queue had room or there are no turns; on a full queue the last turn is left twice. |
| CommandSpec.LastTurnTwice | Client/actor_scripts.c:1874-1881 | The concrete case: a full queue of moves, leave_combat and one turn ends in that turn twice. |
| CommandSpec.CancelsNothingElse | Client/actor_scripts.c:2049-2074 | In every other case enter_combat is just appended, unless the queue is full. |
| CommandSpec.PushPerforms | Client/actor_scripts.c:1836-1871 | Collapsing sit/stand commands is invisible: performing the queue ends as if the command had been appended, or dropped if the queue is full. |
| CommandSpec.ReceivedKeepsTheEndIff | Client/actor_scripts.c:1906-2074 | Whatever is stripped, collapsed or cancelled, performing the queue ends on the same tile and sitting the same as performing the old queue and the new command, exactly unless a full queue drops a command that would have changed one of these. |
| CommandSpec.ReceivedKeepsFightingIff | Client/actor_scripts.c:1948-2074 | The fighting flag at the end is kept too, exactly unless a pair is cancelled after commands that leave the actor not fighting, die1 or die2 strips the blows that made it fight, or a full queue drops a command that would have changed the flag. |
| CommandRuns.WalkReceived | Client/actor_scripts.c:1906-2074 | No step is lost from the sum of the queued steps, but for a move that finds the queue full. |
| CommandRuns.AsyncStepIsMotion | Client/actor_scripts.c:195-247 | The table of steps used on arrival and the one used when a move ends agree for every command. |
| CommandRuns.ReceiveKeepsStepIff | Client/actor_scripts.c:2083-2177 | An arriving command keeps server position = displayed position + move in flight + queued moves exactly if it is not a move into a full queue. |
| CommandRuns.NextKeepsStepIff | Client/actor_scripts.c:985-1710 | For any state of the actor: next_command keeps that equation exactly if it goes on with what is being done, or nothing is in flight that it would forget and what it starts is not a run_* command that the actor does not move for. |
| CommandRuns.FinishMoveLosesNothing | Client/actor_scripts.c:341-375 | The end of a move changes nothing about what is missing of the server position, also when the next move starts at once. |
| CommandRuns.ReleasedStepIsLostIff | Client/actor_scripts.c:597-650 | Freeing a moving actor keeps the equation by itself; the next command, or an empty queue, then loses the step in flight, and exactly that, unless there is none, the command waits for an emote to end, or it is wait_cmd. |
| CommandRuns.EveryStepIsAccountedFor | Client/actor_scripts.c:341-375 | Conservation in every run whatsoever: what the displayed position will miss of the server position is the sum of the steps lost on the way (moves dropped at a full queue, moves in flight forgotten at a start, run_* commands), and nothing else. |
| CommandRuns.RunsStayInStep | Client/actor_scripts.c:341-375 | In runs without run_* commands and moves into a full queue in which only the end of a move frees an actor with a step in flight, nothing is lost: performing what is queued leads to the position of the server, which is the displayed one when nothing is left to do. |
| CommandStarts.ShortQueuesGrow | Client/actor_scripts.c:1836-1871 | With at most 23 commands in the queue a new one is appended; leave_combat, die1 and die2 strip the blows first. |
| CommandStarts.LongQueuesShrink | Client/actor_scripts.c:1836-1871 | Up to 29 commands, all stay in order but one sit_down or stand_up at most. |
| CommandStarts.StartIsDo | Client/actor_scripts.c:1121-1198 | next_command makes the actor sit, stand, fight or stop fighting exactly as performing the command it starts does, and otherwise leaves that alone. |
| CommandStarts.NextKeepsTheEnd | Client/actor_scripts.c:985-1710 | Whatever it does, performing what is left of the queue ends sitting and fighting the same as before. |
| CommandStarts.StepKeepsTheEnd | Client/actor_scripts.c:341-375 | So does every end of a move or of an animation. |
| CommandStarts.RunsEndAsTold | Client/actor_scripts.c:985-1710 | At every moment of every run, arrivals included: performing the queue ends sitting as all commands that have arrived say, unless a full queue has dropped one that mattered, and fighting likewise, with the exact exceptions of CommandSpec.ReceivedKeepsFightingIff. |
| CommandStarts.IdleIsAsTold | Client/actor_scripts.c:985-1710 | When nothing is left to do the actor sits and fights as told. |
| CommandStarts.FreeActorStarts | Client/actor_scripts.c:1691-1710 | A free actor starts the first command: it leaves the queue, is remembered and makes the actor busy, with the exceptions of the range pose; only moves and turns left or right make it move. |
| CommandStarts.BusyIsLeftAlone | Client/actor_scripts.c:987-1002 | A busy actor is left alone, but an emote at the head of the queue always goes. |
| CommandStarts.EmoteIsPlayed | Client/actor_scripts.c:1004-1009 | An actor that plays an emote waits, unless it walks and the next command is a move. |
| CommandStarts.EmoteIsSkipped | Client/actor_scripts.c:987-1002 | An emote at the head does not keep the command behind it from being started. |
| CommandStarts.NothingIsDone | Client/actor_scripts.c:1014-1019 | An empty queue makes the last command forgotten; wait_cmd changes nothing but the pose. |
| CommandStarts.AimModes | Client/actor_scripts.c:1314-1490 | What each command does to the range pose: entering, leaving and firing in it and outside it, with and without reloading, turns, and commands that do not go with it. |
| CommandStarts.AimingTakesTwo | Client/actor_scripts.c:1698-1709 | Entering the pose stays queued the first time and aims the second time. |
| CommandStarts.PoseIsLeftAtTheEnd | Client/actor_scripts.c:597-604 | Leaving the pose, or firing without reloading, ends it not at once but with the animation. |
| CommandStarts.WalksOn | Client/actor_scripts.c:341-375 | At the end of a move the tile takes over the step, a walking actor with more moves queued walks on at once, and any other comes to rest. |
| CommandQueues.Actor.PushCommandInActorQueue | Client/actor_scripts.c:1836-1871 | The array then holds the queue with the command pushed; the index returned is that of the command. |
| CommandQueues.Actor.SanitizeCmdQueue | Client/actor_scripts.c:1874-1881 | Closes the two holes of a cancelled pair, also when the second is past the last slot scanned. |
| CommandQueues.Actor.StripBlows | Client/actor_scripts.c:1948-1974 | The two-index loop filters the listed commands out of the array. |
| CommandQueues.Actor.CancelLeaveCombat | Client/actor_scripts.c:2049-2074 | Looks back over turns and cancels. |
| CommandQueues.Actor.AddCommand | Client/actor_scripts.c:1883-2177 | The array, the server position and all else change as the arrival of the command says. |
| CommandQueues.Actor.UnqueueCmd | Client/actor_scripts.c:470-479 | Shifts the first command out. |
| CommandQueues.Actor.MotionVector | Client/actor_scripts.c:195-247 | The step of a command, and whether it has one. |
| CommandQueues.Actor.NextCommand | Client/actor_scripts.c:985-1710 | Emotes go at once, other commands when the actor is free; what then happens to all its flags is said by CommandStarts. |
| CommandQueues.Actor.MoveToNextFrame | Client/actor_scripts.c:597-650 | An animation that is to stop and has run out frees the actor and completes leaving the range pose; an actor without an animation is only freed. |
| CommandQueues.Actor.FinishMove | Client/actor_scripts.c:341-375 | The displayed tile moves and a queued move starts. |
| CacheLevels.CleanKeepsExactly | Client/cache.c:266-299 | The downward scan that removes while it goes leaves the entries that are to stay, in order; which these are says CacheAges.CleanedIff. |
| CacheAges.CleanedIff | Client/cache.c:283-285 | An entry survives a clean exactly if it has no contents, is in use, or its last use and the limit, modulo 2^32, are not before now. |
| CacheAges.InUseSurvives | Client/cache.c:283-285 | An entry in use survives every clean. |
| CacheAges.JustUsedSurvives | Client/cache.c:283-285 | One that has just been used survives the next clean, however late, unless its count has run over. |
| CacheAges.CompactedIff | Client/cache.c:318-335 | Compaction makes an entry smaller exactly if it has contents, is not in use and its time is over. |
| CacheAges.UseIsNoted | Client/cache.c:345-353 | Finding, resizing, renaming or adding an object notes the time. |
| CacheAges.LastUsedIsFound | Client/cache.c:400-433 | The entry used last is the one found by its contents. |
| CacheAges.UsedObjectsStay | Client/cache.c:266-340 | In every run an object stays in its cache from each use until the time limit is over, through all cleans and compactions, as long as the clock does not wrap around in between. |
| CacheAges.CompactionForgets | Client/cache.c:332-335 | A compaction within the limit clears the count of an entry and is no use of it. |
| CacheAges.UnusedObjectsGo | Client/cache.c:266-340 | In every run an object with contents goes at the first clean after its limit, if a compaction within the limit has cleared its count and it has been left alone since. |
| CacheLevels.AdjustPassesOn | Client/cache.c:541-558 | A change of size changes the total of the cache and the entry and total of the system by the same amount, modulo 2^32. |
| CacheLevels.AddPassesOn | Client/cache.c:445-485 | So does adding an item; a full cache changes nothing. |
| CacheLevels.RemovePassesOn | Client/cache.c:560-596 | So does removing one. |
| CacheLevels.RemoveAllPassesOn | Client/cache.c:638-664 | So does removing all, which leaves a total of 0. |
| CacheLevels.CompactPassesOn | Client/cache.c:301-340 | So does compaction, whatever it frees. |
| CacheLevels.CompactReportsWhatItFrees | Client/cache.c:301-340 | The number of bytes that compaction reports is what has gone from the total, modulo 2^32. |
| CacheLevels.DeleteIsExact | Client/cache.c:219-244 | Deleting a cache removes its entry and takes exactly base size plus total out of the system, although the contents are subtracted twice before the entry is removed; all other entries are untouched. |
| CacheSpec.AddKeepsOk | Client/cache.c:469-480 | Insertion keeps the names sorted, the total the sum of sizes and the recent item a member. |
| CacheSpec.RenamedKeepsOk | Client/cache.c:528-539 | Renaming and sorting keep all of that. |
| CacheSpec.RenamedIsNamed | Client/cache.c:528-539 | The entry about the pointer then has the new name and the time of the change, and all others are as before. |
| CacheSpec.FirstDifferenceDecides | Client/cache.c:42-48 | The order of names is that of strcmp: the first difference decides. |
| CacheSpec.BeginningsComeFirst | Client/cache.c:42-48 | And a name comes after its own beginnings. |
| CacheRuns.StepKeepsInv | Client/cache.c:187-664 | Every init, add, adjust, rename, find, clean, compact and delete keeps all live caches sound and balanced with the system. |
| CacheRuns.SystemCountsEverything | Client/cache.c:187-664 | In every run the total of the system is the sum of base sizes and totals of the registered caches, modulo 2^32. |
| Caches.Cache.CacheFind | Client/cache.c:355-398 | Returns an item of the name if and only if one is stored, through the recent item or the binary search. |
| Caches.Cache.FindPtr | Client/cache.c:400-433 | Finds the recent item or the first one about the pointer, and marks it used. |
| Caches.Cache.AdjSize | Client/cache.c:541-558 | Both levels on the heap. |
| Caches.Cache.AddItem | Client/cache.c:445-485 | Both levels on the heap; null exactly if the cache is full. |
| Caches.Cache.SetName | Client/cache.c:528-539 | The array ends up a sorted permutation with the new name. |
| Caches.Cache.Remove | Client/cache.c:560-596 | Both levels on the heap. |
| Caches.Cache.CacheRemoveAll | Client/cache.c:638-664 | Both levels on the heap, from the last item down. |
| Caches.Cache.Clean | Client/cache.c:266-299 | The loop on the shrinking array keeps the items that CacheAges.CleanedIff names. |
| Caches.Cache.Compact | Client/cache.c:301-340 | The loop on the array, on both levels, and the number of bytes reported; which items it makes smaller says CacheAges.CompactedIff. |
| Caches.Cache.Delete | Client/cache.c:219-244 | The deletion with its re-entrant call through the removal of the entry in the system. |
| Caches.Cache.CacheInit | Client/cache.c:187-217 | An empty cache, registered if the system has room. |
| ClusterPass.PassHasWitnesses | Client/cluster.c:59-116 | Invariant of the first pass: labels are those begun, links never lead to larger labels, and a label and its link stand for connected cells. |
| ClusterPass.LabelsAreClustered | Client/cluster.c:118-128 | Label 0 exactly for unoccupied cells, all of 1..cnr in use, and equal labels only where an 8-connected path of occupied cells joins the cells. |
| ClusterOrder.LabelsInOrder | Client/cluster.c:118-128 | Going by rows, every number but 1 comes up after the number below it. |
| ClusterComplete.LosslessIsExact | Client/cluster.c:108-112 | If no join overwrites or skips a link of a label that is not a root, equal labels and connection are the same. |
| ClusterForks.FewForksIsExact | Client/cluster.c:72-112 | A condition on the grid alone: if no component has three forks (cells whose neighbours before them fall into two groups) that join what no path through earlier cells joined, no join loses a link and equal labels and connection are the same. In particular at most two forks in a component are harmless. |
| ClusterLoss.ConnectedMayDiffer | Client/cluster.c:110-112 | Three are too many: on a grid of 12 by 6 cells with three forks two connected cells get different labels. |
| ClusterLoss.ForksOfLostLink | Client/cluster.c:72-112 | The forks of that grid are exactly three cells. |
| ClusterLoss.LossMayHeal | Client/cluster.c:110-112 | Both conditions are sufficient but not necessary: with one cell more a link is lost all the same, and the labels come out exact. |
| Clusters.LabelCell | Client/cluster.c:68-115 | One cell of the first pass on the arrays. |
| Clusters.RelinkLabels | Client/cluster.c:110-112 | The table after the links that meet at a cell are lowered. |
| Clusters.Renumber | Client/cluster.c:118-125 | In one ascending pass every label gets the number of its root. |
| Clusters.ComputeClusters | Client/cluster.c:46-129 | The array of labels, with all of the above, if fewer labels are begun than the table holds. |
| ChatSpec.SequentialIsRightIff | Client/chat.c:95-128 | For all tables of tabs: renumbering one channel after the other equals renumbering all at once, exactly if no channel moves up into a position whose own tab is still to be dealt with. |
| ChatSpec.MovingDownIsClear | Client/chat.c:95-102 | That holds where positions only decrease, as the comment in the source expects. |
| ChatSpec.TabsKeepTheirChannel | Client/chat.c:108-128 | Every surviving tab denotes its channel, tabs of channels left are gone, other tabs are untouched, indices stay distinct. |
| ChatSpec.NewIndexIsFree | Client/chat.c:130-151 | When the tab of a new channel is added no other tab has its index. |
| ChatSpec.SetTabsKeeps | Client/chat.c:108-170 | Distinct indices and live tabs are kept from one list of channels to the next. |
| ChatSpec.SetTabsCompletes | Client/chat.c:108-170 | If the table is not full at the end, every active channel has a tab. |
| ChatSpec.BarIsCompact | Client/chat.c:1588-1602 | The tab bar, which shifts tabs down, behaves like the window table with its gaps closed. |
| ChatSpec.BarKeepsItsChannels | Client/chat.c:108-128 | In the bar, too, the tabs of channels left are gone and all others stand for what they did, in the same order, although all indices have changed. |
| ChatSpec.SetBarKeeps | Client/chat.c:1802-1875 | The bar keeps distinct, live indices; the test for a tab that is already there never finds one. |
| ChatNew.SetBarIsExact | Client/chat.c:108-152 | The bar after the channels are set, tab by tab: those that were there less those of channels left, in order and for what they stood for, and then one with the id made for it for each new channel, in order, as far as there is room for 12. |
| ChatNew.NewChannelsHaveTheirTab | Client/chat.c:130-151 | In the window each new channel has the tab made for it, or none, and then no slot is free. |
| ChatTabs.Chat.UpdateTabButtonIdx | Client/chat.c:1588-1602 | The first tab with the old index gets the new one. |
| ChatTabs.Chat.RemoveTabButton | Client/chat.c:1853-1875 | The first tab with the index goes and the later ones move down. |
| ChatTabs.Chat.AddTabButton | Client/chat.c:1802-1851 | A tab is appended unless the index has one or the bar is full. |
| ChatTabs.Chat.UpdateChatTabIdx | Client/chat.c:383-397 | The first open slot with the old index gets the new one. |
| ChatTabs.Chat.RemoveChatTab | Client/chat.c:319-340 | The first open slot with the index is closed. |
| ChatTabs.Chat.AddChatTab | Client/chat.c:342-381 | The first closed slot is opened. |
| ChatTabs.Chat.SetChannelTabs | Client/chat.c:108-152 | Both tables after the two loops. |
| ChatTabs.Chat.SetActiveChannels | Client/chat.c:154-170 | The list is replaced and padded with 0, and both tables follow. |

## Left out

- OpenGL drawing, Cal3D animation, textures, sound, windows and widgets, XML and file reading, network sends: foreign calls. Widget and window ids are parameters.
- BBoxCull.CullIsBruteForce: floats are real numbers and bit masks are sets of plane indices; the per-cluster filter of lists (`CLUSTER_INSIDES` builds) is not part of the model.
- BBoxTrees.BBoxTree.CheckBBoxTree: lists grow without the reallocation code; the order of lights by distance within a type is left open, sorting is only by type. The start and stop tables begin zeroed, as `clear_bbox_tree` leaves them; `build_bbox_tree` leaves them uninitialised.
- BBoxRuns.RunsStayFresh: for deletions of keys that no static item carries and of which no two entries are neighbours at the root; other runs are the subject of BBoxAnyRuns.EveryRunIsBounded. 2D objects cannot be deleted by their mask at all (BBoxItems.DeleteMaskMatchesInsertedType).
- BBoxRuns.StepKeepsInv: for the same deletions; for all others BBoxAnyRuns.AnyStepKeepsInv.
- BBoxRuns.DeletionStaysFreshIff: about the list of the root only; about all lists BBoxAnyRuns.DeletionAgreesWithCullIff.
- BBoxTrees.BBoxTree.ReflectionPortalCheck: only on a freshly built list; after an in-place deletion stale slots are sorted in again.
- BBoxTrees.BBoxTree.InitBBoxTree: sorting is by any sorted permutation, with no promise about equal keys, as for `qsort`.
- BBoxTrees.BBoxTree.AddAabbToAbt: the growth test is over reals, where the source divides floats.
- BBoxShown.RunsShowWhatIsInSight: for the deletions of BBoxRuns.RunsStayFresh.
- CacheAges.UsedObjectsStay: as long as the clock plus the limit stays below 2^32.
- The cull for shadows (Client/bbox_tree.c:1453-1725) is a heuristic without an exactness claim.
- Builds without `FASTER_MAP_LOAD`.
- CalcXp.XUndoesL: doubles are real numbers. X of a value not above the first entry reads the table before its start; its result is unspecified in the model.
- CalcLanguage.CalcComputesTheLanguage: the lexer (`strtod`) is not part of the model; the token pushed after a division by zero has no value, the error is sticky. Which of two errors is reported for a sentence without a value that also needs more room than there is, is left open.
- ActorsSpec.RunsStayOk: callers attach only to actors without an attachment and detach only existing ones (they check both, Client/console.c:665-675); a registry that is full is not modelled.
- Actors.Registry.AddActor: the failure for unknown actor types, and all fields but id and attachment.
- CommandRuns.EveryStepIsAccountedFor: for actors without a rider or horse; the queue of the other half and the lock-step between the two are not modelled, nor what is done about a full queue (skipping emotes, asking for all actors again, Client/actor_scripts.c:2191-2228).
- CommandQueues.Actor.AddCommand: the queue of the rider or horse, and what follows on a full queue, as above.
- CommandQueues.Actor.MoveToNextFrame: the waiting of rider and horse for each other (Client/actor_scripts.c:571-593); times are real numbers, and that there is a model, the animation and its times are parameters.
- CommandQueues.Actor.StartCommand: animations, rotations and the time a move takes; which emote plays, whether the bones are rotated and whether the bow is reloaded are parameters.
- CommandQueues.Actor.CancelLeaveCombat: the source reads the slot before the first one when only turns precede; the model tests the index first.
- Caches.Cache.CacheFind: which of several items with one name is found is left open, as for `bsearch`.
- Caches.Cache.Clean: the returned number of bytes, which the source reads from freed items; the callback that frees a payload does not touch the cache.
- Caches.Cache.Delete: deleting the system itself, and the lists of caches scanned by its maintenance.
- ClusterComplete.LosslessIsExact: sufficient only, as is ClusterForks.FewForksIsExact; that neither is necessary is proved by ClusterLoss.LossMayHeal.
- ChatTabs.Chat.AddTabButton: every channel has a label; the return before the tab is counted, for one without, is not modelled.
- ChatTabs.Chat.SetActiveChannels: with tab bar and chat window both in use; labels, colours and closing by the user are not modelled.
- Word wrapping, buddy lists, bags, achievements, astrology and the like.
