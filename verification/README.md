# jsonot and sharedb, verified

`jsonot` transforms, applies, inverts, composes, prints and parses operations on JSON documents. `sharedb` keeps
versioned documents on top of it: it rebases what clients submit, logs it, publishes it, and can go back in the log.
This project models both and proves what they keep and what they promise. `dafny verify dfyconfig.toml` checks it all.

## What is proved

**Convergence.** `TreeConvergence.Convergence`: for every JSON document and every two components valid on it (list
insert, delete, replace and move, object insert, delete and replace, number-add, at any paths), applying left and then
the transformed right gives the same document as applying right and then the transformed left, if and only if no edit
is lost. `EditLost` says it on the two components alone, before any transformation: a replacement or move whose element
a deletion or a move brings to the front of its array, a replacement of what is concurrently set to null, or left
deleting the key that right replaces. A lost move among equal elements (`LossShows`) is the one loss that makes no
difference. The list core is arithmetic on sixteen pairs of operators (`ListConvergence`). On a conflict over one key
left's edit is the one that stays, with two exceptions (`TreeConvergence.LeftWins`).

Two components that fit no one document can meet too, when one side inserts a key and the other edits below it or puts a
value at it (`KeyConflicts`). An edit below a key that right inserts comes back as two components, which take the
insertion back and then do what the edit does alone (`KeyConflicts.EditUnderInsertion`); an insertion on the left has
the last word. So such a pair converges with the insertion on the left, and with the edit on the left if and only if the
value inserted is just what the edit builds there (`KeyConflicts.InsertionOverEdit`).

*Valid* (`Validity.Fits`) means: every container on the path is there; a list insertion is at most at the end; a
deletion or replacement records the value that is there; an object insertion is at a key that is not there; a
number-add is at a number, which the code changes in an object and leaves alone in a list; and the target of a move is
a position of its list. The code accepts more than that. A move past the end appends, but two of them diverge, exactly
when they move different elements that are not equal (`Clamping.MovesPastTheEndDiverge`); clamped to the last position
they do the same and converge (`Clamping.ClampingConverges`). A replacement or move that changes nothing is not
transformed; `Noops.NoopConverges` says when that is harmless. What applying does where a component does not fit is in
`Edges`: past the end of an array, below and at missing keys, at stale positions, below null and scalars, at the root.

**Rebasing.** A component rebased over any run of committed ones stays valid on the current document, except when it
records a number that was just added to (`Rebase.RebaseFits` is an if and only if), and the client that applied its
operation first ends with the document the server stores (`EndToEnd.ClientAndServerAgree`). Over whole interleaved
runs in which what is committed are such components, every client does (`Runs.ClientsMeetInRuns`).

**Algebra.** Inversion, merging, composing, diffing and the JSON form of operations each have a theorem against the
meaning of `Apply`. Where the code falls short each says exactly on what: `Inversion.InverseUndoes`,
`Collapse.ComposeExactly`, `History.InverseOperationExactly`, `History.TimeTravel`, `History.RollBackAgrees`,
`DiffReach.DiffReaches`, `DiffBack.DifferenceUndone` and `Wire.ComponentRoundTrip` are if and only if. `Literals`
spells the JSON form out key by key. When a no-op in a list has swallowed an edit,
what composing means depends on the components after it, and there `Collapse.Keeps` compares what they lead to with and
without the edit: components that fit the document without it never make up for it (`Collapse.LossStays`), one that
writes over the place blindly does (`Limits.OverwritingMakesUp`).

**The server.** `Requests.Serve` runs one request alone. `Protocol` cuts it into the steps that read and write shared
state, `Machine` interleaves the steps of any number of clients, documents and subscribers, and `Runs` proves that
every such run is serializable, that the log is numbered and never loses a commit, that the cache refines the log, and
that subscribers are told in order exactly what was logged, and miss nothing that fits their channel; a waiting request
can always be served (`Delivery`). `Faithful` and `Retry` add what holds over whole histories: snapshots are
folds of the log, going back reaches published documents, retries are recognised, absorbed operations stay absorbed.
`Server.Server` is the object itself, its maps updated in place, proved to do exactly what `Serve` says. Its cache holds
component objects, cloned on the way in and out; the transformation and the inversion edit components in place
(`Transformer`), and what is cached still holds what the log parses to (`Server.CachedObjectsRefineLog`).

**The mailbox.** A client that replays from what it received last gets every envelope once and in order, whatever the
page sizes and whatever is appended in between; the acknowledgement cursor never moves back.

## How to read it

| files | what they hold |
|---|---|
| Json, Operators, Sequences, TextOps | documents, paths, operators, list and text edits |
| Apply, Applier, Routing, Edges | applying operators: the meaning, the code in place, how it acts at a path, and where components do not fit |
| Transform, Transformer | transforming: the meaning, and the code with its in-place edits |
| Validity, ListConvergence, BothOrders, Nested, TreeConvergence, Tracking, Rebase, Noops, Clamping, KeyConflicts | convergence, element tracking, absorption, rebasing, components that change nothing, moves past the end, conflicts over a key |
| Algebra, Inversion, Composition, Collapse, History | invert, merge, append, compose, what composing costs, time travel |
| Wire, Literals | print and parse, and the JSON form key by key |
| Keys, Diff, DiffReach, DiffBack | the difference of two documents, where applying it leads, and where undoing it does |
| ShareDb, Requests, Serial, Refusals, Faithful, Retry, EndToEnd | one request at a time and what histories of requests keep |
| Protocol, Machine, Runs, Delivery | interleaved runs |
| Memory, Server, Mailbox | the objects of `sharedb`, updated in place |
| Limits | concrete inputs on which the code does not do what it is meant to |

A document is an immutable `Value`; numbers are integers. A path step holds a key and an index, as in the source. Go's
error returns are `Result` values; a Go panic is the error `Panic`. Requests that carry no payload carry `None`.
A `Room` is all the server keeps about one document ID; five of its fields (`feed`, `births`, `initial`, `applied`, `past`)
are history that the source does not store and that no decision reads.

Where code and documentation differ, the model follows the code:

- README.md:164-170 says to apply either side's result after the other operation. That converges under the conditions
  above, and only for operations of one component (transform.go:100-157).
- The comments on `Submit` (sharedb/server.go:257-265) and on publishing (sharedb/server.go:416) have the lock released
  first; the code publishes while it still holds it (sharedb/server.go:291-295, 417-428). The order of events rests on that.
- The comment on `SubmitRequest` (sharedb/server.go:57-60) speaks of the already committed result; a retry is answered
  with the logged operation and the current version and snapshot, as sharedb/README.md:168 says.
- The comment on `RollbackToVersion` (sharedb/server.go:484-485) speaks of one inverse operation. When one operation
  inserted a key and a later one deleted it, their inverses collapse, and the operation logged applies to no object
  (`Limits.RollbackLogsWhatDoesNotApply`), though the document stored is right.

## Model

| member | source | states |
|---|---|---|
| `Sequences.MoveMove` | apply.go:314-329 | two pairs of moves that lead every position back to the same origin give the same list |
| `Sequences.MoveStays` | apply.go:314-329 | moving an element changes nothing if and only if it moves among its equals |
| `TextOps.InsertsAt` | subtype.go:553-610 | a text insertion in range puts its text at its offset and nothing else |
| `TextOps.InsertsElsewhere` | subtype.go:553-610 | a text insertion onto nothing is its text, past the end it is appended, before the start only its text is left, and anything but a string refuses it |
| `TextOps.DeletesOnlyAtStart` | subtype.go:587-606 | a text deletion succeeds if and only if it is at the start of a string that begins with its text, or deletes nothing outside the string; what it leaves then |
| `TextOps.MergeInserts` | subtype.go:433-486 | two in-range insertions that merge do at once what they do in turn |
| `TextOps.DeletionsMerge` | subtype.go:464-480 | two text deletions merge exactly when the first is inside the second, to one deletion of both texts |
| `Apply.IndexFunc` | apply.go:383-408 | the search loop finds the given position if it holds the value, else the only position that does, else falls back to the given one |
| `Applier.Items.Delete` | apply.go:273-287 | editing the list in place removes the element at the looked-up position |
| `Applier.Items.Insert` | apply.go:289-296 | inserts at the index, or appends when it is past the end |
| `Applier.Items.Replace` | apply.go:299-311 | replaces at the looked-up position, unless that is the first one or holds null |
| `Applier.Items.Move` | apply.go:314-329 | takes out and puts back, unless the source is the first element; a negative target panics |
| `Applier.Node.ApplyToKey` | apply.go:332-380 | the object edit in place, and the error on operators objects do not take |
| `Applier.Node.Set` | apply.go:95-164 | writing a value at a path child by child gives what routing it there means |
| `Applier.Node.ApplyAt` | apply.go:167-213 | find the container, change it, write it back: the same value or the same error as the specification |
| `Applier.Node.ApplyOperation` | jsonot.go:124-153 | every component validates before the first is applied; then they are applied in turn until one fails |
| `Edges.RefusedAsAWhole` | jsonot.go:124-136 | the first component that moves at the root or to a negative index refuses the whole operation before anything is applied |
| `Edges.InsertionPastTheEnd` | apply.go:289-296 | at any path, an insertion at or past the end of an array puts its element last and changes nothing else |
| `Edges.LookedUp` | apply.go:383-408 | a recorded value is looked up where it was recorded if it is there, else at the only position that holds it if it is simple, else where it was recorded |
| `Edges.StaleDeletion` | apply.go:273-287 | a deletion whose element moved finds it if it is simple and there once, and otherwise deletes what is at its index |
| `Edges.StaleReplacement` | apply.go:299-311 | a replacement likewise, never of the first element or of null |
| `Edges.EditBelowMissing` | apply.go:67-164 | an edit at any depth below a missing key creates the objects on the way and the container it needs, and changes nothing else; a subtype is refused |
| `Edges.EditAtMissing` | apply.go:332-380 | at a missing key an insertion or replacement puts its value, a deletion does nothing, a number-add sets its operand, a list edit is refused |
| `Edges.SubTypeAtKey` | apply.go:361-375 | at a key that is there a number is added to, null is set, anything else and every unknown subtype is refused |
| `Edges.EditBelowNullElement` | apply.go:24-64 | directly below a null array element the container needed takes its place; deeper, or past the end, the edit fails |
| `Edges.EditBelowScalar` | apply.go:11-21 | nothing can be edited below a boolean, number or string, nor below null at a key |
| `Edges.RootEdits` | apply.go:216-244 | at the root an insertion or replacement is the new document, a deletion leaves null, a number-add adds, a move is refused |
| `Routing.Peel` | apply.go:11-92 | applying one step further down changes that child as applying to the child does, and nothing else |
| `Tracking.Locality` | apply.go:11-191 | applying at p followed by q acts on the subtree at p as applying at q does, and puts the result back |
| `Tracking.PutElsewhere` | apply.go:95-164 | changing the subtree at one path leaves the subtree at an unrelated path as it was |
| `Transformer.MaxCommonPath` | path.go:239-250 | the loop returns the longest common prefix |
| `Transformer.IsPrefixOf` | path.go:271-282 | the loop decides the key-based prefix relation |
| `Transformer.OperationComponent.IncreaseIndex` | path.go:212-220 | the step's index goes up by one in place and the rest of the path stays |
| `Transformer.OperationComponent.DecreaseIndex` | path.go:223-231 | the step's index goes down by one in place, never below zero |
| `Transformer.OperationComponent.AgainstListInsert` | transform.go:314-348 | the in-place edits amount to the specified shift of path and move target |
| `Transformer.OperationComponent.AgainstListDelete` | transform.go:351-387 | the in-place edits, the drops and the replacement that becomes an insertion amount to the specified step |
| `Transformer.OperationComponent.MergeListMoveIndex` | transform.go:582-626 | the branches on two moves amount to the specified source and target |
| `Transformer.OperationComponent.AgainstListMove` | transform.go:505-648 | the in-place edits amount to the specified step for every operator |
| `Transformer.OperationComponent.Consume` | transform.go:226-246 | the recorded old value is edited in place as applying the remainder of the path does; failures are ignored |
| `Transformer.OperationComponent.AgainstObjectInsert` | transform.go:424-467 | one of the handlers that return new components: two of them when the insertion is above, and this one otherwise unchanged |
| `Transformer.OperationComponent.TransformAgainst` | transform.go:163-198 | the components returned are this object or new ones and hold what the transformation gives; this object holds exactly what the handlers leave in it |
| `Transformer.OperationComponent.Invert` | operation.go:109-138 | the inverse, and the path a move rewrites in its own component on the way, also when it then fails |
| `Transformer.TransformPair` | transform.go:79-93 | the two sides are transformed from clones, so neither sees the other's edits and the operations stay as they were |
| `Transformer.TransformMulti` | transform.go:126-160 | the loop leaves after its first component, which is not kept; the base component holds what both in-place transformations made of it |
| `Transformer.TransformMatrix` | transform.go:100-124 | what comes back on both sides are the base objects, the first one edited |
| `Transformer.TransformOperations` | transform.go:63-97 | whole operations of objects transformed in place give what is specified, errors included |
| `KeyConflicts.ObjectEditBecomes` | transform.go:390-502 | which components come back on each side of an object edit at or below the key of a concurrent one, whether one document fits both or not |
| `KeyConflicts.NothingLeftUnderRoot` | transform.go:283-311 | under a root that was deleted or replaced nothing is left of any other component |
| `KeyConflicts.EditUnderInsertion` | transform.go:444-454 | at any depth, an edit below a key that right inserted takes the insertion back and leads where it leads on its own, to a document or to an error |
| `KeyConflicts.NoopUnderInsertion` | transform.go:166-168 | an edit below it that replaces a value by itself is not transformed: it leads where it leads on its own if and only if it makes of the inserted value what it builds |
| `KeyConflicts.LastWord` | transform.go:390-502 | whatever object edit right made, a left edit that puts a value at its key has the last word; below a key right deleted or replaced nothing is left of it; on the right nothing is left |
| `KeyConflicts.InsertionOverEdit` | transform.go:424-467 | a key inserted by one side above an edit of the other: they converge with the insertion on the left, and with the edit on the left if and only if the inserted value is what the edit builds |
| `ListConvergence.InsertWithInsert` | transform.go:314-348 | two insertions: both orders give one list, in which at one index left's element comes directly before right's |
| `ListConvergence.DeleteWithDelete` | transform.go:351-387 | two deletions: the element both delete is gone once |
| `ListConvergence.ReplaceWithDelete` | transform.go:283-387 | a replacement survives a concurrent deletion as an insertion |
| `ListConvergence.ReplaceWithReplace` | transform.go:283-311 | two replacements: both orders give one list, in which at one index left's value stays |
| `ListConvergence.MoveWithInsert` | transform.go:314-348 | a move and an insertion give one list in both orders |
| `ListConvergence.MoveWithDelete` | transform.go:351-387 | a move and a deletion give one list in both orders, also when the moved element is deleted |
| `ListConvergence.MoveWithMove` | transform.go:539-626 | two moves give one list in both orders for every overlap |
| `ListConvergence.TieBreak` | transform.go:612-623 | the right move is shifted one further exactly when both move to one target from the same side |
| `ListConvergence.MovesSideBySide` | transform.go:582-626 | two elements moved to one target from the same side end side by side, left's first |
| `ListConvergence.MovesOfOne` | transform.go:539-560 | two moves of one element: it ends where left moves it |
| `ListConvergence.PairAgrees` | transform.go:283-648 | every pair of list operators gives the same list in both orders, for lists of any length |
| `BothOrders.ListLevel` | transform.go:163-198 | at one array the code converges if and only if neither component is one that the other's position leaves undone, read off indexes and operators, or that is a move which passes only its equals |
| `TreeConvergence.ObjectLevel` | transform.go:390-502 | at one object the code converges exactly when it is not left deleting the key that right replaces |
| `TreeConvergence.TransformUnder` | transform.go:163-198 | a common first step changes nothing about a transformation |
| `TreeConvergence.Convergence` | transform.go:163-223 | any two effective components anywhere converge if and only if no edit is lost that shows; what is lost is told by paths and operators |
| `TreeConvergence.LeftWins` | transform.go:390-502 | on a conflict over one key at any depth both sides end with left's edit, except that a left addition yields to a right replacement or deletion, and a left deletion to a right replacement |
| `Noops.NoopConverges` | transform.go:26-31 | a component equivalent to a no-op converges with any other if and only if its route still ends at a container that holds what it writes, or a slot the list code leaves alone |
| `Noops.NoopAtKey` | transform.go:26-31 | at one object: if and only if the other component is at another key or adds nothing |
| `Clamping.ClampingConverges` | apply.go:314-329 | moves past the end do what the clamped moves do, and the clamped ones converge exactly when no edit is lost that shows |
| `Clamping.MovesPastTheEndDiverge` | transform.go:582-626 | two moves of different elements past the end converge if and only if the elements are equal |
| `Tracking.Absorption` | transform.go:185-187 | a component strictly below a recorded old value turns it into exactly the subtree found there afterwards |
| `Tracking.ElementTracking` | transform.go:331-337 | after a concurrent list component, what is left of a component beneath an element reads through its new path what the old path read, at any depth |
| `Rebase.RebaseFits` | transform.go:163-198 | the transformed component is at most one and valid on the new document, exactly when it does not record a number just added to |
| `Rebase.TransformTotal` | transform.go:163-223 | two components valid on one document never make the transformation fail |
| `Rebase.RebasedApplies` | sharedb/server.go:353-383 | rebased over any run of committed effective components, an operation is at most one component, valid on the current document, and applies |
| `Rebase.ClientMeetsServer` | README.md:164-170 | the client's document after catching up is the server's after rebasing, for runs of any length |
| `Algebra.Operation.Append` | operation.go:343-376 | the list edited in place is the specified one: dropped, merged into the last component, or added; one rule depends on whether two operands are one object |
| `Algebra.Operation.Compose` | operation.go:379-384 | appending component by component gives the composition |
| `Algebra.MergesWhatMeets` | operation.go:141-261 | two edits of one slot merge if and only if the second finds what the first left, or puts back a deleted key; the merged edit finds what the first found and leaves what the second leaves |
| `Algebra.SubTypesMerge` | subtype.go:186-205 | sums merge to their sum, text insertions exactly when the second goes into the first |
| `Algebra.AppendsOne` | operation.go:343-376 | a move onto its own index is not recorded, a component that merges takes the last one's place, any other goes behind it |
| `Inversion.InverseUndoes` | operation.go:109-138 | a component is undone by its inverse if and only if it is invertible, or a move to the front past its equals |
| `Inversion.InvertedTwice` | operation.go:109-138 | inverting twice gives the component back; what has no inverse |
| `Inversion.TextInverts` | subtype.go:415-428 | a text insertion inverts to the deletion of its text at its offset, and back |
| `Inversion.TextInsertionUndone` | subtype.go:553-610 | an in-range text insertion is undone by its inverse if and only if it is at the start, or of nothing at the end |
| `Edges.RootUndone` | operation.go:109-138 | an edit of the root is undone by its inverse if and only if the root held what the edit takes to be there |
| `History.InversesUndo` | operation.go:109-138 | the inverses of any number of components, last one first, restore the document |
| `Composition.MergeKeepsMeaning` | operation.go:141-261 | a merged component does what the two do in turn, for every merge rule but the collapses, whether the operands compared by pointer are one object or not |
| `Composition.AppendKeepsMeaning` | operation.go:343-376 | appending keeps the meaning when the last two components do not collapse |
| `Composition.CollapseLosesMeaning` | operation.go:141-165 | when they collapse the appended component is lost, whenever it changes anything |
| `Composition.ComposeKeepsMeaning` | operation.go:379-384 | applying the composition is applying the one operation and then the other |
| `Collapse.ComposeExactly` | operation.go:343-384 | the composition does what the two operations do in turn if and only if no insertion and deletion of a key collapse and what a no-op in a list swallows changes nothing or is made up for |
| `Collapse.AnnulledFails` | operation.go:219-238 | once the insertion and deletion of a key have collapsed, the composition fails whatever is appended |
| `Collapse.DoesIsOneToOne` | apply.go:11-380 | a component leads no two documents that it fits to one |
| `Collapse.LossStays` | operation.go:141-165 | what was swallowed is not made up for by components that fit the document without it |
| `Wire.ToValue` | operation.go:38-77 | printing by loop gives the specified JSON |
| `Wire.PathFromValue` | path.go:87-107 | the loop reads strings as keys and integers as indexes and passes over anything else |
| `Wire.OperationComponentsFromValue` | jsonot.go:68-97 | nested arrays flatten in order and the first failure ends the parse |
| `Wire.ComponentRoundTrip` | operation.go:689-754 | a component comes back from its printed form, up to the subtype's name, exactly when its operator is printable |
| `Wire.OperationRoundTrip` | jsonot.go:68-97 | a printable valid operation comes back whole and in order, despite the precedence of keys |
| `Wire.RenamedAllApply` | operation.go:766-783 | the renamed operation applies as the original does |
| `Literals.ListForms` | operation.go:38-77 | the objects with `"p"` and `"li"`, `"ld"`, both, or `"lm"` are what list insertion, deletion, replacement and move print as and parse from |
| `Literals.ObjectForms` | operation.go:689-754 | likewise `"oi"`, `"od"`, both, and `"p"` alone for a no-op |
| `Literals.SubTypeForms` | operation.go:689-754 | likewise `"na"`, and `"t"` with `"o"` |
| `Literals.FirstKeyCounts` | operation.go:698-735 | a key of lower precedence, an unknown key and a key that holds null change nothing about what is read |
| `Literals.Malformed` | operation.go:689-754 | what is refused, and how |
| `Literals.StrayStepsPassedOver` | path.go:87-107 | strings are keys, integers indexes, and anything else in a path is passed over |
| `Literals.ReadInOrder` | jsonot.go:68-97 | operations read one after another are concatenated; the first failure counts |
| `Literals.NestedFlatten` | jsonot.go:68-97 | an array among the items stands for its own items |
| `Literals.ParsedValidates` | jsonot.go:68-97 | an operation parses if and only if none of its components moves at the root or to a negative index |
| `Literals.SubTypeWithoutOperand` | operation.go:766-783 | a subtype without an operand, next to another key, gets an empty object for one |
| `History.InverseOperationUndoes` | sharedb/server.go:692-707 | an inverse operation that lost nothing in appending exists, printed and parsed, and restores the document step by step |
| `History.InverseOperationExactly` | sharedb/server.go:692-707 | the inverse operation of invertible printable components always exists and restores the document if and only if appending the inverses keeps their meaning |
| `History.TimeTravel` | sharedb/server.go:641-662 | for any log of valid invertible operations, undoing it gives every document from a version on if and only if appending the inverses of each operation logged since keeps their meaning |
| `History.RollBackAgrees` | sharedb/server.go:664-690 | when each operation's inverses keep their meaning, undoing leads to the target version's document and composes one valid operation; when they lose nothing, that operation leads there if and only if composing all the inverses keeps their meaning |
| `Keys.SortKeys` | diff.go:36-56 | the keys come out in order, each once |
| `Diff.DiffInto` | diff.go:19-34 | the recursion appends what is specified for the pair of values |
| `Diff.DiffObject` | diff.go:36-86 | deletions, insertions and changes are appended key by key in order |
| `Diff.DiffArray` | diff.go:88-112 | changes are appended element by element |
| `Diff.Diff` | diff.go:11-17 | the operation built is the composition of what is emitted |
| `DiffReach.NothingMerges` | diff.go:19-167 | components at different paths are appended unmerged |
| `DiffReach.ReachedIsTarget` | diff.go:88-112 | what is reached is the target exactly when no first or null array element is replaced as a whole |
| `DiffReach.DiffReaches` | diff.go:11-195 | the difference always applies, no two of its components share a path, and it reaches the target exactly when it is safe |
| `DiffBack.DifferenceUndone` | diff.go:11-195 | the inverse of a difference always applies to the target, and leads back if and only if the opposite difference is safe |
| `DiffBack.NumberDifferencesAddUp` | diff.go:114-158 | two differences of one number at a key, made from one document, add up when both are applied |
| `ShareDb.FindIdentity` | sharedb/server.go:312-326 | the first record with the identity, if there is one |
| `Serial.SubmitWrites` | sharedb/server.go:385-407 | a submit writes the next version, on a base not above the current one, printing what it applied to the snapshot, under an identity not logged before, with the base version and the operation as submitted, and answers what it wrote |
| `Serial.RollbackWrites` | sharedb/server.go:506-516 | a rollback is logged at the current version without an identity, as submitted by its source, and answered with the operation logged and the document stored |
| `Serial.FeedTellsLog` | sharedb/server.go:416-426 | event i since creation tells of version i + 1: the operation as rebased and logged, and its sender |
| `Serial.DeletionIsTold` | sharedb/server.go:473-480 | a deletion is told with its version, document and source |
| `Serial.FillsAreInvisible` | sharedb/server.go:709-719 | filling the cache changes what no lookup gives |
| `Serial.WalkCachesAll` | sharedb/server.go:709-719 | when rebasing, undoing or rolling back comes to an end, every operation it took is cached |
| `Serial.ServeKeepsSound` | sharedb/server.go:288-429 | every request keeps the log numbered, printing what was applied, without repeated identities, backing the cache and told by the feed |
| `Refusals.SubmitRefusals` | sharedb/server.go:302-364 | a submit is refused for its version, as conflicting or as stale exactly in those cases and in that order; history is never missing |
| `Refusals.DeletionRefusals` | sharedb/server.go:455-472 | a deletion succeeds if and only if it names the current version; then document, log and cache go |
| `Refusals.CreationHolds` | sharedb/server.go:202-219 | a creation is refused exactly when the document is there; a new one holds what was given or an empty object |
| `Refusals.SnapshotRefusals` | sharedb/server.go:237-255 | a historical snapshot is refused out of range, is the document at the current version, and undoes the log in between |
| `Refusals.SeparateFieldsCount` | sharedb/server.go:541-550 | separate source and sequence fields decide like those in the ID, and what the ID says they do not change |
| `Refusals.AnonymousIsNoRetry` | sharedb/server.go:307 | without a source or a positive sequence a request is never taken for a retry |
| `Refusals.HistoryIsComplete` | sharedb/server.go:523-539 | the history between two versions is there exactly for ordered versions up to the current one, entry by entry |
| `Refusals.RollbackRefusals` | sharedb/server.go:497-507 | a rollback is refused for its version exactly when the target is out of range, and never for missing history |
| `Faithful.ServeKeepsFolds` | sharedb/server.go:371-401 | every request keeps each version the fold of what was applied up to it |
| `Faithful.ServeAllKeepsFolds` | sharedb/server.go:288-429 | the same after any number of requests |
| `Faithful.SnapshotIsFoldedLog` | sharedb/server.go:361-370 | the snapshot is the fold of the log as read back, through the cache or by parsing alone |
| `Faithful.SnapshotAtIsPublished` | sharedb/server.go:237-255 | historical snapshots are the documents published with their versions, from a version on, if and only if appending the inverses of each operation logged since keeps their meaning |
| `Faithful.RollbackReachesTarget` | sharedb/server.go:486-518 | rollbacks to every version from one on store the document published with it if and only if appending the inverses of each operation logged since keeps their meaning |
| `Faithful.RollbackAnswers` | sharedb/server.go:486-518 | a rollback answers the new version, the operation as logged and the document as stored; to the current version it answers that and changes nothing |
| `Faithful.RollbackAnswersTarget` | sharedb/server.go:486-518 | the caller is answered, and subscribers are told, the document published with the target version |
| `Faithful.RollbackLogsWhatItDoes` | sharedb/server.go:486-518 | when nothing is lost within the operations undone, the one operation a rollback logs leads from the old snapshot to the stored one if and only if composing the inverses keeps their meaning |
| `Retry.ServeAllExtends` | sharedb/memory.go:102-116 | while a document is not deleted its log only grows at the end, and what was logged reads back as before |
| `Retry.FailureChangesNothing` | sharedb/server.go:288-383 | a request that fails or writes nothing changes neither document nor log nor feed |
| `Retry.KnownIdentity` | sharedb/server.go:307-326 | the decision on any request under a logged identity, whatever was logged since |
| `Retry.RetryIsRecognised` | sharedb/server.go:307-326 | after any other traffic a retry is answered with the logged operation and changes nothing; another operation under its identity is rejected |
| `Retry.FoldComposes` | sharedb/server.go:366-377 | rebasing over a longer history is rebasing over its first part and then over the rest |
| `Retry.AbsorbedStaysAbsorbed` | sharedb/server.go:353-382 | an operation once absorbed to nothing never commits on a retry |
| `Retry.EmptySubmission` | sharedb/server.go:376-382 | a request without an operation never writes, and at the current version is answered with the document |
| `EndToEnd.SubmitSucceeds` | sharedb/server.go:353-429 | a concurrent component valid where it was made is committed as rebased, or answered as absorbed, and never fails |
| `EndToEnd.ClientAndServerAgree` | sharedb/server.go:353-429 | the client that caught up and the server that rebased have the same document |
| `EndToEnd.EveryClientMeets` | sharedb/server.go:288-429 | in any history in which what is committed are such edits, which keeps the log cached as applied and effective, every editing client ends with the document the server answers and stores |
| `Protocol.ProgressGoesAlong` | sharedb/server.go:288-429 | at every step the room is what the request has made, up to there, of the room it found; when it leaves, it has done what it does alone |
| `Protocol.AlongStands` | sharedb/server.go:455-482 | log, identities and cache stand at every step, not only between requests |
| `Protocol.NothingYet` | sharedb/server.go:297-383 | until it commits or deletes, a request leaves document and feed as it found them |
| `Protocol.ProgressKeepsLog` | sharedb/memory.go:102-116 | no step shortens a log or rewrites an entry |
| `Protocol.ProgressEnds` | sharedb/server.go:288-429 | a request that holds the lock leaves after at most six steps |
| `Machine.MoveIsExclusive` | sharedb/memory.go:174-185 | a client is inside a document exactly when it holds its lock |
| `Machine.OfferFollows` | sharedb/memory.go:208-222 | offering an event, taken, buffered or dropped, keeps a channel a part of the feed in order |
| `Machine.NextKeeps` | sharedb/server.go:291-429 | every step of every client keeps exclusion, serializability, the answers and the channels |
| `Machine.RunHolds` | sharedb/server.go:288-482 | so does every interleaved run from the empty server |
| `Runs.RunsAreSerial` | sharedb/server.go:288-482 | between requests a document is what its requests make of it one by one in the order they released the lock, and each was answered so |
| `Runs.RunsStand` | sharedb/memory.go:102-143 | at every moment entry i has version i + 1 and an earlier base, and nothing is cached for a deleted document |
| `Runs.RunsFold` | sharedb/server.go:288-429 | in every run whose rollbacks agree each version is the fold of what was applied |
| `Runs.RunsFoldTheLog` | sharedb/server.go:361-401 | in such a run the snapshot is the fold of the log as it is parsed, if what was applied prints |
| `Runs.NoRollbacksAgree` | sharedb/server.go:288-429 | requests without a rollback satisfy the agreement asked for |
| `Runs.ClientsMeetInRuns` | sharedb/server.go:288-429 | in every interleaved run in which what is committed are edits, each editing client that caught up has the document it was answered |
| `Runs.RetriesInRuns` | sharedb/server.go:307-326 | in every interleaved run a request under the identity of a committed one changes nothing, and is answered with the logged operation or rejected |
| `Runs.AbsorbedInRuns` | sharedb/server.go:353-382 | in every interleaved run an operation once absorbed does not commit when it is sent again |
| `Runs.CommitsStay` | sharedb/memory.go:102-116 | from any moment to any later one no commit is lost |
| `Runs.FailuresLeaveNoTrace` | sharedb/server.go:288-383 | a request leaving with a failure has changed nothing it found but the cache |
| `Runs.CacheRefinesLog` | sharedb/server.go:709-777 | what is cached for a version is what its record parses to, up to subtype names |
| `Server.CachedObjectsRefineLog` | sharedb/server.go:709-777 | the component objects cached for a version hold what its record parses to, up to subtype names, whatever was transformed and inverted in place before |
| `Runs.SubscribersSeeOrder` | sharedb/memory.go:208-246 | what a subscriber gets is part of the feed in order, with increasing versions within a lifetime, however many events were dropped |
| `Runs.SubscribersGetTheLog` | sharedb/server.go:416-426 | in every run what a subscriber gets of the present lifetime at version n is the operation logged as version n, with its sender |
| `Delivery.OfferKeeps` | sharedb/memory.go:208-222 | an event is kept, behind those kept before, exactly when a receiver waits or the buffer has room |
| `Delivery.RoomyChannelsGetAll` | sharedb/memory.go:208-246 | a subscription whose buffer has room for what was published gets exactly that, in order, over any steps |
| `Delivery.SubscribersMissNothing` | sharedb/memory.go:224-246 | what is published after a subscription, as long as it fits the buffer asked for, is what the subscriber gets |
| `Delivery.Subscribes` | sharedb/server.go:445-451 | a subscription is opened exactly on a document that is there; cancelled, it is gone |
| `Delivery.WaitingCanBeServed` | sharedb/memory.go:174-185 | no deadlock: at any moment of any run a waiting request can be served, after at most the one that holds the lock |
| `Memory.MemoryBackend.CommitOp` | sharedb/memory.go:102-116 | snapshot, version and log change together |
| `Memory.MemoryBackend.GetOps` | sharedb/memory.go:118-143 | the records that produced the versions asked for, or the range error |
| `Memory.MemoryBackend.CreateDoc` | sharedb/memory.go:32-46 | a new document starts at version 0 with an empty log; an existing one is left alone |
| `Memory.MemoryBackend.DeleteDoc` | sharedb/memory.go:64-73 | snapshot and log go together |
| `Memory.MemoryPublisher.Publish` | sharedb/memory.go:208-222 | every subscriber of the document is offered the event once, in whatever order the map yields them |
| `Memory.MemoryPublisher.Subscribe` | sharedb/memory.go:224-246 | a new number each time; a negative buffer counts as none |
| `Server.ParsedOpCache.DeleteDocument` | sharedb/server.go:773-777 | no entry of the document survives, others stay |
| `Server.ParsedOpCache.Get` | sharedb/server.go:745-757 | clones of what is cached, or none |
| `Server.ParsedOpCache.Store` | sharedb/server.go:759-771 | clones go in, so the cache shares no object with its caller |
| `Server.Server.GetOrParseCommittedOperation` | sharedb/server.go:709-719 | gives clones of the cached or parsed operation that the cache does not share, and leaves the parsed operation in the cache |
| `Server.Server.Rebase` | sharedb/server.go:366-377 | the loop over concurrent operations, each transformed in place against a clone, is the walk over what the log reads back as, and every cached object holds what it held |
| `Server.Server.InverseOperation` | sharedb/server.go:692-707 | the loop from the last component inverts clones in place, appends the inverses, prints and parses; every cached object holds what it held |
| `Server.Server.RollBack` | sharedb/server.go:673-686 | the loop from the last record composes and applies the inverses |
| `Server.Server.DocumentAtVersion` | sharedb/server.go:641-662 | reads the records above the version and gives what applying their inverses, last one first, leads to |
| `Server.Server.GetOperations` | sharedb/server.go:523-539 | the complete history between two versions, or an error |
| `Server.Server.DecideSubmit` | sharedb/server.go:302-401 | version check, retry, parse, rebase and apply in the order of the code |
| `Server.Server.Submit` | sharedb/server.go:288-429 | does to the document, the cache, the log, the feed and every channel exactly what the request does alone, and nothing to other documents |
| `Server.Server.RollbackToVersion` | sharedb/server.go:486-518 | the same for rollback |
| `Server.Server.CreateDocument` | sharedb/server.go:202-219 | the same for creation |
| `Server.Server.DeleteDocument` | sharedb/server.go:455-482 | the same for deletion, which also forgets the cached operations |
| `Server.Server.GetSnapshotAt` | sharedb/server.go:237-255 | gives the historical snapshot and changes nothing but the cache, which stays backed by the log |
| `Server.Server.Subscribe` | sharedb/server.go:445-451 | a channel only on a document that exists |
| `Mailbox.MemoryMailboxStore.Append` | sharedb/memory_mailbox.go:24-37 | a valid envelope with a new ID goes to the end of its session; anything else changes nothing and says why |
| `Mailbox.MemoryMailboxStore.ReplayAfter` | sharedb/memory_mailbox.go:39-69 | the page after the cursor, or the unknown-cursor error |
| `Mailbox.MemoryMailboxStore.AckThrough` | sharedb/memory_mailbox.go:71-104 | the cursor moves forward only |
| `Mailbox.ReplaySessionMailbox` | sharedb/reconnect.go:22-43 | an unknown non-empty cursor, and nothing else, asks for a resync |
| `Mailbox.ReceivesInOrderOnce` | sharedb/memory_mailbox.go:24-104 | whatever is paged and appended, the client has the first envelopes, each once and in order, and IDs stay unique |
| `Mailbox.PagesCatchUp` | sharedb/memory_mailbox.go:39-69 | every page brings the client further until it has everything, with limits of any size |
| `Mailbox.AckNeverMovesBack` | sharedb/memory_mailbox.go:71-104 | the ack cursor is empty or a stored ID, never moves back, and an ack moves it to the later of the two positions |
| `Mailbox.PostIsKept` | sharedb/memory_mailbox.go:24-37 | an envelope goes behind all others exactly when it is identified, new, and carries an event if and only if its kind does; any other changes nothing |
| `Mailbox.AckIsLater` | sharedb/memory_mailbox.go:71-104 | after an ack the cursor is the later of where it was and the envelope; an unknown ID moves nothing |
| `Limits.FrontMoveDoesNothing` | apply.go:314-316 | moving the first element is accepted and does nothing |
| `Limits.ReplacementIsLostInFront` | apply.go:304-305 | a replacement brought to index 0 by a concurrent deletion is lost and the orders differ |
| `Limits.NoopReplacementIsNotShifted` | transform.go:26-31 | a replacement by the same value is not shifted past an insertion and hits another element |
| `Limits.ListNumbersStay` | apply.go:247-270 | adding to a number in a list is accepted and does nothing |
| `Limits.AdditionYields` | transform.go:390-502 | a left addition to a number that right replaces is dropped |
| `Limits.DeleteAndReplaceDiverge` | transform.go:418-419 | deleting a key against replacing it drops both edits and the documents differ |
| `Limits.SeveralComponentsComeBackAsBase` | transform.go:100-157 | with several components both sides come back as the base and the edits are gone |
| `Limits.RootListOperatorPanics` | operation.go:264-271 | a list operator at the root makes the transformation of anything else panic |
| `Limits.InsertAndDeleteCannotBeUndone` | operation.go:219-238 | the inverse of inserting and deleting one key is a component no object takes |
| `Limits.RollbackLogsWhatDoesNotApply` | sharedb/server.go:664-690 | after a key was inserted by one logged operation and deleted by the next, rollback stores the right document and logs an operation that applies to no object |
| `Limits.InsertionIsSwallowed` | operation.go:141-165 | a list insertion composed with its deletion and another insertion there does nothing |
| `Limits.OverwritingMakesUp` | operation.go:141-165 | a swallowed insertion is made up for by a replacement of the whole list that contained it |
| `Limits.DifferenceMissesTheFirst` | diff.go:88-112 | the difference of two one-number lists changes nothing |
| `Limits.DeletionGoesStale` | transform.go:163-198 | a deletion that recorded a number no longer fits once the number was added to |
| `Limits.MoveToFrontCannotBeUndone` | operation.go:122-129 | the inverse of a move to the front does nothing |
| `Limits.ShiftedKeyDoesNotPrint` | path.go:73-84 | a shifted key step prints and parses back unshifted |

## Left out

- The transformation of text against text: the position arithmetic and the operands read there do not do what they are
  meant to (subtype.go:297-303, 489-549). Text deletion is in as the code does it, which takes a length for an end index
  (subtype.go:593): `TextOps.DeletesOnlyAtStart`.
- Operations of several components under `Transform`: modelled as the code runs them (`Transform.TransformOperation`),
  but convergence is claimed for single components only, for the reason `Limits.SeveralComponentsComeBackAsBase` gives.
- List operators at the root path in `Transform`: the code indexes the path at -1 (operation.go:264-271); the model
  gives `Panic`, and the theorems speak of non-empty paths.
- Floating point, and the width of Go's integers: numbers are unbounded integers in number-add and Diff.
- The two JSON node libraries: values are compared by structure, keys that are numeric strings and empty keys are not
  modelled as the index steps they can be confused with (path.go:19-24, 93-100), and malformed JSON text never arises.
- Aliasing of operand values: `Clone` shares them and `Consume` edits them in place; here they are immutable, and what
  the cache theorems say of paths and operators is what they are about. One merge
  rule compares pointers: a replacement and a deletion merge when the deleted operand is the very object put in
  (operation.go:192-197). Values cannot tell, so `Append` takes that as its argument `shared` and the meaning theorems
  hold either way; composing, inverting and rolling back take the operands of operations parsed apart as distinct
  objects, as they are. Subtypes are compared by value.
- `Applier.Node.ApplyOperation`: does not say what value a failed operation leaves behind; the source may leave a partly changed one.
- `Transformer.OperationComponent.Consume`: puts the new old value into its own component; the source edits the value
  itself, which clones share, so a cached operation's recorded old value can change there and not here.
- Path slices that a new component shares with the one it was made from (operation.go:131-137): a path is a value here.
- `Protocol.ProgressGoesAlong`: the look-ups of a decision and the cache fills they leave are one step; only the holder of the lock makes them.
- `Runs.CacheRefinesLog`: needs what was applied to print; `Limits.ShiftedKeyDoesNotPrint` gives an operation that does not.
- `Runs.RunsFold`: speaks of documents between requests, and of rollbacks that agree; `Faithful.RollbackLogsWhatItDoes`
  says when they do.
- `History.RollBackAgrees`: when within one undone operation a swallowed edit is made up for by a blind overwrite, it
  says that the document is right, and not whether the composed operation agrees; `Faithful.RollbackLogsWhatItDoes` has
  the same condition.
- `Runs.SubscribersGetTheLog`: speaks of the present lifetime of a document; the log of a deleted one is gone, and of its
  events `Runs.SubscribersSeeOrder` says only their order and versions.
- `KeyConflicts.EditUnderInsertion`: not for an edit that replaces a value by itself; `KeyConflicts.NoopUnderInsertion` is.
- `EndToEnd.EveryClientMeets`: the client's edit is one component and is not lost on the way; what is committed by
  rollbacks is outside its histories.
- `Server.Server.Submit`: middleware, contexts, and the copying of byte slices are not modelled.
- `Server.Server.GetSnapshotAt`: one atomic read; the source reads document, log and cache one after another without
  the lock, so a read racing with deletion and recreation is not covered.
- One server over one backend and locker: several servers sharing a backend would each keep a cache, and one would not
  see another's deletion.
- `MemoryBackend.SaveDoc` and `AppendOp`, which the server does not call; closing a cancelled channel.
- Redis backend, locker and publisher; WebSocket transport, protocol handlers and live relay; dispatch of events into
  mailboxes; builders, formatting and logging: foreign calls, I/O, or members that would add nothing hard.
