# Authorization checks of the OpenFGA fork, modelled and proved in Dafny

The fork under `openfga-fork/` decides whether a user has a relation on an object. This project models
how it does so, and proves what its answers mean. `dafny verify dfyconfig.toml` checks everything.

| file | what it models |
|---|---|
| `model.dfy` | types, relations, rewrites, tuples, goals |
| `semantics.dfy` | what a goal means: two inductive predicates, `Holds` and `Fails`, over derivation heights |
| `reducers.dfy`, `claims.dfy` | the loops that combine the outcomes of concurrent handlers, and what an outcome vouches for |
| `tuplemerge.dfy`, `iterators.dfy`, `options.dfy` | the merge of sorted tuple iterators and which inputs it merges without loss; the iterators themselves, the condition-filtering one too |
| `leafreads.dfy` | the reads that start from the user: the rows of the request and of the datastore, merged, without those that are rejected |
| `stream.dfy`, `merge.dfy`, `bags.dfy`, `setoperations.dfy`, `fastpath.dfy`, `fastpathmeaning.dfy` | the pipeline of k-way merges over batched sorted streams |
| `weight2.dfy`, `listingfailures.dfy` | the intersection of two asynchronous producers, and stores on which it denies a true goal |
| `recursive.dfy`, `recursivemeaning.dfy`, `strays.dfy`, `strayexamples.dfy` | the breadth-first strategies for self-referring relations, and models on which they allow a false goal |
| `handlers.dfy`, `check.dfy` | the local checker and the cache in front of it, as two classes that call each other |
| `depth.dfy` | how much depth the answer to a request takes |
| `ring.dfy`, `ringruns.dfy`, `ringdepth.dfy` | all interleavings of concurrent requests on one cache, as a state machine, with work whose context has ended |
| `ringexample.dfy`, `cancelexample.dfy` | a run of it that denies a true goal, and one that spoils the cache |
| `pathguard.dfy` | that the path guard of the checker changes nothing of the meaning |
| `edges.dfy`, `edgemeaning.dfy` | the search for relationship edges, full and pruned, which edges it finds and flags, and what unflagged edges mean |
| `cachecontroller.dfy` | invalidation of cached iterators from the changelog |
| `thompson.dfy` | the planner's statistics under compare-and-swap |

**Meaning.** A goal (object, relation, user) holds when it has a finite derivation. It fails when it belongs
to a set of goals none of which has support outside the set, so a purely circular membership is false. The
two exclude each other for every model, exclusions included (`Semantics.Exclusive`); a goal that depends on
itself through an exclusion is neither.

**Main results.** The first two, the third and the sixth are about one user in one store at a time. They need
of it what `Handlers.WellFormed` says: valid tuples, and for each fast strategy that the type system offers to
users of this type, that it can decide (`Handlers.SoundTypes`). For what a strategy reads from the user's side
this comes down to rows that are merged without loss (`LeafReads.IsLegible`), for the relations that it lists and
for no others; a model that is offered no fast strategy needs nothing of the kind
(`ListingFailures.ReliedOnIffNotOffered`).

- An answer without the cycle flag is the truth, whatever the visited path, the depth, the order of arrival,
  the strategies chosen, the reads that fail and the state of the cache; so the cache may serve it to any
  other path.
- Without exclusion a request that starts with an empty path is never denied wrongly. With exclusion the same
  holds of every goal whose chains of sub-goals do not come back (`Check.LooplessIsDecided`), so of all goals in a
  model without recursion.
- With healthy reads a request is answered whenever its goal is shallow (`Depth.Shallow`): in a well-typed model,
  if and only if every chain of sub-goals below it has fewer dispatches than the depth that is left, steps to a
  computed relation being free, and the recursive searches offered on the way end in time
  (`Depth.ShallowIffChainsFit`). At the limit there is an error and nothing else, in all interleavings
  (`RingDepth.RunStaysWithin`).
- In every reachable state of any number of interleaved requests, given up or not, the cache holds only such
  truths and requests get only such answers, except for what is made of outcomes that got lost in work whose
  context had ended. The cache is right in all reachable states, without exception, if and only if it heeds the
  context of a request before it keeps the answer (`CancelExample.CacheIsRightIffHeeded`).
- The three set operations, however their inputs are batched, compute the largest, the smallest and the
  difference of multiplicities, in order; if a read fails, what they emit is the beginning of that.
- The merge of sorted tuple iterators yields every key, once and in order, if and only if every row it takes
  along while it skips a repeated key is regained from another input: a condition on the inputs alone.
- The strategies that intersect or search breadth-first answer what the reference strategy means.
- The edge search expands every reachable relation exactly once, and pruning loses nothing. An edge is flagged
  only if the relation it starts from involves an intersection or exclusion, or if a chain to it passes one; pruned,
  an edge without the flag has a chain that passes none.
- Every change the cache controller has dealt with is covered by a live record, through all its runs, up to
  the first flush that deletes a record another entry relies on.
- Concurrent updates of the planner's statistics lose no sample and do not depend on their order.

**Where the code falls short of its promise.** Each comes with a concrete input, and with the exact condition
under which the code does keep the promise.

- The cache keeps the answer of work that nobody waits for any more. Once a reducer has been settled, the
  context of the handlers it leaves behind ends, their outcomes may get lost, and a union or an intersection that
  finds its channel closed answers from those it has received. A run in which no client gives up and a group
  membership that is false is kept, and served to the next request: `CancelExample.WorkLeftBehindSpoilsTheCache`.
  The code does not look at the context before it keeps an answer; the cache would be right exactly if it did:
  `CancelExample.CacheIsRightIffHeeded`.
- The merging iterator takes along the row on which it stops skipping a repeated key. A group with both a user
  and the public wildcard of its type, or a tuple of the request that repeats one of the datastore, makes the
  read lose the next group, and weight two denies a true goal without the cycle flag:
  `ListingFailures.ATrueGoalIsDenied`. A row that a condition rejects does the same harm. Exactly when a read of
  rows that all count is right: `LeafReads.ReadsAllIff`, which rests on `TupleMerge.MergedIffLossless`. Exactly
  when it is right whatever is rejected: `LeafReads.RightWhateverIsRejectedIff`.
- The breadth-first strategies keep only the object of a userset or of a parent, so they can leave the
  recursive relation, through another userset or a parent of another type, and come back to its type. Runs that
  allow a false goal: `StrayExamples.OwnersAreTakenForMembers` and `StrayExamples.OrganisationsArePassedThrough`.
  Exactly when they agree with the reference strategy on every store: `Strays.RecursiveAgreesIff`.
- Keeping an iterator deletes invalidation records that other cached iterators rely on, and they are served
  again: a run of the controller in `CacheController.FlushRevivesAnEntry`. Exactly which records may be deleted
  whatever else is cached: `CacheController.HarmlessIffSafe`.
- With exclusion a true goal can be denied under the cycle flag: a run of the machine in
  `RingExample.ExclusionDeniesATrueGoal`. Exactly when: `Handlers.ExclusionDeniedIff`; it does not happen to goals
  that never come back to themselves (`Check.LooplessIsDecided`).
- A relation need not have an edge to itself, although every object has its own relations:
  `Edges.SelfDefiningNeedsNoEdge`. That is the only exception: `Edges.EveryTrueGoalHasAnEdgeIff`.
- `fastPathDifference` is a difference of bags, which is that of sets under an exact condition on its inputs
  (`FastPathMeaning.DifferenceIsSetDifferenceIff`). The pipeline never breaks it: the merge yields no object
  twice, so no stream repeats one (`FastPathMeaning.ListsTheSet`).

**How concurrency is modelled.** In `ring.dfy` any job of any request takes the next step. Jobs that a reducer
leaves behind, and all jobs of a request that is given up, go on with an ended context: they may do all that
they would have done, end in an error, or answer from a part of their outcomes (`Reducers.RunUnion` and
`Reducers.RunIntersection` are the loops in which that happens). In the classes of the other files the context is
live, and a method that can be interrupted calls `Suspend`, where other goroutines do anything that keeps the
invariant every method keeps; outcomes reach a reducer in any order (`Reducers.Arrive`); which channel is read
next is a nondeterministic choice.

**Parameters.** The clock, read failures (`World.faulty`: any read may then fail, at the start or on the way),
how the read of the changelog goes, what the planner chooses, the answers of the type system about paths and
strategies, and what other goroutines do are parameters or nondeterministic choices.

## Model

| member | source | states |
|---|---|---|
| `Semantics.Exclusive` | openfga-fork/internal/graph/check.go:388-459 | no goal both holds and fails, whatever the cycles and exclusions of the model |
| `Semantics.UnfoundedNeverHolds` | openfga-fork/internal/graph/check.go:461-476 | a set of goals that only support one another has no member that holds |
| `Semantics.GoalTrue` | openfga-fork/internal/graph/check.go:388-459 | a defined goal with a path is true as soon as its rewrite is |
| `Semantics.GoalFalse` | openfga-fork/internal/graph/check.go:430-448 | a goal is false if no path leads to it or its rewrite is false |
| `Semantics.UnionMeaning` | openfga-fork/internal/graph/check.go:1009-1010 | a union is true iff one operand is, and false iff all of them are |
| `Semantics.IntersectionMeaning` | openfga-fork/internal/graph/check.go:1011-1012 | an intersection is true iff all operands are, at least two, and false iff one is |
| `Semantics.DifferenceMeaning` | openfga-fork/internal/graph/check.go:1013-1014 | a difference is true iff the base is true and the other false, and false iff the base is false or the other true |
| `Semantics.GoalMeaning` | openfga-fork/internal/graph/check.go:403-459 | a goal is true iff it is its own userset, or a path leads to it and its rewrite is true |
| `Semantics.FalseGoalMeaning` | openfga-fork/internal/graph/check.go:403-459 | a goal is false iff it is not its own userset, its relation is defined, and no path leads to it or its rewrite is false |
| `Semantics.ComputedMeaning` | openfga-fork/internal/graph/check.go:821-838 | a computed relation means what the relation means on the same object |
| `Semantics.TupleToUsersetMeaning` | openfga-fork/internal/graph/default_resolver.go:149-171 | a tuple-to-userset is true iff the user has the computed relation on some parent that a stored tuple names and whose type defines it, and false iff the user is denied it on all of these |
| `Semantics.DirectMeaning` | openfga-fork/internal/graph/check.go:777-818 | on valid tuples, a direct relation is true iff a stored tuple names the user, the wildcard, or a userset of which the user is a member, and false iff none does the first two and the user is denied membership in all usersets named |
| `Reducers.RunUnion` | openfga-fork/internal/graph/check.go:158-214 | allowed if some outcome received is, else an error if there is one, else a denial that is flagged iff some outcome is; with a live context all outcomes are received, with an ended one any part, or it ends in an error |
| `Reducers.RunIntersection` | openfga-fork/internal/graph/check.go:216-283 | an error below two handlers; denied if some outcome received is denied or flagged, carrying a flag such an outcome has; else an error if there is one; else allowed without a flag; again from any part once the context has ended |
| `Reducers.RunExclusion` | openfga-fork/internal/graph/check.go:285-362 | denied if the base is denied or flagged or the other is allowed or flagged, else an error if there is one or one got lost, else allowed, whichever arrives first |
| `Reducers.ConsumeDispatches` | openfga-fork/internal/graph/default_resolver.go:175-219 | the verdict of a union, although it reads to the end and forgets earlier errors on success; an error if its context has ended |
| `Reducers.UnionOrderIrrelevant` | openfga-fork/internal/graph/check.go:180-214 | the verdict, and any denial in full, is the same for all orders of arrival |
| `Reducers.IntersectionOrderIrrelevant` | openfga-fork/internal/graph/check.go:244-283 | the verdict is the same for all orders of arrival |
| `Reducers.ExclusionOrderIrrelevant` | openfga-fork/internal/graph/check.go:308-362 | the verdict is the same whichever side arrives first |
| `Reducers.UnionMeets` | openfga-fork/internal/graph/check.go:160-214 | a union vouches for the disjunction of what its handlers vouch for, and does not deny what is due |
| `Reducers.IntersectionMeets` | openfga-fork/internal/graph/check.go:218-283 | an intersection vouches for the conjunction, even when it stops at a flagged answer |
| `Reducers.ExclusionMeets` | openfga-fork/internal/graph/check.go:287-362 | an exclusion answers without a flag only what base and subtracted side decide |
| `Reducers.Arrive` | openfga-fork/internal/graph/check.go:165-178 | outcomes arrive in any order, none lost and none twice |
| `Reducers.UnionInAnyOrder` | openfga-fork/internal/graph/check.go:160-214 | what a union returns for one order of arrival it may return for the listed order |
| `Reducers.IntersectionInAnyOrder` | openfga-fork/internal/graph/check.go:218-283 | what an intersection returns for one order of arrival it may return for the listed order |
| `Claims.DueStep` | openfga-fork/internal/graph/check.go:461-476 | a goal that has a derivation shorter than all goals of its path is not on the path, and its rewrite stays due when it joins the path |
| `Claims.GoalMeets` | openfga-fork/internal/graph/check.go:403-459 | an answer about the rewrite, with the goal on the path, is an answer about the goal |
| `Claims.NoPathMeets` | openfga-fork/internal/graph/check.go:440-448 | denying a goal that no path reaches is definitive |
| `Claims.TrivialMeets` | openfga-fork/internal/graph/check.go:403-424 | a self-defining goal may be allowed at once, and a goal met again may be denied under the flag |
| `Claims.ComputedMeets` | openfga-fork/internal/graph/check.go:821-838 | an answer about the computed relation is one about the rewrite |
| `Claims.TtuMeets` | openfga-fork/internal/graph/check.go:840-946 | an answer about the parents is one about the tuple-to-userset rewrite |
| `Claims.ThisMeaning` | openfga-fork/internal/graph/check.go:777-818 | the direct rewrite is what the tuples say or what the userset goals say |
| `Claims.DecidedMeets` | openfga-fork/internal/graph/check.go:636-775 | a strategy that decides its goals outright may stand for dispatching them |
| `Claims.DescendingIsLoopless` | openfga-fork/internal/graph/check.go:461-476 | in a model without recursion no chain of sub-goals comes back to where it has been, whatever the tuples |
| `Streams.Stream.constructor` | openfga-fork/internal/iterator/stream.go:25-30 | a new stream has the list of its producer ahead and no buffer; its messages bring that list, or begin it if an error is among them |
| `Streams.Stream.Head` | openfga-fork/internal/iterator/stream.go:36-51 | shows the first unread item of the buffer, and drops a buffer that has run out |
| `Streams.Stream.Next` | openfga-fork/internal/iterator/stream.go:53-65 | takes exactly that item |
| `Streams.Stream.SkipToTargetObject` | openfga-fork/internal/iterator/stream.go:80-106 | drops from the current buffer exactly the items below the target, and fails on the empty target |
| `Streams.Stream.Drain` | openfga-fork/internal/iterator/stream.go:108-121 | takes all that is left of the buffer, in order |
| `Streams.Stream.FetchSource` | openfga-fork/internal/iterator/stream.go:123-144 | gives a stream without a buffer its next batch; only an error leaves behind what the producer did not send, and a stream that is done has nothing ahead |
| `Streams.Group.FetchAll` | openfga-fork/internal/iterator/stream.go:189-196 | every stream has a buffer or is done, and unless a source fails no unread item is lost |
| `Streams.Group.CleanDone` | openfga-fork/internal/iterator/stream.go:187-202 | keeps exactly the streams that are not done, in their order, each with a buffer |
| `SetOperations.NextItemInSliceStreams` | openfga-fork/internal/iterator/stream.go:151-166 | moves exactly the given streams on by one item, which they all show |
| `SetOperations.AddToBatch` | openfga-fork/internal/graph/weight_two_resolver.go:282-296 | the item joins what has been emitted unless it is empty; batches go out beyond a hundred |
| `SetOperations.FastPathUnion` | openfga-fork/internal/graph/weight_two_resolver.go:298-368 | terminates; without read errors it emits, in ascending order, every item as often as the input that has it most often; with errors what it emits is a first part of that |
| `SetOperations.FastPathIntersection` | openfga-fork/internal/graph/weight_two_resolver.go:370-458 | terminates; without read errors it emits, in ascending order, every item as often as the input that has it least often; with errors a first part of that |
| `SetOperations.FastPathDifference` | openfga-fork/internal/graph/weight_two_resolver.go:460-577 | terminates; without read errors it emits, in ascending order, every item as often as the base has it more often than the other; with errors a first part of that |
| `Merge.UnionAdvance` | openfga-fork/internal/graph/weight_two_resolver.go:309-362 | one round that advances the least heads keeps emitted and unread items accounted for |
| `Merge.InterMatch` | openfga-fork/internal/graph/weight_two_resolver.go:434-447 | emitting an item that all heads share keeps the account |
| `Merge.InterSkip` | openfga-fork/internal/graph/weight_two_resolver.go:449-456 | skipping below the greatest head, within the buffers only, drops nothing common |
| `Merge.DiffCancel` | openfga-fork/internal/graph/weight_two_resolver.go:514-526 | equal heads cancel each other |
| `Merge.DiffTail` | openfga-fork/internal/graph/weight_two_resolver.go:550-576 | once the subtracted side is exhausted the rest of the base is emitted as it is |
| `Bags.PartIsPrefix` | openfga-fork/internal/graph/weight_two_resolver.go:298-577 | what is emitted so far is the beginning of the one sorted list of the bag, and all of it if nothing is missing |
| `FastPath.FastPathDirect` | openfga-fork/internal/graph/weight_two_resolver.go:243-262 | one message with the objects that the merge of the rows yields and the filters leave, cut short by a read that fails |
| `FastPath.FastPathRewrite` | openfga-fork/internal/graph/weight_two_resolver.go:607-628 | the messages list every object as often as the rewrite says, in ascending order, however leaves and outputs are batched; if a read fails they list a beginning of that; set operations look ahead, so their rows are to be merged without loss |
| `FastPath.FastPathOperationSetup` | openfga-fork/internal/graph/weight_two_resolver.go:582-605 | one stream for every operand, in order, with what the operand lists ahead |
| `FastPathMeaning.ListsTheSet` | openfga-fork/internal/graph/weight_two_resolver.go:582-628 | if the reads are right, every object of the denoted set is listed exactly once, and nothing else |
| `FastPathMeaning.DifferenceIsSetDifferenceIff` | openfga-fork/internal/graph/weight_two_resolver.go:514-547 | the result has the members of the set difference iff no subtracted object is more frequent in the base |
| `FastPathMeaning.DenotesReaches` | openfga-fork/pkg/typesystem/typesystem.go:700-734 | an object that is listed has a path for the user in the model |
| `FastPathMeaning.WeightOneMeaning` | openfga-fork/pkg/typesystem/typesystem.go:427-455 | for relations of weight one, membership in the list decides the goal both ways |
| `Weight2.Intersect` | openfga-fork/internal/graph/weight_two_resolver.go:106-201 | for every schedule an answer is allowed iff the two sides share an object, clean channels are answered, a denial has read both sides without error or found nothing on one, and errors on the right after its first message do not hide a common object |
| `Weight2.ReadBatch` | openfga-fork/internal/graph/weight_two_resolver.go:167-183 | asks on after errors; finds a match iff the batch has an object of the other side, and otherwise the sides stay disjoint |
| `Weight2.FanIn` | openfga-fork/internal/iterator/fan_in.go:22-56 | the merged channel delivers the messages of all channels and no others |
| `Weight2.ListLeft` | openfga-fork/internal/graph/weight_two_resolver.go:203-235 | the left side sends objects of what the fast path lists, and all of them unless a read fails; rows with loss are allowed where they are read on their own and do not fail |
| `Weight2.ListedIsTrue` | openfga-fork/internal/graph/weight_two_resolver.go:203-262 | where reads are merged without loss, a goal of weight one is true if its object is listed and false otherwise |
| `Weight2.ProduceLeft` | openfga-fork/internal/graph/weight_two_resolver.go:203-235 | whatever the left side sends has a true goal, also when a read fails; without an error the goals of all others are false |
| `Weight2.IntersectUsersets` | openfga-fork/internal/graph/weight_two_resolver.go:51-68 | an answer is allowed iff one of the usersets is listed, also on rows with loss where they are read on their own |
| `Weight2.ProduceLeftChannels` | openfga-fork/internal/graph/weight_two_resolver.go:203-235 | one such list for every type that defines the relation |
| `Weight2.Weight2Userset` | openfga-fork/internal/graph/weight_two_resolver.go:51-68 | answers what the userset goals of the restriction mean, never under the cycle flag, whichever reads fail |
| `Weight2.Weight2TTU` | openfga-fork/internal/graph/weight_two_resolver.go:71-99 | answers what the goals of the parents mean, whichever reads fail |
| `ListingFailures.ATrueGoalIsDenied` | openfga-fork/internal/graph/weight_two_resolver.go:51-68 | on a store with a user and the wildcard in one group, on the same store with the wildcard rejected by a condition, and on one with a tuple repeated by the request, a true goal is denied although nothing fails |
| `ListingFailures.GroupTwoIsLost` | openfga-fork/pkg/storage/tuple_iterators.go:499-509 | on these stores the read lists the first group only, and ends without failure |
| `ListingFailures.ReliedOnIffNotOffered` | openfga-fork/internal/graph/check.go:703-774 | on these stores the assumptions of the main results are met for the user iff weight two is not offered |
| `Recursive.RecursiveFastPath` | openfga-fork/internal/graph/recursive_resolver.go:82-162 | allowed only along a walk from the object to one the user reaches directly; denied only with a closed set of objects that has none, after the user side was read without error or when there is nothing to search |
| `Recursive.BreadthFirstRecursiveMatch` | openfga-fork/internal/graph/recursive_resolver.go:266-334 | terminates within the depth limit; same two certificates from the first level; if nothing fails and nothing is found it denies iff its levels run out before the depth does, and otherwise ends in an error |
| `Recursive.VisitLevel` | openfga-fork/internal/graph/recursive_resolver.go:278-320 | the next level has all successors of the objects of this level not visited before, unless a read failed |
| `Recursive.ShortWalksEnd` | openfga-fork/internal/graph/recursive_resolver.go:266-334 | the levels run out in time if no walk without repetition from the first level has more objects than the depth less three |
| `Recursive.AmpleSearch` | openfga-fork/internal/graph/recursive_resolver.go:266-334 | and whenever the depth exceeds, by two, the number of objects that tuples name |
| `RecursiveMeaning.DenialIsRight` | openfga-fork/internal/graph/recursive_resolver.go:270-334 | if no listed object can be reached every sub-goal is false, cycles included |
| `RecursiveMeaning.WalkHolds` | openfga-fork/internal/graph/recursive_resolver.go:82-162 | a walk to a listed object makes the goal true where the search cannot stray and return |
| `RecursiveMeaning.IteratorsToUserset` | openfga-fork/internal/graph/object_providers.go:97-150 | passes on objects of the channels only, of each iterator up to its first error, all of them unless an error is passed on |
| `RecursiveMeaning.RunSearch` | openfga-fork/internal/graph/recursive_resolver.go:82-162 | on any model the strategy is offered for, an allowance comes with a walk to a listed object and a denial with a closed set that has none; if reads are healthy and its levels run out in time it is an answer |
| `RecursiveMeaning.RecursiveUserset` | openfga-fork/internal/graph/recursive_resolver.go:51-63 | answers what dispatching the userset goals means, where the search cannot stray and return |
| `RecursiveMeaning.RecursiveTTU` | openfga-fork/internal/graph/recursive_resolver.go:65-80 | answers what dispatching the parents means, where the search cannot stray and return |
| `Strays.RecursiveAgreesIff` | openfga-fork/pkg/storage/tuple_mappers.go:72-86 | the search, by usersets or by parents, agrees with the goals on every valid store iff the model has no way out of the relation and back to its type, or no store lists any object for the user |
| `Strays.TakersAreListed` | openfga-fork/pkg/typesystem/typesystem.go:619-698 | for relations that take users directly some store does |
| `Strays.NoReturnIffNoWayBack` | openfga-fork/pkg/typesystem/typesystem.go:619-698 | the condition of the strategy is the absence of such a way |
| `Strays.RunAstray` | openfga-fork/internal/graph/recursive_resolver.go:82-162 | on the store built along such a way the strategy allows, without the flag, a goal that is false |
| `StrayExamples.OwnersAreTakenForMembers` | openfga-fork/pkg/typesystem/typesystem.go:619-698 | on a model with members and owners of groups among the members the strategy makes a member of somebody who is none |
| `StrayExamples.OrganisationsArePassedThrough` | openfga-fork/pkg/typesystem/typesystem.go:549-617 | on a model with folders in organisations in folders the strategy lets somebody view who does not |
| `Handlers.UnionOfGoals` | openfga-fork/internal/graph/default_resolver.go:81-173 | dispatching every listed goal decides whether one of them holds, also when the listing breaks off |
| `Handlers.UnionOfDirectHandlers` | openfga-fork/internal/graph/check.go:783-818 | on valid tuples, the handlers started for the user decide the direct rewrite: those left out could have found nothing |
| `Handlers.UnionOfGroups` | openfga-fork/internal/graph/check.go:703-774 | splitting the usersets by weight decides them all |
| `Handlers.ExclusionDeniedIff` | openfga-fork/internal/graph/check.go:285-362 | a true exclusion whose operands were answered is denied iff one of the answers is under the flag, and then it carries the flag |
| `Depth.ShallowIffChainsFit` | openfga-fork/internal/graph/check.go:368-408 | in a well-typed model the depth left is enough for a goal iff every chain of sub-goals from it, up to where it meets the path, has fewer dispatches than that, computed relations being none, and reaches every search offered with enough left for its levels |
| `Depth.AmpleIsShallow` | openfga-fork/internal/graph/check.go:368-408 | which is so whenever the depth left exceeds the goals that the path has not met, with room for one search |
| `Check.CachedCheckResolver.ResolveCheck` | openfga-fork/internal/graph/cached_resolver.go:151-212 | the answer meets the claim of the goal along this path, served or computed; if there is a valid entry whenever the cache may be asked, such an entry is the answer, at any depth; an answer without the flag is then in the cache, a flagged one or an error leaves the cache alone; the cache stays truthful |
| `Check.CachedCheckResolver.Suspend` | openfga-fork/internal/graph/cached_resolver.go:159-212 | whatever other requests, expiry and eviction do, the cache stays truthful, if those requests leave truths |
| `Check.LocalChecker.ResolveCheck` | openfga-fork/internal/graph/check.go:388-459 | terminates; the answer meets the claim of the goal along this path, whichever reads fail; at the depth limit it is an error; it is an answer if reads are healthy and the goal is shallow for the depth that is left |
| `Check.LocalChecker.CheckRewrite` | openfga-fork/internal/graph/check.go:997-1021 | the answer meets the claim of the rewrite |
| `Check.LocalChecker.CheckComputedUserset` | openfga-fork/internal/graph/check.go:821-838 | the same for a computed relation, without spending depth or asking the cache |
| `Check.LocalChecker.Dispatch` | openfga-fork/internal/graph/check.go:368-383 | the same for a sub-problem, one level deeper, through the cache if there is one |
| `Check.LocalChecker.DefaultStrategy` | openfga-fork/internal/graph/default_resolver.go:57-173 | the answer meets the claim that one of the goals holds |
| `Check.LocalChecker.CheckDirect` | openfga-fork/internal/graph/check.go:777-818 | the answer meets the claim of the direct rewrite |
| `Check.LocalChecker.CheckDirectUsersetTuples` | openfga-fork/internal/graph/check.go:636-775 | the answer meets the claim of the userset goals whichever strategy is chosen |
| `Check.LocalChecker.CheckUsersetsByWeight` | openfga-fork/internal/graph/check.go:703-774 | the same when restrictions are split by weight |
| `Check.LocalChecker.CheckTTU` | openfga-fork/internal/graph/check.go:840-946 | the answer meets the claim of the rewrite whichever strategy is chosen |
| `Check.LocalChecker.CheckUnion` | openfga-fork/internal/graph/check.go:948-995 | the answer meets the claim of the union |
| `Check.LocalChecker.CheckIntersection` | openfga-fork/internal/graph/check.go:948-995 | the answer meets the claim of the intersection |
| `Check.LocalChecker.CheckExclusion` | openfga-fork/internal/graph/check.go:948-995 | the answer meets the claim of the exclusion |
| `Check.DefinitiveMeets` | openfga-fork/internal/graph/cached_resolver.go:159-181 | a definitive response answers the goal along every path |
| `Check.OnlyDefinitiveIsServable` | openfga-fork/internal/graph/cached_resolver.go:194-212 | a response without the flag is right along every path iff it is definitive |
| `Check.CycleFreeAnswersAgree` | openfga-fork/internal/graph/cached_resolver.go:194-212 | two answers without the flag are equal, whatever the paths they were computed on |
| `Check.StrategiesAgree` | openfga-fork/internal/graph/check.go:636-775 | two strategies that answer for the same goals without the flag give the same answer |
| `Check.LooplessIsDecided` | openfga-fork/internal/graph/check.go:403-476 | with exclusions as well, whatever is answered about a goal whose chains of sub-goals never come back is the truth |
| `Check.NoFalseDenial` | openfga-fork/internal/graph/check.go:403-476 | without exclusion an answer from an empty path is allowed iff the goal is true |
| `Check.NewRing` | openfga-fork/internal/graph/builder.go:73-107 | the checker dispatches to the cache and the cache delegates to the checker, and the cache is empty |
| `Ring.StepKeeps` | openfga-fork/internal/graph/check.go:140-362 | every step of every job, its context live or ended, keeps the cache truthful and what each job vouches for, unless an answer is made of outcomes that got lost |
| `Ring.CacheIsTruthful` | openfga-fork/internal/graph/cached_resolver.go:151-212 | in every reachable state every entry since the last change says what its goal means, unless it was made of outcomes that got lost |
| `Ring.LiveStepIsUncut` | openfga-fork/internal/graph/check.go:180-283 | work whose context is live makes no answer of lost outcomes and keeps none, unless the cache serves one |
| `Ring.NothingIsCut` | openfga-fork/internal/graph/cached_resolver.go:190-210 | if the cache heeded contexts, no such answer would be in it or reach a waiting client |
| `Ring.AnswersAreTrue` | openfga-fork/internal/graph/cached_resolver.go:151-212 | in every reachable state answers without the flag are true and agree, and so are all answers from an empty path without exclusion and all answers about goals that never come back, unless made of outcomes that got lost |
| `RingDepth.AtTheLimit` | openfga-fork/internal/graph/check.go:406-408 | at the depth limit the local checker comes to an error in one step and leaves the cache as it is |
| `RingDepth.RunStaysWithin` | openfga-fork/internal/graph/check.go:368-408 | in every reachable state no job of any request is past the limit, and none with handlers at work is at it |
| `RingExample.ExclusionDeniesATrueGoal` | openfga-fork/internal/graph/check.go:345-351 | in a world that meets all assumptions a state is reachable in which a request on its own, for a true goal, was denied under the flag |
| `CancelExample.WorkLeftBehindSpoilsTheCache` | openfga-fork/internal/graph/cached_resolver.go:190-210 | in such a world, with no client giving up, a state is reachable in which work left behind has kept a wrong answer and a later request was allowed a goal that is not true |
| `CancelExample.HalfIsTakenForAll` | openfga-fork/internal/graph/check.go:247-283 | an intersection whose context has ended allows although one of its two handlers has denied |
| `CancelExample.CacheIsRightIffHeeded` | openfga-fork/internal/graph/cached_resolver.go:190-210 | in all reachable states of all configurations the cache is right, iff it heeds the context of a request before it keeps the answer |
| `PathGuard.GuardIsIrrelevant` | openfga-fork/internal/graph/check.go:440-448 | on closed paths and valid tuples goals mean the same as with a path to every relation, where the guard never applies |
| `Edges.Search.GetRelationshipEdges` | openfga-fork/internal/graph/graph.go:138-163 | terminates; visits what is reachable and not yet visited, and collects exactly the edges of what it newly visits, with flags as below |
| `Edges.Search.WithRewrite` | openfga-fork/internal/graph/graph.go:165-376 | adds the edges of the rewrite itself; in pruned mode edges that are not flagged lie outside all intersections and exclusions; an edge is flagged if the relation it starts from involves an operator, and otherwise only behind one; in full mode the first edge under an intersection or a base is flagged, and at most one for every operator |
| `Edges.CollectEdges` | openfga-fork/internal/graph/graph.go:112-136 | every edge is found as often as its relation contributes it, if that relation is reachable, and otherwise not; it is flagged only if it is a tuple-to-userset edge from a relation that involves an operator, which always is, or some chain from the target to it passes an operator; none is flagged in a model without operators; in full mode no more are than there are operators in reachable relations |
| `Edges.NothingMarked` | openfga-fork/internal/graph/graph.go:295-374 | without intersections and exclusions in the model no chain passes one |
| `EdgeMeaning.LocalMeaning` | openfga-fork/internal/graph/graph.go:172-376 | a relation contributes an edge iff some operand does that the mode looks at: its restrictions name the source or the wildcard of its type, or it refers to the relation that is the source |
| `EdgeMeaning.NextMeaning` | openfga-fork/internal/graph/graph.go:172-376 | a relation leads on to another iff some operand does that the mode looks at, through a userset it allows, a computed relation, or a parent whose type defines it |
| `EdgeMeaning.FullSearchSkipsNothing` | openfga-fork/internal/graph/graph.go:318-374 | the full search looks at every operand at any depth, what is subtracted included |
| `Edges.PrunedIsPartOfAll` | openfga-fork/internal/graph/graph.go:295-374 | the pruned search finds every edge at most as often as the full one |
| `Edges.PruningLosesNothing` | openfga-fork/internal/graph/graph.go:118-136 | if any valid store lets a user of the source type have the target relation, the pruned search finds an edge |
| `Edges.SelfDefiningNeedsNoEdge` | openfga-fork/internal/graph/graph.go:118-136 | except for an object's relation on itself |
| `Edges.EveryTrueGoalHasAnEdgeIff` | openfga-fork/internal/graph/graph.go:118-136 | every true goal of the source's kind has an edge iff the source is not the target itself or there is an edge anyway |
| `EdgeMeaning.CleanEdgeMeaning` | openfga-fork/internal/graph/graph.go:76-86 | what an edge outside intersections and exclusions leads to satisfies the rewrite of its relation |
| `EdgeMeaning.CleanEdgeReachesTarget` | openfga-fork/internal/graph/graph.go:76-86 | followed up along the chain to the target, an edge without the flag needs no further evaluation at all |
| `CacheController.Controller.FindChangesAndInvalidateIfNecessary` | openfga-fork/internal/cachecontroller/cache_controller.go:198-317 | it completes if the changelog is read and not empty; a completed run has handled every change logged before it, beyond its page too; a failed read invalidates the whole store; a timeout changes nothing; undisturbed, it writes nothing if nothing is new, a record for the store iff the whole page is young, and otherwise exactly the records of the young changes |
| `CacheController.Controller.InvalidateSince` | openfga-fork/internal/cachecontroller/cache_controller.go:247-265 | nothing is written when nothing is new, and what was read is handled all the same |
| `CacheController.Controller.InvalidateChanges` | openfga-fork/internal/cachecontroller/cache_controller.go:267-304 | the whole store is invalidated iff all changes of the page are younger than cached iterators live |
| `CacheController.Controller.InvalidateNewest` | openfga-fork/internal/cachecontroller/cache_controller.go:291-304 | after the loop every change up to the newest of the page is handled; undisturbed, the records of exactly the young changes are new |
| `CacheController.Controller.InvalidateByKey` | openfga-fork/internal/cachecontroller/cache_controller.go:325-335 | the new record covers the change and all that the old record covered |
| `CacheController.Controller.InvalidateIteratorCache` | openfga-fork/internal/cachecontroller/cache_controller.go:319-323 | a record for the store, now |
| `CacheController.Controller.Claim` | openfga-fork/internal/cachecontroller/cache_controller.go:174-180 | the one place of a run is given iff it is free |
| `CacheController.Controller.InvalidateIfNeeded` | openfga-fork/internal/cachecontroller/cache_controller.go:172-191 | while a run is under way it does nothing; otherwise it runs and frees the place, and has handled all that was logged, or revoked everything, or timed out |
| `CacheController.Controller.DetermineInvalidationTime` | openfga-fork/internal/cachecontroller/cache_controller.go:129-159 | if the newest change dealt with is fresh it returns its time and changes nothing; otherwise it returns zero and, unless a run is under way, starts one: if the changelog is read and not empty, everything logged is then handled and remembered; every change up to the time it returns is handled |
| `CacheController.Controller.FindInCache` | openfga-fork/pkg/storage/storagewrappers/cached_datastore.go:246-292 | serves an entry iff it is live and no record is newer; as long as no flush has done harm it misses no handled change |
| `CacheController.Controller.Flush` | openfga-fork/pkg/storage/storagewrappers/cached_datastore.go:621-644 | keeps an iterator and deletes its records; does no harm if the records are safe to delete, and otherwise exactly if no other cached entry relies on them |
| `CacheController.HarmlessIffSafe` | openfga-fork/pkg/storage/storagewrappers/cached_datastore.go:638-642 | a flush leaves every possible entry as invalid as it was iff each live record it deletes is no newer than the one of the store, or everything older has expired |
| `CacheController.FlushRevivesAnEntry` | openfga-fork/pkg/storage/storagewrappers/cached_datastore.go:638-642 | in a run of the controller, after an invalidation that has completed, keeping one iterator makes a stale one be served |
| `Thompson.ThompsonStats.Update` | openfga-fork/internal/planner/thompson.go:83-112 | terminates when the others do; its sample and theirs are each counted once, and beta does not decrease |
| `Thompson.ThompsonStats.constructor` | openfga-fork/internal/planner/thompson.go:114-131 | the prior is the posterior of no samples |
| `Thompson.Millis` | openfga-fork/internal/planner/thompson.go:84 | samples are in milliseconds: a million nanoseconds each |
| `Thompson.ClosedForm` | openfga-fork/internal/planner/thompson.go:91-103 | lambda, mu, alpha and beta in terms of the number, the sum and the squares of the samples |
| `Thompson.OrderOfCommitsIrrelevant` | openfga-fork/internal/planner/thompson.go:86-111 | the posterior is the same for all orders of commits |
| `Thompson.BetaNeverDecreases` | openfga-fork/internal/planner/thompson.go:94-96 | no sample lowers beta |
| `Iterators.StaticIterator.Next` | openfga-fork/pkg/storage/tuple_iterators.go:191-210 | takes the first item |
| `Iterators.ConditionsFilteredIterator.Next` | openfga-fork/pkg/storage/tuple_iterators.go:327-353 | yields the next item that meets its condition; at the end surfaces the last filter error once, iff nothing ever met its condition |
| `Iterators.ConditionsFilteredIterator.Head` | openfga-fork/pkg/storage/tuple_iterators.go:362-400 | looks at what Next will yield, and leaves what is to come unchanged |
| `Iterators.LastErrorIs` | openfga-fork/pkg/storage/tuple_iterators.go:327-353 | there is no last error iff every condition can be evaluated, and otherwise it is that of the last item whose condition cannot |
| `Iterators.ReadFiltered` | openfga-fork/pkg/storage/tuple_iterators.go:324-400 | with looks ahead anywhere, reading to the end yields exactly the valid subsequence, and ends with the failure below, with the error of the last condition that cannot be evaluated if none was met, or done |
| `Iterators.OrderedCombinedIterator.FindHead` | openfga-fork/pkg/storage/tuple_iterators.go:469-529 | the first input with the least head after moving repeated keys on, done inputs forgotten |
| `Iterators.OrderedCombinedIterator.Next` | openfga-fork/pkg/storage/tuple_iterators.go:436-451 | takes from the chosen input; from a state without loss that is the least key to come, and only that key goes |
| `Iterators.OrderedCombinedIterator.Head` | openfga-fork/pkg/storage/tuple_iterators.go:453-467 | from a state without loss it shows the least key to come and loses none |
| `TupleMerge.YieldsIncrease` | openfga-fork/pkg/storage/tuple_iterators.go:436-523 | over ascending inputs every item comes from an input and its key exceeds all keys before |
| `TupleMerge.SoundStep` | openfga-fork/pkg/storage/tuple_iterators.go:469-523 | from a state without loss the merge yields the least key to come, and the state stays without loss |
| `TupleMerge.NextTogether` | openfga-fork/pkg/storage/tuple_iterators.go:531-535 | forgetting the inputs that are done changes no answer and no state |
| `TupleMerge.SeparateIsLossless` | openfga-fork/pkg/storage/tuple_iterators.go:418-434 | inputs without a key that repeats are merged without loss |
| `Iterators.ReadMerged` | openfga-fork/pkg/storage/tuple_iterators.go:418-523 | with looks ahead anywhere, reading inputs without loss to the end yields each key once in ascending order |
| `Iterators.ReadToEnd` | openfga-fork/pkg/storage/tuple_iterators.go:436-451 | reading any inputs to the end is the run of the merge, cut short by a read that fails |
| `TupleMerge.RepeatedKeyEndsTheRun` | openfga-fork/pkg/storage/tuple_iterators.go:499-509 | an input with a second row of a key loses the row after it, and the run ends without failure |
| `TupleMerge.SharedKeyLosesTheNext` | openfga-fork/pkg/storage/tuple_iterators.go:499-509 | so does an input that shares a key with one before it |
| `TupleMerge.MergedIffLossless` | openfga-fork/pkg/storage/tuple_iterators.go:413-535 | any number of ascending inputs, with repetitions, are merged into all of their keys, each once and without failure, iff every key taken along from one is regained from another |
| `LeafReads.ReadsAllIff` | openfga-fork/pkg/storage/storagewrappers/combinedtuplereader.go:158-195 | a read that starts from the user lists exactly the objects directly related to the user if its rows are merged without loss and those of one object are rejected together; if none is rejected, only then |
| `LeafReads.RightWhateverIsRejectedIff` | openfga-fork/internal/checkutil/checkutil.go:137-145 | a read is right whichever rows validation and conditions reject, iff no object has the relation to the user twice |
| `LeafReads.CountedIsDirect` | openfga-fork/internal/checkutil/checkutil.go:101-146 | the objects with a row that is not rejected are those related to the user by name or by a wildcard that the model allows |
| `LeafReads.LeafIsStrict` | openfga-fork/pkg/storage/storagewrappers/combinedtuplereader.go:189-191 | no read lists an object twice, whatever the store |
| `LeafReads.UnrepeatedIsReadable` | openfga-fork/pkg/storage/storagewrappers/combinedtuplereader.go:158-195 | if no object has a relation to the user twice, in the request, the datastore or both, every read is right, whatever is rejected |

## Left out

- Cancellation and deadlines are modelled in `ring.dfy` and in the loops of `reducers.dfy`; the classes of `check.dfy` run with a live context. What a fast strategy answers once its context has ended is left open, but for the flag. Panics and the concurrency limit are left out.
- Error values: all errors are one, except for the filter errors of the condition iterator.
- The responses' query counts and durations, the dispatch counter, throttling, the shadow checker and logging.
- Conditions on tuples: the tuples of a world are those left after validation and conditions, and `Store` has the rejected rows as well. A condition that cannot be evaluated rejects its row; that a read without any valid row then fails counts as a failed read of a faulty world.
- Object ids are ranks in byte order, so comparing ids compares the source's object strings of one type; the empty string is rank zero.
- The cache key is the identity of the request, not its hash; the text format of keys is not part of this model.
- The weighted graph of the model, which a library computes that is not part of this model: the conditions under which the type system offers a strategy are assumptions (`Handlers.SoundTypes`), and those of the breadth-first strategies are stronger than what the type system checks, as `StrayExamples` shows.
- FastPath.FastPathRewrite: requires rows merged without loss below set operations, and where a read may fail and be asked again, because what is read there depends on the looks ahead and on the errors; on rows without loss it does not (`Iterators.ReadMerged`).
- LeafReads.ReadsAllIff: is exact for reads of which no row is rejected; if some are, it is sufficient, and `LeafReads.RightWhateverIsRejectedIff` is exact for all ways to reject. The row of the user comes before that of the wildcard.
- SetOperations.FastPathIntersection: requires at least one stream, since the pipeline never builds it without operands.
- FastPathMeaning.ListsTheSet: requires that the reads it makes are right, because the list has gaps otherwise.
- Check.CachedCheckResolver.Suspend: takes it that other requests leave truths in the cache; `ring.dfy` does without that, and says which entries are true.
- RecursiveMeaning.WalkHolds: requires that the model has no way out and back, which is the exact condition unless no object can be listed at all (`Strays.RecursiveAgreesIff`).
- CacheController.Controller.FindInCache: speaks of when iterators were kept; an iterator that was read before a change and kept after it is not told apart.
- Thompson.ThompsonStats.Update: over exact reals; rounding, sampling and the choice among strategies are not modelled.
- Edges.Search.WithRewrite: edges are values, so that flags set in place on shared edges are copies.
- Iterators.OrderedCombinedIterator.FindHead: an input is represented by the items it has left; a read that fails is modelled by cutting the run short (`Iterators.ReadToEnd`), not inside the choice of the head.
- The combined and the plainly filtering tuple iterators, which only add easy members.
- The time-based eviction of caches is a nondeterministic step; the jitter of lifetimes is not modelled.
- Reverse expansion, list objects, the storage backends, the server and the menu portal.
