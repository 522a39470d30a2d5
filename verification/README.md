# rohy: verified models of the correlator's algorithms and state machines

rohy reads Windows event logs into a case, links events by rules, lays the resulting graphs out and counts them over
time. Its hard parts are modelled here, one Dafny module for each, and what they are for is proved of every input, every
run or every reachable state.

- **Correlation.** `SequenceMatch` finds as many occurrences of a sequence as fit, `WindowSweep` runs the one-pass
  sweep behind temporal rules, `WindowLimits` says exactly when that sweep is exact and `WindowPacking` how much it finds,
  `Lifetimes` turns a log into a table of process lifetimes, `FieldBuckets` and `Dataset` prepare and group what they work
  on. `Correlation` holds the result record they all fill in.
- **Ingestion.** `Ingest` is the sink with its two buffers and staged bookmarks, over the disk of `Durability`; `Ledger`
  is what has been counted, `Recording` which identities are stored, `Identity` (over `FieldText`) which records are one
  occurrence, and `Gate` the pause control.
- **Graphs.** `RelationStore` keeps edges and their index apart, `GraphRegistry` owns graph ids, and `Rebuild` builds
  rules' graphs anew over whatever an interrupted run left.
- **Caches.** `OrderCache` is the version-stamped cache, and `CacheCoherence` runs writers, readers and dataset readers
  over it in any interleaving. `EventQueries` has the keys it is looked up by.
- **Layouts.** `DisjointSets` and `Clusters` (components), `Ranking` (sequence layout), `Lanes` (temporal layout) and
  `TidyForest` (lineage layout; `Ancestry` says what one shows and `Precedence` in which order it is drawn), over `Cards`,
  `GraphEdges` and `Sorting`.
- **Formats and counting.** `PayloadLog`, `RuleFormat` (over `JsonText`, against the grammar of `JsonGrammar`, laid out as
  `RuleLayout` says), and `Timeline` (over `Sums`).

`dafny verify dfyconfig.toml` checks the project.

## How the models are built

Code that updates state is a class or a method with the same branches and loops, and its contract ties the new state to
a specification function; the properties are then lemmas about that function over whole runs.

*Crashes.* `Durability.Disk` keeps the list of every state it has ever been in, one for each durable step. A method that
promises `Recoverable` promises something of every state the disk passed through, so of a crash at any point. Committing
nodes and registering their identities are separate steps.

*Failures.* Any access may fail, unless the object it is made of says that none does. So what a method promises holds with any
access failing, and that it gets through is promised where none does.

*Interleavings.* `CacheCoherence` and `Gate` are state machines whose step functions are the bodies the locked methods
run; the properties hold after any finite list of steps by any number of clients.

*Loops with an opaque order.* Where the source ranges over a map, the method takes its elements in any order, so what it
promises holds for every iteration order.

## Where the code differs from its documentation

The code is modelled as it is. In each of these cases a lemma states the exact condition or a concrete input.

- The sweep keeps one parent per step and later events overwrite it (`backend/autograph/temporal.go:131`). With an
  end-to-end bound, the sweep for a given sequence is exact on all logs of dated events if and only if the sequence has at most three steps,
  or there is no bound, or the bound cannot bind (`WindowLimits.SweepIsExactIff`). The chain it reports is a real match on
  all logs if and only if the sequence has two steps, or three with the last two ids different
  (`WindowLimits.ReadBackIsSoundIff`).
- A parent in the lineage correlation need not be earlier than its child. It is at the child's own instant exactly when the
  PID the child names was created at that instant and not ended by then (`Lifetimes.ParentIsEarlierIff`). A process can be
  its own parent (`Lifetimes.SelfParentIff`), and two can be each other's (`Lifetimes.MutualParents`).
- The breakdown by source adds up to the deduplication count if and only if no copy was folded into the node while it
  was still buffered (`Ledger.BreakdownAddsUpIff`): `backend/graphene/schema.go:143` starts from no breakdown and
  `backend/evtx/evtx_ingest.go:403` calls it on such a node.
- A crash between committing nodes and registering their hashes leaves identities on record that the index does not know
  (`Recording.CrashWhileRegistering`). A deduplicating run stores each identity once if and only if the index knows every
  stored identity it meets (`Ingest.StoredOnceIffKnown`); one it does not know is stored again
  (`Ingest.Sink.StoreUnregistered`). Nothing is lost, and counts still cover everything read.
- A bookmark whose write failed is reported saved when it is set again: memory already has it, so nothing is written
  (`backend/capture/capture.go:68-72`). `Durability.Bookmarks.SetPosition` says exactly when success means that the
  document holds the position.
- The count beside the event list ignores hash filters on its fast path (`backend/graphene/graphene_query.go:216`):
  `EventQueries.CountIsListLengthIff`.
- `backend/graphlayout/sequence.go:51` says every remaining node is inside a cycle. That is true at every break if and only
  if no edge leads from a node on a cycle to a node on none (`Ranking.LeftIsOnCyclesIff`, `Ranking.ForcedOffCycle`). The
  number reported as cycles broken counts breaks, and a break need not break a cycle (`Ranking.TwoBreaksOneCycle`). That
  some edges then point leftward is true (`Ranking.LeftwardIffBroken`).
- `backend/graphlayout/lineage.go:21` says a node hangs under its lowest parent. It hangs under the parent placed first
  (`Ancestry.HangsUnderIff`); where only sources lead to it, that is the lowest exactly when the lowest is also the earliest
  (`Ancestry.HangsUnderEarliestIff`, `Ancestry.NotTheLowestParent`).
- A rule's graph whose registry write failed is returned to later calls as if it were kept
  (`backend/graphreg/graphreg.go:183-187`). Its id is handed out again after a restart if and only if no later write has
  succeeded (`GraphRegistry.Registry.Reopened`).
- The note at `backend/graphlayout/lineage.go:115-118` says every event of a forced group has a parent inside the group. It
  is true if and only if each node that no source and no lower id reaches lies on a cycle (`Ancestry.NoteHoldsIff`,
  `Ancestry.ForcedGroupWithoutParent`).
- Components of equal size and caption are ordered by the text of their ids, so `component-10` comes before
  `component-9` (`Clusters.TieOrderIff`, `Clusters.TenComesBeforeNine`).
- `indexOf` truncates toward zero, so a time less than one slice before the window is counted in the first slice
  (`Timeline.BeforeTheWindowIff`).
- A timeline grouping there is no such field for gives one lane named `(none)`, not the ungrouped view
  (`Timeline.EverythingIsNoneIff`, `Timeline.UnknownGroupingIsOneLane`).
- Text after a complete rule is refused if and only if, behind white space, it begins with something else than `]` or `}`
  (`JsonGrammar.LeftoverBehindTextIff`, `RuleFormat.LeftoverIsRefusedIff`); `backend/rules/format.go:69-72` means to refuse all of it.
- A blob's length is stored in 32 bits and truncated (`PayloadLog.RoundTripIff`).
- `backend/payload/payload.go:128-130` has a record carry its length so that the log can be walked without the graph. The
  store opens a log behind a torn record and appends to it. The walk then finds what was appended if and only if what was
  there is whole records (`PayloadLog.LaterAreFoundIff`), so never all of it behind a torn one
  (`PayloadLog.BehindTornRecordIff`). References are not affected (`PayloadLog.RoundTripIff`).
- The separator keeps fields apart only as long as no field holds it (`FieldText.TextIsUniqueIff`); nothing escapes it.

## Model

| member | source | states |
|---|---|---|
| SequenceMatch.GreedyMatch | backend/autograph/sequence.go:124-137 | Returns the pointwise earliest occurrence of the sequence from a start index on, and fails only when there is none. |
| SequenceMatch.MatchScope | backend/autograph/sequence.go:98-120 | The occurrences found in a partition are disjoint, in order, and as many as any packing can have; they go through the cap one by one. |
| SequenceMatch.OptimalIsLargestRepeat | backend/autograph/sequence.go:93-97 | A packing as large as any other has k occurrences or more exactly when the sequence repeated k times is a subsequence of the partition. |
| SequenceMatch.OptimalIsOccurrences | backend/autograph/sequence.go:98-120 | Its size is the largest such k, defined without any packing. |
| SequenceMatch.Generate | backend/autograph/sequence.go:19-37 | Over all partitions, matches are the smaller of the cap and the total number of occurrences, the rest is dropped, truncation is reported exactly when something was dropped. Relations come in whole runs, one for each match; each leads from an event to a later one of the same partition, which carry the ids of its step and of the next, with the rule's type and that step's label. |
| SequenceMatch.MatchIDsAreDistinct | backend/autograph/sequence.go:81-89 | Two occurrences found in one run never share a match id, in one partition or in two. |
| Correlation.AbsorbKeepsPrefix | backend/autograph/sequence.go:108-119 | Under the global cap the matches kept are a prefix, their edges are those of that prefix in order, and every other match is counted as dropped. |
| Correlation.AbsorbJoins | backend/autograph/sequence.go:48-119 | What chains that spell the sequence add: whole runs of edges, each of which joins the two events of its step. |
| Correlation.Result.EmitChain | backend/autograph/sequence.go:48-70 | Appends one edge per consecutive pair of a chain, in order, from the one event to the next, with the rule's type, the step's label and the id of the chain's two ends. |
| Correlation.Result.Record | backend/autograph/sequence.go:108-119 | One match more: emitted while under the cap, otherwise counted as dropped with nothing else changed. |
| WindowSweep.SweepIsExact | backend/autograph/temporal.go:84-150 | With no total bound, one that cannot bind, or at most three steps: the sweep completes on an event if and only if some strictly increasing chain after the previous completion ends there, spells the sequence and keeps both bounds. |
| WindowPacking.SweepIsGreatest | backend/autograph/temporal.go:77-150 | Under any bounds the sweep reports at least as many matches as any choice of matches that follow each other has; where the bound is tracked, exactly as many as the largest. |
| WindowSweep.NeverMisses | backend/autograph/temporal.go:84-150 | Under any bounds and any number of steps: where a match after the previous completion ends, the sweep completes. |
| WindowSweep.CompletionIsBacked | backend/autograph/temporal.go:117-136 | Every completion is the end of a chain that keeps the window, and of one that also keeps the total bound when there are at most three steps. |
| WindowSweep.AnchorIsFirstParent | backend/autograph/temporal.go:154-164 | Whatever step the anchor of a chain is looked up from, the loop arrives at the parent recorded for step 1. |
| WindowSweep.StepsFor | backend/autograph/temporal.go:92-95 | Each id is mapped to exactly the steps that carry it, in ascending order. |
| WindowSweep.Anchor | backend/autograph/temporal.go:154-164 | The loop over the parents computes the anchor as the recursion over them defines it. |
| WindowSweep.TryStep | backend/autograph/temporal.go:117-131 | Updating the arrays in place for one step changes that step only, and as judged against the state before the event. |
| WindowSweep.Descend | backend/autograph/temporal.go:106-132 | Going down the steps in place has the effect of moving all of them at once: no step sees what the same event did to the step below. |
| WindowSweep.ReadBack | backend/autograph/temporal.go:167-174 | The backward fill yields the recorded parents of steps 1 and up followed by the completing event. |
| WindowSweep.SettleEvent | backend/autograph/temporal.go:134-148 | After a completion the match is recorded and both arrays are cleared; otherwise nothing changes. |
| WindowSweep.MatchWindowed | backend/autograph/temporal.go:84-150 | The loop over arrays reports exactly the chains of the step-by-step run, through the cap, and touches no other counter. What it adds are whole runs of relations, one for each match, each joining two events that carry the ids of its step and of the next. |
| WindowSweep.RunIsSpelled | backend/autograph/temporal.go:117-174 | Whatever parents were overwritten, every chain reported has one event for each step, of that step's id. |
| WindowLimits.SweepIsExactIff | backend/autograph/temporal.go:84-150 | For every sequence of at least two steps, every positive window and every bound, which is all Generate lets through: exact on all chronological logs of dated events if and only if there are at most three steps, or no total bound, or the bound is at least the sum of the windows. |
| WindowLimits.BoundIsLost | backend/autograph/temporal.go:129-131 | For every sequence of four steps or more and every total bound that can bind, a chronological log of dated events that holds no match within the bound, and on which the sweep reports one. |
| WindowLimits.ReadBackIsSound | backend/autograph/temporal.go:167-174 | For two steps, and for three whose last two ids differ, every chain reported on a chronological log is a match within both bounds. |
| WindowLimits.ReadBackIsSoundIff | backend/autograph/temporal.go:131-174 | For every sequence of two or more steps and every positive window: all chains reported are matches on all chronological logs of dated events if and only if it is one of those. |
| WindowLimits.RelationsLeadForward | backend/autograph/temporal.go:134-174 | Where chains are matches on all logs, every relation a sweep adds leads to a later event, no further away than the window. |
| Lifetimes.BuildLifetimes | backend/autograph/lineage.go:108-141 | The table holds each PID's history as the log writes it, and the creations are listed in log order. |
| Lifetimes.TableRefinesReplay | backend/autograph/lineage.go:108-164 | Looking a PID up at a time in its table gives what replaying the log up to that time gives: its last creation, unless an exit or a creation has ended it since. |
| Lifetimes.OwnerWasAlive | backend/autograph/lineage.go:143-164 | What the replay returns is a creation of that PID at or before the time, with no creation or exit of it after that up to then. |
| Lifetimes.AliveOwnerIsFound | backend/autograph/lineage.go:143-164 | And every such creation is what the replay returns. |
| Lifetimes.HistoryIsDisjoint | backend/autograph/lineage.go:106-141 | The intervals of one PID are ordered and disjoint, and only the last can be open. |
| Lifetimes.LinkChild | backend/autograph/lineage.go:76-103 | One child: no parent named, unresolved, dropped at the cap, or linked, each with its own counter. A linked child gets one direct relation from its creator to it, then one from each ancestor further up, in order. |
| Lifetimes.LineageGroup | backend/autograph/lineage.go:73-104 | A partition's edges and counters are those of settling its creations one by one against the replayed log. Every relation added leads to one of the creations from the process as many steps up its line of creators as its depth says. |
| Lifetimes.EveryChildIsCounted | backend/autograph/lineage.go:76-95 | Creations that name a parent are matches plus unresolved plus dropped; matches keep to the cap, something is dropped only once the cap is reached, and truncation says exactly whether anything was. |
| Lifetimes.OrphansAreUnresolved | backend/autograph/lineage.go:76-90 | Exactly the creations that name a parent nobody was at the time count as unresolved, whether or not the cap has been met. |
| Lifetimes.EmitAncestors | backend/autograph/lineage.go:188-217 | Appends the derived links that walking up the replayed log gives, and nothing else. |
| Lifetimes.DerivedLinksAreAncestors | backend/autograph/lineage.go:188-217 | The k-th derived link goes from the ancestor that many steps up the direct links, at that depth, within both depth limits. |
| Lifetimes.WalkGoesAllTheWay | backend/autograph/lineage.go:188-217 | The walk ends only at the rule's limit, at the fixed depth, or where no further ancestor is known. |
| Lifetimes.OrphanAfterExit | backend/autograph/lineage.go:106-186 | A log that tells the process slots apart: a child is linked to the parent it names, not to the process its creation was logged for, and a process named after its exit is nobody's parent. |
| Lifetimes.ParentIsEarlierIff | backend/autograph/lineage.go:143-164 | A resolved parent is never later than its child, and strictly earlier if and only if the PID was not created at the child's own instant, or was ended by then. |
| Lifetimes.MutualParents | backend/autograph/lineage.go:153-163 | Two creations at one instant that are resolved as each other's parent. |
| Lifetimes.SelfParentIff | backend/autograph/lineage.go:149-164 | A creation resolves to itself if and only if it names its own PID as its parent and no later event at the same time creates or ends that PID. |
| Lifetimes.SelfParentExample | backend/autograph/lineage.go:153-163 | One event that is resolved as its own parent. |
| FieldBuckets.BucketByKey | backend/autograph/field.go:64-84 | Each bucket holds the events with its key in log order, keys are listed as they first appear, and events without a key are counted as skipped. |
| FieldBuckets.KeyIsExact | backend/autograph/field.go:88-102 | Two events with all required values get one key if and only if they agree in every required slot (values without the separator). |
| FieldBuckets.NothingIsLost | backend/autograph/field.go:64-84 | The sizes of the buckets and the skipped events add up to the events. |
| FieldBuckets.BucketsStayChronological | backend/autograph/field.go:56-84 | A bucket of a chronological log is chronological. |
| Dataset.Prepare | backend/autograph/dataset.go:94-126 | Exactly the dated events, in time and then by id; undated and stale ones are counted; and the partitions of every scope asked for, or of the default scope. |
| Dataset.Groups | backend/autograph/dataset.go:138-145 | A scope's partitions are the same whether they were asked for beforehand or not. |
| Dataset.ArrivalDoesNotMatter | backend/autograph/dataset.go:195-204 | The prepared order is the same for every order in which the same events arrive. |
| Dataset.PartitionBy | backend/autograph/dataset.go:152-193 | One partition for the global scope; by computer, one per value in value order, each holding its events in order. |
| Dataset.PartitionIsExact | backend/autograph/dataset.go:152-179 | Every event is in exactly one partition, and each partition is in chronological order. |
| DisjointSets.DisjointSet.Find | backend/graphlayout/clusters.go:61-67 | Terminates, returns the representative, and compresses the path without changing any set. |
| DisjointSets.DisjointSet.Link | backend/graphlayout/clusters.go:73-77 | Hanging the smaller root under the larger gives the merged sets and a well-formed forest. |
| DisjointSets.DisjointSet.Union | backend/graphlayout/clusters.go:68-78 | Merges exactly the two sets: two nodes share a representative afterwards if and only if they did before or were in the two sets. |
| DisjointSets.HeightIsLogarithmic | backend/graphlayout/clusters.go:54-78 | A node d links below its root is in a set of at least 2 to the d nodes. |
| DisjointSets.CompressionIsProper | backend/graphlayout/clusters.go:61-67 | Pointing a node straight at its representative leaves a well-formed forest of the same sets. |
| Clusters.ComponentClusters | backend/graphlayout/clusters.go:53-112 | Two nodes are in one cluster if and only if a path of relations with both ends present joins them; each node is in the cluster as often as it was given; no cluster stands before a larger one, and members ascend; names and ties are as documented. |
| Clusters.ClusteringIsUnique | backend/graphlayout/clusters.go:94-112 | There is only one such list, so no map iteration order can show. |
| Clusters.TieOrderIff | backend/graphlayout/clusters.go:224-235 | Which of two clusters of one size comes first, as arithmetic on their lowest members. |
| Clusters.TenComesBeforeNine | backend/graphlayout/clusters.go:224-235 | The cluster of 10 is listed before the cluster of 9. |
| GraphEdges.BuildEdges | backend/graphlayout/graphlayout.go:175-202 | The lists from either end are exactly the relations between two present, different nodes, each once and ascending. |
| GraphEdges.InsertSorted | backend/graphlayout/sequence.go:123-129 | Inserting keeps a sorted list sorted and adds that element only; a list without repeats gets none unless it held the element. |
| Ranking.RankNodes | backend/graphlayout/sequence.go:26-85 | For any edges: every node is ranked once, each chosen as the lowest with nothing left before it or, when there is none, the lowest left; breaks are counted exactly. |
| Ranking.Follow | backend/graphlayout/sequence.go:73-84 | Counting down, queueing and raising ranks in place keeps counts, queue and ranks equal to what the edges still waiting define. |
| Ranking.EdgesPointForward | backend/graphlayout/sequence.go:73-84 | An edge into a node that was not forced goes to a strictly larger rank. |
| Ranking.ForcedIsDownstreamOfCycle | backend/graphlayout/sequence.go:49-66 | Whenever a node is forced, every node still waiting is reached by a walk from a cycle, and cycle and walk are of waiting nodes. |
| Ranking.FirstBreakLeaves | backend/graphlayout/sequence.go:49-66 | At the first break the nodes still waiting are exactly those some walk from a cycle reaches. |
| Ranking.LeftIsOnCyclesIff | backend/graphlayout/sequence.go:49-66 | At every break all nodes waiting lie on cycles if and only if no edge leads from a node on a cycle to a node on none. |
| Ranking.StuckIsDownstreamOfCycle | backend/graphlayout/sequence.go:49-66 | So is every node of any set none of whose nodes can be ranked first, inside that set. |
| Ranking.BreaksIffCyclic | backend/graphlayout/sequence.go:49-66 | Nothing is broken if and only if the edges have no cycle. |
| Ranking.RankIsLongestWalk | backend/graphlayout/sequence.go:26-85 | Without cycles, a rank is the length of the longest walk that ends at the node, and one from a source attains it. |
| Ranking.ForcedOffCycle | backend/graphlayout/sequence.go:49-66 | A graph whose first forced node is on no cycle. |
| Ranking.TwoBreaksOneCycle | backend/graphlayout/sequence.go:113-117 | A graph with one cycle and two breaks. |
| Ranking.LeftwardIffBroken | backend/graphlayout/sequence.go:113-117 | Some edge leads to a smaller rank, so leftward, if and only if something was broken. |
| Cards.BeforeIsStrict | backend/graphlayout/graphlayout.go:204-218 | The order by time and then id is a strict order, undated nodes last. |
| Lanes.PackLanes | backend/graphlayout/temporal.go:36-67 | No two cards overlap, no packing has fewer lanes, each lane stands at its own height, every card is in a lane, and x reads as time. |
| Lanes.NoFewerLanes | backend/graphlayout/temporal.go:51-62 | No assignment has fewer lanes than there are cards over one point. |
| Lanes.LanesReadAsTime | backend/graphlayout/temporal.go:45-66 | Time never runs backward along x, x is strict where time is, the first card is at 0 and the last at the full span. |
| Lanes.TemporalLayout | backend/graphlayout/temporal.go:18-91 | Any two cards, the tray included, are a gap apart across or down; each lane's cards stand at its height, the tray's one blank row below the lanes; x follows time from 0 to the span; exactly the given cards get a position. |
| TidyForest.TidyLayout.ClaimChildren | backend/graphlayout/lineage.go:59-66 | Claims exactly the unvisited children, in time order. |
| TidyForest.TidyLayout.Place | backend/graphlayout/lineage.go:55-84 | Terminates on any edges, plants the tree that claiming defines, and draws it: leaves in the next free column, each parent midway between its first and last child. |
| TidyForest.TidyLayout.PlaceRoots | backend/graphlayout/lineage.go:86-103 | Plants every root not visited yet, and nothing drawn before moves. |
| TidyForest.PlantIsExact | backend/graphlayout/lineage.go:55-84 | Planting draws each root and each node it visits exactly once. |
| TidyForest.RunIsExact | backend/graphlayout/lineage.go:86-103 | So does a whole pass over roots, from any state. |
| TidyForest.EveryNodeOnce | backend/graphlayout/lineage.go:34-103 | For any edges, cycles included, every node is drawn exactly once, in exactly one tree, under its first claimer. |
| TidyForest.ParentIsFirst | backend/graphlayout/lineage.go:60-65 | A child's parent in the drawing is the first node in drawing order that leads to it. |
| TidyForest.StaysInColumns | backend/graphlayout/lineage.go:68-83 | Every node of a drawing is in the row of its depth and between the columns the drawing was given. |
| TidyForest.LevelsDoNotOverlap | backend/graphlayout/lineage.go:68-83 | Two nodes at one depth of a drawing are at least a column gap apart. |
| TidyForest.RowsDoNotOverlap | backend/graphlayout/lineage.go:12-19 | Two nodes of the finished layout at one height are at least a column gap apart. |
| TidyForest.RunPlacesReachable | backend/graphlayout/lineage.go:86-103 | A pass visits exactly the nodes some path from its roots reaches. |
| TidyForest.ForcedIffUnreachable | backend/graphlayout/lineage.go:94-103 | A root is forced if and only if some node is not reached from any node without predecessors. |
| TidyForest.Subtree | backend/graphlayout/lineage.go:124-130 | A tree's members are listed in pre-order. |
| TidyForest.LineageLayout | backend/graphlayout/lineage.go:24-120 | The layout is the sources by time, then the lowest nodes left; its groups are its trees; exactly the given nodes have positions. |
| Ancestry.HangsUnderIff | backend/graphlayout/lineage.go:21-65 | In the finished layout a node hangs under p if and only if p is a predecessor placed before it and before every other predecessor. |
| Ancestry.HangsUnderEarliestIff | backend/graphlayout/lineage.go:21-65 | Of a node only sources lead to: its parent is the one of them that comes first by time and then id, and no other. |
| Ancestry.NotTheLowestParent | backend/graphlayout/lineage.go:21-23 | Three cards and two relations of which the layout hangs the last card under the higher of its two parents. |
| Ancestry.ForcedRootIff | backend/graphlayout/lineage.go:94-103 | The forced roots are exactly the nodes that no source and no lower id reaches. |
| Ancestry.NoteHoldsIff | backend/graphlayout/lineage.go:114-118 | Every event of every forced group has a parent in its group if and only if each such node lies on a cycle. |
| Ancestry.ForcedGroupWithoutParent | backend/graphlayout/lineage.go:114-118 | A graph of three nodes whose layout breaks the note. |
| Ancestry.EdgesDoNotCross | backend/graphlayout/lineage.go:16-19 | Of two parents in one row, the children of the left one are drawn left of the children of the right one, a whole column gap apart and one row down. |
| Precedence.PlacedBeforeIff | backend/graphlayout/lineage.go:51-92 | In any ordered forest a node is placed before another if and only if the other hangs below it, or they hang under two roots or two children of one node, its own the earlier. |
| Precedence.PrecedesIff | backend/graphlayout/lineage.go:21-103 | In a layout that order is told by parents, times and ids alone: children of one node by time and then id, sources before forced roots, sources by time and then id, forced roots by id. |
| Precedence.HangsUnderFirstOf | backend/graphlayout/lineage.go:21-65 | A node, whatever leads to it, hangs under the one of its predecessors that precedes it and all the others in that order, and under no other. |
| Precedence.ParentIsMidway | backend/graphlayout/lineage.go:67-84 | A parent stands midway between its first and last child, all its children between these, one row below. |
| FieldText.JoinedIsExact | backend/utils/hash.go:28-34 | Joined fields tell which fields were joined when none holds the separator. |
| FieldText.TerminatedIsExact | backend/autograph/field.go:88-102 | So do fields that each end in a separator. |
| FieldText.TextIsUniqueIff | backend/autograph/field.go:88-102 | Two or more fields are the only ones of their number with their text, joined or terminated, if and only if none holds the separator. |
| Identity.IdentityIsExact | backend/graphene/schema.go:113-138 | Two records are one identity if and only if they agree in time and every identifying field, and in source too when dated; for any number of extra fields but two. |
| Identity.TwoExtrasLookDated | backend/graphene/schema.go:126-138 | With two extra fields, some undated record has the identity of any given dated one. |
| Ledger.AddingKeepsGap | backend/graphene/schema.go:143-152 | Counting an occurrence never changes by how much count and breakdown differ. |
| Ledger.StoringClosesGap | backend/graphene/schema.go:156-161 | Storing a node closes that difference only where there is no breakdown yet. |
| Ledger.AddedTo | backend/graphene/schema.go:143-152 | An occurrence raises the count and the share of the source it came from, and no other share. |
| Ledger.EnsuredFor | backend/graphene/schema.go:156-161 | A node stored without a breakdown has all its occurrences attributed to its own source; another is stored as it is. |
| Ledger.BreakdownAddsUpIff | backend/graphene/schema.go:143-161 | The breakdown adds up if and only if no copy was folded into the node before it was stored; the count is right always. |
| Ledger.AppliedPaysUp | backend/graphene/graphene_store.go:483-536 | Applying increments adds to the total of every identity exactly what was buffered for it. |
| Ledger.AppliedTo | backend/graphene/graphene_store.go:507-530 | Each increment raises the count of its event and the share of the source it is applied for; other shares and other events stay. |
| Recording.UniqueIffKnown | backend/evtx/evtx_ingest.go:400-440 | Of a start and the news since: unique if and only if the index knew every stored identity among them. |
| Recording.CrashWhileRegistering | backend/graphene/graphene_store.go:294-356 | With only the first j events of a new batch registered, the identities unknown to the index are exactly those of the others. |
| Durability.EventStore.InsertEvents | backend/graphene/graphene_store.go:294-356 | Nodes are committed all together or not at all, and registered one by one after that: the states on the way are exactly those with some first part of the batch registered. |
| Durability.EventStore.FindEventIDByHash | backend/graphene/graphene_store.go:623-636 | Answers from the index alone: found exactly when the identity is registered, and then with the node it is registered for. |
| Durability.EventStore.IncrementDedupCounts | backend/graphene/graphene_store.go:483-536 | All increments in one durable step, or none. |
| Durability.Bookmarks.SetPosition | backend/capture/capture.go:65-73 | A channel's position moves only forward and no other moves; a write puts all positions into the document; success means the document holds the position if and only if it was above the one in memory or already in the document; a failure is remembered. |
| Ingest.Sink.CommitPositions | backend/evtx/evtx_ingest.go:291-301 | Staged bookmarks land only when both buffers are empty, and every disk state stays recoverable. |
| Ingest.Sink.FlushInc | backend/evtx/evtx_ingest.go:303-313 | On success the disk holds its nodes with every increment applied and no increment is owed any more; on failure every disk state is recoverable. |
| Ingest.Sink.Flush | backend/evtx/evtx_ingest.go:315-331 | On success the batch is on disk behind what was there and the books still cover everything read; on failure every disk state is recoverable. |
| Ingest.Sink.TakeCopy | backend/evtx/evtx_ingest.go:401-412 | A copy of a buffered event is folded into that event and no other, and counted as divergent exactly when its payload differs from the buffered one's. |
| Ingest.Sink.TakeStored | backend/evtx/evtx_ingest.go:413-430 | A copy of a stored event is owed as one increment for that node; when there are enough, all are applied. |
| Ingest.Sink.TakeAsNew | backend/evtx/evtx_ingest.go:431-440 | A new event joins the end of the batch; a full batch is committed behind what is on disk. |
| Ingest.Sink.TakeEvent | backend/evtx/evtx_ingest.go:381-441 | Each event is counted exactly once, whichever of the three it is, and undated and divergent ones are counted as such. |
| Ingest.Sink.TakeChunk | backend/evtx/evtx_ingest.go:366-446 | A chunk's identities are all seen, its position is staged only after its events are buffered, and its unreadable, undated and highest record are reported. |
| Ingest.Sink.FlushAll | backend/evtx/evtx_ingest.go:341-350 | After the pause boundary nothing is left to write and no position is left to hand over. |
| Ingest.Sink.StandStill | backend/evtx/evtx_ingest.go:335-350 | At a pause, before the sink blocks, the disk counts exactly what has been delivered and every position has reached it. |
| Ingest.Sink.TakeTurn | backend/evtx/evtx_ingest.go:335-447 | One turn comes to that boundary first when paused, and only then takes what has arrived; it leaves the run exactly when cancelled. |
| Ingest.ToldIsExact | backend/evtx/evtx_ingest.go:366-385 | The counters of a run: chunks taken, unreadable and undated records in them, and the highest record number. |
| Ingest.EvenNext | backend/evtx/evtx_ingest.go:400-412 | While events of one identity carry one payload, no divergence is counted. |
| Ingest.Sink.Run | backend/evtx/evtx_ingest.go:336-485 | Over any sequence of chunks, pauses and a cancel, with any write failing: every disk state is recoverable; the run stops at the first turn that leaves it and otherwise ends with the last; for every pause the disk came to a state that counts exactly what was delivered before it, each occurrence once, and whose bookmarks cover it if bookmarking and no position failed to be written; without a fatal error everything heard is written, every position has been handed over, the counters are those of the chunks taken, no divergence is counted if events of one identity carry one payload, and from unique identities a deduplicating run has stored each once if and only if the index knew every stored identity it met. If nothing fails the run does not. |
| Ingest.CommitIsSafe | backend/evtx/evtx_ingest.go:315-331 | Committing the buffer keeps the disk covering everything its bookmarks claim, with any index. |
| Ingest.IncrementIsSafe | backend/evtx/evtx_ingest.go:303-313 | So does applying the increments. |
| Ingest.MarkingIsSafe | backend/evtx/evtx_ingest.go:279-301 | With both buffers drained, any bookmarks at or below the staged positions are safe. |
| Ingest.CrashSkipsNothing | backend/evtx/evtx_ingest.go:279-301 | From any disk state of an ordered delivery: the disk counts every record of a prefix of the chunks, and every later record is above its channel's bookmark and read again. |
| Ingest.ResumingMakesNoDifference | backend/evtx/evtx_ingest.go:279-301 | A run resumed from any crash ends with exactly the identities of an uninterrupted run, each counted at least as often. |
| Ingest.NothingIsLost | backend/evtx/evtx_ingest.go:381-473 | After a run every identity's total count has risen by exactly its occurrences, the total by the records read, and read is persisted plus duplicate; a deduplicating run from a sound record leaves a sound one. |
| Ingest.NothingIsReadTwice | backend/evtx/evtx_ingest.go:469-473 | After a run the bookmarks are not below what was read and not above it. |
| Ingest.ReadingAgainAddsNothing | backend/evtx/evtx_ingest.go:400-430 | Reading a stream whose identities are all on record adds no node. |
| Ingest.StoredOnceIffKnown | backend/evtx/evtx_ingest.go:400-440 | From unique identities: what a deduplicating run has stored is unique if and only if the index knew every stored identity heard; and if it knows all the run can hear, no state a crash can leave has one stored twice. |
| Ingest.StoppedWhileRegistering | backend/graphene/graphene_store.go:294-356 | A crash during registration leaves identities unique, and the next deduplicating run keeps them so if and only if it hears none of the events not registered yet. |
| Ingest.NextRunKeepsUnique | backend/evtx/evtx_ingest.go:400-440 | After a run from a sound record that stopped anywhere but within a registration, every state of the next deduplicating run has each identity once. |
| Ingest.Sink.StoreUnregistered | backend/evtx/evtx_ingest.go:413-440 | From any point of a deduplicating run: taking and flushing an event whose identity is on record, but neither indexed nor buffered, leaves identities stored twice. |
| Gate.Gate.Pausing | backend/evtx/evtx_gate.go:34-51 | Hands out the current pause signal, which is closed exactly while paused. |
| Gate.Gate.Pause | backend/evtx/evtx_gate.go:54-66 | Moves the gate to paused and closes the signal once; pausing again changes nothing. |
| Gate.Gate.Resume | backend/evtx/evtx_gate.go:69-82 | Moves it back, and the channel every waiter of that pause holds is closed. |
| Gate.AlwaysFair | backend/evtx/evtx_gate.go:33-115 | In every interleaving: any channel a waiter holds from an ended pause is closed, and no signal is stale. |
| Gate.NoLostWakeUp | backend/evtx/evtx_gate.go:97-115 | A blocked waiter gets through once the gate is open, and a listener's signal is closed while it is paused. |
| Gate.ClosedOnce | backend/evtx/evtx_gate.go:54-82 | In every interleaving, what Pause or Resume would close next is open. |
| Gate.ThroughWhileOpen | backend/evtx/evtx_gate.go:97-115 | In every interleaving, whoever got through looked while the gate was open. |
| Gate.CancelledByCancel | backend/evtx/evtx_gate.go:97-115 | Nobody's wait is cancelled without a cancellation. |
| Gate.PausedIff | backend/evtx/evtx_gate.go:54-92 | The gate is shut exactly when a pause was called and no resume since. |
| OrderCache.Cache.BumpVersion | backend/graphene/graphene_order.go:62-68 | The write counter moves and no key finds an order any more. |
| OrderCache.Cache.LookupOrder | backend/graphene/graphene_order.go:71-78 | A hit needs a valid order under the same key. |
| OrderCache.Cache.StoreOrder | backend/graphene/graphene_order.go:83-92 | An order computed at the current version is found under its key and no other; one computed at an older version changes nothing. |
| CacheCoherence.AlwaysCoherent | backend/graphene/graphene_order.go:162-175 | In every interleaving, what either cache holds reflects all that had been bumped by its version. |
| CacheCoherence.ServedIsCurrent | backend/graphbuild/dryrun.go:101-126 | In every schedule, what a request is given was scanned for the filter it named, prepared for the requirements it named, and reflects each write that had returned before it began, also where the dataset comes from the cached order. |
| CacheCoherence.BumpedStays | backend/graphene/graphene_order.go:62-68 | What a finished write committed is behind every request that begins later. |
| CacheCoherence.HeldIsUsed | backend/graphbuild/dryrun.go:101-126 | With no write between, the next request of the same filter and requirements is given the dataset of the one before, without a query. |
| CacheCoherence.QuietCachesAgreeWithAScan | backend/graphene/graphene_order.go:83-92 | With no write under way, a valid cache holds what a fresh scan would return. |
| EventQueries.OrderKeyIsExact | backend/graphene/graphene_order.go:119-142 | Two filters share a cache key if and only if they select and order the same way (texts without the separator). |
| EventQueries.HashSetKeyIsExact | backend/graphene/graphene_order.go:146-158 | Two sets of hashes share a key if and only if they are equal, absent and empty kept apart. |
| EventQueries.PagesCoverTheList | backend/graphene/graphene_query.go:135-147 | The first pages, put together, are the list's start: none repeats or misses an event. |
| EventQueries.WindowIs | backend/graphene/graphene_query.go:135-147 | Without a limit everything from the offset on; never more than the limit; nothing behind the end. |
| EventQueries.CountIsListLengthIff | backend/graphene/graphene_query.go:206-235 | For a filter: the count is the list's length on all events if and only if the fast path is not taken, or there is no hash filter, or nothing can match anyway. |
| EventQueries.ListedAre | backend/graphene/graphene_order.go:205-246 | The list shows exactly the rows that match, each as often as it is stored. |
| EventQueries.UndatedAreShown | backend/graphene/graphene_order.go:287-296 | By default only dated events are shown, with "only" only the others, with "include" all. |
| EventQueries.RelatedAreShown | backend/graphene/graphene_query.go:152-180 | The state of its relations shows an event touched by any, by a rule's or by the user's. |
| EventQueries.RepeatedAreShown | backend/graphene/graphene_order.go:300-314 | An event met at least that often is shown, one met once at least once. |
| EventQueries.TimesAndHashesAreShown | backend/graphene/graphene_query.go:56-124 | Dated events between the two times, both ends included, with a wanted hash and none unwanted. |
| EventQueries.FieldsAreShown | backend/graphene/graphene_query.go:56-93 | Each field asked for is compared with the event's field of that name. |
| GraphRegistry.Registry.Add | backend/graphreg/graphreg.go:160-171 | A new graph's id is none that was handed out since the registry was opened, nor below the next id it was opened with. |
| GraphRegistry.Registry.Persist | backend/graphreg/graphreg.go:76-88 | The document becomes what is in memory, or stays and memory stands. |
| GraphRegistry.Registry.Reopened | backend/graphreg/graphreg.go:55-74 | Opened again, the registry is what the document holds, and the next id is one handed out before if and only if a call that made a graph failed to write and nothing has been written since. |
| GraphRegistry.BehindIffUnsaved | backend/graphreg/graphreg.go:76-88 | Over every run of calls, the document's next id is behind exactly then, and never ahead. |
| GraphRegistry.Registry.EnsureDefault | backend/graphreg/graphreg.go:136-157 | Afterwards there is an active graph; graphs and choice that existed stay. |
| GraphRegistry.Registry.Create | backend/graphreg/graphreg.go:160-171 | Adds one graph under an id never issued and makes it active; no other graph changes. |
| GraphRegistry.Registry.EnsureForRule | backend/graphreg/graphreg.go:179-206 | On success exactly one graph is bound to the rule. Without one bound before, the first unbound graph of the rule's name changes hands and no other does, or, if and only if there is none, one graph is added; ids, names and other owners stay. A graph already bound is handed back without writing, so success means the document has the binding, except where the graph was bound before and the document did not have that. |
| GraphRegistry.Registry.Delete | backend/graphreg/graphreg.go:229-244 | Refuses a missing graph and the last one; otherwise removes that graph only and never leaves the active choice dangling. |
| GraphRegistry.GrowingKeepsOwners | backend/graphreg/graphreg.go:179-206 | Ensuring a rule's graph takes no graph from another rule, not even one since deleted. |
| GraphRegistry.ShrinkingKeepsOwners | backend/graphreg/graphreg.go:229-244 | Neither does deleting one. |
| RelationStore.Store.InsertRelations | backend/graphene/graphene_store.go:396-431 | A batch is committed whole or not at all, and a failure afterwards leaves a tail of it unindexed. |
| RelationStore.Store.DeleteGraphRelations | backend/graphene/graphene_store.go:563-596 | Removes exactly the indexed edges of one graph, or nothing. |
| RelationStore.Store.RepairRelationIndex | backend/graphene/graphene_store.go:234-288 | Only index entries are added, and on success none is missing. |
| RelationStore.ClearingKeepsOthers | backend/graphene/graphene_store.go:563-596 | Clearing a graph leaves just its unindexed edges and every other graph as it was. |
| RelationStore.IndexingKeepsContent | backend/graphene/graphene_store.go:234-288 | Repairing never changes what a graph holds, and when it succeeds no edge is hidden from a clear. |
| Rebuild.Builder.DiscardEmptyGraph | backend/graphbuild/graphbuild.go:342-358 | The active graph, the last one and one not listed stay; otherwise just that graph goes, and no id is freed. |
| Rebuild.Builder.WriteGraph | backend/graphbuild/graphbuild.go:262-316 | On success the graph holds what the clear could not see followed by the rule's fresh relations; no other graph changes whatever happens. |
| Rebuild.Builder.RunRule | backend/graphbuild/graphbuild.go:248-331 | One rule: its graph is rebuilt or discarded, belongs to that rule alone, and was the rule's, free under the rule's name, or not there before; no other graph's relations change. |
| Rebuild.Builder.Run | backend/graphbuild/graphbuild.go:145-245 | From any store an interrupted run left: the index is repaired first, each selected rule's graph is rebuilt and its own, and every graph that was listed, is no selected rule's and is not unbound under the name of one keeps its relations, whether or not the build succeeds. If nothing fails and nobody cancels, the repair and the build succeed. |
| Rebuild.RebuiltExactlyIff | backend/graphbuild/graphbuild.go:145-331 | A completed run's graph holds exactly the fresh relations if and only if the repair left none of its edges unindexed; so always when the repair succeeded. |
| PayloadLog.FrameBatch | backend/payload/payload.go:122-147 | The buffer is the frames of the non-empty blobs in order, and each reference points into it. |
| PayloadLog.Log.AppendBatch | backend/payload/payload.go:111-159 | Behind whatever bytes the log was opened with, appends exactly the frames of the non-empty blobs or nothing; it fails as closed only for a non-empty batch. |
| PayloadLog.Log.Read | backend/payload/payload.go:163-186 | A zero reference reads as nothing even when closed; otherwise closed, out of range, or exactly those bytes. |
| PayloadLog.RoundTripIff | backend/payload/payload.go:111-186 | Whatever the log held before and after any later appends, a reference reads back its blob if and only if the blob is shorter than 2 to the 32. |
| PayloadLog.RefsDoNotOverlap | backend/payload/payload.go:122-147 | References to different blobs of a batch are disjoint, in order, and within the bytes the batch appends. |
| PayloadLog.WalkIsExactIff | backend/payload/payload.go:128-135 | Walking the log by its headers yields exactly the blobs written if and only if every one is shorter than 2 to the 32. |
| PayloadLog.WalkYields | backend/payload/payload.go:128-135 | Walking a log with anything after it yields its blobs and then whatever walking the rest yields. |
| PayloadLog.LaterAreFoundIff | backend/payload/payload.go:128-135 | Whatever a log held when it was opened: walking it yields the blobs appended since, last and with nothing left over, if and only if walking what it held leaves nothing over. |
| PayloadLog.BehindTornRecordIff | backend/payload/payload.go:128-135 | Behind a torn record the walk never yields all that is appended, and yields it from the j-th blob on if and only if walking what comes before that one leaves nothing over. |
| PayloadLog.MadeUpIff | backend/payload/payload.go:128-135 | With the torn record's header whole, blobs that do not exceed the bytes it lacks let the walk find the rest if and only if they make up exactly those. |
| PayloadLog.HeaderHoldsLowBits | backend/payload/payload.go:131-133 | The little-endian header reads back as the length modulo 2 to the 32. |
| PayloadLog.HeaderIsLittleEndian | backend/payload/payload.go:131-133 | The least significant byte comes first. |
| Timeline.SliceHoldsTime | backend/graphene/graphene_timeline.go:274-312 | A time in the window gets a slice that contains it; what integer division leaves over goes to the last. |
| Timeline.SlicesTile | backend/graphene/graphene_timeline.go:274-295 | The first slice starts with the window and each starts where the one before ends. |
| Timeline.BeforeTheWindowIff | backend/graphene/graphene_timeline.go:297-312 | A time counts as before the window if and only if it is a whole slice before it and there is more than one slice. |
| Timeline.JustBeforeCountsAsFirst | backend/graphene/graphene_timeline.go:297-312 | One nanosecond before the window is counted in the first slice. |
| Timeline.Distribute | backend/graphene/graphene_timeline.go:125-160 | Each slice counts the entries that fall in it, in total and per lane, and all counts add up to the entries when none is before the window. |
| Timeline.CappedColumn | backend/graphene/graphene_timeline.go:240-256 | Folding the tail into one lane keeps every slice's sum. |
| Timeline.BuildLanes | backend/graphene/graphene_timeline.go:229-258 | No lane is shown behind a quieter one, none left to the last lane is busier than one shown, at most the limit and one more are shown, and every slice's sum is that of all lanes. |
| Timeline.ListingDoesNotMatter | backend/graphene/graphene_timeline.go:229-240 | The order of the lanes does not depend on how the map was iterated. |
| Timeline.TimelineGrouped | backend/graphene/graphene_timeline.go:69-166 | Dated, undated and counts are exact, counts add up to the dated events, for every grouping with one key per event the lanes add up to the count in each slice, and a grouping that does not exist gives one lane with the counts of the slices. |
| Timeline.EverythingIsNoneIff | backend/graphene/graphene_timeline.go:204-225 | A grouping puts every possible event into the lane for events without a value if and only if there is no such grouping. |
| Timeline.UnknownGroupingIsOneLane | backend/graphene/graphene_timeline.go:140-164 | Then exactly one lane is shown, and it counts what the slices count. |
| Timeline.SameLaneIff | backend/graphene/graphene_timeline.go:204-225 | Grouped by one of their fields, two events share a lane exactly when they agree in that field. |
| Timeline.DatedAre | backend/graphene/graphene_timeline.go:69-124 | Every event with a time within the bounds is counted with its lanes, and no other. |
| Timeline.EveryEventCounts | backend/graphene/graphene_timeline.go:69-124 | Without bounds each event is counted as dated or undated; a lower bound leaves the undated ones out, an upper bound does not. |
| Timeline.RelationTimeIsLater | backend/graphene/graphene_heatmap.go:196-206 | A relation is placed if and only if both ends are there and dated, at the later of the two. |
| Timeline.SameHeatLaneIff | backend/graphene/graphene_heatmap.go:210-239 | Two relations share a lane exactly when they agree in the part they are grouped by. |
| Timeline.RelationHeatmap | backend/graphene/graphene_heatmap.go:63-188 | An unknown grouping is refused and no other; every relation is placed, outside or undated, placed ones add up over slices, lanes add up to each slice, and the maximum is that of the lanes shown. |
| JsonText.QuoteReads | backend/rules/format.go:129-150 | A quoted text reads back as itself, whatever its characters and whatever follows. |
| JsonText.NumberAgree | backend/rules/format.go:62-74 | How long a number is depends on its own characters and the one after it only. |
| JsonText.ScalarReads | backend/rules/format.go:129-150 | Every scalar reads back as itself in front of anything that may follow a value. |
| RuleFormat.InlineReads | backend/rules/format.go:154-171 | The one-line form of any value without repeated keys reads back as that value. |
| RuleFormat.RenderReads | backend/rules/format.go:181-227 | So does the rendered form, at every depth and every width decision. |
| RuleFormat.WrittenReadsBack | backend/rules/format.go:28-40 | Decoding a written file gives the value it was written from. |
| RuleFormat.PrettyIsIdempotent | backend/rules/format.go:20-40 | On any text: formatting keeps the value it decodes to, key order included, and formatting again changes nothing. |
| RuleLayout.OneLineIffFits | backend/rules/format.go:173-192 | A list or object that holds something is written on one line exactly when it fits in what is left of the line. |
| RuleLayout.SpreadIsIndented | backend/rules/format.go:181-227 | A spread container opens at the end of its line, has its parts two spaces further in than its closing sign, and is closed at its own indent. |
| RuleLayout.WrittenFits | backend/rules/format.go:173-227 | No line is wider than the limit, the comma behind it apart, unless nothing in it could be spread. |
| RuleLayout.PrettyFits | backend/rules/format.go:20-40 | So it is whatever text is formatted. |
| RuleFormat.ObjectReads | backend/rules/format.go:83-105 | An object read from its parts has the keys put in one by one, which changes nothing where none repeats. |
| RuleFormat.FirstPlaceStays | backend/rules/format.go:95-104 | A repeated key keeps its first place. |
| RuleFormat.LastValueWins | backend/rules/format.go:95-104 | A repeated key takes its last value. |
| RuleFormat.ClosingLeftoverIsDropped | backend/rules/format.go:62-74 | Text after a rule that begins with a closing bracket or brace is dropped without an error. |
| RuleFormat.LeftoverIsRefusedIff | backend/rules/format.go:62-74 | Text behind a rendered rule is refused if and only if, behind white space, it begins with something else than a closing bracket or brace; otherwise the rule is what is read. |
| JsonGrammar.EveryTextIsAccepted | backend/rules/format.go:62-124 | Every text of the grammar of RFC 8259, with white space anywhere the grammar allows it, is accepted and decodes to what it means, repeated keys and surrogate pairs included. |
| JsonGrammar.LeftoverBehindTextIff | backend/rules/format.go:62-74 | Behind every text of the grammar: what follows is refused if and only if, behind white space, it begins with something else than a closing bracket or brace; otherwise the text is read as if it ended before. |
| JsonGrammar.StringIsRead | backend/rules/format.go:76-124 | Every string of the grammar is read, each escape as its character, pairs of halves as one, and a lone half replaced. |
| JsonGrammar.NumeralIsProper | backend/rules/format.go:129-150 | Every number of the grammar is read whole. |
| RuleFormat.Decoder.DecodeValue | backend/rules/format.go:76-124 | The stateful decoder consumes and returns exactly what the grammar reads, and fails where it fails. |
| RuleFormat.Decoder.DecodeFields | backend/rules/format.go:83-108 | The same for the fields of an object. |
| RuleFormat.Decoder.DecodeItems | backend/rules/format.go:109-119 | The same for the items of an array. |
| RuleFormat.RenderTo | backend/rules/format.go:181-227 | Writes exactly the rendered text behind what the builder holds. |
| RuleFormat.Format | backend/rules/format.go:28-40 | Decoding and rendering step by step is the formatting the laws above are about. |

## Left out

- Durations: the source saturates time differences at about 292 years; times and differences are unbounded integers here.
- Fixed widths: ids, offsets, record ids and counters are unbounded, except the payload log's 32-bit length, which is modelled.
- Floating point: coordinates are real numbers, so rounding of x and of the midpoints is not modelled.
- Text: strings are sequences of characters; UTF-8, invalid encodings and the digest itself are not modelled. An identity is the joined text that is hashed, so two identities are equal where their texts are.
- Identity.IdentityIsExact: two extra fields are excluded, with which it fails (`Identity.TwoExtrasLookDated`); no caller passes more than one.
- FieldBuckets.KeyIsExact: for values that do not contain the separator (`FieldText.TextIsUniqueIff` is about the others), which `backend/consts/consts.go:1404` says cannot occur in event text; the code does not escape it.
- EventQueries.OrderKeyIsExact: likewise for filter texts that do not contain the separator; EventQueries.HashSetKeyIsExact for hashes without a comma, as hexadecimal digests are.
- EventQueries.HashSetKeyIsExact: a set may hold any text in the source; the comma between hashes is not escaped.
- Durability.EventStore.InsertEvents: appending the payloads and syncing them before the commit is the log of `PayloadLog`, which is not joined to it.
- Basis lists, labels, notes, confidence texts and correlation scope names of relations, which carry no state.
- GraphEdges.BuildEdges: keeps the neighbour lists sorted as they grow, where the source appends and sorts at the end.
- Ranking.RankNodes: gives ranks and breaks; where a node stands within its column is arithmetic on its place in the rank and is left out, as is the second check for nodes already placed, which cannot apply.
- Rule, slot and resource groupings of the graph layouts, which are plain grouping by a key.
- Ingest.Sink.Run: one source per run, so increments are kept per node; parsing, the reader threads and progress reports are a sequence of chunks that is given. Events are not deleted during a run.
- Ingest.ResumingMakesNoDifference: compares identities and their totals, not node counts, because a crash before registration can store an identity twice.
- Gate.Gate.Pause: a missing gate, which the source treats as never paused, is not modelled; waiting is a step of the interleaving model, and its cancellation is the cancel of a run.
- Durability.Bookmarks.SetPosition: resetting a channel, listing positions and loading a damaged file are left out.
- CacheCoherence.ServedIsCurrent: about the ordered ids; loading the events afterwards, which may miss one deleted in between, is left out.
- RelationStore.Store.DeleteGraphRelations: the fallback that deletes edges one by one after a database error is left out.
- Rebuild.Builder.Run: saved layouts, progress reports and cancellation between rules are left out; a rule's fresh relations are given with the rule.
- GraphRegistry.Registry.EnsureForRule: what a graph made by hand already holds is not looked at.
- PayloadLog.Log.AppendBatch: bytes that a failing write leaves behind the log's end are not part of it until it is opened again.
- Timeline.TimelineGrouped: clipping of a range that cannot be outside is left out.
- Sampling of matches for a dry run, minifying, searching text, snapshots, findings and annotations, the Windows interfaces and the frontend.
