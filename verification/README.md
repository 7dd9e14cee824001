# Percona Toolkit: a verification model

This project models the stateful and algorithmic parts of the Percona Toolkit tools written in Go, and of the
source-code printer that its documentation generator carries, and proves what they promise.

| part | files | what is modelled |
|---|---|---|
| Galera log explainer, identities | `WhoisGraph`, `WhoisTree`, `WhoisTimes`, `WhoisReads`, `WhoisOffers`, `WhoisOrder`, `WhoisAnswers`, `Whois`, `ShownTimes`, `WhoisPlaces`, `Translate`, `TranslationData`, `Resolution` | the store of hashes, IPs and node names with its as-of lookups, and the `whois` tree that is grown from it in place |
| Galera log explainer, timelines | `LogTypes`, `RunLength`, `MergeTimeline`, `MergeSubsets`, `DisplayLoop`, `Transitions` | compressing repeated events, merging the files of a node, the k-way merge of the display, and the block that shows changes of context |
| source-code printer | `CaseFold`, `HtmlEscape`, `NumericReferences`, `TabExpander`, `StyledText`, `StyledOutput`, `Lexer`, `Recombine`, `PrettyPrint` | case folding of character sets, escaping, tab expansion, the recursive lexer, and putting decorations and tags back around the text |
| MongoDB query digest | `DocumentKeys`, `DocumentPaths`, `KeyList`, `Fingerprint`, `FingerprintFields`, `CanonicalFingerprint`, `RepeatedNames`, `Stats`, `StatsTotals`, `StatsFields`, `MultiSorter` | fingerprints of documents, counters grouped by fingerprint, totals and percentages, and sorting by several keys |
| Kubernetes dumper | `WorkerPool`, `WorkerPoolRuns` | the dispatcher, the workers, the bounded channel, cancellation and the archive's mutex, as steps that interleave in any way |
| secure collect | `JoinLines` | joining the lines of a log that make up one query |

`Options` and `Sorting` hold what several parts use.  Code that changes state is a class or a method, tied by its
`ensures` to a function of the old state; what the code promises is proved of that function.  Times are integers
counted from Go's zero time, floats are reals, a map is walked in an arbitrary order, and regular expressions,
`parseInt` and the Kubernetes API appear as parameters.

Where the code does not do what its comments or names suggest, the model follows the code:

* A numeric HTML reference loses the first character of its number.  A decimal one is read as the number it stands
  for exactly if it has more than one digit and the first is 0, a hexadecimal one exactly if it is one decimal digit
  behind zeros (`NumericReferences.DecimalReference`, `NumericReferences.HexadecimalReference`); `&#65;` and
  `&#x41;`, which both stand for 65, are read as 5 and 41 (`NumericReferences.WrongDecimal`,
  `NumericReferences.WrongHexadecimal`).
* Two log files that share just an end event show it twice (`MergeTimeline.MergeIsUnion`).  A third file, merged into
  two with a gap between them, loses what it has in the gap exactly if it starts after the first one does, or starts
  with it and ends no later than the second (`MergeSubsets.ThirdFileExactly`); for any events of one log, the merge is
  their union exactly under the condition of `MergeSubsets.MergeIsUnionExactly`.
* The comparators of `docs-returned` compare the documents returned by one query with those examined by the other, and
  are no order (`MultiSorter.ComparatorIsOrder`, `MultiSorter.DocsReturnedIsReflexive`).
* `GetValueData` returns a pointer to a copy, so the later time that `addKey` writes to it is lost.  `whois` shows an
  identifier with the time of the first record between it and what it hangs below (`ShownTimes.ShownSinceFirst`); this
  is the latest time of the store exactly if no record that leads to it is later (`ShownTimes.LatestBelowExactly`).
  All times shown are the latest exactly if no identifier that is held with a time is offered again with a later one
  (`ShownTimes.AllLatestExactly`).  A node renamed from n to m and back is shown with the first of its two times as n,
  whatever the order of the maps (`ShownTimes.LatestIsMissed`).
* With `AssumeIPStable` off, a name that was found can be hidden by a later hash without a name
  (`Resolution.UnstableMayForget`).  An IP without a name of its own is named at every date, in every order of the
  map, exactly if it has a hash and all its hashes have names (`Resolution.UnstableAlwaysFinds`), and it stays so
  exactly until a new hash without a name is recorded for it (`Resolution.StaysNamedExactly`).
* With `AssumeIPStable` on, recording an empty name can hide a name, and no other step can
  (`Resolution.StaysResolvedExactly`, `Resolution.HashesStayResolvedExactly`).
* A cancelled dump can block its dispatcher for ever before a full channel that nobody reads.  It can do so exactly if
  there are two pods more than the channel holds (`WorkerPoolRuns.MayHangExactly`), and no run gets stuck otherwise
  (`WorkerPoolRuns.StuckWhen`).
* Of several fields of one name in a filter only the last counts.  Two of them can change places without changing the
  keys exactly under the condition of `RepeatedNames.ExchangedNames`; `RepeatedNames.ExchangedNamesDiffer` has two
  filters that are permutations of each other and have different fingerprints.
* An unknown time of a document makes the first-seen time start again (`Stats.FirstSeenIsEarliest`).
* If the statistics library sums an empty list to "not a number", one query without a sample of a metric takes the
  percentages of this metric from all queries (`StatsTotals.TotalsAgree`).

## Model

| member | source | states |
|---|---|---|
| WhoisGraph.LinksAreSymmetric | src/go/pt-galera-log-explainer/translate/whois.go:189-248 | the three filters read every record in both directions: a link can be walked back unless it ends at the name "unspecified" |
| WhoisGraph.LinkedIsRecorded | src/go/pt-galera-log-explainer/translate/whois.go:189-248 | there is a link exactly where the store has records that lead from one identifier to the other |
| WhoisGraph.ClosedSetHoldsReachable | src/go/pt-galera-log-explainer/translate/whois.go:168-187 | a set that holds an identifier and is closed under the filters' links holds all that is reachable from it |
| WhoisGraph.SameReach | src/go/pt-galera-log-explainer/translate/whois.go:189-248 | two identifiers joined without ending at "unspecified" reach the same identifiers |
| WhoisTree.TreeWithKey | src/go/pt-galera-log-explainer/translate/whois.go:138-148 | giving a node a value that the tree does not hold keeps the tree a tree that holds every pair once |
| WhoisTree.TreeWithChild | src/go/pt-galera-log-explainer/translate/whois.go:56-74 | so does hanging a new child with such a value below a value of a node |
| WhoisTree.BelowRoot | src/go/pt-galera-log-explainer/translate/whois.go:150-166 | what the search from the root can find is exactly what some node of the tree holds |
| Whois.NodeStore.GetValueData | src/go/pt-galera-log-explainer/translate/whois.go:150-166 | the search below a node finds a (type, value) pair exactly if a node below it holds the pair, and returns what that node stores for it |
| Whois.NodeStore.AddKey | src/go/pt-galera-log-explainer/translate/whois.go:138-148 | a value is added exactly if the whole tree does not hold it; the tree of a value already held does not change, not even its time |
| Whois.NodeStore.AddChildKey | src/go/pt-galera-log-explainer/translate/whois.go:56-74 | the whole new tree: the same if it holds the pair; otherwise the value, with the time offered, comes into the child of its kind, a new one if there is none; a child that received nothing is not stored |
| WhoisTimes.TimesWithOffer | src/go/pt-galera-log-explainer/translate/whois.go:138-148 | such an offer leaves the time shown for every pair as it was; a new pair gets the time offered |
| WhoisTimes.LaterTimeIsLost | src/go/pt-galera-log-explainer/translate/whois.go:138-148 | what the tree shows and what addKey writes to its copy differ exactly if the pair is held with an earlier time |
| WhoisTimes.ShownIsLatestExactly | src/go/pt-galera-log-explainer/translate/whois.go:138-148 | over any list of offers the times of the first offers are the latest ones exactly if no pair that was held with a time was offered again with a later one |
| Whois.NodeStore.ExpandIP | src/go/pt-galera-log-explainer/translate/whois.go:189-205 | the tree gains exactly the links of the IP, in any order of the maps, and all records of the IP are read, each once and those that lead to one identifier in order |
| Whois.NodeStore.ExpandUUID | src/go/pt-galera-log-explainer/translate/whois.go:207-222 | the tree gains exactly the links of the UUID, and its records are read likewise |
| Whois.NodeStore.ExpandNodeName | src/go/pt-galera-log-explainer/translate/whois.go:224-248 | the tree gains exactly the links of the name, none for "unspecified", and its records are read likewise |
| Whois.NodeStore.FilterDB | src/go/pt-galera-log-explainer/translate/whois.go:169-176 | a round over all values of a node gains exactly their links, and reads exactly their records |
| Whois.NodeStore.Filter | src/go/pt-galera-log-explainer/translate/whois.go:168-187 | filter ends on every cyclic graph, since each descent leaves fewer pairs unheld; exactly the records of what was gained and of what the node holds are read, those of the node first, then those of the subtrees of its children, one after the other and names before IPs before UUIDs; nothing unreachable is in the tree |
| Whois.Whois | src/go/pt-galera-log-explainer/translate/whois.go:45-54 | for every store and every order of the maps, the tree holds exactly the pairs reachable from the search term; it is built from exactly the records of what it holds, each read once and those between two identifiers in order, those of the search term first, and no record before one of an identifier above or of an earlier sibling's subtree; the times shown are those of the first offers |
| WhoisOrder.SeparateBranches | src/go/pt-galera-log-explainer/translate/whois.go:178-186 | of two children of one node, nothing below one is due before what is below the other, unless both hang below one value and the kind of the first comes first |
| WhoisOrder.NodeFirst | src/go/pt-galera-log-explainer/translate/whois.go:168-187 | nothing in the subtree of a node is due before the node |
| WhoisOrder.KindExplored | src/go/pt-galera-log-explainer/translate/whois.go:178-186 | exploring the child of the next kind keeps the records in the order in which they are due |
| WhoisOrder.ReadInOrderKept | src/go/pt-galera-log-explainer/translate/whois.go:56-74 | a growing tree does not change what is due before what |
| WhoisPlaces.HangsBelowFirst | src/go/pt-galera-log-explainer/translate/whois.go:168-187 | nothing that leads to an identifier was due before what the identifier hangs below |
| WhoisPlaces.NotBelowLaterKind | src/go/pt-galera-log-explainer/translate/whois.go:178-186 | anywhere in the tree: what a name leads to hangs nowhere below its sibling IPs and UUIDs, and what an IP leads to nowhere below its sibling UUIDs |
| WhoisPlaces.NotDeeper | src/go/pt-galera-log-explainer/translate/whois.go:168-187 | what an identifier leads to does not hang deeper below the node of this identifier than below the node itself |
| WhoisPlaces.FirstKindFirst | src/go/pt-galera-log-explainer/translate/whois.go:178-186 | what the search term does not lead to, but something of the first kind that it leads to does, hangs below something of this kind that it leads to |
| WhoisPlaces.NamesFirst | src/go/pt-galera-log-explainer/translate/whois.go:39-43 | names come first: what a name of the search term is recorded with, and the search term is not, hangs below such a name |
| WhoisPlaces.ThenIPs | src/go/pt-galera-log-explainer/translate/whois.go:39-43 | in a search for a name the IPs come first, and what they are recorded with hangs below one of them |
| WhoisPlaces.RestartedNode | src/go/pt-galera-log-explainer/translate/whois.go:39-43 | the second UUID of a restarted node is shown below its name with the time of this record, in every order of the maps |
| WhoisOffers.BuiltTimes | src/go/pt-galera-log-explainer/translate/whois.go:56-74 | the times that a tree shows are those of the offers that came first, for every list of offers that builds it |
| WhoisOffers.ShownByFirst | src/go/pt-galera-log-explainer/translate/whois.go:56-74 | every pair but the search term hangs where its first offer came from, with the time of this offer |
| WhoisOffers.HangsOnce | src/go/pt-galera-log-explainer/translate/whois.go:56-74 | a pair hangs below one other |
| WhoisAnswers.OfferedIsRecorded | src/go/pt-galera-log-explainer/translate/whois.go:168-248 | what is offered while `whois` runs is exactly what the store records about the pairs held |
| ShownTimes.HeldIsReachable | src/go/pt-galera-log-explainer/translate/whois.go:45-54 | a tree built from exactly the records of what it holds holds what is reachable from the search term |
| ShownTimes.ShownSinceFirst | src/go/pt-galera-log-explainer/translate/whois.go:138-148 | a pair is shown with the time of the first record between it and what it hangs below |
| ShownTimes.RaisedIsLatest | src/go/pt-galera-log-explainer/translate/whois.go:138-148 | what addKey writes to its copies adds up to the latest time of the records that lead to a pair from anything reachable |
| ShownTimes.AllLatestExactly | src/go/pt-galera-log-explainer/translate/whois.go:138-148 | all times shown are the latest of the store exactly if no pair held with a time was offered again with a later one |
| ShownTimes.LatestBelowExactly | src/go/pt-galera-log-explainer/translate/whois.go:138-148 | a pair is shown with its latest time exactly if the first record between it and what it hangs below is the latest that leads to it |
| ShownTimes.LatestBelowStart | src/go/pt-galera-log-explainer/translate/whois.go:168-187 | what the search term itself leads to hangs below it, in every order of the maps, so its time and whether it is the latest is known before the search |
| ShownTimes.LatestWhereFirstsAgree | src/go/pt-galera-log-explainer/translate/whois.go:138-148 | so is the time of a pair whose first records from everything reachable agree |
| ShownTimes.OneTimeIsLatest | src/go/pt-galera-log-explainer/translate/whois.go:138-148 | where all records that lead to a pair carry one time, the latest time is shown |
| ShownTimes.LatestIsMissed | src/go/pt-galera-log-explainer/translate/whois.go:207-222 | a store for which `whois` shows a name with time 1 in every order of the maps, though a record has it at 5 |
| Whois.HeldOnce | src/go/pt-galera-log-explainer/translate/whois.go:138-148 | a (type, value) pair has one place in the tree |
| Whois.SameFindings | src/go/pt-galera-log-explainer/translate/whois.go:45-54 | searching for two identifiers joined without "unspecified" finds the same set |
| Translate.TranslationsDB.AddHashToIP | src/go/pt-galera-log-explainer/translate/translate.go:75-91 | one step of the specified run of the store |
| Translate.TranslationsDB.UpsertToMap | src/go/pt-galera-log-explainer/translate/translate.go:93-111 | a value equal to the last one of its list only lowers its time; another value is appended |
| Translate.HashKeepsFirstIP | src/go/pt-galera-log-explainer/translate/translate.go:82-91 | over every run a hash keeps the first IP recorded for it, with the least time recorded |
| Translate.ShortName | src/go/pt-galera-log-explainer/utils/utils.go:134-145 | a name of ten characters or more is cut at its first dot, unless it is an IP |
| Translate.ListHoldsRuns | src/go/pt-galera-log-explainer/translate/translate.go:100-131 | over every run a list holds the runs of equal values recorded for its key |
| Translate.RunsAreDestuttered | src/go/pt-galera-log-explainer/translate/translate.go:100-111 | no list has equal neighbours, its values are those recorded, in order, its times are recorded ones, and its last time is not later than the last record |
| Translate.RunsHaveEarliestTimes | src/go/pt-galera-log-explainer/translate/translate.go:75-111 | a list has one entry for each run of equal values recorded, with the value and the earliest time of the run |
| Translate.MostAppropriateValueFromTS | src/go/pt-galera-log-explainer/translate/translate.go:143-159 | the loop computes the specified as-of lookup, an empty unit for an empty list |
| Translate.AsOf | src/go/pt-galera-log-explainer/translate/translate.go:143-159 | the time found is the latest of the first entry's and of those up to the query |
| Translate.LookupIsMonotone | src/go/pt-galera-log-explainer/translate/translate.go:143-159 | a later query never finds an earlier time |
| Translate.LookupIsLastEntry | src/go/pt-galera-log-explainer/translate/translate.go:143-159 | on a list in strict time order the lookup is the plain scan for the last entry up to the query |
| Translate.TranslationsDB.GetHashSliceFromIP | src/go/pt-galera-log-explainer/translate/translate.go:182-197 | exactly the hashes of the IP, each once, oldest first |
| Translate.TranslationsDB.GetHashFromIP | src/go/pt-galera-log-explainer/translate/translate.go:199-202 | the latest hash of the IP at the date, or the earliest of all if it had none yet |
| Translate.TranslationsDB.SimplestInfoFromIP | src/go/pt-galera-log-explainer/translate/translate.go:207-230 | the IP's own name, else the name of its first named hash (stable IPs) or of its hash at the date (reused IPs), else the IP |
| Translate.TranslationsDB.SimplestInfoFromHash | src/go/pt-galera-log-explainer/translate/translate.go:232-241 | the hash's own name, else what its IP resolves to, else the hash |
| Resolution.StableLookupResolves | src/go/pt-galera-log-explainer/translate/translate.go:207-230 | with stable IPs the lookup gives a name exactly if the IP or one of its hashes has one |
| Resolution.StableHashLookupResolves | src/go/pt-galera-log-explainer/translate/translate.go:232-241 | with stable IPs the lookup of a hash gives a name exactly if the hash has one or its IP is resolvable |
| Resolution.StaysResolved | src/go/pt-galera-log-explainer/translate/translate.go:75-131 | an IP resolved once stays resolved at every date, whatever is learnt next, unless it is an empty name |
| Resolution.HashStaysResolved | src/go/pt-galera-log-explainer/translate/translate.go:232-241 | so does a hash |
| Resolution.RunsStayResolved | src/go/pt-galera-log-explainer/translate/translate.go:75-131 | over every run without empty names, a hash or IP resolved at some point stays resolved at every date, however the run goes on |
| Resolution.StaysResolvedExactly | src/go/pt-galera-log-explainer/translate/translate.go:75-131 | with stable IPs a step leaves every IP resolved, in every store, exactly if it records no empty name |
| Resolution.HashesStayResolvedExactly | src/go/pt-galera-log-explainer/translate/translate.go:75-131 | with stable IPs a step leaves every hash resolved, in every store, exactly if it records no empty name, or only one for the empty IP |
| Resolution.UnstableLookup | src/go/pt-galera-log-explainer/translate/translate.go:199-230 | what the lookup with reusable IPs may return is exactly what it returns for some order of the hashes |
| Resolution.UnstableAlwaysFinds | src/go/pt-galera-log-explainer/translate/translate.go:221-229 | with reusable IPs an IP without a name of its own is named at every date and in every order of the map exactly if it has a hash and all its hashes have names |
| Resolution.AlwaysNamedIsFound | src/go/pt-galera-log-explainer/translate/translate.go:207-230 | with reusable IPs an IP is named at every date and in every order of the map exactly if it has a name of its own, or has a hash and all its hashes have names |
| Resolution.StaysNamedExactly | src/go/pt-galera-log-explainer/translate/translate.go:75-131 | such an IP stays so over a step exactly unless it has no name of its own and the step records a new hash for it that is empty or has no name |
| Resolution.UnstableMayForget | src/go/pt-galera-log-explainer/translate/translate.go:222-228 | a run in which a later hash without a name hides the name found before |
| RunLength.LocalTimeline.Add | src/go/pt-galera-log-explainer/types/timeline.go:25-38 | the two writes in place give the specified next timeline |
| RunLength.TotalIsAdds | src/go/pt-galera-log-explainer/types/timeline.go:25-38 | for any duplicate test, the entries with their repetition counts sum up to the number of adds, and the last entry is the last event added |
| RunLength.AddCompressesRuns | src/go/pt-galera-log-explainer/types/timeline.go:25-38 | event by event, the timeline holds each maximal run of equal events as its first event, which counts those left out, and its last |
| RunLength.CompressionIsLossless | src/go/pt-galera-log-explainer/types/loginfo.go:80-86 | repeating every entry as often as it counts gives back the regexes and messages of all events |
| RunLength.NoThreeInARow | src/go/pt-galera-log-explainer/types/timeline.go:25-38 | no three entries in a row are equal and displayable |
| MergeTimeline.CutTimelineAt | src/go/pt-galera-log-explainer/types/timeline.go:178-187 | the loop leaves the events from the first one dated after the time |
| MergeTimeline.CutKeepsLast | src/go/pt-galera-log-explainer/types/timeline.go:144-156 | whatever the timelines, the cut before the append leaves an event, so the last index is in range |
| MergeTimeline.MergeIsUnion | src/go/pt-galera-log-explainer/types/timeline.go:92-157 | two windows of one error log merge into their ordered union, in either order of the arguments, exactly if they do not share a single event |
| MergeTimeline.MergeInOrder | src/go/pt-galera-log-explainer/types/timeline.go:103-157 | what the merge gives for any two windows, events and order; their contexts are stated by the two rows below |
| MergeTimeline.ContextsOfMerge | src/go/pt-galera-log-explainer/types/timeline.go:144-156 | where one timeline is appended to another, in either order of the arguments, every event keeps its context but the last: its IPs, hashes, names and conflicts are those that the first timeline ends with, followed by its own, and its version is its own unless this is empty |
| MergeTimeline.LatestIsKept | src/go/pt-galera-log-explainer/types/logctx.go:168-176 | the last IP, name and hash known after the merge of two overlapping files are those of the later file, or of the earlier one if the later knows none |
| MergeTimeline.TimesOfEvents | src/go/pt-galera-log-explainer/types/timeline.go:159-174 | the first and the last time of a timeline are those of its first and last event that has a date and comes from an error log or a file of no known type |
| MergeTimeline.OrderDoesNotMatter | src/go/pt-galera-log-explainer/types/timeline.go:92-123 | whichever window comes first, the merge has the same events |
| MergeTimeline.MergeAllRebuildsLog | src/go/pt-galera-log-explainer/types/timeline.go:43-90 | merging the files of a log one after the other rebuilds the log |
| MergeTimeline.FileInGapIsLost | src/go/pt-galera-log-explainer/types/timeline.go:92-157 | a file wholly in a gap between merged files is dropped |
| MergeSubsets.MergeIsUnionExactly | src/go/pt-galera-log-explainer/types/timeline.go:92-157 | two timelines of any events of one log merge into their union, in either order, exactly if the later one does not just begin with the last event of the other, and the other has all its events up to the other's end; of two that start together the one that ends later must hold the other |
| MergeSubsets.ThirdFileExactly | src/go/pt-galera-log-explainer/types/timeline.go:92-157 | a third file merged into two with a gap between them gives the union of the three exactly if nothing of it in the gap is lost and no single end event is shared, both decided by the bounds of the files |
| DisplayLoop.Timelines.IterateNode | src/go/pt-galera-log-explainer/types/timeline.go:202-221 | the nodes returned are exactly those with the least first time up to the bound, each once |
| DisplayLoop.Timelines.Dequeue | src/go/pt-galera-log-explainer/types/timeline.go:223-229 | one event leaves the queue of one node |
| DisplayLoop.Timelines.ShowRow | src/go/pt-galera-log-explainer/display/timelinecli.go:65-92 | a row takes the head of each chosen node and nothing else |
| DisplayLoop.Timelines.TimelineCLI | src/go/pt-galera-log-explainer/display/timelinecli.go:59-93 | the loop ends; every node's events are shown in order and none twice; all queues are emptied exactly if no event is dated past the bound; every row shows exactly the nodes that were next before it; sorted timelines are shown in date order, and strictly sorted ones in rows whose dates strictly increase |
| DisplayLoop.StepInOrder | src/go/pt-galera-log-explainer/display/timelinecli.go:59-93 | after every row, nothing still queued is dated before something shown |
| DisplayLoop.StepShowsNext | src/go/pt-galera-log-explainer/display/timelinecli.go:59-92 | a row shows the nodes that are next given what all rows before it have shown, and no others |
| DisplayLoop.StepStrictly | src/go/pt-galera-log-explainer/display/timelinecli.go:59-93 | if no node has two events at one time, all that is still queued after a row is dated after what it shows: nodes with events at one time share a row |
| DisplayLoop.ShownDatesDoNotDecrease | src/go/pt-galera-log-explainer/display/timelinecli.go:65-80 | the dates that the rows show never go back, however many events have no date |
| Transitions.Column.FillEmptyTransition | src/go/pt-galera-log-explainer/display/timelinecli.go:346-354 | the tests are filled up to four |
| Transitions.Column.Iterate | src/go/pt-galera-log-explainer/display/timelinecli.go:322-332 | every test is resolved, and the number found is the number of changes |
| Transitions.Column.StackPrioritizeFound | src/go/pt-galera-log-explainer/display/timelinecli.go:334-344 | the stack reaches the height, and its first entries up to it are the tests without as many of the first unchanged ones as do not fit, so they hold every change once and in order: the count meets the height on its way down |
| Transitions.ChangesAreDifferences | src/go/pt-galera-log-explainer/display/timelinecli.go:266-292 | what a column reports are exactly its tests with different values, in order, and no filler |
| Transitions.ShownChanges | src/go/pt-galera-log-explainer/display/timelinecli.go:266-292 | a column shows a new file path, node name, node ip and version, in this order, if both values are known and differ: the old value, what it is, an arrow and the new value |
| Transitions.CellAt | src/go/pt-galera-log-explainer/display/timelinecli.go:307-316 | line by line, the rows printed are the four cells of each transition in each column |
| Transitions.PrintRows | src/go/pt-galera-log-explainer/display/timelinecli.go:307-316 | the printing loop stays in range and gives every row one cell for each column |
| Transitions.TransitionSeparator | src/go/pt-galera-log-explainer/display/timelinecli.go:261-320 | for any number of columns the block is as high as the column with most changes, and in it each column shows its tests without the first unchanged ones, and so all its changes once, in order |
| CaseFold.VariantsCover | util/NaturalDocs/JavaScript/GooglePrettify.js:435-444 | the ranges pushed for one range hold its codes and the other case of its letters, and nothing else |
| CaseFold.Consolidate | util/NaturalDocs/JavaScript/GooglePrettify.js:449-459 | sorted ranges become ranges that neither overlap nor touch, with the same codes |
| CaseFold.FoldCharset | util/NaturalDocs/JavaScript/GooglePrettify.js:403-459 | the ranges written are separated and hold exactly the ASCII case closure of the set |
| CaseFold.NormalForm | util/NaturalDocs/JavaScript/GooglePrettify.js:449-459 | separated ranges are determined by their codes |
| CaseFold.FoldIsCanonical | util/NaturalDocs/JavaScript/GooglePrettify.js:403-459 | sets that are equal up to case are written the same way |
| HtmlEscape.HtmlToText | util/NaturalDocs/JavaScript/GooglePrettify.js:263-292 | the loop over numeric references and the six replacements compute the specified unescaping |
| HtmlEscape.EscapeStage | util/NaturalDocs/JavaScript/GooglePrettify.js:241-254 | each global replacement escapes its character in a text that escapes those before it |
| HtmlEscape.UnescapeStage | util/NaturalDocs/JavaScript/GooglePrettify.js:286-291 | each replacement of an entity undoes its escape and nothing else while ampersands are escaped |
| HtmlEscape.NoReference | util/NaturalDocs/JavaScript/GooglePrettify.js:268-284 | escaped text has no numeric reference, even if the text looks like one |
| HtmlEscape.RoundTrip | util/NaturalDocs/JavaScript/GooglePrettify.js:241-292 | unescaping undoes both escapings, for every string and every `parseInt` |
| HtmlEscape.EscapedCharacter | util/NaturalDocs/JavaScript/GooglePrettify.js:240-254 | what each character becomes in text and in attributes |
| HtmlEscape.EntityResolved | util/NaturalDocs/JavaScript/GooglePrettify.js:257-292 | each of the six entities becomes its character |
| HtmlEscape.DecodedText | util/NaturalDocs/JavaScript/GooglePrettify.js:286-291 | a text that uses any of the six entities, ampersands among them, comes back whole |
| HtmlEscape.FirstDigitIsLost | util/NaturalDocs/JavaScript/GooglePrettify.js:270-283 | what is read from a lone reference is what follows the first character of its number |
| NumericReferences.DecimalReference | util/NaturalDocs/JavaScript/GooglePrettify.js:268-284 | anywhere in a text, a decimal reference is read without its first digit, as the right code exactly if it has more than one digit and the first is 0 |
| NumericReferences.HexadecimalReference | util/NaturalDocs/JavaScript/GooglePrettify.js:268-284 | a hexadecimal reference is read as decimal, as the right code exactly if it is one decimal digit behind zeros |
| NumericReferences.LoneReference | util/NaturalDocs/JavaScript/GooglePrettify.js:263-292 | the text of a lone reference becomes the character of the code read, or stays if none is read |
| NumericReferences.OneDigitStays | util/NaturalDocs/JavaScript/GooglePrettify.js:270-278 | a reference of one digit stays as it is |
| NumericReferences.WrongDecimal | util/NaturalDocs/JavaScript/GooglePrettify.js:270-283 | `&#65;`, whose number is 65, becomes the character of code 5 |
| NumericReferences.WrongHexadecimal | util/NaturalDocs/JavaScript/GooglePrettify.js:268-283 | `&#x41;`, whose number is 65 too, becomes the character of code 41 |
| TabExpander.Padding | util/NaturalDocs/JavaScript/GooglePrettify.js:636-640 | the loop that pushes sixteen spaces at a time pushes exactly the spaces wanted |
| TabExpander.Expander.Expand | util/NaturalDocs/JavaScript/GooglePrettify.js:615-654 | a call expands its chunk from the column that the calls before it left, and leaves the next one |
| TabExpander.ExpandChunks | util/NaturalDocs/JavaScript/GooglePrettify.js:608-619 | feeding the text chunk by chunk equals expanding it whole |
| TabExpander.TabStop | util/NaturalDocs/JavaScript/GooglePrettify.js:636-637 | a tab leads to the nearest tab stop to the right |
| TabExpander.TabOnLine | util/NaturalDocs/JavaScript/GooglePrettify.js:623-650 | a tab behind some text of a line becomes the spaces up to the next multiple of the width, counted from the last line end |
| TabExpander.ExpandKeepsColumns | util/NaturalDocs/JavaScript/GooglePrettify.js:615-654 | the result has no tabs, ends in the same column, and expanding it again changes nothing |
| Lexer.Decorate | util/NaturalDocs/JavaScript/GooglePrettify.js:851-936 | for any tokenizer that tiles, the recursion ends; positions are ordered and in range, and every character has the style of its token, through any nesting of languages |
| Lexer.DecorateToken | util/NaturalDocs/JavaScript/GooglePrettify.js:872-932 | the left part, the embedded source and the right part of a token tile it |
| Lexer.SpanOfGroups | util/NaturalDocs/JavaScript/GooglePrettify.js:905-915 | the embedded source stands right before the second group at the end of the token, or, without a second group, at its first place in the token |
| Lexer.AppendDecorations | util/NaturalDocs/JavaScript/GooglePrettify.js:755-763 | the decorations of a part stand inside the part |
| Lexer.TilesConcat | util/NaturalDocs/JavaScript/GooglePrettify.js:917-932 | adjacent decorated stretches keep their order, their bounds and the style of each position |
| Recombine.Printer.EmitTextUpTo | util/NaturalDocs/JavaScript/GooglePrettify.js:1093-1125 | the text up to an index is written once, expanded, escaped and in one span of the current style |
| Recombine.Printer.ConsumeTag | util/NaturalDocs/JavaScript/GooglePrettify.js:1144-1152 | a tag is written at its position, outside all spans |
| Recombine.Printer.ConsumeDecoration | util/NaturalDocs/JavaScript/GooglePrettify.js:1153-1156 | the text before a decoration is written in the style so far |
| Recombine.RecombineTagsAndDecorations | util/NaturalDocs/JavaScript/GooglePrettify.js:1070-1166 | position by position the output is the tags of the position and its character in the style of the last decoration; spans do not nest, do not straddle a tag, are closed, none is empty, and none is ended just to be started again |
| StyledText.ReferenceChunk | util/NaturalDocs/JavaScript/GooglePrettify.js:1093-1125 | between two marks the output is one chunk in one style |
| StyledText.ChunkIsCells | util/NaturalDocs/JavaScript/GooglePrettify.js:1107-1113 | expanding and escaping a chunk is expanding and escaping its positions one by one |
| StyledOutput.OutputReadsAsSource | util/NaturalDocs/JavaScript/GooglePrettify.js:1070-1166 | unescaping what is seen of the output gives the source back, its tabs expanded |
| StyledOutput.OutputHasAllTags | util/NaturalDocs/JavaScript/GooglePrettify.js:1127-1165 | every extracted tag comes out once, in order |
| PrettyPrint.ApplyDecorator | util/NaturalDocs/JavaScript/GooglePrettify.js:1296-1325 | lexer and printer together write every character once in the style of its token |
| DocumentKeys.GetKeys | src/go/mongolib/fingerprinter/fingerprinter.go:216-264 | the list returned has exactly the keys that the document collects, whatever the order of its maps |
| DocumentKeys.ShouldSkipKey | src/go/mongolib/fingerprinter/fingerprinter.go:267-274 | a key is skipped exactly if some filter matches |
| DocumentPaths.CollectsByPath | src/go/mongolib/fingerprinter/fingerprinter.go:216-264 | a key is collected exactly if it is no operator and ends a path through the document whose map fields are neither filtered nor below the depth limit |
| DocumentPaths.DepthLimit | src/go/mongolib/fingerprinter/fingerprinter.go:249-262 | without filters, maps are followed eleven levels deep and no deeper |
| DocumentPaths.ListsAreFollowed | src/go/mongolib/fingerprinter/fingerprinter.go:226-247 | lists of fields and of items know neither the depth limit nor filters |
| DocumentPaths.FilteredIsHidden | src/go/mongolib/fingerprinter/fingerprinter.go:249-256 | a key of a map that a filter matches hides all that is below it |
| DocumentPaths.SamePathsSameKeys | src/go/mongolib/fingerprinter/fingerprinter.go:216-264 | documents with the same paths mention the same keys, at every level and with every filter |
| DocumentPaths.RearrangedSamePaths | src/go/mongolib/fingerprinter/fingerprinter.go:223-227 | documents whose fields agree in any order, with the same paths below them, have the same paths |
| DocumentPaths.PermutedSamePaths | src/go/mongolib/fingerprinter/fingerprinter.go:223-227 | permuting the fields of a document changes no path |
| DocumentPaths.MapKeepsPaths | src/go/mongolib/fingerprinter/fingerprinter.go:346-355 | turning documents without repeated names into maps keeps them alike |
| DocumentPaths.RearrangedKeepsPaths | src/go/mongolib/fingerprinter/fingerprinter.go:216-264 | reordering the fields of lists of fields at any depth, and changing leaves, changes no path |
| DocumentPaths.PermutedIsRearranged | src/go/mongolib/fingerprinter/fingerprinter.go:223-227 | any permutation of the fields of a list is such a reordering |
| KeyList.StrictlySortedUnique | src/go/mongolib/fingerprinter/fingerprinter.go:182-184 | a strictly sorted list is the only one of its members |
| KeyList.Deduplicate | src/go/mongolib/fingerprinter/fingerprinter.go:276-287 | the loop with the seen-map keeps the first occurrence of each string |
| KeyList.FirstsOfSorted | src/go/mongolib/fingerprinter/fingerprinter.go:182-184 | of a sorted list this leaves a strictly sorted one |
| Fingerprint.ListKeys | src/go/mongolib/fingerprinter/fingerprinter.go:61-180 | the keys gathered for an operation are exactly those of its query, sort and orderby, or what its command asks for |
| Fingerprint.FingerprintOf | src/go/mongolib/fingerprinter/fingerprinter.go:60-214 | it fails exactly if the query field or a group argument is no document; otherwise the keys are the sorted list, without repetition, of those wanted; what the other fields say is stated below |
| Fingerprint.FingerprintIsUnique | src/go/mongolib/fingerprinter/fingerprinter.go:60-214 | a document has one fingerprint, in whatever order its maps are walked |
| FingerprintFields.FindFields | src/go/mongolib/fingerprinter/fingerprinter.go:90-122 | a query is a FIND on the database, the text before the first dot of the namespace, and the collection, the text behind it |
| FingerprintFields.ExplainFields | src/go/mongolib/fingerprinter/fingerprinter.go:108-120 | a query with `$explain` is an EXPLAIN without database and collection |
| FingerprintFields.OperationFields | src/go/mongolib/fingerprinter/fingerprinter.go:90-107 | removals, updates, insertions and other operations keep their name, in upper case, and their namespace |
| FingerprintFields.CommandFields | src/go/mongolib/fingerprinter/fingerprinter.go:123-130 | a command is named by its first field, and its collection is the text of this field |
| FingerprintFields.NamelessCommandFields | src/go/mongolib/fingerprinter/fingerprinter.go:123-171 | an explained command has neither database nor collection, `$eval` is an EVAL without collection, and an empty command has no name |
| FingerprintFields.GroupFields | src/go/mongolib/fingerprinter/fingerprinter.go:131-150 | a group has the collection that its argument names as `ns`, or else the text of its first field |
| FingerprintFields.Texts | src/go/mongolib/fingerprinter/fingerprinter.go:186-211 | the namespace is the database and the collection with a dot, and the fingerprint the operation, the collection and the keys with spaces, without those that are empty |
| FingerprintFields.KeysOfFingerprint | src/go/mongolib/fingerprinter/fingerprinter.go:182-184 | splitting the keys at commas gives the sorted list back, if no key has a comma |
| FingerprintFields.NoKeysFields | src/go/mongolib/fingerprinter/fingerprinter.go:105-180 | insertions, unknown operations and the commands geoNear, explain, `$eval`, drop and createIndexes list no keys |
| FingerprintFields.QueryListed | src/go/mongolib/fingerprinter/fingerprinter.go:61-88 | all other operations and commands list the keys of the query, of sort and of orderby, and a distinct also the key that it asks for |
| FingerprintFields.PipelineListed | src/go/mongolib/fingerprinter/fingerprinter.go:157-161 | an aggregation lists the keys of its pipeline, unfiltered |
| FingerprintFields.GroupListed | src/go/mongolib/fingerprinter/fingerprinter.go:131-143 | a group lists the keys of its `key` and its `cond`, unfiltered |
| FingerprintFields.QueryFieldByName | src/go/mongolib/fingerprinter/fingerprinter.go:290-344 | the query is q for a command that updates or removes, which must be there and a document; elsewhere the first of query, filter and the whole body |
| FingerprintFields.LoneFind | src/go/mongolib/fingerprinter/fingerprinter.go:338-341 | a body that is just a find has no keys |
| FingerprintFields.FindAFields | src/go/mongolib/fingerprinter/fingerprinter.go:60-214 | a find of {a: 1} in t.c is `FIND c a`, and has the other fields accordingly |
| CanonicalFingerprint.SameQueryField | src/go/mongolib/fingerprinter/fingerprinter.go:289-344 | queries with the same paths select query fields with the same paths, or both fail |
| CanonicalFingerprint.FingerprintIsCanonical | src/go/mongolib/fingerprinter/fingerprinter.go:60-214 | reordering the fields of a query, of its filter, q or sort, at any depth, and changing its leaves, changes no fingerprint; a command keeps its first field and the names it reads out of leaves |
| RepeatedNames.LastNameCounts | src/go/mongolib/fingerprinter/fingerprinter.go:346-355 | of the fields of one name in a filter, the last one stays in the map |
| RepeatedNames.ExchangedNames | src/go/mongolib/fingerprinter/fingerprinter.go:346-355 | in any document, the last two fields of a name can change places without changing the keys exactly if the name is filtered or both collect the same of those keys that the rest does not collect |
| RepeatedNames.ExchangedNamesDiffer | src/go/mongolib/fingerprinter/fingerprinter.go:60-214 | two filters that are permutations of each other, with a repeated name, have the keys `a,c` and `a,b` |
| Stats.Count | src/go/mongolib/stats/stats.go:116-169 | what one document does to the entry of its key |
| Stats.Stats.Add | src/go/mongolib/stats/stats.go:81-172 | a document is refused exactly without a fingerprint, or as the first of its key if it cannot be encoded; otherwise the map stays the group-by of all documents added: counts, samples in order, locks, times, plan |
| Stats.GroupedAfter | src/go/mongolib/stats/stats.go:89-116 | counting a document in the entry of its key keeps the map the group-by of the batch |
| Stats.FirstSeenIsEarliest | src/go/mongolib/stats/stats.go:127-129 | the first time seen is the least time exactly if the last document has no time or all have one |
| Stats.LatestIsGreatest | src/go/mongolib/stats/stats.go:130-132 | the last time seen is the greatest time |
| StatsFields.SeriesByField | src/go/mongolib/stats/stats.go:124-169 | the samples of an entry are what its documents returned, took and answered, one by one, and their other numbers where they are positive |
| StatsFields.LocksByField | src/go/mongolib/stats/stats.go:140-163 | each lock counts the documents that took it and sums up how often |
| StatsFields.PlanByField | src/go/mongolib/stats/stats.go:118-122 | the plan of an entry is the first word of the first document's; every document counts as a collection scan if this plan is COLLSCAN, all but the first if words follow |
| Stats.Stats.Queries | src/go/mongolib/stats/stats.go:175-190 | every entry once, in the order of its key's text |
| StatsFields.ReportedInOrder | src/go/mongolib/stats/stats.go:284-298 | queries of one operation are reported in the order of their namespaces, and of one namespace in the order of their fingerprints |
| StatsTotals.CountsAddUp | src/go/mongolib/stats/stats.go:175-190 | the counts reported add up to the number of documents added |
| StatsTotals.AggregateCounters | src/go/mongolib/stats/stats.go:447-461 | the loop gathers all samples of each metric, in order |
| StatsTotals.CalcTotalCounters | src/go/mongolib/stats/stats.go:463-494 | the loop sums the sums of each metric |
| StatsTotals.TotalsAgree | src/go/mongolib/stats/stats.go:447-494 | the sum of the sums is the sum of the aggregated samples exactly if nothing sums to 0 or every query has a sample; else it is not a number |
| StatsTotals.CalcQueriesStats | src/go/mongolib/stats/stats.go:211-221 | every query gets its statistics against the totals of all |
| StatsFields.TotalsByField | src/go/mongolib/stats/stats.go:373-427 | the totals of a query are the sums of its samples, metric by metric |
| StatsFields.RatioByField | src/go/mongolib/stats/stats.go:373-427 | the ratio is how many documents were examined for each that was returned, and 0 if none was |
| StatsFields.PctByField | src/go/mongolib/stats/stats.go:416-443 | the percentage of a metric is the part that the query has in the samples of all queries |
| StatsTotals.PctsAddUp | src/go/mongolib/stats/stats.go:416-443 | where the total of a metric is positive the percentages add up to 100, otherwise all are 0 |
| MultiSorter.Sorter.LessAt | src/go/pt-mongodb-query-digest/main.go:457-476 | the loop asks the comparators in order and lets the last one decide |
| MultiSorter.Sorter.Swap | src/go/pt-mongodb-query-digest/main.go:448-450 | two queries change places and nothing else |
| MultiSorter.Sorter.Sort | src/go/pt-mongodb-query-digest/main.go:429-432 | a permutation, without inversion if every comparator is a strict weak order |
| MultiSorter.FirstDifferenceDecides | src/go/pt-mongodb-query-digest/main.go:457-476 | the first comparator that tells two queries apart orders them |
| MultiSorter.LexicographicOrder | src/go/pt-mongodb-query-digest/main.go:457-476 | over strict weak orders the comparison is one: irreflexive, transitive, with transitive ties |
| MultiSorter.SortedKeyByKey | src/go/pt-mongodb-query-digest/main.go:429-432 | without inversion the queries are sorted by the first key, those that tie on it by the next, and so on |
| MultiSorter.ComparatorIsOrder | src/go/pt-mongodb-query-digest/main.go:478-535 | every comparator is a strict weak order except those of docs-returned |
| MultiSorter.FieldsCompared | src/go/pt-mongodb-query-digest/main.go:478-531 | count, ratio, query-time and docs-examined compare these fields upwards, and with a minus downwards; docs-returned compares documents returned with documents examined |
| MultiSorter.SortedByField | src/go/pt-mongodb-query-digest/main.go:457-476 | sorted by such a field first, the queries have its values in ascending order, with a minus in descending |
| MultiSorter.DocsReturnedIsReflexive | src/go/pt-mongodb-query-digest/main.go:523-530 | docs-returned puts a query before itself exactly if it returned less than it examined |
| WorkerPool.StepConserved | src/go/pt-k8s-debug-collector/dumper/dumper.go:580-605 | whatever step comes next, every dispatched pod stays in exactly one place: queued, in flight, handled, or given up for lack of space |
| WorkerPool.StepArchive | src/go/pt-k8s-debug-collector/dumper/tar.go:41-58 | only the holder of the mutex is inside an entry, and the archive is a sequence of entries |
| WorkerPool.RunInv | src/go/pt-k8s-debug-collector/dumper/dumper.go:232-260 | all invariants hold at every moment of every interleaving |
| WorkerPoolRuns.NoSendAfterClose | src/go/pt-k8s-debug-collector/dumper/dumper.go:253-257 | in every run no send follows the close of the channel |
| WorkerPoolRuns.StuckWhen | src/go/pt-k8s-debug-collector/dumper/dumper.go:232-260 | with a worker and a channel that holds something, a run can go no further exactly if all is over or the dispatcher was abandoned before a full channel |
| WorkerPoolRuns.AbandonedOnlyIfCancelled | src/go/pt-k8s-debug-collector/dumper/dumper.go:580-597 | only a cancelled pool abandons its dispatcher |
| WorkerPoolRuns.AbandonedNeedsPods | src/go/pt-k8s-debug-collector/dumper/dumper.go:252-255 | an abandoned dispatcher has at least two pods more than the channel holds |
| WorkerPoolRuns.CancelledRunMayHang | src/go/pt-k8s-debug-collector/dumper/dumper.go:252-255 | with so many pods, and any number of workers, there is a run after which nothing can move and the dispatcher still sends |
| WorkerPoolRuns.MayHangExactly | src/go/pt-k8s-debug-collector/dumper/dumper.go:232-260 | DumpCluster can hang exactly if there are two pods more than the channel holds |
| WorkerPoolRuns.RunsAreBounded | src/go/pt-k8s-debug-collector/dumper/dumper.go:580-605 | no run is longer than the work of its start |
| WorkerPoolRuns.DoneMeansHandled | src/go/pt-k8s-debug-collector/dumper/dumper.go:257-260 | when the wait passes in a run that was not cancelled, every pod was handled exactly once |
| WorkerPoolRuns.UncancelledRunsComplete | src/go/pt-k8s-debug-collector/dumper/dumper.go:232-260 | a run that is not cancelled and goes on while it can returns with every pod handled exactly once |
| WorkerPoolRuns.ArchiveIsWhole | src/go/pt-k8s-debug-collector/dumper/tar.go:41-58 | while no body fails, the archive is whole header and body pairs whenever the mutex is free |
| WorkerPoolRuns.ArchiveIsComplete | src/go/pt-k8s-debug-collector/dumper/dumper.go:580-605 | after a run in which nothing failed the archive holds every file of every pod exactly once and no other |
| JoinLines.JoinQueryLines | src/go/pt-secure-collect/sanitize/sanitize.go:74-108 | the loop is the specified state machine, step by step; what it joins is stated below |
| JoinLines.StatementIsJoined | src/go/pt-secure-collect/sanitize/sanitize.go:82-103 | a query line, lines that neither end a statement nor start with stars, and a line that ends one come out as one element, joined by line ends |
| JoinLines.OpenQueryIsJoined | src/go/pt-secure-collect/sanitize/sanitize.go:86-93 | a query that is followed by stars comes out as one element, and the stars apart |
| JoinLines.OtherLineStays | src/go/pt-secure-collect/sanitize/sanitize.go:104-105 | any other line comes out as it is |
| JoinLines.QueriesAreWhole | src/go/pt-secure-collect/sanitize/sanitize.go:82-106 | no query is cut off: an element that may start a query ends a statement, or is followed by stars |
| JoinLines.OnlyQueriesAreJoined | src/go/pt-secure-collect/sanitize/sanitize.go:82-106 | nothing else is joined: an element of several lines starts with a query line, none of its lines starts with stars, and none but the last ends a statement |
| JoinLines.EndsWithSemicolon | src/go/pt-secure-collect/sanitize/sanitize.go:96 | a line ends a statement exactly if its last character that is not white space is a semicolon |
| JoinLines.TwoLinesAreJoined | src/go/pt-secure-collect/sanitize/sanitize.go:74-108 | a query of two lines becomes one element |
| JoinLines.Conservation | src/go/pt-secure-collect/sanitize/sanitize.go:74-108 | splitting the output, and the pending statement after it, gives back the lines of the input in order |
| JoinLines.ConservationExactly | src/go/pt-secure-collect/sanitize/sanitize.go:82-90 | this holds for all inputs exactly if no line that may start a query starts with the stars of a record |
| JoinLines.LinesComeBack | src/go/pt-secure-collect/sanitize/sanitize.go:74-108 | lines without line ends come back one by one |
| JoinLines.Idempotence | src/go/pt-secure-collect/sanitize/sanitize.go:74-108 | joining what was joined changes nothing, if the query test looks at first lines only |

## Left out

- Whois.Whois: several values of one node are explored in any order, as Go walks its maps, so where what more than one of them leads to hangs is left open.
- Whois.NodeStore: the nodes live in one sequence and a pointer is a position in it, so Go's aliasing of map values is not modelled; rendering the tree and its JSON are left out.
- Translate.TranslationsDB: the lock around the store and its JSON dump; `IsNodeUUIDKnown` and `IsNodeNameKnown` would only add easy members.
- RunLength.CompressionIsLossless: the message of an event is taken not to change with its context.
- MergeTimeline.Merge: the append may share memory with the first timeline in Go; here timelines are values.  Timelines with mixed file types are left out, since the merge rests on the dates of error logs.
- MergeTimeline.MergeAllRebuildsLog: which files belong to a node, by identifier, directory or pod name, is not modelled.
- DisplayLoop.Timelines.TimelineCLI: verbosity, colours, headers and the context maps of the display; an event dated past the bound of `IterateNode` is never shown, which the contract states.
- Transitions.TransitionSeparator: rows are lists of cells instead of one string with line ends; the keys are those of a map, so no two are equal.
- DisplayLoop.ShownDatesDoNotDecrease: for error logs only, since other file types do not count for the order.
- Lexer.Decorate: the regular expressions are a tokenizer and a classifier; that tokens are not empty and tile the text, and that embedded sources have handlers of lower rank unless they are shorter, is what the model asks of them.  The style cache is not modelled.
- Recombine.RecombineTagsAndDecorations: tags and decorations are pairs instead of flat arrays; rewriting spaces and line ends to `&nbsp;` and `<br />` is left out.
- Recombine.Printer.EmitTextUpTo: the same.
- NumericReferences.ReadsNumbers: what `parseInt` does is stated for hexadecimal digits; signs and spaces in a reference are left to the engine.
- CaseFold.FoldCharset: parsing the character set and printing the ranges.
- CanonicalFingerprint.FingerprintIsCanonical: no name may repeat among the fields of the filter, q, query or group that is turned into a map, nor among the fields of a body that is itself reordered; what repeated names do is stated apart.
- Fingerprint.ToUpper: modelled on ASCII.
- Stats.Stats: locking; the md5 identifier and the example query are those of the first document and stand as one value.
- StatsTotals.CountersToStats: minimum, maximum, average, percentiles, deviation and the rate per second come from a library or a clock.
- Sorting.SortBy: an insertion sort stands for the library sorts; their stability is not used.
- MultiSorter.Comparator: `sortQueries` itself, which turns names of fields into comparators.
- WorkerPool.Next: what the Kubernetes API answers is a number of files per pod; a tar writer that refuses headers after a broken body is not modelled, and non-positive worker counts are replaced before the pool starts.
- JoinLines.JoinQueryLines: the regular expressions of `mightBeAQueryLine`, replacing host names and queries.
- Reading files and logs, running `grep`, parsing command lines, encryption, and the generated data types.
