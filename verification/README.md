# netlog-ai: verified models

A Dafny 4.11 model of the algorithms at the heart of netlog-ai, the log analyser: each one is
a bounded, incremental or indexed form of something simple, and what is proved is that the fast
form is the simple one. Check everything with `dafny verify dfyconfig.toml`.

| part | files | the question |
|---|---|---|
| Cut vertices | `Paths`, `DfsForest`, `ArticulationPoints`, `Topology` | Does the iterative low-link search return exactly the devices through which alone two others are connected? |
| Literal gate | `Regex`, `GapBound`, `GapInclusion`, `LiteralGate`, `RuleGate` | May a rule be skipped because none of its literals is in the line, although the rule that runs is not the rule the literals were read from? |
| Incident clusters | `UnionFind`, `Correlate`, `CorrelationPool` | Are joins between neighbours only as good as all pairs, is the arrival order irrelevant, what does the bounded pool lose? |
| Causal timeline | `LaterStorm`, `Timeline`, `TimelineOrder`, `YearInference` | What survives evicting, pulling and pinning? On which side of new year does a stamp without a year belong? |
| One-pass aggregation | `Aggregate` | Do the bounded heaps give the head of the full sort, and does the reserve keep the change window? |
| EVPN root causes | `EvpnCausal` | What set of events does the greedy pass report? |
| Config chunks | `Text`, `ChunkWindows`, `SetStyle`, `IndentStyle`, `BraceTree`, `BraceSpans`, `StanzaChunks`, `BraceStyle` | Is every line in exactly one chunk, under its own number? |
| Bounded memory | `LeastRecent`, `EntityTracker`, `EntityState`, `TemplateMiner` | What do the least-recently-used structures hold after any run? |

Strings used as identities (hosts, devices, keys, event ids) are natural numbers that keep their
order, times are integer microseconds with `None` for an unknown stamp, and a Python `sorted` is
`Ordering.StableSort`. Config lines, regular expressions, literals and log lines are real strings.
Loops over dictionaries pick their keys in an arbitrary order, so nothing proved depends on it.

## Where the code says something else

- `analyzer.py` says its pass reproduces the order of `classify_events`. The two read a stamp with
  different code: the pass keeps microseconds, `classify_events` compares whole seconds of
  normalized UTC and falls back to the text of the stamp. `Aggregate.ClassifyOrderIff` gives the
  exact condition over both keys. Even where the two readings agree, events of one second reorder
  (`Aggregate.FractionsReorder`), and so do undated ones (`Aggregate.OneClockOrderIff`).
- The earliest commit is documented as protected through every eviction. With a display cap of
  eight or less the storm floor fills the window and the only commit is lost:
  `Timeline.CommitAlwaysShownIff`.
- The choice of the later storm is documented to fall back to the last cluster when every later
  one is of a leftover category. That cannot happen: the rows start with one of a new category, so
  the first cluster is headed by it (`LaterStorm.HeadIsPreferred`).
- The partition into clusters does not depend on the arrival order for the default windows. A
  negative same-device window with a non-negative hold window breaks that:
  `Correlate.ArrivalIndependentIff`.
- Bounding the gaps of a pattern does not always shrink what it matches: under a negative lookahead
  it matches more (`GapInclusion.BoundedMatchesMore`), which is why the gate is proved on the
  extraction of the literals and not on the inclusion of languages. Bounding adds no match when
  every gap stands under an even number of negative lookarounds, loses none when every one stands
  under an odd number, and changes nothing at all on exactly the texts without a stretch of a line
  longer than the bound.
- The gap scanner is documented as leaving character classes alone. It takes a closing bracket that
  comes first in a class for its end, and may rewrite what is still inside:
  `GapBound.ClassesLeftAloneIff` has the exact condition.
- The brace chunker is documented as dropping no line. Statements outside every stanza are in no
  chunk, and they are the only ones: `BraceStyle.CurlyChunks`.

## Model

| member | source | states |
|---|---|---|
| Topology.Adjacency | src/ai_log_analyzer/analytics.py:512-522 | the map built from a topology record is symmetric and loop-free, has a vertex for every named or linked device and exactly the usable links |
| Topology.CutDevices | src/ai_log_analyzer/analytics.py:512-522 | end to end over a topology record: a device is returned if and only if two other devices are connected by links but not by links that avoid it |
| ArticulationPoints.ArticulationPoints | src/ai_log_analyzer/analytics.py:566-603 | on every finite symmetric loop-free graph the search ends and returns exactly the cut vertices |
| ArticulationPoints.ScanNeighbours | src/ai_log_analyzer/analytics.py:581-593 | one look at the top frame either descends or exhausts it, and keeps the whole search invariant: forest, stack chain, child counts, flags so far |
| ArticulationPoints.PopFrame | src/ai_log_analyzer/analytics.py:596-602 | popping passes the low-link down, tests the frame below and keeps the search invariant |
| ArticulationPoints.FinishMarks | src/ai_log_analyzer/analytics.py:596-619 | popping a frame and testing the one below leaves flagged exactly the vertices that the low-link test convicts over all children popped so far: the tested one if the new child convicts it, every other one as before |
| DfsForest.FlaggedIsCut | src/ai_log_analyzer/analytics.py:606-619 | soundness: in a finished search forest whatever the test flags separates two other vertices |
| DfsForest.UnflaggedIsNotCut | src/ai_log_analyzer/analytics.py:606-619 | completeness: around a vertex that is not flagged every connection can be rerouted |
| DfsForest.FlaggedIffCut | src/ai_log_analyzer/analytics.py:566-619 | the low-link test decides the textbook definition of a cut vertex |
| DfsForest.SubtreeIsClosed | src/ai_log_analyzer/analytics.py:588-601 | when the low-link of a child does not get above its parent, no edge leaves the child's subtree past that parent |
| Paths.LinkedRefine | src/ai_log_analyzer/correlate.py:594-606 | a relation whose edges are all connections of another has no more connections than it, which is how neighbour joins are compared with all pairs |
| Regex.MatchIsSpan | src/ai_log_analyzer/classifier.py:811-821 | every match of a parsed rule is a span inside the text |
| GapBound.BoundGaps | src/ai_log_analyzer/classifier.py:291-320 | the scanner's output on any pattern text, escapes and character classes included |
| GapBound.GapRewriteAgrees | src/ai_log_analyzer/classifier.py:291-320 | for every parse tree and every spelling of its characters and classes in which the first bare bracket closes a class, scanning the text gives the text of the same tree with just its unbounded gaps bounded |
| GapBound.EscapedSpells | src/ai_log_analyzer/classifier.py:291-320 | escaping every special character is such a spelling for any tree |
| GapBound.ClassesLeftAloneIff | src/ai_log_analyzer/classifier.py:291-320 | on any pattern text, parsed or not, the scanner leaves alone exactly what a parser takes for a class if and only if the two agree at every unescaped gap whether it is in one |
| GapBound.NoBareBracketAgrees | src/ai_log_analyzer/classifier.py:291-320 | they agree on every text in which no class starts with a bare closing bracket |
| GapBound.BareBracketRewritten | src/ai_log_analyzer/classifier.py:291-320 | a text where they do not, and its gap inside the class is rewritten |
| LiteralGate.GuaranteedLiterals | src/ai_log_analyzer/classifier.py:340-390 | the run/flush/prefer loop computes the specified extraction for every parse tree, nested groups and branches included, and makes the choice below |
| LiteralGate.GuaranteedIsChoice | src/ai_log_analyzer/classifier.py:340-390 | read off the items of a pattern: the first longest stretch of literal characters if it has three, else the fewest literals of a sub-expression if each has three, else that stretch, else those literals |
| LiteralGate.AlternativesProve | src/ai_log_analyzer/classifier.py:364-372 | a branch proves all literals of its alternatives together, and nothing as soon as one of them proves nothing |
| LiteralGate.GuaranteedSound | src/ai_log_analyzer/classifier.py:340-390 | inside every span the gap-bounded pattern matches, for every bound, one of the literals extracted from the unbounded pattern occurs |
| LiteralGate.ScanSound | src/ai_log_analyzer/classifier.py:346-389 | the same for the state in the middle of the scan: runs pending, best set so far, position reached |
| GapInclusion.BoundedMatchesMore | src/ai_log_analyzer/classifier.py:291-320 | for every limit there is a pattern and a text that only the bounded form matches |
| GapInclusion.EvenGapsMatchFewer | src/ai_log_analyzer/classifier.py:291-320 | with every unbounded gap under an even number of negative lookarounds, every match of the bounded form is one of the original |
| GapInclusion.OddGapsMatchMore | src/ai_log_analyzer/classifier.py:291-320 | with every one under an odd number, every match of the original is one of the bounded form |
| GapInclusion.GapsNeverMatterIff | src/ai_log_analyzer/classifier.py:291-320 | on a text, bounding changes no match of any pattern if and only if no stretch of one of its lines is longer than the bound |
| RuleGate.GuardSound | src/ai_log_analyzer/classifier.py:393-415 | a guarded rule that matches a lowercase text has one of its gate literals in it |
| RuleGate.GateKeepsVerdict | src/ai_log_analyzer/classifier.py:811-821 | the first match among the candidates is the first match in the whole table |
| RuleGate.IndexRules | src/ai_log_analyzer/classifier.py:399-414 | the literal index lists under every literal exactly the rules it guards, and the unguarded list is the rest, in table order |
| RuleGate.Prune | src/ai_log_analyzer/classifier.py:458-463 | the keywords are exactly the literals with no other literal inside |
| RuleGate.HasKeyword | src/ai_log_analyzer/classifier.py:458-463 | every literal contains a keyword |
| RuleGate.OneKeywordPerStart | src/ai_log_analyzer/classifier.py:420-430 | at most one keyword of a substring-free set starts at an index |
| RuleGate.SearchAlternation | src/ai_log_analyzer/classifier.py:464 | the alternation finds the leftmost start of any keyword from a position on |
| RuleGate.FindKeywords | src/ai_log_analyzer/classifier.py:428-435 | the search, taken up again right behind the start of each hit, misses no keyword in the text, overlapping ones included |
| RuleGate.KeywordsSuffice | src/ai_log_analyzer/classifier.py:436 | confirming the literals around the keywords found gives exactly the literals present |
| RuleGate.AroundEach | src/ai_log_analyzer/classifier.py:465-467 | the literals listed with a keyword are those containing it |
| RuleGate.Gate.constructor | src/ai_log_analyzer/classifier.py:393-417 | the import-time tables for any rule table |
| RuleGate.Gate.PresentLiterals | src/ai_log_analyzer/classifier.py:420-436 | equals a scan of the text for every gate literal |
| RuleGate.Gate.Gather | src/ai_log_analyzer/classifier.py:446-451 | the candidates in table order: unguarded rules and those guarded by a literal present |
| RuleGate.Gate.GatedCandidates | src/ai_log_analyzer/classifier.py:439-455 | a cached and a freshly built candidate list are the same, and the cache never lies, overflow included |
| RuleGate.Gate.RulesFor | src/ai_log_analyzer/classifier.py:811-821 | for every rule table and lowercase line the first matching rule of the chosen list is the first in the table; the list is ascending and holds exactly the rules without a proven literal and those with one in the bounded line, or all of them if a character is not ASCII |
| RuleGate.FirstIsVerdict | src/ai_log_analyzer/classifier.py:816-821 | the verdict over the whole table is the least rule whose pattern, gaps bounded by 300, is found in the text, and none if none is |
| RuleGate.CandidateMustBeTried | src/ai_log_analyzer/classifier.py:439-455 | a rule is a candidate if and only if it has no literals, a short one, or one of them in the text |
| RuleGate.BoundedIsHeadAndTail | src/ai_log_analyzer/classifier.py:284-288 | up to 4096 characters a line is scanned whole, of a longer one the first 3072 and the last 1023 with a blank between |
| UnionFind.HalvingKeepsForest | src/ai_log_analyzer/correlate.py:564-568 | one path-halving step changes no representative and moves strictly closer to it |
| UnionFind.HangingKeepsForest | src/ai_log_analyzer/correlate.py:570-574 | hanging one root under another merges exactly their two classes |
| UnionFind.MergeRepresents | src/ai_log_analyzer/correlate.py:570-574 | if the representatives decide connectedness they still do after one more edge |
| UnionFind.Forest.Find | src/ai_log_analyzer/correlate.py:564-568 | returns the representative and leaves every class as it was, in place on the array |
| UnionFind.Forest.Union | src/ai_log_analyzer/correlate.py:570-574 | the classes of the two arguments become one, the first one's representative stays |
| Correlate.EntityComponents | src/ai_log_analyzer/correlate.py:594-606 | joining only time-neighbours of each key list connects the same events as the all-pairs relation: share a key and close in time, or both untimed |
| Correlate.ClustersCoarsen | src/ai_log_analyzer/correlate.py:570-576 | the full forest never separates what the entity forest joins |
| Correlate.ClustersKeepUnderReordering | src/ai_log_analyzer/correlate.py:588-592 | for every permutation of the input the clusters are the permuted clusters, ties in the sort key included |
| Correlate.ArrivalIndependentIff | src/ai_log_analyzer/correlate.py:608-621 | the partition never depends on the arrival order if and only if the same-device window is not negative or the hold window is |
| Correlate.GroupByKey | src/ai_log_analyzer/correlate.py:594-599 | every key's list holds the events carrying it, in arrival order, repeats included |
| Correlate.GroupByHost | src/ai_log_analyzer/correlate.py:608-610 | every device's list holds its events in arrival order |
| Correlate.JoinKeyChain | src/ai_log_analyzer/correlate.py:604-606 | one key chain adds its hops to both forests |
| Correlate.JoinHostChain | src/ai_log_analyzer/correlate.py:611-621 | one device chain adds to the full forest only the hops that `HostEdgeIff` reads off the events |
| Correlate.HostEdgeIff | src/ai_log_analyzer/correlate.py:608-621 | the same-device joins are exactly the pairs with no event of the device between them in (time, layer, content, arrival): the second no lower in the layers or within a second, and no later than the hold time from a tunnel to a session and the same-device time otherwise; both undated only with no lower a layer |
| Correlate.CorrelateEntities | src/ai_log_analyzer/correlate.py:556-625 | two events share a cluster exactly when the joins, told by the fields of the events alone, connect them, and an entity part exactly when the all-pairs relation does; a cause and the effect after it on its device share one, and two events alone share one only so or by a key |
| Correlate.ClustersMean | src/ai_log_analyzer/correlate.py:578-621 | the clusters are the components of: a shared key and at most the window apart or both undated, or cause and effect of one device |
| Correlate.TwoEventsIff | src/ai_log_analyzer/correlate.py:578-621 | two events alone are clustered if and only if one of these joins them |
| CorrelationPool.FirstAndLast | src/ai_log_analyzer/correlate.py:342-356 | keeps exactly the first and the last event of every key |
| CorrelationPool.CutTo | src/ai_log_analyzer/correlate.py:357-363 | keeps the given number of events and everything kept is more severe, or earlier and as severe, than everything cut |
| CorrelationPool.BoundTo | src/ai_log_analyzer/correlate.py:342-364 | kept, dropped and collapsed add up, nothing is cut without need, and the order is kept |
| CorrelationPool.CollapseKeepsEnds | src/ai_log_analyzer/correlate.py:389-404 | collapsing the buffer loses no first or last event of the whole history |
| CorrelationPool.CorrelationPool.Add | src/ai_log_analyzer/correlate.py:384-404 | over every run: added = buffered + collapsed + dropped, never more than twice the cap, arrival order kept, and the ends of every key kept while nothing was dropped |
| CorrelationPool.CorrelationPool.Shrink | src/ai_log_analyzer/correlate.py:389-404 | compaction brings the buffer to the room asked for and accounts for every event it removes |
| CorrelationPool.CorrelationPool.Events | src/ai_log_analyzer/correlate.py:406-412 | at most the cap is handed out, whenever compaction ran |
| LaterStorm.GapClusters | src/ai_log_analyzer/causal.py:254-266 | the loop computes the clusters below |
| LaterStorm.ClustersCutAtGaps | src/ai_log_analyzer/causal.py:254-266 | the clusters put together are the rows, with a cut exactly at the gaps of a minute or more |
| LaterStorm.SameCategoryLaterStorm | src/ai_log_analyzer/causal.py:288-359 | the loops compute the later storm of a leftover category |
| LaterStorm.SameCategoryIsStorm | src/ai_log_analyzer/causal.py:288-359 | such a storm shows a severe routing row, and one of a device without leftovers whenever a later cluster does |
| LaterStorm.LaterStormIncidents | src/ai_log_analyzer/causal.py:362-412 | the loops compute the chosen storm, and it is the later outage that the rows themselves tell |
| LaterStorm.ChosenIsLaterOutage | src/ai_log_analyzer/causal.py:362-412 | after incidents without a later routing storm: the last burst, cut at gaps of a minute, that a category new to the prefix opens, counted from the first row of a new category; the last eight rows if there is no such row |
| LaterStorm.LaterRoutingMeans | src/ai_log_analyzer/causal.py:288-359 | after routing incidents: behind the bursts that only go on with them, the burst of the first severe routing row of a new device, from its first row that is not of an old category and device, or without any the burst of the first severe routing row |
| LaterStorm.LaterOutageIsChosen | src/ai_log_analyzer/causal.py:362-412 | this determines it: a sequence of rows is the chosen storm if and only if it is the later outage |
| LaterStorm.ChosenStormIsSlice | src/ai_log_analyzer/causal.py:362-412 | through every branch the chosen storm is a non-empty contiguous slice of the overflowed incidents |
| Timeline.EarliestConfig | src/ai_log_analyzer/causal.py:415-436 | the loop finds the commit no eviction may touch |
| Timeline.ProtectedInWindow | src/ai_log_analyzer/causal.py:415-436 | that commit is the first of the sorted rows, and in the window as soon as any commit is |
| Timeline.EvictOldest | src/ai_log_analyzer/causal.py:492-512 | an eviction loop drops exactly the first rows of its kind, as many as asked or as there are |
| Timeline.EvictNewest | src/ai_log_analyzer/causal.py:573-580 | the same from the newest end, through the double reversal |
| Timeline.MakeRoomExact | src/ai_log_analyzer/causal.py:484-512 | the two eviction loops make exactly the room the storm needs |
| Timeline.PullLaterStorm | src/ai_log_analyzer/causal.py:464-519 | the first stage as a whole |
| Timeline.FirstStageExact | src/ai_log_analyzer/causal.py:464-519 | exactly the head of the storm enters the window, nothing else does, and the earliest commit stays |
| Timeline.PinAfterStormKeeps | src/ai_log_analyzer/causal.py:537-567 | swapping in late commits after a storm keeps the size, the order, every pulled storm row and the protected commit |
| Timeline.PinPlainKeeps | src/ai_log_analyzer/causal.py:568-583 | swapping them in for the newest incidents keeps the size, the order and every commit shown |
| Timeline.SelectDisplay | src/ai_log_analyzer/causal.py:439-583 | for every cap: exactly min(cap, rows) distinct rows of the input in chronological order |
| Timeline.EarliestCommitShown | src/ai_log_analyzer/causal.py:439-583 | with a cap above eight the earliest commit is shown through every evict, pull and pin branch |
| Timeline.StormShown | src/ai_log_analyzer/causal.py:480-567 | the first eight rows of the storm, or all of it, reach the final timeline, late-commit pinning included |
| Timeline.CommitAlwaysShownIff | src/ai_log_analyzer/causal.py:439-583 | a cap protects the earliest commit of every input if and only if it exceeds eight |
| Timeline.SelectTimelineRows | src/ai_log_analyzer/causal.py:439-583 | the whole selection from unsorted events, with all of the above |
| TimelineOrder.RowsMean | src/ai_log_analyzer/causal.py:449-454 | what is selected from: critical, high and medium events and all commits, by time, unread stamps last, then by host |
| TimelineOrder.StormOrderHolds | src/ai_log_analyzer/causal.py:464-567 | with a storm to pull in: the oldest rows of the window leave, commits before incidents and never the earliest one; exactly the first eight storm rows enter, or as many as fit beside a commit; of the late commits the oldest enter, four at most, and fewer only when no other commit is left to give way |
| TimelineOrder.PlainOrderHolds | src/ai_log_analyzer/causal.py:568-583 | without one: every commit of the window stays, the newest incidents leave, and as many of the oldest late commits enter, four at most, as leaves one incident |
| YearInference.Restamp | src/ai_log_analyzer/causal.py:190-210 | the nearest of the three years tried is the one the two months alone decide, and for any other pair of months the anchor's own; nothing but the year changes, except that a leap day becomes the 28th in a common year |
| YearInference.RolloverLandsNear | src/ai_log_analyzer/causal.py:190-210 | a stamp across new year lands within 121 days of its anchor |
| YearInference.LateBeforeEarlyIff | src/ai_log_analyzer/causal.py:190-210 | every November or December stamp precedes every January or February stamp if and only if the anchor lies in those four months |
| Aggregate.NewestHeap.PushNewest | src/ai_log_analyzer/analyzer.py:747-751 | after any pushes the heap holds the newest entries of all pushed, in order, up to its cap |
| Aggregate.HostPins.PinEarliest | src/ai_log_analyzer/analyzer.py:754-764 | after any pins every device's slot holds its earliest commit |
| Aggregate.MergeReserve | src/ai_log_analyzer/analyzer.py:767-777 | the reserve has exactly the newest commits and the pinned ones, each once, in change-window order |
| Aggregate.BucketsSortFully | src/ai_log_analyzer/analyzer.py:859-865 | the sorted severity buckets one after the other are the whole stream sorted by severity, newest first, then arrival |
| Aggregate.HeapsGiveTop | src/ai_log_analyzer/analyzer.py:859-865 | collecting the bounded heaps until there is enough gives the head of that sort |
| Aggregate.ChangeWindow | src/ai_log_analyzer/causal.py:702-729 | the detected flag and the devices in the order of their first commit |
| Aggregate.SameChangeWindow | src/ai_log_analyzer/causal.py:702-729 | any part of a stream that keeps an earliest commit of every device has the change window of the stream |
| Aggregate.ReserveKeepsEarliest | src/ai_log_analyzer/analyzer.py:780-789 | the capped events plus the reserve are such a part |
| Aggregate.ClassifyOrderIff | src/ai_log_analyzer/classifier.py:868-898 | the pass reproduces the order of `classify_events` if and only if, within one severity, a later arrival is newer by the normalized stamp or its text exactly when it is newer by the instant the heaps use |
| Aggregate.OneClockOrderIff | src/ai_log_analyzer/classifier.py:868-898 | when both readings mean the same instant, that is: no event arrives later in the same second but newer, and undated events arrive with their texts descending |
| Aggregate.FractionsReorder | src/ai_log_analyzer/analyzer.py:833-865 | two dated events of one second that come out in opposite orders |
| Aggregate.ClassifySortMeans | src/ai_log_analyzer/classifier.py:868-898 | the order of `classify_events`, field by field: severity, normalized stamps newest first, then the rest by text, then arrival |
| Aggregate.AggregateStream | src/ai_log_analyzer/analyzer.py:800-865 | in one bounded pass: the i-th event has exactly i sooner ones, by severity, stamp and arrival; behind these, each once and oldest first, exactly the fifty newest commits and the earliest one of every device that are missing; and so the device list and flag of the whole stream's change window |
| Aggregate.HeapIsRecent | src/ai_log_analyzer/analyzer.py:847-851 | the reserve heap holds exactly the commits that fewer than fifty others precede by a newer stamp or the same one and an earlier arrival |
| Aggregate.PinIsEarliest | src/ai_log_analyzer/analyzer.py:754-764 | the pins are exactly the commits that no other one of their device precedes by an earlier stamp or the same one and an earlier arrival |
| Aggregate.FullSortIsTop | src/ai_log_analyzer/analyzer.py:859-865 | the i-th event of the full sort is the one with exactly i sooner ones |
| EvpnCausal.BuildAdjacency | src/ai_log_analyzer/evpn_causal.py:425-441 | the engine's map is symmetric and loop-free and has exactly the given links |
| EvpnCausal.RootsAreKernel | src/ai_log_analyzer/evpn_causal.py:534-600 | the roots explain everything else and none of them explains another |
| EvpnCausal.KernelIsUnique | src/ai_log_analyzer/evpn_causal.py:534-600 | no other set does |
| EvpnCausal.ClaimSymptoms | src/ai_log_analyzer/evpn_causal.py:562-590 | the inner loop takes each explained, unclaimed line once, in order, and claims exactly the ids it explains |
| EvpnCausal.FindRoots | src/ai_log_analyzer/evpn_causal.py:552-618 | one hypothesis for every root and no other, each with exactly the symptoms whose earliest explaining root it is |
| EvpnCausal.Analyze | src/ai_log_analyzer/evpn_causal.py:534-626 | the same for the sorted known events; in the fields of the events: reported is exactly what no earlier reported root may cause, every other line is listed, symptoms follow a root that may cause them and no earlier one may, and the hypotheses are scored and ranked |
| EvpnCausal.OrderMeans | src/ai_log_analyzer/evpn_causal.py:537-548 | what is analysed: the events of a known layer, each as often as given, by time and within an instant from the lowest layer up |
| EvpnCausal.ExplainsMeans | src/ai_log_analyzer/evpn_causal.py:565-588 | a root may cause a later event within the window in a higher layer, or in its own on a linked device within five seconds, on the same or a linked device or, from layer 4 up, two links away |
| EvpnCausal.SymptomsMean | src/ai_log_analyzer/evpn_causal.py:560-590 | every symptom follows its root, which may cause it, and no earlier reported root may |
| EvpnCausal.RootsMean | src/ai_log_analyzer/evpn_causal.py:552-590 | an event is reported as a root if and only if no earlier reported root may cause it |
| EvpnCausal.ScoresMean | src/ai_log_analyzer/evpn_causal.py:592-626 | the confidence by layer, number of symptoms and overlay symptoms, and the ranking by it, by symptoms and by the earlier root |
| EvpnCausal.ReportedRootsAreTheKernel | src/ai_log_analyzer/evpn_causal.py:534-626 | a set is a kernel of the forward relation if and only if it is the set of reported roots |
| EvpnCausal.EveryEventIsPlaced | src/ai_log_analyzer/evpn_causal.py:534-626 | every other event is mentioned by the hypothesis of the earliest root explaining it, and no event is listed by two hypotheses |
| ChunkWindows.Windows | src/ai_log_analyzer/rag.py:192-201 | up to sixty lines are left whole; of a longer chunk the k-th window has the lines 40 k up to 40 k + 40, under their own numbers |
| SetStyle.SetChunks | src/ai_log_analyzer/rag.py:259-278 | all statements, each once, in order, under their own numbers; every chunk is short, on one path and without holes, and ends only where the run does or a window is full |
| IndentStyle.IndentChunks | src/ai_log_analyzer/rag.py:281-332 | all kept lines, each once, in order, under their own numbers; every chunk is a window of a stanza or of a run of single lines with one first word, cut nowhere else |
| BraceTree.ParseStanzas | src/ai_log_analyzer/rag.py:215-230 | the stack loop, closing what is open at the end |
| BraceTree.StanzasFit | src/ai_log_analyzer/rag.py:215-230 | balanced or not, stanzas lie in order inside their parents without overlap, statements beside them |
| BraceTree.StanzasHoldLeaves | src/ai_log_analyzer/rag.py:215-230 | the tree holds exactly the statement lines at nesting depth one or more |
| BraceTree.OutsideIsBeside | src/ai_log_analyzer/rag.py:215-230 | a statement at depth zero lies beside every top-level stanza |
| BraceSpans.StanzasSpan | src/ai_log_analyzer/rag.py:215-230 | told by counting braces: the top-level stanzas are exactly those that open at depth zero, each from its head line to the closing line that brings the depth back or else to the end of the file, and inside, level by level, exactly the stanzas and statements of that depth |
| StanzaChunks.SplitRuns | src/ai_log_analyzer/rag.py:242-251 | the statements of a split stanza fall into exactly their longest runs of consecutive lines |
| StanzaChunks.Emit | src/ai_log_analyzer/rag.py:237-253 | exactly the pieces of the stanza, recursing while it is too large, no two sharing a line |
| StanzaChunks.HeldIsEmitted | src/ai_log_analyzer/rag.py:237-253 | every statement of a stanza is in one of its pieces |
| StanzaChunks.EmittedIff | src/ai_log_analyzer/rag.py:237-253 | a piece has its place at the end of a way down through split stanzas, those with kids and more than fifteen lines at the top or sixty below: the last stanza whole if it is not split itself, else a run of its statements, under all the heads on the way |
| BraceStyle.CurlyChunks | src/ai_log_analyzer/rag.py:207-256 | ordered, disjoint chunks of at most sixty lines, each carrying exactly its source lines under the heading of its place in the tree: a piece whole, or forty lines of one that is too long; a statement is in one of them if and only if it is inside a top-level stanza, and every piece of the tree is covered |
| BraceStyle.PlacesSpan | src/ai_log_analyzer/rag.py:215-253 | the stanza at step i of such a way down is one that opens at depth i |
| LeastRecent.MovedIsRecency | src/ai_log_analyzer/entity_state.py:144-145 | moving a used key to the end keeps the map the most recently used keys in order of last use |
| LeastRecent.InsertedIsRecency | src/ai_log_analyzer/entity_state.py:137-143 | so does appending a new key and evicting the oldest one of a full map |
| EntityTracker.Tracker.Add | src/ai_log_analyzer/entity_state.py:129-149 | after any stream the tracker's whole state is what the accepted history says |
| EntityTracker.TrackerRemembers | src/ai_log_analyzer/entity_state.py:129-149 | that is: the cap most recently updated entities, oldest first, each with at most the newest transitions since its last insertion, and dropped + tracked = insertions |
| EntityState.WindowsDecideCrowding | src/ai_log_analyzer/entity_state.py:226-230 | some window over the sorted times fits if and only if that many of the times lie that close together |
| EntityState.IsFlapping | src/ai_log_analyzer/entity_state.py:220-230 | true if and only if there are enough down edges and a stamp is missing or enough of them fit in the window |
| EntityState.EdgesAlternate | src/ai_log_analyzer/entity_state.py:188-200 | down and up edges differ by what the first and last state say, so by one at most |
| EntityState.EdgesEnter | src/ai_log_analyzer/entity_state.py:189-200 | the edges into a state are the times of exactly the transitions that enter it, in order |
| EntityState.AllKnown | src/ai_log_analyzer/entity_state.py:220-226 | with no stamp missing the times tested are those of all down edges |
| EntityState.InOrderKeeps | src/ai_log_analyzer/entity_state.py:173-181 | the same transitions by time and then arrival, and by arrival alone as soon as one time is missing |
| EntityState.Collapse | src/ai_log_analyzer/entity_state.py:183-200 | repeated states collapse to the edges between different ones |
| EntityState.LastEdgeStarts | src/ai_log_analyzer/entity_state.py:189-193 | the last change is the transition that began the current state: everything after it is in that state and the one before it is not |
| EntityState.OutageIsLastPair | src/ai_log_analyzer/entity_state.py:195-200 | with every time known the outage is the time of the last up edge less that of the down edge it ended, and there is one exactly when some down edge was ended |
| EntityState.OutageNotNegative | src/ai_log_analyzer/entity_state.py:177-200 | in chronological order no outage is negative |
| EntityState.StateFor | src/ai_log_analyzer/entity_state.py:172-218 | counts, the state of the last transition in order, first down, last change, outage and which of the four statuses holds; with every time known a recovered entity has an outage |
| EntityState.TrackedToggles | src/ai_log_analyzer/entity_state.py:129-149 | whatever the stream, a tracked entity's transitions are only downs and ups |
| TemplateMiner.Miner.FindBest | src/ai_log_analyzer/patterns.py:142-150 | the oldest cluster of the line's group among the most similar ones, if any is similar at all |
| TemplateMiner.SimilarityMeans | src/ai_log_analyzer/patterns.py:65-70 | similarity times length is the number of positions with the same token or a wildcard on either side |
| TemplateMiner.CandidateMeans | src/ai_log_analyzer/patterns.py:134-147 | the templates compared are the live ones of as many tokens whose first one is the line's, or a mask like it |
| TemplateMiner.Miner.EvictIfNeeded | src/ai_log_analyzer/patterns.py:178-183 | the oldest clusters go, out of their group lists too, until the cap holds |
| TemplateMiner.Miner.Add | src/ai_log_analyzer/patterns.py:129-176 | a line joins the live template of its group that it fits in the most positions, the oldest of these, exactly when that is a large enough part of the line, and otherwise founds the next cluster; every invariant below is kept |
| TemplateMiner.RepeatIsNear | src/ai_log_analyzer/patterns.py:142-157 | a line that fits a live template at every position founds no cluster, for any threshold up to one |
| TemplateMiner.LinesAreConserved | src/ai_log_analyzer/patterns.py:163-176 | lines fed = lines in live counts + lines of evicted clusters |
| TemplateMiner.LiveAreMostRecent | src/ai_log_analyzer/patterns.py:174-183 | the live clusters are the most recently used ones, at most the cap |
| TemplateMiner.LiveInOneGroup | src/ai_log_analyzer/patterns.py:163-183 | group lists and clusters index each other exactly, each live id once and in one list |
| TemplateMiner.TemplateIsExact | src/ai_log_analyzer/patterns.py:152-157 | a live template shows a token exactly where all lines of the cluster have it, and a wildcard elsewhere |

## Left out

- Regular expressions: parsing pattern text, atomic groups, possessive repeats, backreferences and case folding beyond ASCII; the rule table is an arbitrary list of parse trees.
- GapBound.GapRewriteAgrees: a repeat is printed around a group or a dot; lazy gaps, inline comments and verbose-mode patterns are not printed.
- RuleGate.Gate.GatedCandidates: the cache key is the set of literals present instead of their sorted tuple.
- Custom rules added at run time, and everything `iter_classify` does with a verdict once a rule matched.
- Incidents, evidence, confidence labels and summaries built from the clusters; which attributes of an event become join keys.
- Aggregate.NewestHeap.PushNewest: the heap is a list kept best first instead of the array layout of `heapq`.
- Aggregate.AggregateStream: severity and category counters, action groups and per-device tallies of the same loop; how a stamp becomes an instant and a normalized second, so a stream with stamps that need a year is not covered.
- EvpnCausal.Analyze: two events with one id are taken to be repeats of one line (an id is a digest of stamp, device and text); interfaces, VNIs, rationale texts and the affected-device sets are not carried.
- YearInference.Restamp: the first and the last year of Python's calendar, where a neighbouring year does not exist; parsing of stamps and time zones.
- BraceTree.ParseStanzas: a stanza becomes a kid of its parent when it is popped instead of when it is pushed, which gives the same tree; the nodes are values, so the aliasing of stack and tree is not modelled.
- StanzaChunks.Emit: pieces are windowed after the recursion instead of inside it.
- White space in config lines is ASCII white space; choosing the config style and BM25 retrieval are not modelled.
- TemplateMiner.Miner.Add: starts from the masked and split line; sanitising, masking, host sets, samples and severity hints are not carried, and similarities are exact fractions instead of floats.
- EntityTracker.Tracker.Add, TemplateMiner.Miner.Add, Aggregate.AggregateStream: a cap of zero, with which the original raises an error on the first insertion; EntityState.IsFlapping: a threshold below one.
- Timeline.SelectTimelineRows: a negative cap, which Python would read as counting from the end.
- Health scores, flap penalties, storage, networking, prompts and reports.
