# A verified model of the fleet cloud's algorithms and protocols

This project models, in Dafny 4.11, the parts of a robot-fleet cloud backend in which something can go wrong that no
single function shows: tables that many workers change, sagas that are interrupted, sweeps that must agree with a
pointwise rule, statistics that must add up. To verify all of it:

    dafny verify dfyconfig.toml

| file | what it models |
|---|---|
| `LinkComponents.dfy` | union-find with path halving over the chart graph, connected components, islands |
| `Idempotency.dfy` | the Idempotency-Key table as a transition system of claims, lookups, completes, releases and purges; the digest's framing |
| `RecordingLevels.dfy` | the recording-level history: layers, the breakpoint sweep, the gaps it reports |
| `Pagination.dfy`, `Cursor.dfy` | keyset pages over a changing table; the cursor's base64url and JSON text |
| `Intervals.dfy`, `Overlap.dfy`, `Pauses.dfy` | merging intervals, the operating-hours sweep, interpolation as an overlap measure, recovery seconds, pause logs |
| `CellKeys.dfy`, `DriveTiles.dfy` | packed cell and pair keys; chunked rasterisation of movements with two levels of grouping |
| `MapDelete.dfy` | the map-delete saga: locks, passes, counted and free failures, backoff, deadline, events |
| `SlamSave.dfy` | the SLAM save state across awaits and restarts; the save request and polling loops |
| `Caches.dfy` | the snapshot cache; the single-flight result cache and its concurrent calls |
| `DepthRebuild.dfy` | the rebuild from depth: what a run writes, and its concurrent jobs |
| `EventClasses.dfy` | the first-match rule table compiled to SQL; counting episodes |
| `LegacyNodes.dfy` | the legacy-node migration over two stores, its crash recovery and its revert |
| `Backlog.dfy` | the wait for a robot's upload backlog |
| `RenderEnv.dfy`, `RenderOrder.dfy` | the env-file parser and printer, rendering and `--check`; when a second render gives the same text |
| `Common.dfy` | options, Python's stable sort, the order of strings |

Code that changes things step by step is modelled as classes and methods with loops, each proved against a specification
that does not mention its body. A protocol of several workers is a state machine whose steps are the atomic statements, or
what runs between two awaits, and its theorems are over every run. What a store, a lock, a robot or a clock answers is
arbitrary: a parameter (an oracle of answers) or an unconstrained choice. Python's sort is a proved stable sort; seconds
and metres are reals; instants are integers or reals.

## Where the code does not do what one would expect

- **Two runners of one key.** Mutual exclusion of NEW claims holds when every runner finishes within its lease. Past the
  lease it does not, and because COMPLETE and RELEASE match on the hash only, the late runner's response is stored in the
  other's row (`LateRunnerCompletesForeignRow`); `SecondRunnerOnlyPastLease` says exactly when a second runner is let in.
- **Class filters.** `_class_sql` keeps the first-match meaning if and only if no rule is shadowed by a rule of another
  class (`CompiledIffConsistent`): a duplicate typed rule would count twice. The shipped table has none.
- **The run's level.** Without override the run's level lasts to the first break, even if that break changes nothing that
  is in effect. Segments are half open: the instant `end` itself belongs to none.
- **A busy scene lock.** With a zero lock timeout and a zero backoff, waiting costs no time, the deadline never comes and
  the round would not end (`DeadlineReachedIff`).
- **Overlapping saves.** Only the save scheduled last counts as pending. If it is over while an older one is not, a start
  is let in beside the older one (`StartPastOlderSaveIff`, `OvertakenSaveLetsStartIn`).
- **A recording is forgotten** by an API start that finds no row or cannot read the store, or by the end of a save that was
  scheduled before it: `run()` of that save clears the robot's state, whichever recording it is by then
  (`OlderSaveForgets`). Exactly then (`StaysTrackedIff`).
- **`save_slam`'s documentation** says that the intent from before the start is put back; the code only drops the stored
  intent after a save, and the save path sends save requests and reads, no mode change.
- **`discard_map`** does not stop a computation of the map that is under way; its result is kept and served afterwards
  (`DiscardedResultIsServed`), and no other older one (`OlderThanDiscardIff`).
- **Recovery seconds** balance for every set of intervals if and only if the movements do not overlap
  (`BalanceIffDisjoint`); `track_segments` guarantees that.
- **A stopped rebuild** ends its job as cancelled while the thread of one node may still run and count it
  (`TerminalForever`).
- **The migration's documentation** says that a second run changes nothing. That is so exactly under the condition of
  `SecondRunIdleIff`: without a datum of the legacy session's own, the first run replaces the map's datum that the second
  run then reads, and the second run overwrites the stored transform. It also says that a map without a legacy session is
  not changed, but its node and edge counts are set (`WithoutLegacyOnlyCounts`).
- **Revert** leaves a field that the migration added to a pose without it, and drops a session id that a node had
  (`RevertRestoresIff`).
- **`cap`** is documented as reached only by a drain that keeps making progress. At one look both limits can have passed,
  and then the ceiling is reported (`CapHidesAStall`); `CapHidesStallIff` says for which look times.
- **A second render** gives the same text unless a secret is called IMAGE_TAG, nothing had set it before, and a new secret
  precedes it (`RenderStableIff`); the examples of secrets list no such key. `--check` reports nothing in any case.

## Model

| member | source | states |
|---|---|---|
| `UnionFind.ClimbEndsAtRoot` | tools/scene_graph_check_generation.py:34-38 | in a forest, following parents ends, at the recorded root, which is its own parent |
| `UnionFind.HalvingKeepsForest` | tools/scene_graph_check_generation.py:36 | one path-halving write keeps the forest acyclic and leaves every element's root what it was |
| `UnionFind.UnionKeepsForest` | tools/scene_graph_check_generation.py:41 | hanging one root under another redirects exactly the members of its tree and keeps the forest |
| `UnionFind.Forest.Find` | tools/scene_graph_check_generation.py:34-38 | `find` terminates, returns the root, and its halving changes no element's root |
| `UnionFind.Forest.Union` | tools/scene_graph_check_generation.py:41 | `par[find(a)] = find(b)`: exactly the two trees become one, all other roots stay |
| `LinkComponents.RepresentsUnion` | tools/scene_graph_check_generation.py:39-41 | if roots represent the paths of the links so far, they do after one more link |
| `LinkComponents.RepresentsSkip` | tools/scene_graph_check_generation.py:40 | a link with an end that is no chart joins nothing |
| `LinkComponents.SameRootMeansJoined` | tools/scene_graph_check_generation.py:39-41 | everything one union puts together is joined by a path through the new link |
| `LinkComponents.JoinAll` | tools/scene_graph_check_generation.py:32-41 | after the link loop two charts share a root if and only if a path of links joins them |
| `LinkComponents.GroupByRoot` | tools/scene_graph_check_generation.py:42-44 | the group dictionary holds each root's charts, each chart once |
| `LinkComponents.ListedClassesAreComponents` | tools/scene_graph_check_generation.py:42-45 | sorting the groups loses and repeats none: a partition, largest first, ties by first key, each sorted |
| `LinkComponents.Components` | tools/scene_graph_check_generation.py:28-45 | for every list of charts and every list of links: the groups partition the keys (a repeated key as often as it is given), two charts share a group if and only if a path joins them, groups and members are in the promised order |
| `LinkComponents.ComponentsUnique` | tools/scene_graph_check_generation.py:42-45 | that determines the answer, order included: two lists of groups with these properties are equal |
| `LinkComponents.OrderedMeans` | tools/scene_graph_check_generation.py:45 | the order spelled out: larger groups first, among equal sizes the smaller first name, names ascending within a group |
| `StringOrder.StringLeMeans` | tools/scene_graph_check_generation.py:45 | of two names a prefix comes first, otherwise the first character that differs decides |
| `LinkComponents.Islands` | tools/scene_graph_check_generation.py:48-54 | exactly the charts that no path joins to the first component, in chart order |
| `IdempotencyProtocol.CompletedRowKept` | packages/api/idempotency.py:72-89 | no step of any request or purge changes a completed row younger than the TTL |
| `IdempotencyProtocol.ClaimIsNewIff` | packages/api/idempotency.py:72-80 | a claim is NEW if and only if there is no row, or it is older than the TTL, or it has the same hash, no response and is older than the route's lease; then the row is the request's as of now and no other changes |
| `IdempotencyProtocol.LookupAnswers` | packages/api/idempotency.py:138-147 | a lookup answers MISMATCH if and only if the row has another hash, IN_PROGRESS without a response, REPLAY with it, and a vanished row is claimed once more |
| `IdempotencyProtocol.CompleteWrites` | packages/api/idempotency.py:83-86 | COMPLETE writes its response into a row with its hash and no response, whosever it is, and nothing else |
| `IdempotencyProtocol.PurgeRemovesIff` | packages/api/idempotency.py:89 | PURGE removes exactly the rows older than the TTL |
| `IdempotencyProtocol.StoredResponseIsStable` | packages/api/idempotency.py:72-89 | over every run, without any lease assumption, a stored (hash, status, body) stays until it is older than the TTL |
| `IdempotencyProtocol.StoredMeansNoRerun` | packages/api/idempotency.py:72-89 | while a response is stored and young no claim of its key is answered NEW |
| `IdempotencyProtocol.OtherHashesChangeNothing` | packages/api/idempotency.py:72-89 | a step of a request with another hash never changes a row younger than the TTL |
| `IdempotencyProtocol.ReplaysAreOwnResponses` | packages/api/idempotency.py:130-147 | over every run each REPLAY gives a response that a request with the same key and hash had stored |
| `IdempotencyProtocol.ExclusiveStep` | packages/api/idempotency.py:72-89 | every step of every interleaving keeps the exclusion invariant while leases are respected |
| `IdempotencyProtocol.AtMostOneRunner` | packages/api/idempotency.py:127-159 | if runners finish within their lease and leases are within the TTL: in every interleaving at most one NEW claim of a (key, actor, route) is outstanding, and its own row is there, with its hash and no response |
| `IdempotencyProtocol.CompletedIsReplayed` | packages/api/idempotency.py:130-152 | under the same hypothesis a runner's COMPLETE stores its response in its own row, and after every continuation in which that is younger than the TTL a lookup of the request replays it |
| `IdempotencyProtocol.ReleaseFreesKey` | packages/api/idempotency.py:87-88 | after a request that gave up released, its row is gone, no other row changed, and the next claim of the key is NEW for any request with any hash; a response stored all the same stays |
| `IdempotencyProtocol.SecondRunnerOnlyPastLease` | packages/api/idempotency.py:72-80 | a claim beside a live runner is NEW if and only if the runner outlived the TTL, or its lease and the hash is the same |
| `IdempotencyProtocol.LateRunnerCompletesForeignRow` | packages/api/idempotency.py:83-88 | a concrete run past the lease: two runners at once, and the late one's response lands in the other's row, since COMPLETE matches on the hash only |
| `RequestFraming.BigEndianRoundTrip` | packages/api/idempotency.py:171 | the 8-byte length determines the length |
| `RequestFraming.FrameInjective` | packages/api/idempotency.py:162-173 | the length-prefixed digest input determines method, path, query and body |
| `LevelHistory.Layer.At` | packages/api/fleet_reads.py:678-692 | the layer's value: the latest change at or before t, else the old value of the next one, else the current value: a definition that does not sort |
| `LevelHistory.ScopeMeans` | packages/api/fleet_reads.py:678-692 | on the list of changes itself: the new value of the latest change of the scope at or before t, else the old value of the next one, else the current value, ties by list order |
| `LevelHistory.SiteMeans` | packages/api/fleet_reads.py:708-712 | the site of the first assignment in force at t, none if there is none |
| `LevelHistory.ResolutionMeans` | packages/api/fleet_reads.py:695-702 | the robot's value wins if it is one of the four level texts, then the site's, then the global one, and events_only by default exactly when none is |
| `LevelHistory.EffectSteady` | packages/api/fleet_reads.py:695-740 | between two neighbouring breaks the robot / site / global / default resolution is constant |
| `LevelSegments.Points` | packages/api/fleet_reads.py:737-741 | the stops: the start and every break strictly inside the window |
| `LevelSegments.Evaluate` | packages/api/fleet_reads.py:731-735 | the loop's evaluation is the pointwise layered resolution |
| `LevelSegments.Segments` | packages/api/fleet_reads.py:715-755 | the segments tile [start, end] without gaps, neighbours differ, each instant's segment shows the pointwise resolution, the run's level on the first stretch, or everywhere with override |
| `LevelSegments.ShownMeans` | packages/api/fleet_reads.py:743-748 | what each instant's segment shows: the level the run names where it applies, with the resolved level beside it if that differs; otherwise the resolution of the three layers |
| `LevelSegments.MissingMeans` | packages/api/fleet_reads.py:96-101 | the time series is missing below full, the track below track, events only when off |
| `LevelSegments.TilesCover` | packages/api/fleet_reads.py:742-755 | every instant of [start, end) is in a segment of a tiling |
| `LevelSegments.SegmentsUnique` | packages/api/fleet_reads.py:742-755 | two tilings with differing neighbours that show the same at every instant are equal: the segments are determined by the resolution |
| `LevelSegments.NotRecorded` | packages/api/fleet_reads.py:758-771 | the gaps cover an instant with a level if and only if a segment does and that level misses a data kind; neighbours that touch differ |
| `LevelSegments.NotRecordedIn` | packages/api/fleet_reads.py:96-101 | of a history: an instant is in a gap if and only if the level shown there misses some data kind, and the gap names that level |
| `Pagination.QueryGivesPage` | packages/api/fleet_reads.py:272-277 | a page over limit + 1 rows holds exactly the rows between its cursor and the next one |
| `Pagination.WalkDescends` | packages/api/fleet_reads.py:342-352 | the rows collected by following next_cursor are strictly descending across pages, by time and among equal times by id: none comes twice, whatever changes between pages |
| `Pagination.WindowOf` | packages/api/fleet_reads.py:272-277 | every key falls into the window of exactly one page of a walk |
| `Pagination.WalkReturns` | packages/api/fleet_reads.py:385-395 | a row is returned if and only if it was there while the page covering its key was read; so every row that matched throughout the walk is |
| `Pagination.WalkEnds` | packages/api/fleet_reads.py:272-277 | a walk has at most one page more than full pages fit into the rows that ever existed |
| `Base64Url.DecodeEncode` | packages/api/fleet_reads.py:183-186 | base64url decoding undoes encoding on every byte string (section 5 of RFC 4648) |
| `Base64Url.EncodeShape` | packages/api/fleet_reads.py:185 | an encoding is digits and at most two padding signs, a multiple of four in all |
| `Base64Url.RepadStrip` | packages/api/fleet_reads.py:185-193 | putting back the padding that was stripped restores the encoding |
| `Base64Url.TokenRoundTrip` | packages/api/fleet_reads.py:183-193 | decoding a token without padding gives back the bytes |
| `Cursor.ArrayRoundTrip` | packages/api/fleet_reads.py:184-195 | the JSON array of three strings reads back as those strings |
| `Cursor.CursorRoundTrip` | packages/api/fleet_reads.py:183-202 | decode_cursor undoes encode_cursor for the same list, and refuses the cursor of another list |
| `Intervals.MergedSpec` | packages/api/mapping_stats.py:50-59 | merging any list gives the normal form (sorted, disjoint, not touching, not empty) with the same instants |
| `Intervals.NormalFormUnique` | packages/api/mapping_stats.py:50-59 | a union of intervals has one normal form, so its total length belongs to the instants alone |
| `Intervals.MergeIntervals` | packages/api/mapping_stats.py:50-59 | the in-place merge computes that normal form |
| `Intervals.CreditsSortedAreTotal` | packages/api/map_series.py:122-132 | in the query's order, the credits against the running maximum end sum to the length of the union |
| `Intervals.CreditsAreMergedTotal` | packages/api/map_series.py:122-132 | for every list of runs the hours sweep sums to the total that merge_intervals gives |
| `Pauses.PauseAutomaton` | packages/api/mapping_stats.py:66-73 | the open/close loop over the sorted log covers an instant if and only if the latest event at or before it is a pause |
| `Pauses.PausedMeans` | packages/api/mapping_stats.py:68-73 | on the log itself: paused at t if and only if the latest pause or resume at or before t, the last listed among equal times, is a pause |
| `Pauses.PauseIntervals` | packages/api/mapping_stats.py:62-79 | an instant is in a returned interval if and only if it is in the session and the latest event at or before it is a pause, or the extra paused_at applies and has begun |
| `Pauses.SessionTimes` | packages/api/mapping_stats.py:82-91 | for every log: paused is the length of those intervals, both parts are nonnegative, and active + paused = wall |
| `Overlap.InterpIsCumulative` | packages/api/drive_stats.py:122-127 | interpolating between interval ends is the covered time before x, exactly, for every x |
| `Overlap.DifferenceIsInside` | packages/api/drive_stats.py:127 | the difference of two values is the length of [t0, t1] inside the intervals |
| `Overlap.OverlapExact` | packages/api/mapping_stats.py:146-158 | the computed overlap is that length and the clip changes nothing |
| `Overlap.CumulativeGrowth` | packages/api/drive_stats.py:128 | disjoint intervals cover no more of a stretch than its length |
| `Recovery.TrackIsChronological` | packages/api/drive_stats.py:80-98 | movements cut from a track sorted by run and time follow each other without overlap within a run |
| `Recovery.TrackMeans` | packages/api/drive_stats.py:88-98 | the movements are exactly the pairs of neighbouring rows of one run and group with 0 < dt <= max_gap and distance <= max_speed * dt, in their order |
| `Recovery.ChronologicalIsDisjoint` | packages/api/drive_stats.py:80-98 | so they are disjoint |
| `Recovery.AttributedWithinTotal` | packages/api/drive_stats.py:101-130 | movements that do not overlap, listed in any order, are attributed no more than the merged total |
| `Recovery.RecoveryOverlap` | packages/api/drive_stats.py:101-130 | every movement gets its exact time inside its run's intervals; attributed plus unattributed is the merged total for all movements that do not overlap, in any order |
| `Recovery.OverlapCountsTwice` | packages/api/drive_stats.py:126-130 | for every two movements of a run that overlap there is an interval, the stretch they share, whose seconds are given out more than once |
| `Recovery.BalanceIffDisjoint` | packages/api/drive_stats.py:101-130 | attributed plus unattributed is the merged total for all intervals if and only if the movements do not overlap |
| `CellKeys.KeyRoundTrip` | packages/api/drive_stats.py:61-66 | on integers, with 64-bit wrap-around, shift and bitwise or: key_cells undoes cell_key if and only if -3 * 2^30 <= ix < 2^30 and -2^30 <= iy < 3 * 2^30 |
| `CellKeys.KeyInjective` | packages/api/drive_stats.py:61-62 | within that range no two cells share a key |
| `CellKeys.OrSplit` | packages/api/drive_stats.py:62 | the bitwise or works on the high and the low bits separately |
| `CellKeys.PairRoundTrip` | packages/api/drive_stats.py:170-172 | index * n_runs + run unpacks to both while run < n_runs |
| `DriveTiles.Nsub` | packages/api/drive_stats.py:154 | the fewest samples, at least 1 and at most 4000, of which none covers more than a quarter of a cell unless capped |
| `DriveTiles.SampleOnTheWay` | packages/api/drive_stats.py:158-162 | the k-th of n samples lies in a cell that contains the movement's point at some fraction between k/n and (k+1)/n |
| `DriveTiles.TilesWherePassed` | packages/api/drive_stats.py:150-194 | a tile is there only for a cell that some movement passes through |
| `DriveTiles.SamplesCarryAll` | packages/api/drive_stats.py:163-168 | the shares of a movement's samples sum to its length, time, recovery and stopped seconds |
| `DriveTiles.GroupConcat` | packages/api/drive_stats.py:186-189 | grouping per chunk and then over the chunks is grouping once |
| `DriveTiles.GroupKeepsTotal` | packages/api/drive_stats.py:163-168 | grouping by cell keeps the totals |
| `DriveTiles.TilesConserve` | packages/api/drive_stats.py:133-194 | length, time, recovery and stopped seconds of the tiles are those of the movements |
| `DriveTiles.CountIsDistinctRuns` | packages/api/drive_stats.py:190-193 | a tile's n is the number of distinct runs sampled in its cell |
| `DriveTiles.CountsAdd` | packages/api/drive_stats.py:175-180 | over disjoint runs the run counts of merged accumulators add up |
| `DriveTiles.PackingLosesNothing` | packages/api/drive_stats.py:170-173 | packing the (cell index, run) pairs of a chunk and unpacking them gives back exactly the pairs |
| `DriveTiles.CodesOfCell` | packages/api/drive_stats.py:190-193 | counting the codes by code // n_runs counts each cell's pairs |
| `DriveTiles.CountedRuns` | packages/api/drive_stats.py:190-193 | so the counts are the numbers of distinct runs per cell |
| `DriveTiles.TileIsOneCell` | packages/api/drive_stats.py:162-193 | while all sampled cells are in range a tile's key gives its cell back, its four sums are those of the samples in that cell, and its runs are those with a sample there |
| `DriveTiles.Accumulator.AddChunk` | packages/api/drive_stats.py:150-173 | with packed cells and packed pairs, the accumulator stands for the chunk's movements too |
| `DriveTiles.Accumulator.Add` | packages/api/drive_stats.py:143-148 | for any chunk size the accumulator stands for all movements so far |
| `DriveTiles.Accumulator.MergedWith` | packages/api/drive_stats.py:175-180 | the new accumulator stands for the movements of both |
| `DriveTiles.Accumulator.GetTiles` | packages/api/drive_stats.py:182-194 | the tiles are those of all movements grouped at once, whatever the chunks were |
| `DeleteTrace.RemovalFollowsCleanPass` | packages/api/map_delete.py:307-340 | wherever a legal trace removes the row, the pass before it dropped the graph and the images, and the scene graph exactly where the probe said yes or raised and its drop is wired; each with success |
| `DeleteTrace.DropsUnderLock` | packages/api/map_delete.py:352-383 | every store delete of a legal trace belongs to a pass, and if that pass's probe said yes or raised, the scene lock was taken in it and is held |
| `Backoff.BackoffDoubles` | packages/api/map_delete.py:183-185 | the first wait is the base, each doubles the last, up to the longest |
| `Backoff.WithinBudget` | packages/api/map_delete.py:183-185 | the number of busy locks before the deadline is bounded when waiting costs time |
| `Backoff.DeadlineReachedIff` | packages/api/map_delete.py:321-331 | a lock that stays busy reaches the deadline if and only if waiting costs time or the deadline is not positive |
| `MapDelete.MapDeleter.Mark` | packages/api/map_delete.py:72-78 | one statement marks the row and resets its attempts, unless it is marked already |
| `MapDelete.MapDeleter.TakeSceneLock` | packages/api/map_delete.py:385-409 | a bounded number of tries; the lock is held if and only if it succeeded, also after a failure or a cancel |
| `MapDelete.MapDeleter.RunSteps` | packages/api/map_delete.py:417-431 | every store is tried in order whatever the others answered, unless cancelled; all succeeded or not is reported |
| `MapDelete.MapDeleter.Attempt` | packages/api/map_delete.py:352-383 | for every answer of the probe: with yes or an error the pass needs the scene lock, with no or no probe none is taken; a pass is clean only if every store it must empty was dropped with success, and the lock is released |
| `MapDelete.MapDeleter.Finish` | packages/api/map_delete.py:439-459 | the row goes while still DELETING and straight after a clean pass, the event with it or not; or the transaction raises and row and events are as they were |
| `MapDelete.MapDeleter.RecordFailure` | packages/api/map_delete.py:482-506 | attempts and event change together or not at all; no event is ever written twice |
| `MapDelete.MapDeleter.Round` | packages/api/map_delete.py:307-340 | for all answers of stores, locks and database: ends, at most max_attempts counted failures, a busy lock is free exactly before the deadline, the row keeps its request until a clean pass removes it, and at most one event is written, DELETE_FAILED only with max_attempts counted failures |
| `MapDelete.MapDeleter.Run` | packages/api/map_delete.py:283-305 | keeps the legal trace and the distinct events, with requests of other workers at every await |
| `SlamState.InvStep` | packages/api/mapping_switch.py:818-864 | every step keeps: a start is under way only without a registered save, the registered save is not done, and saving is said only while a tracked save is unfinished |
| `SlamState.NoStartWhileSavePending` | packages/api/mapping_switch.py:538-567 | over every run, restarts included, no start is under way while a save is pending, and none passes its check then |
| `SlamState.StartPastOlderSaveIff` | packages/api/mapping_switch.py:547-555 | saves can overlap: while save k is unfinished a start passes its check if and only if a save scheduled after k is done and the state is not failed |
| `SlamState.OvertakenSaveLetsStartIn` | packages/api/mapping_switch.py:818-864 | a run in which that happens: the second of two saves finds nothing to save and is done before the first begins |
| `SlamState.StaysTrackedIff` | packages/api/mapping_switch.py:485-605 | throughout a run a started recording stays tracked as recording, saving or failed until its own save, a discard or its deletion, if and only if no restart comes while its row is missing or cannot be read and no save scheduled before it ends clean or with nothing to save meanwhile |
| `SlamState.OlderSaveForgets` | packages/api/mapping_switch.py:841-851 | a run without any restart in which an older save's end takes the state of a later recording away, in memory and in the store |
| `SlamState.PhaseEndsIff` | packages/api/mapping_switch.py:629-652 | a robot's state goes away by a step if and only if that is a tracked save without notice, nothing to save, a successful discard, the robot's deletion, or such a restart |
| `SlamState.IntentKeptIff` | packages/api/mapping_switch.py:595-605 | the intent from before a start is kept from the mode change on and goes exactly by a save without notice, nothing to save, a successful discard, a deletion without a pending save, or a restart on a store without it |
| `SlamState.RestartRestoresIff` | packages/api/mapping_switch.py:485-521 | a write and a restart that reads it bring back intent and state, a running save as failed, if and only if there is a state or no intent |
| `SlamState.ChecksMean` | packages/api/mapping_switch.py:547-555 | a start gets past its check exactly without a pending and without a failed save, a discard exactly with a failed and without a pending one |
| `SlamState.SurvivesRestarts` | packages/api/mapping_switch.py:500-521 | once a row is in the store the recording survives every restart that can read it, until it ends |
| `SlamState.RestartedSaveBlocksStarts` | packages/api/mapping_switch.py:500-555 | after a restart on a persisted saving every start is refused, through further restarts and lost writes, until a retry, a successful discard, a deletion, or a restart that cannot read the store |
| `SlamState.LostWriteForgets` | packages/api/mapping_switch.py:485-498 | the start's write is lost and the API restarts: forgotten |
| `SlamState.LaterWriteRepairs` | packages/api/mapping_switch.py:485-521 | with one later write in between it is not |
| `SaveLoop.Request` | packages/api/mapping_switch.py:756-778 | all requests but the last were answered 503, the last one decides, at most the start tries of them |
| `SaveLoop.WaitedWithinBudget` | packages/api/mapping_switch.py:779-780 | the time limit admits exactly the budgeted number of status reads |
| `SaveLoop.Poll` | packages/api/mapping_switch.py:779-798 | the first status read that decides gives the outcome; with none among those that fit, out of time |
| `SaveLoop.AttemptDetermined` | packages/api/mapping_switch.py:748-798 | the robot's answers determine what an attempt sends and how it ends |
| `SaveLoop.AttemptMeans` | packages/api/mapping_switch.py:748-798 | on the robot's answers: nothing to save exactly after a deciding 409 with no save running and the robot not in slam mode, saved exactly if the first status read that decides says done, slow exactly after a timeout, already in progress, a failure for want of time, or no deciding read in time |
| `SaveLoop.SaveSlam` | packages/api/mapping_switch.py:658-695 | a second attempt is made if and only if the first was slow, on its answers, and allowed; at most two attempts and twice the start tries of requests; saved and nothing to save exactly if the last attempt's answers say so |
| `SnapshotCache.InvStep` | packages/api/mapping_switch.py:976-1010 | every step keeps: what the cache, cached() and the joinable read hold began after the robot's last invalidate |
| `SnapshotCache.NoStaleFill` | packages/api/mapping_switch.py:996-1010 | so in every interleaving of reads, failures and invalidates |
| `SnapshotCache.AnswerIsFresh` | packages/api/mapping_switch.py:976-994 | a hit, a joined read and a new read all began after the last invalidate before the call |
| `SnapshotCache.ServedForTtl` | packages/api/mapping_switch.py:981-983 | a read that is kept is served for its TTL and no longer, and not to a caller that asks for a fresh one |
| `ResultCache.Cache.Peek` | packages/api/drive_stats.py:558-563 | a hit is the entry of the key not older than the TTL, moved to the end; a miss changes nothing |
| `ResultCache.Cache.Begin` | packages/api/drive_stats.py:569-577 | the call's part up to its await: it computes if and only if there is no hit and its key is not in flight, and then puts it there |
| `ResultCache.Cache.Finish` | packages/api/drive_stats.py:578-591 | the result is kept, the oldest go, at most entries stay, and the flight ends |
| `ResultCache.Cache.Fail` | packages/api/drive_stats.py:580-591 | a failed computation ends its flight and stores nothing |
| `ResultCache.Cache.DiscardMap` | packages/api/drive_stats.py:565-567 | drops exactly the map's finished results and leaves the flights |
| `ResultCache.Evict` | packages/api/drive_stats.py:586-587 | the loop leaves exactly the newest entries |
| `ResultCache.StoredKeeps` | packages/api/drive_stats.py:585-587 | storing keeps keys distinct and the bound, and adds nothing but the new result |
| `ResultCalls.CallsStep` | packages/api/drive_stats.py:569-591 | every step of concurrent calls keeps: computing calls and flights correspond one to one, and a waiting call waits for a computation of its key that is under way or over |
| `ResultCalls.OneComputationPerKey` | packages/api/drive_stats.py:569-591 | over every run at most one call computes a key, the keys being computed are exactly those in flight, and at most entries results are kept |
| `ResultCalls.WaiterGetsItsKey` | packages/api/drive_stats.py:573-575 | a call that waited is given the outcome of one computation of its own key |
| `ResultCalls.OlderThanDiscardIff` | packages/api/drive_stats.py:565-591 | over every run a kept result is older than the last discard of its map if and only if its computation was under way then |
| `ResultCalls.DiscardedResultIsServed` | packages/api/drive_stats.py:565-591 | a run in which such a result is served after the discard |
| `DepthRules.FoldTarget` | packages/api/depth_rebuild.py:203-217 | the greatest stamped in-scope record, by stamp and then by key, or none if and only if there is none |
| `DepthRules.ClassifyMeans` | packages/api/depth_rebuild.py:102-131 | a node is generated exactly if it is of the job's session, or the job has none, and has depth but neither the robot's costmap nor a layer from depth; its session is its own, else its first depth record's |
| `DepthRules.StampedMeans` | packages/api/depth_rebuild.py:203-217 | a record counts for the target exactly if it is in scope, of the occupancy role and stamped |
| `DepthFold.Fold` | packages/api/depth_rebuild.py:517-552 | the wait ends under an advancing clock, at the first look that is at the target, cancelled or past the deadline; caught_up means that the cursor read is at or past every stamped in-scope record of the listing |
| `DepthFold.FoldDetermined` | packages/api/depth_rebuild.py:532-552 | cursors, cancels and clock determine when and how it ends |
| `DepthRun.Stores.One` | packages/api/depth_rebuild.py:485-515 | whatever fails, no record exists without its PNG, only this node is touched, and generated means recorded |
| `DepthRun.GenerateAll` | packages/api/depth_rebuild.py:464-483 | done = generated + failed, each counted node is recorded or failed, only nodes to generate are written, and a complete run leaves each of them recorded or failed |
| `DepthRun.GenerateTwice` | packages/api/depth_rebuild.py:464-483 | a complete run and another over the new listing: the second writes only nodes the first counted as failed, and nothing if none was |
| `DepthJobs.InvStep` | packages/api/depth_rebuild.py:365-405 | every step of concurrent starts, cancels, jobs and stops keeps the job invariant |
| `DepthJobs.JobsExclusive` | packages/api/depth_rebuild.py:437-483 | in every interleaving at most one active job per map, at most one generating, and every job's books balance |
| `DepthJobs.TerminalForever` | packages/api/depth_rebuild.py:419-515 | a terminal job never changes again, except that the thread of a node that outlives a stop still counts that node, once, exactly if it comes to its end; the state never changes |
| `DepthJobs.SlotMeans` | packages/api/depth_rebuild.py:437-443 | a job cancelled while it waited ends without the slot, any other generates; between nodes a cancel ends it as cancelled, a lost map as failed |
| `DepthJobs.LeaveMeans` | packages/api/depth_rebuild.py:444-452 | after its last node a job is cancelled if asked, failed if it had nodes and generated none, and folds otherwise |
| `DepthJobs.FoldEndsJob` | packages/api/depth_rebuild.py:517-552 | caught up, timed out, not needed, worker off and map disabled end as succeeded, only a cancelled wait as cancelled, one that raised as failed |
| `DepthJobs.AnswersName` | packages/api/depth_rebuild.py:365-405 | a start's answer names the active job of its map; a conflict if and only if that has another scope |
| `EventClasses.ClassSql` | packages/api/map_events.py:96-115 | the loop's predicate holds for an event if and only if some rule of the class claims it: its own type, or for a catch-all any type no earlier rule of the code names |
| `EventClasses.ConsistentKeepsMeaning` | packages/api/map_events.py:82-115 | if no rule is shadowed by one of another class, the compiled predicate of each class holds exactly for the events whose first match is that class |
| `EventClasses.CompiledIffConsistent` | packages/api/map_events.py:96-115 | ... and only then |
| `EventClasses.ShadowedRuleCountsTwice` | packages/api/map_events.py:96-115 | a table with two rules for one error type: the second class takes the first one's events |
| `EventClasses.FiltersPartition` | packages/api/map_events.py:82-115 | of a consistent table the class filters are disjoint and cover the universe |
| `EventClasses.LayeredIsConsistent` | packages/api/map_events.py:47-67 | typed rules before one catch-all per code is such a table |
| `EventClasses.ShippedRulesKeepMeaning` | packages/api/map_events.py:47-67 | the shipped table is one |
| `EventClasses.RaisedClasses` | packages/api/map_events.py:47-89 | of the raised errors the mirrored ones are outside the universe, a safety reflex is one, every other an error |
| `Episodes.KeptMeansOpening` | packages/api/map_events.py:128-152 | the lag filter keeps exactly the rows that take their raise/clear automaton from closed to open |
| `Episodes.LookbackExact` | packages/api/map_events.py:128-152 | a bounded lookback changes the verdict on a row if and only if it opens, the lookback holds no earlier row of its lane, and the lane was left open before |
| `LegacyNodes.RevertRestoresIff` | tools/maps_m2_legacy_nodes.py:177-193 | revert undoes the migration of a node if and only if it had no session id and its pose, if any, had x, y and yaw |
| `LegacyNodes.Sweep` | tools/maps_m2_legacy_nodes.py:128-136 | the counting loop gives the new poses of exactly the nodes without robot_pose, and the number of tagged ones |
| `LegacyNodes.PlanMap` | tools/maps_m2_legacy_nodes.py:96-144 | the loop over the nodes computes the plan |
| `LegacyNodes.Stores.ApplyNodes` | tools/maps_m2_legacy_nodes.py:177-184 | the AQL update moves exactly the planned nodes without robot_pose, up to where it stops |
| `LegacyNodes.Stores.Run` | tools/maps_m2_legacy_nodes.py:313-320 | one run over both stores, whole or cut off at any node before Postgres |
| `LegacyNodes.PlacedNodesUntouched` | tools/maps_m2_legacy_nodes.py:177-184 | a node with robot_pose is changed by no run and no part of one |
| `LegacyNodes.MovedCounts` | tools/maps_m2_legacy_nodes.py:128-142 | moving any part of the pending nodes keeps the size of the collection and the legacy session's count afterwards |
| `LegacyNodes.RerunAfterStop` | tools/maps_m2_legacy_nodes.py:313-320 | a run after a stop at any point before the Postgres transaction ends in the state of one full run |
| `LegacyNodes.NodesAfterRun` | tools/maps_m2_legacy_nodes.py:96-144 | after a full run no node is pending and the legacy ones are tagged |
| `LegacyNodes.RowsAfterRun` | tools/maps_m2_legacy_nodes.py:250-265 | after a full run the rows hold the right counts, the transform of the datum that was read, and the origin as datum |
| `LegacyNodes.TransformMeans` | tools/maps_m2_legacy_nodes.py:117-124 | that transform is the one of the legacy session's own datum, else of the map's, and the identity without an origin or a datum |
| `LegacyNodes.NodeAfterRun` | tools/maps_m2_legacy_nodes.py:129-136 | a pending node's pose holds the row's transform of its old x, y and yaw, field by field, robot_pose is the old pose, and it belongs to the legacy session |
| `LegacyNodes.SecondRunIdleIff` | tools/maps_m2_legacy_nodes.py:96-144 | a second run plans nothing if and only if there is no legacy session, no origin, a datum of the legacy session's own, or the replaced datum gives the same transform |
| `LegacyNodes.ThirdRunIdle` | tools/maps_m2_legacy_nodes.py:96-144 | a third run never plans anything |
| `LegacyNodes.UnsettledMapLosesItsTransform` | tools/maps_m2_legacy_nodes.py:119-139 | otherwise the second run keeps the nodes and overwrites the transform they went through |
| `LegacyNodes.WithoutLegacyOnlyCounts` | tools/maps_m2_legacy_nodes.py:107-115 | without a legacy session a run sets the counts and nothing else, so it leaves the map as it is if and only if they are right |
| `LegacyNodes.MigrateThenRevert` | tools/maps_m2_legacy_nodes.py:147-172 | node by node, migrate then revert restores it if and only if it was pending and plain, or placed by another session; the session is back at identity and its datum |
| `LegacyNodes.RevertMeans` | tools/maps_m2_legacy_nodes.py:147-193 | a revert gives back exactly the legacy session's placed nodes, or with include-live every placed node, field by field |
| `LegacyNodes.MigrateRevertMigrate` | tools/maps_m2_legacy_nodes.py:147-193 | with a legacy datum, migrating after a revert brings plain nodes and the session row back to where the first run left them |
| `Backlog.RecordProgress` | packages/api/ingest_backlog.py:54-64 | moved if and only if the poll is ahead of all earlier polls in depth, highest complete id or open trackers; the best values are kept |
| `Backlog.ProgressMeans` | packages/api/ingest_backlog.py:54-64 | a look makes progress exactly if it is the first, or depth fell, the highest complete id rose or the open trackers fell against every earlier look that gave the figure |
| `Backlog.WaitForBacklog` | packages/api/ingest_backlog.py:67-99 | for every poll sequence and advancing clock the wait ends at the first look that is drained, unusable at the start, past max_s, or without progress for no_progress_s; it returns the last good snapshot |
| `Backlog.OutcomeMeans` | packages/api/ingest_backlog.py:84-98 | what each outcome says of the answer and the clock at the look it comes at |
| `Backlog.LastGoodMeans` | packages/api/ingest_backlog.py:84-98 | the snapshot given back is the last answer that knew the backlog |
| `Backlog.WaitIsDetermined` | packages/api/ingest_backlog.py:67-99 | polls and clock determine when and how it ends |
| `Backlog.CeilingHolds` | packages/api/ingest_backlog.py:95-96 | it ends at the first look past max_s at the latest |
| `Backlog.WaitBounded` | packages/api/ingest_backlog.py:95-99 | with looks at most a gap apart it never lasts longer than max_s and one gap |
| `Backlog.SteadyDrainNeverStalls` | packages/api/ingest_backlog.py:97-98 | a drain whose every progress is followed by another within no_progress_s is never stalled |
| `Backlog.CapHidesStallIff` | packages/api/ingest_backlog.py:95-98 | the documented promise of cap fails for some answers if and only if the look times jump over the end of a stretch of no_progress_s: some look j with times(n-1) - times(j) < no_progress_s <= times(n) - times(j) |
| `Backlog.CapHidesAStall` | packages/api/ingest_backlog.py:95-98 | at the look itself it need not have: a drain that never moves can be reported as capped |
| `EnvText.Parse` | scripts/render_env.py:52-63 | the loop is the parse, and what it returns has each key once, names as keys, and values without line break or trailing space |
| `EnvText.ParsedIsClean` | scripts/render_env.py:52-63 | so for every text that parses |
| `EnvText.ReadLineMeans` | scripts/render_env.py:49-63 | a line gives a pair exactly if, stripped, it is a name, = and the value; blank lines and comments are skipped |
| `EnvText.StripMeans` | scripts/render_env.py:56 | stripping takes the spaces off both ends and nothing else |
| `EnvText.CharactersMean` | scripts/render_env.py:55-56 | the characters that end a line and those that are stripped |
| `EnvText.BodyReadsBack` | scripts/render_env.py:128-129 | parse of a rendered body gives back exactly the pairs, in order |
| `RenderEnv.OneFilePerKeyIff` | scripts/render_env.py:153-157 | a key is in exactly one output file if and only if at most one split prefix fits it; it is in at least one |
| `RenderEnv.ShippedSplit` | scripts/render_env.py:153-157 | with the shipped split every setting is in exactly one file, the server's with the prefix LIVEKIT_SFU_ in livekit_sfu.env |
| `RenderEnv.DiffKeys` | scripts/render_env.py:161-174 | the loop gives the rows of the keys that differ |
| `RenderEnv.DiffIsExact` | scripts/render_env.py:161-174 | the rows are exactly the keys that differ, with the right kind, sorted; none if and only if the maps are equal |
| `RenderEnv.EverythingAt` | scripts/render_env.py:146-150 | secrets win over the kept tag, the tag over the configuration |
| `RenderEnv.ConfigAt` | scripts/render_env.py:146-148 | the three CONFIG_ keys are the render's own, an override wins over a setting |
| `RenderEnv.SettingsMean` | scripts/render_env.py:108-115 | the profile's settings win over base.env's, which staging does not have; a setting with a secret's name is refused |
| `RenderEnv.SecretsMean` | scripts/render_env.py:135-144 | the secrets are taken as they are if and only if the file is there, parses, sets all that the example requires and has no other key |
| `RenderEnv.OverridesMean` | scripts/render_env.py:82-91 | overrides with a secret's name are refused, a missing file is none |
| `RenderEnv.IsSecretMeans` | scripts/render_env.py:66-67 | a secret's name ends in PASSWORD, _SECRET, _KEY, _TOKEN or ROOT_USER |
| `RenderEnv.PrimaryMeans` | scripts/render_env.py:98-105 | server and staging have their files, any other profile but base is a robot's if it says so |
| `RenderEnv.GatherOkIff` | scripts/render_env.py:132-150 | a render is refused exactly if one of these four inputs is |
| `RenderEnv.TagKept` | scripts/render_env.py:149-150 | over an output with the last render's IMAGE_TAG the settings are the same, whatever the secrets are |
| `RenderOrder.SameOrderIff` | scripts/render_env.py:149-150 | over an output with the last render's IMAGE_TAG the settings come in the same order if and only if the tag is no secret, or had a place already, or no new secret precedes it |
| `RenderOrder.TagMovesUp` | scripts/render_env.py:149-150 | otherwise the tag moves up: every configuration without a tag, and two new secrets, the second of them IMAGE_TAG |
| `RenderOrder.RenderStableIff` | scripts/render_env.py:132-158 | rendering again over its own output gives the same texts if and only if that holds of the primary file's settings |
| `RenderEnv.Check` | scripts/render_env.py:209-218 | the loop of --check gives the rows of all files, or the first file that does not parse |
| `RenderEnv.CheckAfterRender` | scripts/render_env.py:209-222 | after a render --check reports nothing |

## Left out

- Backlog.WaitForBacklog: takes the number of a look past `max_s` as a ghost argument, which an advancing clock supplies.
- MapDelete.MapDeleter.Round: requires that waiting for a busy lock costs time; Backoff.DeadlineReachedIff says what happens without.
- MapDelete.MapDeleter.Run: a runner that loses its lock connection in the middle of a round, so that two runners work on one map, is not modelled.
- SlamState.StaysTrackedIff: writes of one robot are taken to reach the store in the order they are made, and the state to be loaded before the first request after an API start.
- MapDelete.MapDeleter.RunSteps: a store delete whose thread outlives a cancelled pass may end after the lock is released; its end is not an act of the trace.
- DepthFold.Fold: takes the number of a look past the deadline as a ghost argument, which an advancing clock supplies; the listing is one read, later records are not in it.
- Recovery.RecoveryOverlap: the runs of the interval dictionary are distinct, as dictionary keys are.
- Cursor.CursorRoundTrip: the text forms of timestamps and UUIDs are parameters that read back; JSON escapes do not occur in them and are not modelled.
- LegacyNodes.SecondRunIdleIff: numbers are compared exactly, where the tool allows 1e-9 or 1e-12; the type of a map stored without one is taken as fixed.
- LegacyNodes.MigrateThenRevert: an explicit null pose counts as a missing one; `--include-live` is modelled, and its lemma is about the default.
- DriveTiles.SamplesCarryAll: a movement's length is an input; the square root is not computed.
- Floating-point rounding, NaN and the rounding of response bodies: all quantities are exact.
- SHA-256, UUIDv5 and the config hashes: functions of which nothing else is assumed.
- The days that operating hours and event counts are grouped by.
- The image processing that builds a layer from depth.
- Decoding recording-change events, event ids and payload texts.
- A class without any rule, whose SQL would be an empty disjunction.
- Deleting sessions, settings and other rows with the map's row: they are in the same transaction.
- `--init-secrets`, the command lines and the log and message texts.
- Database drivers, SQL beyond the effect of each statement, object stores, MQTT, HTTP and WebSocket plumbing.
- Service modules that wrap a client or validate fields.
