# Verified model of daftari's curation and consolidation engine

daftari keeps a vault of documents and, beside it, append-only logs: derivation edges earned by repeated
re-derivation, tensions, staged actions, board dispositions. A consolidation session decides which edges are due for
review, asks a language model about them, and writes back only what a two-gate envelope admits. This project models
that engine in Dafny and proves what its comments and tests promise, for all inputs and over whole runs.

What is proved, module by module:

- `Clocks`: the event clock. The due edges are exactly the directed, unrevoked edges that some chain of clamped factors
  reaches at or above the floor; pruning and stale-skipping lose nothing, input order is irrelevant, and the worklist
  drains long before its expansion cap.
- `EdgeLog`, `EdgeStore`: the earned-edge log and its table. Collapsing is local to a pair and blind to orientation;
  the replay guard bounds what one caller can earn; and reads served from the table, through any interleaving of
  observations, contests, foreign appends and lost writes, equal reads of the log.
- `UnionFind`, `TensionClusters`: the clusters are the connected components of the live tensions, whatever their order.
- `TensionBlast`: the blast lists exactly the documents reachable from the seeds, each at its fewest hops.
- `Pointers`, `Chains`, `SupersedeChains`, `SupersedeRuns`: walks over `superseded_by` pointers that may loop. Chains
  are determined by where readable walks end, and a hidden document's status and dates never show; a run of guarded
  edits adds no loop but through a document that some caller could not see or saw before it changed; lint finds every
  loop once.
- `Board`, `BoardRuns`: reconciliation of live findings with the disposition ledger, and what whole runs of decisions
  and listings keep, failed appends and overlapping listings included.
- `SequentialIds`, `Positions`: principals' positions on a claim, the foreign-position guard, the chain of revisions and
  the conflict pairs not covered by a tension, over every reachable set of positions.
- `Priority`, `Envelope`, `Admit`, `Pass`, `Birth`, `Revision`, `SessionRun`: the session's queue, its gate, its budget,
  the two modes that act, and a whole session, whose report is shown to tell what reached the edge log.
- `StagedActions`, `Locks`, `GitBatch`: the staged-action log, the TTL locks and the decoder of git's batch output,
  which is right exactly for paths without a newline.

Conventions. A path is a value of an ordered type. Times are whole milliseconds. Strengths and costs are real numbers;
aging is any function of the age. What the outside world decides (a failing append, a model's
answer, a throwing gate) is an input. Sets and maps that the program iterates are visited in an arbitrary order.

Where the program and its own documentation differ, the model follows the program:

- The header of `src/board/reconcile.ts` promises one card per distinct key (line 8). The program makes one card per
  live finding and reopens once per report. There is one card per key exactly when the live findings have distinct keys
  (`Board.OneCardPerKeyExactly`, `Board.ReportedTwiceIsShownTwice`), and a run reopens each resolved finding only once
  exactly when no listing reports a returned finding twice (`BoardRuns.RunsReopenOnceExactly`,
  `BoardRuns.ReportedTwiceReopensTwice`).
- The header of `src/consolidate/revision.ts` says the replay guard counts all votes of a panel as independent in one
  sitting (lines 1-8). Every vote counts exactly when the cap leaves room and each is either new to the edge or the
  opening vote after a full gap (`Revision.AllVotesCount`); the same agent's next panel, no wider than its last, raises
  the count by one after a full gap, up to the cap, and by nothing before (`Revision.SecondPanelEarnsAtMostOne`).
- The comment on the foreign-position guard in `src/curation/positions.ts` calls a removed or altered foreign entry a
  violation and an added entry none (lines 243-252). What the guard accepts never removes or alters one; but it judges
  the last entry under each id, so it also refuses documents in which nothing changed. It is right about every change
  to a document exactly when it accepts the new document left as it is, as it does when ids are distinct
  (`Positions.GuardIsExact`, `Positions.RepeatedIdIsRefused`).
- `src/curation/supersede-chains.ts` asks whether edits would put an edited document on a loop (lines 38-40). The guard
  answers for what the caller can read, as it stood when it was read (`src/tools/write.ts` lines 2264-2287): loops
  through hidden documents and loops closed by overlapping calls get in (`SupersedeRuns.NewLoopsWereUnseen`,
  `SupersedeRuns.HiddenHopLetsLoopIn`, `SupersedeRuns.OverlapLetsLoopIn`), and a hidden namesake can get an edit refused
  that closes none (`SupersedeRuns.HiddenNamesakeRefuses`).
- `src/board/board.ts` reads the ledger and appends to it in separate steps (lines 256-290). A decision made in between
  can leave a returned finding in a column other than accepted (`BoardRuns.OverlapsRootedExactly`,
  `BoardRuns.OvertakenIsNotRestored`).
- `src/asof/git-read.ts` promises a map of path to content, with only the missing paths left out (lines 99-101). That
  holds for all repositories exactly when no path has a newline in it (`GitBatch.RoundTripExactly`).

## Model

| member | source | states |
|---|---|---|
| Clocks.EventDue | src/consolidate/clocks.ts:76-127 | every edge returned is a due one with its strength, every due edge's key is returned, no key twice; expansions never exceed changed + edges squared, so the cap never decides |
| Clocks.DirectlyDue | src/consolidate/clocks.ts:77-111 | with its premise changed, an edge is due exactly when it is live, directed and of strength at least the floor times the cap |
| Clocks.DueExactly | src/consolidate/clocks.ts:62-69 | with strengths in range, an edge is due exactly when it ends a chain of live, directed edges from a changed document whose shares of full strength multiply to the floor or more |
| Clocks.RaisingKeepsDue | src/consolidate/clocks.ts:62-69 | raising an edge's strength never takes anything off the due list |
| Clocks.OrderIrrelevant | src/consolidate/clocks.ts:76-127 | which edges are due depends only on the sets of changed paths and edges |
| Clocks.DistinctKeysGiveExactResult | src/consolidate/clocks.ts:76-127 | with distinct (from, to) keys the result is exactly the due edges |
| Clocks.LevelBound | src/consolidate/clocks.ts:97-125 | no signal crosses more edges than there are: strict improvement forbids crossing one twice |
| Clocks.QueueBound | src/consolidate/clocks.ts:97-125 | the worklist never outgrows its seeds plus one push per edge and level |
| Clocks.TrailsAreDominated | src/consolidate/clocks.ts:97-125 | once the worklist is drained, no chain beats the best product known at its end |
| Clocks.DueEdgesAreFound | src/consolidate/clocks.ts:97-125 | a drained worklist has recorded the key of every due edge |
| EdgeLog.Collapse | src/curation/edges.ts:333-423 | each pair's state is the replay of that pair's own records, for every log |
| EdgeLog.StateBelongsToPair | src/curation/edges.ts:345-402 | a state carries its pair's canonical endpoints, and its seed is one of the two orientations |
| EdgeLog.OutputKeysAreDistinct | src/curation/edges.ts:425-465 | two pairs never derive edges with the same output endpoints |
| EdgeLog.DirectionIsVoted | src/curation/edges.ts:425-450 | an edge points at the document all votes of its cycle name as premise; it is symmetric, on the ordered pair, exactly when a vote says so or two votes name different documents; without votes it points as its first sighting did |
| EdgeLog.CycleIsSuffix | src/curation/edges.ts:345-402 | a pair has a state once sighted, and its cycle is the records since the last sighting that came first or right after a contest |
| EdgeLog.EdgeTellsCycle | src/curation/edges.ts:425-465 | the edge tells when its cycle began, how often it was seen and which contest ended it; revoked means ended, without strength; a live edge bears triggers exactly from half a vote up |
| EdgeLog.StrengthIsAgedCount | src/curation/edges.ts:201-210 | a live edge's strength is its count, at most five, aged since its last counted vote |
| EdgeLog.WhatSeeds | src/curation/edges.ts:345-395 | the first sighting of a cycle is worth no vote |
| EdgeLog.WhatCounts | src/curation/edges.ts:401-418 | a later sighting is worth one vote, up to five, exactly when it is blind, on an axis, by a named observer, and either attested anew in its cycle or a day after the last counted vote |
| EdgeLog.OrientationIrrelevant | src/curation/edges.ts:269-271 | writing any records the other way round, vote included, changes nothing derived, except that a vote-less edge points as its seed did |
| EdgeLog.ReplayGuard | src/curation/edges.ts:401-418 | in chronological logs, a cycle's count is at most the cap, and at most the new attestations since its seed plus one per full replay gap elapsed |
| EdgeLog.ReplayGuardInLog | src/curation/edges.ts:333-423 | the same bound for every pair of a whole log |
| EdgeLog.NoPumpingInOneSitting | src/curation/edges.ts:320-332 | one caller repeating one attestation within the gap earns nothing |
| EdgeLog.OnceObservedAlwaysListed | src/curation/edges.ts:345-402 | once a pair has a state, no later record takes it away |
| EdgeStore.SizeIdentifiesVersion | src/curation/edges.ts:176-188 | on an append-only log, the stat marker's size alone tells versions apart |
| EdgeStore.RowRoundTrip | src/curation/edges.ts:623-644 | a row stored at any instant reads back at any other as the edge derived from the state itself |
| EdgeStore.Vault.FreshMarkerMeansFreshTable | src/curation/edges.ts:646-654 | in every reachable vault, a stored marker equal to the log's marker means the table materializes the log |
| EdgeStore.Vault.ExternalAppend | src/curation/edges.ts:176-188 | an append the writer never saw keeps the vault consistent |
| EdgeStore.Vault.EnsureFresh | src/curation/edges.ts:646-654 | when it succeeds the table is the materialization of the log, even if lines arrived between stat and read |
| EdgeStore.Vault.WriteThrough | src/curation/edges.ts:479-498 | keeps the vault consistent whatever fails, and returns the collapse of the log it read |
| EdgeStore.Vault.ObserveEdge | src/curation/edges.ts:502-562 | appends exactly its record before anything that arrives, and answers with the edge of the log as it then stands; a self-edge or failed append changes nothing |
| EdgeStore.FirstSightingDecides | src/curation/edges.ts:502-562 | the edge a cycle's first call answers with is a candidate seen once, pointing as the call says or as its vote says |
| EdgeStore.FreshSightingCounts | src/curation/edges.ts:502-562 | a later call whose attestation is new raises the answered count by one, up to five, exactly when it is blind, on an axis and by a named observer |
| EdgeStore.Vault.ContestEdge | src/curation/edges.ts:566-620 | contests only a live edge, appending exactly its record; otherwise errs and changes nothing |
| EdgeStore.Vault.ListEdges | src/curation/edges.ts:685-725 | through the table or the log, the listing is exactly the matching edges of the log as of now, each once, strongest first |
| EdgeStore.Vault.GetEdge | src/curation/edges.ts:727-765 | through the table or the log, the edge of the pair as the log has it, or none |
| EdgeStore.ListingUnique | src/curation/edges.ts:660-683 | the specified listing is unique, so table and log listings are the same list |
| EdgeStore.ListingMeans | src/curation/edges.ts:660-683 | a listing holds the edges with the wanted endpoints and status and no others, strongest first, ties by path |
| EdgeStore.RowAnswers | src/curation/edges.ts:696-722 | a row answers for exactly one edge of the log, and the narrowed query keeps it exactly when the fresh edge matches |
| EdgeStore.StatAfterReadWouldServeStaleRows | src/curation/edges.ts:767-786 | why the stat precedes the read: the other order lets a matching marker cover a table that lacks an edge |
| UnionFind.Forest.Find | src/curation/tension-clusters.ts:58-75 | terminates, returns the root, and path compression changes no document's root |
| UnionFind.Forest.Union | src/curation/tension-clusters.ts:77-84 | joins exactly the two trees |
| UnionFind.CompressStaysSound | src/curation/tension-clusters.ts:66-73 | pointing a document straight at its root keeps the forest sound |
| TensionClusters.UnionStep | src/curation/tension-clusters.ts:103-106 | uniting along one more tension keeps roots equal to connected components |
| TensionClusters.ComputeTensionClusters | src/curation/tension-clusters.ts:96-170 | the clusters are the connected components of the in-scope tensions, each summarized exactly, covering every document, sharing none, largest first |
| TensionClusters.ScopedMeans | src/curation/tension-clusters.ts:45-54 | a tension counts, as often as it is logged, exactly when it is open, not accepted and between two different documents |
| TensionClusters.AgeMeans | src/curation/tension-clusters.ts:140-150 | ages are whole days gone by, and none without a date |
| TensionClusters.KindCountMeans | src/curation/tension-clusters.ts:122-170 | a kind's count is the number of tensions of that kind |
| TensionClusters.ClusteringOrder | src/curation/tension-clusters.ts:122-175 | larger clusters first, then by id; documents in order |
| TensionClusters.OrderIndependent | src/curation/tension-clusters.ts:96-170 | with injective ids the clusters do not depend on the order of the tensions |
| TensionClusters.TensionHasOneHome | src/curation/tension-clusters.ts:119-131 | each in-scope tension lies in exactly one cluster |
| TensionClusters.EveryTensionCountedOnce | src/curation/tension-clusters.ts:122-170 | the reported tension counts add up to the number of in-scope tensions |
| TensionBlast.ComputeBlast | src/curation/tension-blast.ts:158-220 | lists exactly the downstream documents with fewest hops, as `source` exactly when a visited document reaches them by a source edge, sorted, with matching counts and greatest depth |
| TensionBlast.BlastTakesCiters | src/curation/tension-blast.ts:160-181 | whatever cites a document of the blast, as a source or by a link, is in it, at most one hop farther |
| TensionBlast.ListedFollows | src/curation/tension-blast.ts:160-181 | everything listed cites a document of the blast one hop nearer |
| TensionBlast.LinkCitesNoSource | src/curation/tension-blast.ts:183-200 | an entry is a link exactly when it cites nothing of the blast as a source |
| TensionBlast.BlastOrder | src/curation/tension-blast.ts:202-222 | nearest first, sources before links, then by path; the counts are those of the two channels and the depth that of the farthest entry |
| TensionBlast.ListedIffReached | src/curation/tension-blast.ts:158-220 | a document is listed, once, exactly when it is reachable and no seed; primary plus advisory is the length of the list |
| TensionBlast.BlastUnique | src/curation/tension-blast.ts:158-220 | the specified blast is unique, so no iteration order shows |
| TensionBlast.NothingBeyond | src/curation/tension-blast.ts:162-181 | an empty layer ends the search: nothing lies beyond it |
| TensionBlast.ReachedHasDistance | src/curation/tension-blast.ts:162-181 | what is reachable has a fewest number of hops |
| Chains.WalkForward | src/curation/chains.ts:66-89 | terminates on every graph, at the head, hidden hop or loop where the readable walk ends, with the exact hop count |
| Chains.EndUnique | src/curation/chains.ts:66-89 | a readable walk ends in one place at one depth |
| Chains.ComputeChains | src/curation/chains.ts:121-192 | one chain for every end that has one and none besides, with every readable document behind it at its exact depth and hidden predecessors only as a bucket |
| Chains.HeadMeans | src/curation/chains.ts:110-200 | a readable document heads a chain exactly when its pointer, if any, names nothing there is, and it replaced something, dangles or says it is superseded |
| Chains.ChainMeans | src/curation/chains.ts:89-101 | what a chain shows of its end: the head's own state, each flag exactly when its condition holds, the hidden count in three grades, the replaced nearest first |
| Chains.HeadedFirst | src/curation/chains.ts:115-122 | headed chains come first, by head; the others by their smallest path |
| Chains.KeyDeterminesEnd | src/curation/chains.ts:133-158 | the keys drafts are filed under never confuse two ends |
| Chains.AtMostOneChain | src/curation/chains.ts:121-192 | no readable document is in two chains |
| Chains.TogetherIffSameEnd | src/curation/chains.ts:121-192 | two readable documents share a chain exactly when their walks end at the same place and that end has a chain |
| Chains.AnswerUnique | src/curation/chains.ts:104-119 | the answer is unique: chains never tie in the order |
| Chains.HiddenDocumentsStayHidden | src/curation/chains.ts:9-16 | status and dates of hidden documents never change what a reader is shown |
| Chains.FedDrafts | src/curation/chains.ts:168-181 | a hidden predecessor is credited to exactly the chains its pointers feed |
| SupersedeChains.ResolveLink | src/curation/supersede-chains.ts:24-36 | a link resolves to the path it names, or by unique base name, and otherwise to nothing |
| SupersedeChains.SupersedeEdges | src/curation/supersede-chains.ts:24-36 | the graph holds each document's last written pointer, where it resolves, edits overriding |
| SupersedeChains.WalksBack | src/curation/supersede-chains.ts:43-52 | true exactly when the start lies on a loop |
| SupersedeChains.ClosesSupersedeLoop | src/curation/supersede-chains.ts:41-53 | true exactly when an edited document lies on a loop of the edited graph |
| SupersedeChains.GuardedEditAddsNoLoop | src/curation/supersede-chains.ts:38-53 | of the documents the guard is shown, one on a loop after an edit it lets through was on that loop before, and no edited document is on it |
| SupersedeRuns.RefuseSupersedeLoop | src/tools/write.ts:2270-2288 | refuses exactly when, among the documents the caller can read, an edited document would be on a loop |
| SupersedeRuns.CurrentEdge | src/curation/supersede-chains.ts:10-12 | a pointer between documents the caller sees as they are resolves for the caller as it does in the vault |
| SupersedeRuns.AdmittedLoopPassesUnseen | src/tools/write.ts:2264-2269 | edits let through put an edited document on a loop only if that loop passes through a document the caller could not see, or that was written after the guard had read it |
| SupersedeRuns.NewLoopsWereUnseen | src/tools/write.ts:2264-2288 | over any run of calls, each with its own caller and moment of reading, every loop in the vault was there at the start or passes through a document an admitted call edited and one its guard could not see or saw before it was rewritten |
| SupersedeRuns.SightedRunsAddNoLoop | src/curation/supersede-chains.ts:38-53 | a run of callers who read everything, one after the other, adds no loop |
| SupersedeRuns.HiddenHopLetsLoopIn | src/tools/write.ts:2264-2269 | an edit that closes a loop through a hidden document is let through |
| SupersedeRuns.HiddenNamesakeRefuses | src/curation/supersede-chains.ts:24-36 | an edit that closes no loop is refused, because a hidden document makes the bare name it points to ambiguous |
| SupersedeRuns.OverlapLetsLoopIn | src/tools/write.ts:2671-2679 | two calls that both read the vault before either wrote close a loop, though both see everything |
| SupersedeChains.SupersedeChainFindings | src/curation/supersede-chains.ts:60-101 | exactly one finding per loop, on its least member, and one per non-canonical end, in path order, at most one to a path |
| SupersedeChains.FindingsMean | src/curation/supersede-chains.ts:82-101 | in path order; a document is reported as an end exactly when it carries no pointer, is not canonical and a document nothing points to leads there, and the report names just those |
| SupersedeChains.FindingUnique | src/curation/supersede-chains.ts:60-101 | two findings on one path are the same finding |
| SupersedeChains.OneFindingPerLoop | src/curation/supersede-chains.ts:66-80 | two loop findings that mention one document are the same finding |
| Board.LoadLedger | src/board/ledger.ts:105-150 | each recorded finding maps to its own events in log order |
| Board.CurrentDisposition | src/board/ledger.ts:197-250 | the fold of the events: latest kind, standing expiry, latest owner, expired or not |
| Board.DispositionMeans | src/board/ledger.ts:197-250 | latest kind and fingerprint, owner last reassigned to, the time of the last deferral or dismissal unless an accept or resolution came after it, expired exactly when that lies in the past |
| Board.PriorHumanDisposition | src/board/reconcile.ts:63-88 | the backward scan finds the column of the last human decision before the latest resolution |
| Board.Reconcile | src/board/reconcile.ts:262-354 | the cards are the live findings in order, each in the column its history gives, then the absent ones that stay; the events are exactly the reopenings and resolutions due |
| Board.CardShows | src/board/reconcile.ts:97-140 | a live card waits exactly while its latest event is a deferral whose time has not run out, is dismissed exactly while that is a dismissal of its present fingerprint whose time has not, and accepted exactly when that is an accept |
| Board.ReturnedCardShows | src/board/reconcile.ts:63-88 | a card that was resolved or came back stands where the last decision before that had put it, or as new |
| Board.TimeOnlyFrees | src/board/reconcile.ts:106-125 | time alone moves a card only out of waiting or dismissed, and only to new |
| Board.ResolvedCardShows | src/board/reconcile.ts:200-260 | an absent finding's card shows its latest fingerprint and the last owner and description on record |
| Board.EmittedSays | src/board/reconcile.ts:275-351 | a reopening carries the fingerprint reported, a resolution the one last seen, both the present time |
| Board.EmitOf | src/board/reconcile.ts:275-351 | per finding: reopened once per report if it came back, resolved once if it went away, otherwise untouched |
| Board.SecondRunEmitsNothing | src/board/reconcile.ts:44-48 | after persisting, the same live set emits nothing, at any later time |
| Board.SecondRunKeepsColumns | src/board/reconcile.ts:97-140 | after persisting, the same instant shows the same cards in the same columns |
| Board.OneCardPerKeyExactly | src/board/reconcile.ts:8 | the cards have distinct keys exactly when the live findings have |
| Board.ReportedTwiceIsShownTwice | src/board/reconcile.ts:275-305 | on any ledger, a finding reported twice gets two cards |
| BoardRuns.ComesBackAccepted | src/board/reconcile.ts:63-88 | on a history whose resolutions follow an accept or reopening, and reopenings a resolution or reopening, a closing system event means the prior decision is an accept |
| BoardRuns.RunsStayGrounded | src/board/board.ts:276-290 | over every run of human decisions and listings one after the other, appends failing anywhere, each resolution directly follows an accept or reopening, and each reopening a resolution or reopening |
| BoardRuns.CameBackMeansAccepted | src/board/reconcile.ts:128-135 | on every such run, a finding that came back is restored to the accepted column |
| BoardRuns.OverlapsRootedExactly | src/board/board.ts:268-290 | over every run of decisions and of listings that overlap in any way, each system event directly follows an accept or a system event exactly when none was appended right after a decision other than accept that came after its listing had read the ledger |
| BoardRuns.OverlapsRestoreAccepted | src/board/reconcile.ts:128-135 | on those runs too, a finding that came back is restored to the accepted column |
| BoardRuns.OvertakenIsNotRestored | src/board/board.ts:268-290 | a finding deferred between a listing's reading and its append is resolved, and shown as waiting when it comes back |
| BoardRuns.KeptOf | src/board/board.ts:279-290 | per finding, a listing cut short anywhere leaves one reopening per report it got to, if the finding came back, or at most one resolution, if it went away |
| BoardRuns.ReportedTwiceReopensTwice | src/board/reconcile.ts:275-305 | a concrete ledger and live set on which two reopenings follow each other |
| BoardRuns.RunsReopenOnceExactly | src/board/board.ts:276-290 | over any run, every reopening directly follows a resolution exactly when no listing got to report twice a finding that had come back |
| BoardRuns.DistinctReportsReopenOnce | src/board/reconcile.ts:262-354 | detectors that report each key once a listing are enough for that |
| BoardRuns.BoardLedger.ListBoard | src/board/board.ts:256-300 | all events are persisted before filters apply; a failed append leaves exactly the events before it and errs |
| Positions.ReachableIsOrderly | src/curation/positions.ts:215-250 | from nothing or a legacy snapshot, every run of asserts leaves distinct ids, pointers that go forward to the same principal, and at most one live entry per principal |
| Positions.AssertRecords | src/curation/positions.ts:215-240 | an assertion appends the principal's own words as a live entry with a new id, points its former live entry there, and leaves the rest alone |
| Positions.LegacyMeans | src/curation/positions.ts:36-55 | a claim from before positions counts as one live assertion of nobody known |
| Positions.ChainEnd | src/curation/positions.ts:115-126 | follows revisions to the live entry they end in, and answers none exactly when there is none, loops included |
| Positions.ChainsEndLive | src/curation/positions.ts:115-126 | on an orderly set every entry's revisions end in a live entry of the same principal |
| Positions.ChainEndIsPrincipalsLive | src/curation/positions.ts:115-126 | on every reachable set, an entry's chain end is exactly its principal's live entry |
| Positions.ForeignPositionViolation | src/curation/positions.ts:253-283 | accepts exactly when, for every other principal's entry, the last entry under its id is that entry, or that entry newly superseded by its own principal |
| Positions.GuardIsExact | src/curation/positions.ts:243-283 | whatever the documents, an accepted change removes and alters no entry of another principal's, self-supersession apart; the guard accepts every such change exactly when it accepts the new document left as it is, as it does when ids are distinct |
| Positions.RepeatedIdIsRefused | src/curation/positions.ts:258-261 | an unchanged document with two entries of another principal's under one id is refused |
| Positions.AssertIsTolerated | src/curation/positions.ts:215-250 | an assert alters no entry in a way the guard forbids, whoever the user |
| Positions.UncoveredConflictPairs | src/curation/positions.ts:163-193 | exactly the live assert/dispute pairs that no standing tension covers, each with how its tensions were resolved |
| Positions.OpponentsMean | src/curation/positions.ts:67-77 | an assertion opposes live disputes, a dispute live assertions, a qualification nothing |
| Positions.UncoveredMeans | src/curation/positions.ts:163-183 | an opposing pair is uncovered exactly when every tension naming the two is resolved as neither accepted nor consolidated |
| Positions.KindsMean | src/curation/positions.ts:183-190 | the kinds reported are those of the tensions naming the pair |
| Positions.CoverageAfterAssert | src/curation/positions.ts:67-77 | an assert changes the coverage of no pair already there, and the pairs it forms, its conflict pairs, are covered by the tensions logged for them alone |
| Positions.AssertStaysAccounted | src/tools/positions.ts:321-350 | whatever tension writes fail, the uncovered pairs are those uncovered before and those lost now |
| Positions.Claim.TakePosition | src/tools/positions.ts:321-350 | from any reachable claim, earlier failures included: one open tension per conflict pair formed, except those whose write fails, which join the unlogged; every earlier entry passes the guard |
| Positions.Claim.Resolve | src/curation/tension.ts:516-572 | resolves an open tension only; the pair becomes unlogged exactly when no standing tension is left for it |
| Positions.Claim.Uncovered | src/curation/positions.ts:163-193 | over any run of asserts and resolutions, what is reported uncovered is exactly the live opposing pairs among the unlogged |
| SequentialIds.NextIdIsFresh | src/curation/positions.ts:21-30 | the next id is none of the ids in use, whatever strings those are |
| SequentialIds.FormatRoundTrip | src/curation/positions.ts:21-30 | an allocated id reads back as its number, padding included |
| SequentialIds.PaddedMeans | src/curation/positions.ts:21-30 | numbers are padded with zeros to three digits |
| SequentialIds.AllocateId | src/curation/staged-actions.ts:307-316 | one more than the highest number seen, and new |
| Priority.Prioritize | src/consolidate/priority.ts:37-135 | each due edge is considered once for its strongest reason; the queue serves the stalest overdue, the stalest others and the most pressing of the rest; its length is the budget or all the demand, and overdue edges left over mean the budget is used up |
| Priority.WorkConserving | src/consolidate/priority.ts:84-116 | for every budget, what is served is the budget or all the demand, never more of anything than is asked |
| Priority.AllocationUnique | src/consolidate/priority.ts:73-116 | the allocation is the only one in which overdue edges, periphery and births get their reservations in turn, the rest goes to overdue edges first, and births exceed their reservation only when nothing else waits |
| Priority.SlotMeans | src/consolidate/priority.ts:54-70 | a reservation is the share rounded down, but one slot whenever there is a budget |
| Priority.ReasonsRank | src/consolidate/priority.ts:35 | a backstop outranks an event, an event a decay |
| Priority.AgeMeans | src/consolidate/priority.ts:75-78 | an unknown or future age counts as none |
| Priority.MainFirstMeans | src/consolidate/priority.ts:79-103 | events before decays, and the weaker edge first |
| Priority.FloorsHoldExactly | src/consolidate/priority.ts:54-70 | the protected slices get their reservation whatever the demand exactly when the budget is zero or at least three |
| Priority.Dedup | src/consolidate/priority.ts:41-49 | one entry per edge, taken from the input, for a reason at least as strong as any other |
| Priority.PlanIsFair | src/consolidate/priority.ts:37-135 | no edge is queued twice, the queue has the promised length, and with three slots or more every protected slice has its floor |
| Priority.QueueMeans | src/consolidate/priority.ts:113-132 | the queue is the overdue edges taken, then the periphery, then the main slice, then the births, each labelled so |
| Priority.Slices | src/consolidate/priority.ts:84-116 | the step-by-step spending of the remaining budget gives the allocation |
| Envelope.VerdictMeaning | src/consolidate/envelope.ts:52-136 | admitted exactly when the context is sound and the cost fits; the budget gate speaks exactly when sound and over budget; the invariants gate otherwise |
| Envelope.RefusalNamesFirstFault | src/consolidate/envelope.ts:98-125 | a refusal names the first faulty endpoint and its gravest fault: provenance, then freshness, then tension |
| Envelope.GatedLeavesNoMark | src/consolidate/admit.ts:229-234 | drop every gated action from a run and the rest are all admitted again |
| Admit.ShadowImpact | src/curation/shadow.ts:115-119 | an impact is positive and at most one |
| Admit.ImpactMeans | src/curation/shadow.ts:115-119 | an observation costs a twentieth, a contest a tenth, more with the blast and at most one |
| Admit.BudgetMeans | src/curation/shadow.ts:121-124 | half a point, a quarter more per pending action, capped by the logarithm of the vault or one |
| Admit.LivePendingMeans | src/consolidate/admit.ts:139-142 | the pending actions that count are those whose time has not run out |
| Admit.Session.constructor | src/consolidate/admit.ts:91-156 | the session starts unspent with a fixed budget, the last loaded document per path, and exactly the paths of unresolved tensions |
| Admit.Session.EligibleMeans | src/consolidate/admit.ts:166-181 | a document is eligible unless not loaded, invalid, warned of or deprecated by decay, or in a tension open when the session began |
| Admit.Session.Admit | src/consolidate/admit.ts:182-237 | the verdict is the envelope's on the blast of both endpoints and the spend so far; an admission adds its impact, a refusal nothing; a lost journal row is counted and changes no verdict |
| Admit.Session.AdmittedExactly | src/consolidate/admit.ts:166-202 | admitted exactly when both documents are loaded, valid, not formally stale and out of every tension open when the session began, and the cost fits in what is left |
| Pass.ConsolidationPass.Consult | src/consolidate/birth.ts:189-211 | a throwing gate is a refusal that spends nothing |
| Pass.ConsolidationPass.WritesAreEligibleAndPaid | src/consolidate/admit.ts:156-237 | over a whole pass, every edge write is covered by an admission of that action on that pair, touches only eligible documents, and all admissions together stay within the budget |
| Birth.BothOrdersDecide | src/consolidate/birth.ts:146-178 | a direction is trusted exactly when both orders name the same document; given the same two answers, the same edge and vote result whichever of the two documents is being born |
| Birth.BirthPointsAtPremise | src/consolidate/birth.ts:314-345 | the edge of a log that takes a directed birth's record points at the premise both orders agreed on, unless other votes of its cycle dispute it |
| Birth.UnagreedBirthIsSymmetric | src/consolidate/birth.ts:380-423 | a birth whose orders do not agree leaves the pair's edge pointing neither way |
| Birth.BirthAttests | src/consolidate/birth.ts:338-352 | the record attests blind, on the prompt axis, for the observer and model |
| Birth.BirthRecordRuns | src/consolidate/birth.ts:314-400 | a directed record runs from the dependent to the agreed premise, any other from the lesser path to the greater |
| Birth.BirthOne | src/consolidate/birth.ts:233-448 | neighbours are visited in order exactly while both orders are affordable; the events, rows, observations, refusals and calls reported are those of the visits; calls never exceed the budget |
| Birth.VisitActs | src/consolidate/birth.ts:258-423 | a visit asks about an observation exactly when neither order denies the relation, and logs a tension exactly when it then lands an observation on whose direction the orders do not agree |
| Birth.VisitReports | src/consolidate/birth.ts:258-423 | a visit costs no call, one or two, and reports the step that failed or a verdict, marked gated exactly when the gate said no, and the write that was lost |
| Birth.BirthBalances | src/consolidate/birth.ts:258-423 | every edge found is refused, observed or lost in writing, exactly once |
| Birth.VisitedUnique | src/consolidate/birth.ts:253-256 | the call budget alone decides how many neighbours are visited |
| Birth.AffordableMeans | src/consolidate/birth.ts:253-256 | a birth stops just where two more calls no longer fit in the budget, and not before |
| Birth.CallsWithinBudget | src/consolidate/birth.ts:253-256 | model calls never exceed the budget, or zero if it is negative |
| Birth.ActOnEdge | src/consolidate/birth.ts:314-423 | one question to the gate; only then one observation; only then, on a pending direction, one tension |
| Revision.RulingIgnoresOrder | src/consolidate/revision.ts:259-361 | the ruling depends only on the counts; an edge is contested exactly on a strict majority of failures, so never on a lone dissent against a survival |
| Revision.RevisionPanel | src/consolidate/revision.ts:230-419 | polls as many templates as the budget pays for; one question to the gate per panel; ties and empty panels write nothing; what is reported written is what reached the log |
| Revision.PanelFollowsMajority | src/consolidate/revision.ts:294-361 | with as many votes for as against nothing is asked or written; otherwise one question is asked, to observe exactly on a majority of survivals and to contest exactly on one of failures, and what is written is of that kind and follows a yes |
| Revision.PollsAsPaidFor | src/consolidate/revision.ts:225-265 | as many votes as there are templates, panel and budget for |
| Revision.FirstFailureMeans | src/consolidate/revision.ts:259-290 | a contest gives the reason of the first failing vote |
| Revision.PanelAttests | src/consolidate/revision.ts:326-345 | each observation is blind and on an axis of its own |
| Revision.LineageFollowsWrites | src/consolidate/revision.ts:378-400 | one lineage entry is logged, last, exactly when some write landed |
| Revision.PanelBalances | src/consolidate/revision.ts:294-361 | the records a panel lands are as many as it counts, and it is refused at most once |
| Revision.PanelLands | src/consolidate/revision.ts:326-358 | an admitted surviving panel adds just one observation per surviving vote, on distinct axes in order |
| Revision.PanelEarns | src/consolidate/revision.ts:326-358 | on a live edge the count rises by exactly the new attestations of the panel, plus one if it opens with a repeated one after a full gap, up to the cap |
| Revision.AllVotesCount | src/consolidate/revision.ts:1-8 | a panel of n surviving votes raises the edge's count in the log by n exactly when the cap leaves room and each vote is new to the edge or the opening vote after a full gap |
| Revision.SecondPanelEarnsAtMostOne | src/consolidate/revision.ts:1-8 | for panels of any size, the same agent's next panel, no wider than its last and with any observations in between, raises the edge's count in the log by one after a full gap, up to the cap, and by nothing before |
| SessionRun.RunSession | src/consolidate/index.ts:573-730 | over a whole session the observed, contested and gated totals are each exactly the observations and the contests that reached the edge log and the refusals, every write is eligible, and the spend stays within the budget |
| StagedActions.Collapse | src/curation/staged-actions.ts:229-263 | one current row per proposed id, from that id's records alone |
| StagedActions.RowIsLastProposal | src/curation/staged-actions.ts:232-252 | a row has the content of its last proposal, undecided unless a decision came after it |
| StagedActions.RowIsLastDecision | src/curation/staged-actions.ts:253-261 | the last decision after the last proposal settles status and ratification |
| StagedActions.RowNeedsProposal | src/curation/staged-actions.ts:253-257 | a decision alone makes no row |
| StagedActions.ProposalsAreForever | src/curation/staged-actions.ts:225-263 | however the log of an orderly run grows, what was proposed stays proposed, word for word |
| StagedActions.StagedLog.StageActionWithConflictCheck | src/curation/staged-actions.ts:418-474 | the id was nowhere in the log, the new row is pending word for word as proposed until the expiry answered, every other row is untouched, and the conflicts named are exactly the proposals already pending on that target |
| StagedActions.InputMeans | src/curation/staged-actions.ts:318-342 | what may be staged: one of the eight actions, on a target, by somebody, with a reason, a diff and a time to live |
| StagedActions.ContendersMean | src/curation/staged-actions.ts:425-436 | a staged row contends with its own target and no other, a decided or expired one with none |
| StagedActions.StagedLog.RecordDecision | src/curation/staged-actions.ts:480-519 | the row returned is the one the appended log collapses to; an unknown id or a failed append changes nothing |
| StagedActions.StagedLog.SweepExpiredActions | src/curation/staged-actions.ts:599-626 | one expiry per pending row past its date, soonest first; a failing append leaves exactly the expiries before it |
| StagedActions.SweepMeans | src/curation/staged-actions.ts:599-626 | the sweep takes exactly the pending rows past their expiry, soonest first, and leaves each expired, now, by the sweeper |
| StagedActions.SweepSettles | src/curation/staged-actions.ts:595-626 | after a sweep nothing pending is past expiry, all other rows are as they were, and sweeping again then or for an earlier time finds nothing |
| StagedActions.InterruptedSweepResumes | src/curation/staged-actions.ts:611-624 | a sweep cut short is finished by the next: what is left is exactly the rest |
| StagedActions.ExpiriesTouchTheirRows | src/curation/staged-actions.ts:611-621 | expiry records change the rows they name and no others |
| StagedActions.StagedLog.ListStagedActions | src/curation/staged-actions.ts:522-533 | exactly the current rows with the wanted status, each once |
| Locks.LockTable.AcquireLock | src/access/locks.ts:95-134 | granted exactly when the path is free or already the caller's, then held for a full TTL; otherwise the live holder and its remaining time are named |
| Locks.LockTable.ReleaseLock | src/access/locks.ts:140-152 | drops the caller's own lock; a non-holder's release changes nothing |
| Locks.GrantsDoNotOverlap | src/access/locks.ts:95-152 | in any run with a clock that never goes back, two holders granted one path in turn are separated by a release of the first or by its TTL |
| Locks.HeldThroughout | src/access/locks.ts:95-134 | a granted holder keeps the path until it releases it or the TTL runs out |
| Locks.NothingStaysWedged | src/access/locks.ts:3-9 | a TTL after the last call anybody can take any path |
| Locks.RefusalHasCause | src/access/locks.ts:113-121 | a refusal means somebody else was granted the path within the last TTL and has not released it |
| GitBatch.DecodeBatch | src/asof/git-read.ts:140-161 | the loop over the stream computes the decoding |
| GitBatch.DecodeInvertsFraming | src/asof/git-read.ts:134-161 | for newline-free paths and any bytes whatever, decoding what git answers gives exactly the present paths with their bytes |
| GitBatch.RoundTripExactly | src/asof/git-read.ts:99-165 | every repository is read right exactly when no path asked for has a newline, also when all the paths are the commit's own |
| GitBatch.NewlinesAreReadWrongly | src/asof/git-read.ts:91-164 | for every list of paths with a newline in one, a repository that has them all and is read wrongly |
| GitBatch.TruncationReportedExactly | src/asof/git-read.ts:143-160 | a stream cut short is reported exactly when the cut comes before the last reply's payload; a later cut goes unnoticed and shortens that content |
| GitBatch.NewlinePathMisaligns | src/asof/git-read.ts:164 | a path with a newline is two requests; when neither half names anything, the reply to the second stands for the next path, whose content is lost |

## Left out

- Floating point: rounding, non-finite numbers and real powers and logarithms. Aging is an arbitrary function of the age; the 1.5th power and the logarithm of the document count are inputs with the stated properties.
- Numbers beyond 2^53 in ids, and number spellings other than decimal digits in a git header.
- Clocks.EventDue: two edges with the same (from, to) key may differ in strength; then the strength reported is that of one of them.
- EdgeStore.Vault.ExternalAppend: the log is only ever appended to; a log replaced or cut by another program is not modelled.
- EdgeStore.Vault.ObserveEdge: of the input checks only the self-edge is modelled; non-empty fields, known axes and parseable dates are given by the types.
- EdgeLog.ReplayGuard: an attestation is a triple of observer, axis and model; the program joins the three with newlines, so triples whose parts hold newlines could be taken for one another.
- EdgeStore.ListingUnique: paths are ordered totally; the program's locale comparison may hold two different paths equal, and then leaves them in the order found.
- Chains.ComputeChains: takes one document per path, as files in a vault are.
- SupersedeChains.SupersedeChainFindings: takes one document per path, and base names as a function of the path; link parsing itself is not part of this model.
- Board.Reconcile: a finding's display fields travel as one descriptor; identity keys, filters and column grouping (src/board/identity.ts, src/board/board.ts:134-250) are not modelled beyond a filter predicate.
- BoardRuns.RunsReopenOnceExactly: takes listings one after the other; overlapping listings may each reopen or resolve a finding, and for them only BoardRuns.OverlapsRootedExactly is stated.
- BoardRuns: events appended by the board-resolve tool are not part of the run.
- Positions: the order of compared positions, dissent ids and qualifying dissent tensions.
- Positions.Claim.TakePosition: tensions name positions of one document, so another document's tensions, and a second logging of a pair already open, do not arise.
- Admit.Session.constructor: path canonicalization, the decay rules themselves and the building of the reverse citation maps; they come in as data.
- Pass.ConsolidationPass.WritesAreEligibleAndPaid: speaks of the tensions open when the session began, the only ones the gate looks at; a direction tension logged during the pass does not keep the rest of that pass off its documents.
- Birth.BirthOne: token counts, prompt text, claim snippets, reader annotations, the trace record, and the caller's suppression of a repeated open tension; an unlimited call budget is any number large enough.
- Revision.RevisionPanel: token counts and the trace record; all writes of one panel carry one timestamp.
- SessionRun.RunSession: shadow mode, the deferred birth-processed map and exit codes; edges pending in direction are left out of the queue by the caller.
- StagedActions.StagedLog.StageActionWithConflictCheck: text fields arrive trimmed, the time to live is a whole number of days, and the tension's wording is not modelled.
- StagedActions.StagedLog.SweepExpiredActions: timestamps are written to the millisecond, not the second; ties in expiry date come in an arbitrary order rather than by id.
- Locks.LockTable.AcquireLock: database errors, and locks shared by several processes.
- GitBatch.DecodeInvertsFraming: decoding bytes to text, and what git does beyond answering each input line in order with the object it names or `missing`.
- Paging of lint pages, canon topic and resolve, staleness, describes entries, identity keys, the decay backstop and birth queues, and shadow-mode spending: single-pass computations whose properties are easier than those above.
- Signing and bundles, the server, command-line front ends, storage engines and model prompts.
