# A verified model of ZChain's consensus, wallet and bridge logic

ZChain is a poker L1 node (DAG consensus, Rust) with a browser wallet (JavaScript) and a settlement
bridge (Python). This project models the parts of it that carry a protocol or an argument, and proves
what they are for. `dafny verify dfyconfig.toml` checks everything.

The modules, with the question each one answers:

- `Quorum`, `VoteCollector`, `CommitPins`, `CommitNetwork`: can two different certificates be assembled
  for one (epoch, commit round)? The pool of commit votes and the pin table are classes; the network of
  n validators, at most f of them faulty and n >= 3f + 1, is a state machine whose runs interleave votes,
  deliveries, assemblies, imports, prunes and epoch changes in any order.
- `Dag`, `Wave`, `Projection`, `WaveScan`: can two validators with different views of the DAG commit and
  skip the same leader, or project different histories for it? The wave evaluation, the fail-closed
  projection and the wave scan are methods with loops, proved against set-valued definitions; agreement
  between views is proved about those definitions. `FullDag` is a concrete DAG of four validators on
  which their premises hold.
- `CommitLoop`, `CommitChain`: the vote loop over the picks of a scan, runs of such cycles, and the chain
  that the loops of all validators extend together. When does the cursor leave a round behind that nothing
  has settled?
- `Fold`, `Epochs`: the set of committed vertices and the epoch of the loop against the chain they are
  derived from.
- `Batching`, `Framing`, `Repair`, `PeerExchange`: packing transactions, carrying messages, fetching
  missing vertices and gossiping addresses.
- `CoinSelection`, `TransferPreview`, `Amounts`: choosing notes, previewing a transfer and checking it
  again, printing and parsing amounts.
- `Sessions`, `SessionRuns`: limits and revocation of session keys, with admission, the user's decision
  and recording as separate steps of overlapping requests, and with load and save as separate steps of
  recording, registering, revoking and deleting.
- `Receipts`, `ReceiptTasks`: the lock on notes in flight, with check, load and save as separate steps of
  overlapping confirmations.
- `Bridge`: anchoring settlements by account nonce against lagging replicas.
- `Aggregate`: the aggregate root, with the hash left uninterpreted.
- `Seqs`, `Bytes`, `Text`: shared helpers.

## Premises

- **Hashes do not collide.** `CommitNetwork.Config.slotOf` reads the (epoch, commit round) behind a
  certificate hash, and one map from hashes to vertices serves all views of the DAG (`Dag`). In
  `Aggregate` nothing is assumed: collisions come out of the theorem.
- **One validator set and one epoch** for everything about the DAG (`Wave` to `WaveScan`), with
  n >= 3f + 1. Honest authors produce one vertex per round, which `put_vertex` enforces per store and
  production per author. That every vertex was admitted is kept by `Repair.PassKeepsAdmitted`.
  Uniqueness of certificates is per (epoch, commit round).
- **Pins are in memory**, so runs of `CommitNetwork` have no restarts.
- `WaveScan.ParentsAtHand`: the live DAG holds the parents of what it holds, except below committed
  vertices.
- `CommitLoop.BlocksComplete`: blocks of other validators contain the parents of their vertices, as far
  as those were not committed before. `CommitChain.ChainComplete` derives it for a chain on which every
  block was landed with the failures before it covered; `CommitChain.UncoveredLandingIsIncomplete` shows
  that this is needed. There each fold reaches the tip; `Fold.OneGenerationIff` says when it does.
- In `SessionRuns` and `ReceiptTasks` any two messages may overlap. What the code then guarantees is
  stated as conditions that are both sufficient and necessary; the theorems over guarded runs name the
  guards the code does not have. The interleaved steps are those of one account.
- `Bridge`: stream mode, one writer per account, an append-only index that names each binding once, and
  a chain that is not reset. That reads do not go back is a premise of `Bridge.NoGhostAnchors` only.

## Where the code differs from what it says

- `src/main.rs:267-268` and `src/main.rs:289` describe the vote pool as keyed by commit round; the code
  keys it by height (`src/main.rs:299-306`). The two agree because commit rounds equal heights, which is
  part of the invariant `CommitNetwork.Inv`.
- The pool is keyed by slot but searched by hash, and a vote's epoch, round and height fields are not
  covered by its signature. One signer can then be counted several times by the assembler
  (`VoteCollector.OneSignerCountedThrice`). The assembler counts signers exactly when no signer filed
  votes for that hash under two slots (`VoteCollector.SigPairsCountSigners`); the index check on the
  certificate catches the other case.
- Pins are pruned against a tip that is read again after the snapshot the vote is bound to
  (`src/main.rs:3815-3834`, `src/main.rs:4195-4207`). A block that lands in between lets a validator
  sign a second certificate for a decided round without any release: `CommitNetwork.LateVoteSignsTwice`
  is such a run. `CommitNetwork.ConflictingCertificates` therefore names both ways of signing twice, and
  `CommitNetwork.AtomicConflictNeedsReleases` is the statement without the second one. For a single vote
  from the current tip, contradiction means release and nothing else
  (`CommitNetwork.CurrentSnapshotContradictsOnlyByRelease`), and `CommitNetwork.PinProtectsIff` says for a
  vote from any snapshot exactly when the pin protects it.
- A pick whose block is refused does not end the vote loop (`src/main.rs:3217-3222`, `src/main.rs:4909-4915`),
  nor does a failed statement hash (`src/main.rs:4727-4729`). The comment at `src/main.rs:4688` keeps the
  cursor on a pick until its block lands, but each later pick moves it on before its own fate is known
  (`src/main.rs:4689`). `CommitLoop.CycleSettles` says exactly when a cycle still settles every
  round it leaves, `CommitLoop.RunSettles` says it for runs, and `CommitLoop.RefusedBlockIsLeftBehind` is
  a cycle that does not: its second block commits a leader whose parent is not committed.
- The loop folds before it follows the node into a new epoch (`src/main.rs:3741-3800`), so certified
  vertices of the new epoch can be wiped from the committed set with those of the old one.
  `Fold.CoversEpochExactly` says exactly when, `Fold.FollowAfterFold` shows a case.
- Gossip frames a message without looking at the size cap that every receiver enforces, and its length
  field wraps at four gigabytes (`src/main.rs:1748-1753`): `Framing.BroadcastReceivedIff`. In a stream that
  several writers share, everything from the first oversize message on is lost:
  `Framing.MergeEndsAtFirstOversize`.
- With `decimals: 0` the display form of an integer ends in a bare point, is not grouped and does not
  parse back: `Amounts.DisplayThenParse`.
- The proof gate is applied after the notes are chosen (`extension/common/transfer_preview.js:130-155`),
  so a payable transfer can be refused. `TransferPreview.GateHarmlessIff` says for which libraries it
  cannot; `TransferPreview.GateAfterChoiceRefusesPayable` is a library for which it is.
- Deleting a binding is documented as the only way out of revocation
  (`extension/common/sessions.js:263`); registering the same id again is another one:
  `Sessions.RegisteringClearsRevocation`.
- Admission and recording of a session spend are separated by the user's decision in the service worker
  (`extension/background/service_worker.js:520-570`), and the admission does not see what is under way.
  `SessionRuns.LimitHoldsIff` says when the daily limit holds however the requests under way are
  recorded, `SessionRuns.AdmissionSafeIff` when one more admission is safe, and
  `SessionRuns.OverlapsPassAnyLimit` that the code by itself bounds nothing;
  `Sessions.AdmitTwiceBeforeRecording` is the smallest case.
- The daily account is one day and one amount (`extension/common/sessions.js:376-379`). It forgets a day
  exactly when the clock leaves that day and returns after a spend: `SessionRuns.AccountExactIff`,
  with `Sessions.ClockBackSpendsTwice` as a case.
- Recording, registering and deleting load the registry and write a changed copy back
  (`extension/background/service_worker.js:562-566`, `extension/background/service_worker.js:2377-2380`,
  `extension/background/service_worker.js:2405-2408`), so each of them can undo a revocation made in
  between, also one of another binding. `SessionRuns.RevocationSticksIff` says exactly when none under way
  does; `SessionRuns.OtherWriterUndoes` is such a run. Recording also charges expired and revoked
  bindings: `SessionRuns.RecordingAsksPresenceOnly`.
- A confirmation is checked against the receipts, then awaits its signature, and only then loads and
  rewrites them (`extension/background/service_worker.js:2490-2529`, `extension/background/service_worker.js:610-616`);
  every message runs as its own task (`extension/background/service_worker.js:2681-2706`). Two overlapping
  confirmations can lock one note twice, or the second can write over the first one's receipt:
  `ReceiptTasks.DisjointIffNoOverlap` and `ReceiptTasks.NothingLostIffAlone` say exactly when not,
  `ReceiptTasks.OverlappingConfirmations` and `ReceiptTasks.LostReceiptFreesNote` are such runs.
- The lock on notes in flight compares commitments letter by letter while the proof check ignores case:
  `Receipts.LockSeesEverySpellingIff`. At the cap of twenty receipts a new one releases the locks of the
  oldest: `Receipts.LocksSurviveOpeningIff`.
- For the bridge it is not enough that reads stay at or above the last confirmed nonce:
  `Bridge.AboveConfirmedIsNotEnough`. `Bridge.WrongRecordIff` and `Bridge.RecordsRightIff` say, by the
  bridge's own log, exactly which records can be wrong.

## Model

| member | source | states |
|---|---|---|
| Quorum.RequiredQuorum | poker_l1/src/consensus/vertex_production.rs:68-77 | the quorum is the least number above two thirds of the validators |
| Quorum.QuorumOverlap | src/main.rs:298-303 | two quorums share at least 2q - n validators, and at least one |
| Quorum.HonestOverlap | poker_l1/src/consensus/vertex_production.rs:68-77 | with n >= 3f + 1 two quorums share an honest validator, at least 2q - n - f of them |
| VoteCollector.Collector.AddVote | src/main.rs:297-326 | the pool afterwards, as a function of the pool before; exactly the added vote's choice remains for its key |
| VoteCollector.AddedExactly | src/main.rs:312-326 | a vote already held changes nothing, even in a full pool; any other is put last, after what is kept of the pool in order: all of it but the signer's earlier choice, and of a full pool not its oldest quarter |
| VoteCollector.Collector.DrainForHash | src/main.rs:328-336 | removes exactly what peeking shows, keeps the rest in order, loses nothing |
| VoteCollector.PeekedFacts | src/main.rs:343-350 | peeking shows every pooled vote for the hash and no other, in pool order and as often as it is pooled; of a valid pool none twice and one per key |
| VoteCollector.AddedKeepsOthers | src/main.rs:312-326 | only the signer's own earlier choice and, in a full pool, the oldest quarter make room |
| VoteCollector.RunInvariant | src/main.rs:279-336 | over every run of adds and drains: one vote per (epoch, height, signer), at most 8192 votes, and a surviving entry chooses what its signer added last |
| VoteCollector.DrainSplitsPool | src/main.rs:328-336 | draining and the remainder together are the pool, both keep its order, other hashes are untouched |
| VoteCollector.PeekSurvivesDrain | src/main.rs:328-350 | draining one hash does not change what peeking shows for another |
| VoteCollector.SigPairsCountSigners | src/main.rs:4781-4839 | the number of signature pairs is the number of distinct signers if and only if no signer's votes for the hash are filed under two slots |
| VoteCollector.OneQuorumPerHeight | src/main.rs:290-296 | after any run of adds and drains, the signers filed for two hashes at one height are disjoint, so at most one hash has a quorum there |
| VoteCollector.AssemblerCountsOneHeight | src/main.rs:4781-4839 | what the assembler counts is the count at one height if and only if every counted vote is filed at that height |
| VoteCollector.TwoQuorumsNeedTwoSlots | src/main.rs:343-350 | two hashes with a quorum each in one pool need votes filed under different slots |
| VoteCollector.OneSignerCountedThrice | src/main.rs:343-350 | one signer filed under three heights reaches the quorum of a four-validator set |
| CommitPins.PruneDecides | src/main.rs:4195-4207 | after pruning every later request above the tip is decided as before, and every other one as if its slot had never been pinned; pruning again changes nothing |
| CommitPins.PinTable.Request | src/main.rs:4732-4763 | first vote, repeated vote, refusal inside the window or release after it, with the pin table afterwards; what this means over a run of requests is the next row |
| CommitPins.AnswersOverRuns | src/main.rs:4732-4763 | for every run of requests for a slot, in terms of requests and answers alone: the first is answered as first; a later one is a repeat for the certificate of the last switch (the last first vote or release), and for another one a release if and only if the full 5000 ms have passed since the request that made the switch, otherwise a refusal |
| CommitPins.SlotsAreSeparate | src/main.rs:4732-4763 | what is pinned for one slot changes no answer for another |
| CommitPins.EquivocationTakesTime | src/main.rs:3707-3714 | signing k + 1 certificates for one slot takes k releases and k full windows of five seconds |
| CommitNetwork.OwnVote | src/main.rs:4732-4779 | an honest vote keeps pins, log and releases of the voter consistent |
| CommitNetwork.NextKeepsPools | src/main.rs:2375-2410 | every pooled vote carries a signature its signer really made, and no key is held twice |
| CommitNetwork.NextKeepsRounds | poker_l1/src/node/mod.rs:2519-2531 | the commit round of a block equals its height, after every step |
| CommitNetwork.AssembledIsBacked | poker_l1/src/consensus/cert_verification.rs:64-111 | an assembled certificate that passes the index check holds signatures of a quorum of different validators |
| CommitNetwork.RunKeepsInv | src/main.rs:4190-4915 | the whole invariant holds in every state of every run |
| CommitNetwork.ChainsStepByOne | poker_l1/src/node/mod.rs:2488-2531 | on every chain of every run the certificates follow each other by one round and at most one epoch |
| CommitNetwork.OwnVoteIsFiled | src/main.rs:4764-4779 | a vote that is cast is in the own pool, filed at the height that is its commit round |
| CommitNetwork.ConflictingCertificates | src/main.rs:4732-4839 | two certificates for one (epoch, commit round) share at least 2q - n - f >= 1 honest signers, each through a timed release or a vote at a height it had already imported |
| CommitNetwork.CertificateUnique | src/main.rs:4732-4839 | without either escape the certificate of a slot is unique |
| CommitNetwork.SlotCanBeDecided | src/main.rs:4732-4839 | progress from every reachable state: when a quorum of honest validators stands below a slot and their pins allow it, their votes certify the certificate, and every chain it fits on, one round and at most one epoch further, can import it |
| CommitNetwork.AtomicCyclesNeverVoteLate | src/main.rs:3803-3814 | when every vote is cast from the current tip no vote is ever late |
| CommitNetwork.AtomicConflictNeedsReleases | src/main.rs:4732-4763 | with atomic cycles only releases after the full window can produce a second certificate |
| CommitNetwork.ChainsAgree | poker_l1/src/node/mod.rs:2488-2531 | two chains with the same epoch at a height carry the same certificate there, unless an honest validator escaped its pin |
| CommitNetwork.CurrentSnapshotContradictsOnlyByRelease | src/main.rs:4732-4763 | a vote from the current tip contradicts an earlier one if and only if it is a release |
| CommitNetwork.StaleSnapshotIsUnprotected | src/main.rs:4195-4207 | after pruning, a vote bound to a decided height meets no pin |
| CommitNetwork.PinProtectsIff | src/main.rs:4195-4207 | a vote from any snapshot contradicts an earlier one only as a timed release if and only if the snapshot is still the tip or there is nothing to contradict |
| CommitNetwork.LateVoteSignsTwice | src/main.rs:4195-4207 | a run without any release in which an honest validator signs two certificates for one slot |
| Dag.InsertKeepsValid | poker_l1/src/consensus/bullshark.rs:100-120 | insertion keeps the index by round exact and is idempotent |
| Dag.RoundVerticesExact | poker_l1/src/consensus/bullshark.rs:127-150 | the vertices of a round are exactly those stored with its number, and none lies above the highest round |
| Wave.CoversQuorum | poker_l1/src/consensus/bullshark.rs:521-533 | whether the parents of a vertex hold votes of a quorum of distinct authors |
| Wave.CountVotes | poker_l1/src/consensus/bullshark.rs:498-513 | the supporters, one per author, and exactly the authors of non-supporters |
| Wave.CountCertificates | poker_l1/src/consensus/bullshark.rs:514-536 | the certificates, one per author |
| Wave.EvaluateLeaderWave | poker_l1/src/consensus/bullshark.rs:491-545 | over the stored vertices: commit if and only if at least a quorum of authors have a vertex two rounds up whose parents contain supporting vertices by a quorum of authors; otherwise skip if and only if a quorum of authors have a vertex one round up that does not name the leader; with the witnesses returned |
| Wave.CommitsOnVertices | poker_l1/src/consensus/bullshark.rs:514-541 | a leader commits if and only if some set of RequiredQuorum(n) authors each have such a certifying vertex |
| Wave.SkipsOnVertices | poker_l1/src/consensus/bullshark.rs:498-545 | a leader is skippable if and only if some set of RequiredQuorum(n) authors each passed over it |
| Wave.CommitHasVoteQuorum | poker_l1/src/consensus/bullshark.rs:491-545 | behind every commit stands a vote quorum of distinct validators |
| Wave.CommitExcludesSkip | poker_l1/src/consensus/bullshark.rs:491-545 | a leader committed in one view is skipped in none, with equivocating faulty authors |
| Wave.CommittedLeaderUnique | poker_l1/src/consensus/bullshark.rs:491-545 | all views together commit at most one vertex of an author and round |
| Wave.CommittedLeaderIsRemembered | poker_l1/src/consensus/bullshark.rs:491-545 | every admitted vertex two rounds above a committed leader has it among its ancestors |
| Projection.SortCanonical | poker_l1/src/consensus/bullshark.rs:342-353 | the given vertices in the order (round, author, hash), each once |
| Projection.CanonicalIsUnique | poker_l1/src/consensus/bullshark.rs:342-353 | a set of vertices has one canonical order |
| Projection.ParentsComeFirst | poker_l1/src/consensus/bullshark.rs:342-353 | a canonical order lists the parents of a vertex before the vertex |
| Projection.AttemptCommitProjection | poker_l1/src/consensus/bullshark.rs:295-358 | either the whole uncommitted history in canonical order, or exactly the missing vertices and nothing else |
| Projection.ProjectionKeepsClosed | poker_l1/src/consensus/bullshark.rs:295-358 | committed vertices plus a complete projection are closed under parents |
| Projection.LocalWalksSuffice | poker_l1/src/consensus/bullshark.rs:295-358 | without gaps, the local history is the whole history |
| Projection.ProjectionsAgree | poker_l1/src/consensus/bullshark.rs:295-358 | two views with complete projections from one committed set project the same sequence |
| Projection.ReportedRoundIsTrue | poker_l1/src/consensus/bullshark.rs:295-358 | the round reported for a missing vertex is its round |
| WaveScan.FindLaterCommit | src/main.rs:4351-4389 | the first committing wave from three rounds above, or none exists |
| WaveScan.LeadersTakeTurns | poker_l1/src/consensus/bullshark.rs:551-553 | in every cycle of n rounds the n validators lead in the order of the list |
| WaveScan.SettleUndecided | src/main.rs:4338-4440 | an undecided round advances if and only if a later wave commits with complete history; it waits quietly if and only if nothing later commits and the frontier is less than six rounds above; otherwise it asks for repair |
| WaveScan.SettleRound | src/main.rs:4242-4460 | what becomes of one round: a leader that is absent ages out at six rounds and is otherwise fetched, a committed one is passed, a committing one is picked with its exact projection or waits for its missing history, a skipped one is passed, an undecided one waits for an anchor |
| WaveScan.ScanWaves | src/main.rs:4230-4466 | the scan ends; rounds of picks increase, at most eight; every round passed is settled; it stops only at an open round; the cursor never moves back; missing vertices are requested exactly at an open round that is not undecided, quiet and young |
| WaveScan.PicksDisjoint | src/main.rs:4242-4345 | projections of one cycle are disjoint from each other and from the committed set |
| WaveScan.TakenLeaderIsProjected | src/main.rs:4281-4345 | a picked leader is in its own projection |
| WaveScan.CommittedLeaderIsAtHand | src/main.rs:4441-4456 | a leader committed anywhere is in every view two rounds ahead, or already committed there |
| WaveScan.AnchorAbsorbs | src/main.rs:4338-4440 | an anchor's complete history contains every leader any validator committed two rounds below |
| WaveScan.ScanNeverDropsCommittedLeader | src/main.rs:4230-4466 | fork safety: a leader committed in any view is never skipped, indirectly skipped or aged out by another scan |
| FullDag.PremisesOccur | src/main.rs:4230-4466 | the premises of the agreement results hold together in a view of four validators, one of them faulty |
| CommitLoop.CommitPicks | src/main.rs:4478-4916 | committed afterwards is exactly what was committed before, what other blocks brought before every visited pick but the first, and the projections that landed; the cursor is the round of the last visited pick, and one more if it landed |
| CommitLoop.CycleSettles | src/main.rs:4644-4916 | every round the cursor left is settled if and only if each pick that failed with the loop going on was committed by somebody else's block; then the committed set also stays closed under parents; the cursor never moves back |
| CommitLoop.UndisturbedCycle | src/main.rs:4903-4915 | without blocks from others: all rounds left are settled and the set is closed if and only if no failed pick is followed by a visited one |
| CommitLoop.RefusedBlockIsLeftBehind | src/main.rs:3215-3223 | a refused first block and a landed second one leave round 1 unsettled and commit a leader without its parent |
| CommitLoop.RunSettles | src/main.rs:3741-4920 | over runs of cycles with any views and folds: no cycle leaves a round unsettled if and only if every cycle's failures are covered |
| CommitLoop.RunKeepsCommittedLeaders | src/main.rs:4230-4916 | over runs: a leader committed in any view, of a round this cursor has passed, is committed here or in the history of the wave that settled the round |
| CommitLoop.NoLeaderLeftBehind | src/main.rs:4230-4916 | over runs: once a vertex two rounds above a leader committed anywhere is committed, so is the leader |
| CommitChain.ChainComplete | src/main.rs:4644-4916 | when every block was landed with the failed picks before it covered by then, every block of the chain holds the missing parents of its vertices |
| CommitChain.NetworkCycleSettles | src/main.rs:4644-4916 | on such a chain any validator's cycle meets the premises about blocks, and settles the rounds it leaves if and only if its failures are covered |
| CommitChain.NetworkRuns | src/main.rs:3741-4920 | on such a chain the cycles of any validator form a run, without assuming anything of the blocks of others |
| CommitChain.UncoveredLandingIsIncomplete | src/main.rs:3215-3223 | a block landed over a refused one lacks a parent of its leader |
| Fold.CommittedSet.FoldCommitted | src/main.rs:3379-3408 | at most 256 heights, up to the tip or a gap, from a set that landed blocks may already have extended; at the tip the set is the union of the certified vertices of its segment; the tip is reached if and only if it is at most 256 heights away, on a contiguous store |
| Fold.CommittedSet.Land | src/main.rs:3200-3215 | a block of this validator extends the set at once and leaves the fold position |
| Fold.OneGenerationIff | src/main.rs:3803-3834 | whatever was landed, the set belongs to the tip if and only if the fold reached the tip |
| Fold.CommittedSet.FoldAtStartup | src/main.rs:3695-3704 | on a contiguous store the loop ends at the tip in at most tip / 256 + 2 calls |
| Fold.CommittedSet.ClearForEpoch | src/main.rs:3767-3800 | entering an epoch starts a new segment at the fold position |
| Fold.FoldEndBounds | src/main.rs:3379-3408 | how far one call gets on any store |
| Fold.GrowingStoreKeepsSegment | src/main.rs:3379-3408 | blocks added later do not change a folded segment |
| Fold.CoversEpochExactly | src/main.rs:3741-3800 | the set covers the epoch if and only if no non-empty block of it was folded before the clearing |
| Fold.FollowAfterFold | src/main.rs:3741-3800 | folding first and following the epoch next loses a certified vertex |
| Epochs.AdvanceEpoch | src/main.rs:4929-4995 | without a tip nothing changes; a tip of a later epoch is caught up with, one of an earlier epoch ignored, and at a tip of this epoch the rule moves one on exactly when the commit round less one is a positive multiple of 100000; one DAG reset per epoch entered |
| Epochs.StampAtBoundary | src/main.rs:4946-4950 | a certificate's stamp equals the catch-up epoch except one less exactly at a boundary |
| Epochs.ObservedIsBounded | src/main.rs:4929-4995 | the rule never runs ahead of the catch-up formula, whatever tips it sees |
| Epochs.TwoPassesReachCatchUp | src/main.rs:1637-1643 | two passes at a tip reach exactly the catch-up epoch and then rest |
| Epochs.OnePassSuffices | src/main.rs:4929-4995 | one pass is enough if and only if the loop is not behind the stamp or the tip is not at a boundary |
| Batching.SplitTxsIntoBatches | src/main.rs:2806-2835 | the batches concatenate to the input, each fits or is a single transaction, and no such split of the input is shorter |
| Batching.FitsMeans | src/main.rs:2806-2835 | a batch fits if and only if it is a single transaction, or without bytes, or leaves 256 bytes of the size limit for the header |
| Batching.DecideStep | src/main.rs:2818-2829 | the saturating sizes decide as the true totals do |
| Batching.GreedyStaysAhead | src/main.rs:2806-2835 | after i batches the packer has covered at least as much as any split has in i batches |
| Batching.MaximalIsMinimal | src/main.rs:2806-2835 | a split that closes a batch only when it must is a shortest one |
| Framing.Stream.Send | src/main.rs:2100-2113 | writes one frame or, over the cap, nothing |
| Framing.Stream.Broadcast | src/main.rs:1748-1770 | writes a frame whatever its size |
| Framing.Stream.Recv | src/main.rs:2134-2149 | message, clean close or failure, and what stays unread |
| Framing.Stream.RecvAll | src/main.rs:2134-2149 | reading to the end yields what the decoder specifies |
| Framing.FrameLayout | src/main.rs:2100-2113 | four bytes of length, the most significant first, then the message; the cap is 16 MiB |
| Framing.FramesDecode | src/main.rs:2100-2149 | any list of messages within the cap decodes to itself with a clean end |
| Framing.TruncationDecodesPrefix | src/main.rs:2134-2149 | a cut anywhere delivers exactly the complete messages; the end is clean if and only if fewer than four bytes of the next frame arrived |
| Framing.DecodedWasFramed | src/main.rs:2134-2149 | for arbitrary bytes, whatever is delivered came in well-formed frames |
| Framing.BroadcastReceivedIff | src/main.rs:1748-1770 | for bodies of any size: a broadcast message is received if and only if it is within the cap, or its length wraps and the shortened body decodes to it |
| Framing.LockedWritersMerge | src/main.rs:2116-2130 | direct and gossip writers taking one lock: without an oversize gossip message all messages arrive in lock order and each writer's own in its order |
| Framing.MergeEndsAtFirstOversize | src/main.rs:1748-1770 | with one, the reader gets everything before the first of them and, unless its length wraps, nothing after |
| Repair.ValidateVertex | poker_l1/src/node/mod.rs:2022-2172 | accepted if and only if every check passes; each refusal is reported exactly when its check is the first that fails |
| Repair.ValidateParents | poker_l1/src/node/mod.rs:2112-2169 | the scan of the parents accepts exactly distinct parents of the round before, one per active author, a quorum of them |
| Repair.RequestVerticesByRange | src/main.rs:1900-1958 | the union of all answers, each vertex once, in the order (round, author, hash); fails exactly without peers or without any answer |
| Repair.MergeDependsOnUnion | src/main.rs:1921-1958 | order, repetition and failures of peers do not change the merged order |
| Repair.Node.PutVertex | poker_l1/src/node/mod.rs:1985-1996 | the store and then the live DAG change exactly on acceptance |
| Repair.Node.RepairMissingVertices | src/main.rs:2919-2965 | store, live DAG and number of accepted vertices after one pass |
| Repair.PassKeepsClosed | src/main.rs:2934-2956 | whatever the peers answered, the store stays closed under parents |
| Repair.AdmissibleIff | poker_l1/src/node/mod.rs:2112-2169 | the check on the parents of a vertex is exactly what the agreement results assume of it, for parents listed once and by validators |
| Repair.PassKeepsAdmitted | src/main.rs:2934-2956 | whatever the peers answered, every vertex of the store meets that assumption |
| Repair.PassKeepsOnePerSlot | src/main.rs:2934-2956 | whatever the peers answered, the store never holds two vertices of one author and round |
| Repair.FirstOfPairWins | src/main.rs:2934-2956 | of an equivocating pair the second is refused once the first is in |
| Repair.NextAcceptedIff | src/main.rs:2934-2956 | the next vertex of a pass is accepted if and only if it is sound and its missing history was returned and is sound |
| Repair.RepairAcceptsExactly | src/main.rs:2919-2965 | a pass over answers with any bad vertices accepts exactly those that are sound with a sound history, stored or returned; only two sound vertices in one slot are excluded |
| Repair.OnePassIsEnough | src/main.rs:1921-1958 | one pass admits everything returned if and only if all of it and every missing ancestor was returned and sound |
| PeerExchange.Transport.MergeDiscoveredPeers | src/main.rs:1361-1390 | the table after an announcement and the addresses added to it |
| PeerExchange.FullTableStays | src/main.rs:1374-1380 | stopping at a full table loses nothing that would have been added |
| PeerExchange.LearnedOrFull | src/main.rs:1361-1390 | every dialable announced address is known afterwards or the table is full |
| PeerExchange.LearnsOnlyAnnounced | src/main.rs:1361-1390 | nothing is added but announced dialable addresses, and none twice |
| PeerExchange.GossipTerminates | src/main.rs:2464-2486 | no schedule of deliveries is longer than the messages in flight plus the degree times the free slots |
| PeerExchange.ForwardsBounded | src/main.rs:2480-2486 | a node forwards at most once per free slot, at most 256 times |
| PeerExchange.StartIsServed | src/main.rs:2464-2486 | when every node announces its table on connecting, what it offers is known to its neighbours or under way |
| PeerExchange.QuietMeansShared | src/main.rs:2464-2486 | when nothing is in flight, what a node offers is known to each neighbour whose table is not full |
| PeerExchange.GossipInforms | src/main.rs:2464-2486 | from that start, every schedule that empties the network informs each neighbour whose table has room |
| PeerExchange.KnownAlongPaths | src/main.rs:2464-2486 | in a quiet network without full tables, an address is known along every path |
| CoinSelection.SelectNotes | extension/common/transfer_preview.js:61-79 | the shortest sufficient prefix of the spendable notes in selection order, its sum, and whether it covers |
| CoinSelection.SelectionOrder | extension/common/transfer_preview.js:61-70 | of two notes in selection order the first is worth more, or as much with a commitment that does not come later in text order |
| CoinSelection.LargestFirstIsBest | extension/common/transfer_preview.js:61-79 | no choice of k notes is worth more than the first k in descending order |
| CoinSelection.CoversIffTotalCovers | extension/common/transfer_preview.js:61-79 | the selection covers the target if and only if all spendable notes do |
| CoinSelection.FewestNotes | extension/common/transfer_preview.js:61-79 | no other way to pay uses fewer notes |
| CoinSelection.LimitedIffAnyLimited | extension/common/transfer_preview.js:147-153 | within a limit on inputs the greedy choice pays if and only if any choice does |
| CoinSelection.ChangeBelowEveryNote | extension/common/transfer_preview.js:130-131 | the change is smaller than every selected note |
| TransferPreview.BuildTransferPreview | extension/common/transfer_preview.js:102-210 | which inputs are refused and why; submittable exactly under the stated conditions, sixteen notes at most among them; a submittable preview conserves value; the operation describes it, expires after the time to live or 300 seconds, and has the given nonce or the clock in milliseconds |
| TransferPreview.PreviewFor | extension/common/transfer_preview.js:130-165 | every reason is listed exactly when it applies, none is listed if and only if the transfer may be submitted |
| TransferPreview.WorstProof | extension/common/transfer_preview.js:132-135 | the weakest rung among the selected notes |
| TransferPreview.OwnerText | extension/common/transfer_preview.js:107-116 | an owner is sixty-six hex digits, and the refused owner is the one of zeros only |
| Text.LowerTable | extension/common/transfer_preview.js:111 | lowering an owner maps each capital letter to its small one and leaves everything else |
| TransferPreview.GateWords | extension/common/transfer_preview.js:81-128 | which proof words pass which gate; an unknown gate is that of the game, an unknown word passes only the lowest |
| TransferPreview.NetworkWords | extension/common/transfer_preview.js:26-39 | a development network accepts soft or better, every other one proven or better |
| TransferPreview.SelectedFacts | extension/common/transfer_preview.js:130-131 | selected notes come from the library, are spendable and exceed the change |
| TransferPreview.GateHarmlessIff | extension/common/transfer_preview.js:130-155 | everything that sixteen passing notes can pay is submittable if and only if no note below the gate among the first sixteen stands before a passing note of some worth |
| TransferPreview.SubmittableExactly | extension/common/transfer_preview.js:130-165 | an amount is submittable if and only if sixteen notes can pay it and the greedy choice passes the gate |
| TransferPreview.GateAfterChoiceRefusesPayable | extension/common/transfer_preview.js:130-155 | a library for which a transfer payable through the gate is refused |
| TransferPreview.VerifySpendProofs | extension/common/transfer_preview.js:225-249 | accepts exactly non-empty inputs that all exist, are spendable and reach the gate; each refusal says which |
| TransferPreview.SecondGateAgrees | extension/common/transfer_preview.js:219-249 | with distinct commitments the second gate accepts the chosen notes if and only if the first one does |
| TransferPreview.SubmittableIsSignable | extension/background/service_worker.js:2437-2507 | what is submittable from the shown part of the library is signable against all of it |
| TransferPreview.NetworkPreviewIsSignable | extension/background/service_worker.js:2437-2507 | preview and confirmation of one network use the same gate |
| TransferPreview.RepeatedCommitmentSplitsTheGates | extension/common/transfer_preview.js:226-229 | with two entries for one commitment the gates disagree |
| Amounts.ValidateAmountExactly | extension/common/validation.js:248-259 | accepted are exactly canonical positive numerals within u64 |
| Amounts.OverflowExactly | extension/common/validation.js:253-257 | an overflow is reported exactly for canonical numerals of at most twenty digits above u64 |
| Amounts.InvalidExactly | extension/common/validation.js:253-258 | everything else that is refused is no numeral, zero, or longer than twenty digits |
| Amounts.U64HasTwentyDigits | extension/common/validation.js:253 | the length limit excludes no amount within u64 |
| Amounts.CanonicalUnique | extension/common/validation.js:255 | canonical numerals are determined by their value |
| Amounts.CommasAreAllThatIsAdded | extension/common/ui_ledger.js:125-132 | without its commas a printed decimal is the input with leading zeros removed |
| Amounts.GroupsOfThree | extension/common/ui_ledger.js:130 | commas stand only before a multiple of three digits and never side by side |
| Amounts.GroupLength | extension/common/ui_ledger.js:130 | one comma for every complete group of three digits after the first digit |
| Amounts.FmtAmountIdempotent | extension/common/ui_ledger.js:125-132 | printing twice changes nothing, for any text |
| Amounts.SpacesAreThese | extension/common/ui_ledger.js:126 | what trimming removes: the white space and line ends of the language |
| Amounts.FmtThenParse | extension/common/transfer_preview.js:45-55 | the printed form of a valid amount parses to that amount |
| Amounts.DisplayThenParse | extension/common/ui_ledger.js:174-183 | the display form parses back if and only if zero decimals are not asked for, hence for every kind of the table |
| Amounts.DisplayedAmount | extension/common/ui_ledger.js:141-183 | without commas, amounts of the table's kinds are shown with two places, four for the two coins, and others as they are |
| Amounts.DisplayAddsOnlyZeros | extension/common/ui_ledger.js:174-183 | for every kind of the table and every explicit precision: without commas the display form is the input up to leading zeros and added fraction zeros, if and only if it is not an integer with leading zeros shown with zero decimals |
| Amounts.ShownKeepsValue | extension/common/ui_ledger.js:141-158 | the added zeros do not change the number |
| Amounts.ParseAcceptsExactly | extension/common/transfer_preview.js:45-55 | the parser accepts exactly whole numbers in range however grouped and returns their canonical form |
| Amounts.SumDecimals | extension/common/ui_ledger.js:197-205 | the exact sum in canonical form, or the first value that is no numeral |
| Amounts.ToDecimalIsCanonical | extension/common/ui_ledger.js:197-205 | rendering the value of a canonical numeral gives it back |
| Sessions.AdmittedIsActive | extension/common/sessions.js:276-361 | a positive amount is admitted only when the status is active |
| Sessions.ActiveRefusesOnlyOverSize | extension/common/sessions.js:322-361 | an active binding refuses only for chain, scope, table or size |
| Sessions.GoverningIsNewestEnforcing | extension/common/sessions.js:292-306 | the governing binding is the newest enforcing one of origin and chain, and there is none if and only if none enforces |
| Sessions.AdmittedIff | extension/common/sessions.js:322-361 | an operation is admitted if and only if the binding is active for its chain, it is a transfer, buy-in or settlement with the scope transfer, buyin or settle in the list, its table is not excluded, and its amount is positive and within both limits |
| Sessions.RefusalNamesTheFirst | extension/common/sessions.js:322-361 | every refusal names the first check that fails |
| Sessions.EnforcingIff | extension/common/sessions.js:276-306 | which bindings count for an origin and chain: revoked ones and those in their validity window; and what the status shown means |
| Sessions.NewestIsFirst | extension/common/sessions.js:292-306 | of several the one registered last governs, of equally new ones the one stored first |
| Sessions.RegisteredIff | extension/common/sessions.js:221-252 | exactly which bindings are registered, and that the store then holds this one, not revoked, and every other one as before |
| SessionRuns.LimitHoldsIff | extension/background/service_worker.js:505-570 | however requests and changes under way are saved, the daily limit holds if and only if on every day the clock may still show, what was spent and all that is under way fit into it |
| SessionRuns.AdmissionSafeIff | extension/background/service_worker.js:520-570 | whatever amount one more admission lets through and however all is then saved, the daily limit holds if and only if the largest such amount fits next to what was really spent and what is under way |
| SessionRuns.OverlapsPassAnyLimit | extension/background/service_worker.js:505-570 | as long as a positive amount is admitted, overlapping requests exceed any limit |
| SessionRuns.AccountExactIff | extension/common/sessions.js:370-381 | the account knows what was spent on a day if and only if the clock did not leave that day after a spend; it never claims more |
| SessionRuns.NextKeeps | extension/background/service_worker.js:505-580 | every guarded event, saves after expiry or revocation included, keeps every registration within its limits |
| SessionRuns.GuardedRunsWithinLimits | extension/common/sessions.js:221-381 | in every run with a forward clock, one writer of any kind at a time, admissions that count what is under way and no binding replaced under a request: at most sixteen bindings; under each registration every day's total and every amount is within the limits, and every admission lies in the validity window, for the origin and chain, at an allowed table, and has the scope of its kind in the list |
| SessionRuns.RevocationSticksIff | extension/background/service_worker.js:2370-2411 | however handlers load and save, a binding stays revoked until a registration or deletion of its id arrives if and only if it is revoked and nothing under way will replace it or write back a copy in which it is not |
| SessionRuns.OtherWriterUndoes | extension/background/service_worker.js:2370-2411 | a registration or deletion of another binding that loads before a revocation and saves after it undoes it |
| SessionRuns.EveryRunSound | extension/background/service_worker.js:618-634 | in every run the registry and every copy of it hold one binding per id |
| SessionRuns.RevokedSpendsOnlyAwaiting | extension/background/service_worker.js:505-580 | while revoked, a binding spends at most what was under way when it was revoked |
| SessionRuns.RecordingAsksPresenceOnly | extension/common/sessions.js:370-381 | a spend is recorded if and only if the binding is present, whatever its window and revocation |
| SessionRuns.RevokedNewestBlocksOrigin | extension/common/sessions.js:298-306 | while the newest binding of an origin is revoked nothing of the origin is admitted at any time |
| Sessions.RegisteringClearsRevocation | extension/common/sessions.js:221-252 | registering the id again clears the revocation |
| Sessions.AdmitTwiceBeforeRecording | extension/background/service_worker.js:520-570 | two admissions before either recording exceed the daily limit |
| Sessions.ClockBackSpendsTwice | extension/common/sessions.js:370-381 | a clock going back and forth spends one day's limit twice |
| Receipts.CapDropsOldest | extension/common/receipts.js:313-322 | the store keeps at most twenty receipts and drops only oldest ones |
| Receipts.PendingSpendMap | extension/common/receipts.js:106-118 | commitments of transfers in flight with the first amount recorded for each |
| Receipts.PendingSpendSum | extension/common/receipts.js:121-128 | the sum of the locked amounts |
| Receipts.ReceiptAmount | extension/common/receipts.js:139-149 | the exact total, or the reason there is none |
| Receipts.LockTableExact | extension/common/receipts.js:106-118 | a note is locked if and only if a receipt of kind transfer with status signed or seen uses it |
| Receipts.LockTableAmounts | extension/common/receipts.js:106-118 | each note is in the table once, with the first amount recorded for it, or zero when that was no number |
| Receipts.Worker.CheckTransfer | extension/background/service_worker.js:2478-2507 | refused exactly when a requested note is in flight, naming such a note, or when a later check fails |
| Receipts.Worker.Save | extension/background/service_worker.js:610-616 | the store becomes the changed copy; a change refused on the copy writes nothing |
| ReceiptTasks.DisjointIffNoOverlap | extension/background/service_worker.js:2478-2529 | however confirmations under way are interleaved, no note gets into two transfers in flight if and only if no two for different operations share a note and none asks for a note of a receipt that stays, such as one recorded since its check |
| ReceiptTasks.NothingLostIffAlone | extension/background/service_worker.js:610-616 | with room in the store, no interleaving loses a receipt if and only if all confirmations under way are for one operation |
| ReceiptTasks.OverlappingConfirmations | extension/background/service_worker.js:2490-2529 | two confirmations of one note checked before either is recorded put it into two transfers in flight |
| ReceiptTasks.LostReceiptFreesNote | extension/background/service_worker.js:610-616 | a receipt written over by another one leaves its note free to be confirmed again |
| ReceiptTasks.GuardedRunsDisjoint | extension/background/service_worker.js:2478-2529 | in every run whose checks also see confirmations under way, with one handler at a time between load and save: no note is in two retained transfers in flight, and the store never exceeds twenty |
| Receipts.StatusMovesForward | extension/common/receipts.js:210-274 | a receipt that stays keeps its inputs, kind and time, and its status never goes back; the next rows say which status results |
| Receipts.SeenKeepsLocks | extension/common/receipts.js:210-222 | when a report is refused and why; otherwise the receipt has the status seen, every other receipt is as before, and the locked notes are exactly those of before |
| Receipts.IncludedFreesItsNotes | extension/common/receipts.js:259-274 | in a store without a note in two transfers in flight: when it is refused and why; otherwise the receipt has the status included, every other receipt is as before, and exactly its notes become free |
| Receipts.OpenedReceipt | extension/common/receipts.js:36-67 | exactly which openings are refused; the new receipt is signed, stands last with the inputs that name a note, and with room in the store a transfer locks exactly its notes in addition |
| Receipts.LockedSumIsReceiptSum | extension/common/receipts.js:121-149 | the locked sum equals the sum of the receipt amounts of the transfers in flight |
| Receipts.LocksSurviveOpeningIff | extension/common/receipts.js:313-322 | opening a receipt keeps all locks if and only if there is room or the oldest receipt locks nothing |
| Receipts.LockSeesEverySpellingIff | extension/background/service_worker.js:2490-2499 | the lock refuses every note in flight if and only if the request contains the lower-case spelling of each of its notes |
| Bridge.ChainNonceMax | scripts/poker_air_bridge.py:345-358 | the largest answer, none if and only if no replica answered |
| Bridge.StrictChainNonce | scripts/poker_air_bridge.py:361-382 | a nonce some node answered in the first round that had an answer, none if and only if eight rounds had none |
| Bridge.Anchoring.AnchorOne | scripts/poker_air_bridge.py:547-591 | at most three attempts at this binding; the log grows by exactly one entry per used attempt that was submitted, in order, at the nonce read; it is recorded if and only if the last used attempt was submitted and a reading exceeds its nonce; it ends early only for an unreadable nonce or a failed build |
| Bridge.UsedFacts | scripts/poker_air_bridge.py:547-611 | attempts go on until one confirms or is hopeless, and no further than three |
| Bridge.LoggedInOrder | scripts/poker_air_bridge.py:565-577 | the log entries of a binding are its attempts with a submitted transaction, in order, each at the nonce read for it |
| Bridge.Anchoring.StreamRound | scripts/poker_air_bridge.py:523-611 | the rows recorded are exactly the longest prefix of the unanchored rows whose attempts confirm, in row order; an open binding is the first one without an anchor; anchors are never moved |
| Bridge.ForwardReadsSeparate | scripts/poker_air_bridge.py:547-591 | when reads do not go back, different bindings are tried at strictly increasing nonces |
| Bridge.RecordsRightIff | scripts/poker_air_bridge.py:523-611 | every record is right in every run with the bridge's log if and only if no recorded nonce was tried for another binding before a reading showed it as taken |
| Bridge.NoGhostAnchors | scripts/poker_air_bridge.py:523-611 | over every run with lagging replicas whose reads do not go back, nonces are not shared and a recorded binding is the one executed at its nonce |
| Bridge.AnchoredIsExecuted | scripts/poker_air_bridge.py:598-604 | as long as the log shows no doubt, what the state file says about a binding is what the chain executed |
| Bridge.WrongRecordIff | scripts/poker_air_bridge.py:565-604 | a record is wrong in some run with the same log if and only if another binding was tried at its nonce before any reading showed that nonce as taken |
| Bridge.AboveConfirmedIsNotEnough | scripts/poker_air_bridge.py:547-591 | reads above the last confirmed nonce do not prevent a ghost anchor |
| Aggregate.AggregateRoots | poker-appchain/src/aggregate.rs:34-47 | the 32 bytes of the outer hash of the fold, refused exactly for an empty window |
| Aggregate.FeltRoundTrip | poker-appchain/src/felt.rs:30-32 | 32 bytes hold a field element without loss |
| Aggregate.HalvesInjective | poker-appchain/src/felt.rs:20-26 | the two halves determine the root |
| Aggregate.HalvesAreRoot | poker-appchain/src/felt.rs:17-26 | the first half is the first sixteen bytes of the root and the second one the rest, both big-endian |
| Aggregate.RootsAreAbsorbedInOrder | poker-appchain/src/aggregate.rs:34-47 | the fold takes the first half and then the second half of each root, in window order |
| Aggregate.EqualFolds | poker-appchain/src/aggregate.rs:38-42 | equal folds are the same window or yield genuine evidence against the hash |
| Aggregate.EqualRootsSameWindowOrCollision | poker-appchain/src/aggregate.rs:34-47 | equal aggregate roots, byte for byte and of windows of any lengths, are the same window or yield a collision or a zero preimage by an explicit construction |

## Left out

- Sockets, threads, dialing, back-off, RocksDB, JSON-RPC and the command line; a failed write removes the connection, which the reader sees as a truncation.
- Signatures, VRF, BLS, Poseidon, the prover and the WASM wallet core, which are uninterpreted or a boolean verdict.
- The single-validator path of the commit loop, checkpoints, forced inclusion, block execution and state roots.
- Validator-set changes inside a run of `CommitNetwork`, and quorums across different epochs.
- Restarts of a validator: pins are lost, and the live DAG is rebuilt from the store.
- The failure of `advance_epoch_with_vrf` in the epoch rule, and saturation of u64 rounds, heights and epochs.
- The previous-hash links of certificates and the checks of a block other than epoch, commit round and signatures.
- The smallest and largest round of a repair request, its 500 ms rate limit, and the caps on ranges a peer answers.
- Failed sends in peer exchange: connections are fixed.
- The field shapes of session bindings (hex lengths of ids and keys), which only reject more registrations.
- How `localeCompare` orders commitments beyond plain text when notes of one amount are sorted.
- Several accounts: their session registries share one stored object, which a save reads again for the other accounts.
- `draftAuthorization`, the typed-data adapter, and the second admission in the wallet core.
- The conversion of note amounts by `Number` in the confirm path, which rounds above 2^53: receipts here hold the amount as recorded.
- Receipts recorded for page requests carry no inputs (`extension/background/service_worker.js:558`), so transfers signed there hold no lock.
- Batch mode of the bridge, its ed25519 derivation and the deployment record.
- `merge_light_header`, the EVM and Starknet accounts, adapters, telemetry and the website.
- TransferPreview.VerifySpendProofs: the excerpt of the commitment in the error text is not modelled, and letter case is that of ASCII.
