# decide: a verified model

decide is a small web service for group decisions. It has two games.

- **Votes.** A vote is started with a list of choices, one per line. Its page is a room: every browser tab connected to it gets a live view. A voter ranks the choices, allowing ties, and submits a named ballot; resubmitting replaces it. Anyone can ask for the tally. The server then computes the result with Tideman's ranked pairs method and shows every ballot. A room's ballots and its "tallied" flag live in an SQLite table. Rooms idle for more than a day are deleted.
- **Rock-paper-scissors.** A client who joins a room with fewer than two players becomes a player; any other client is a spectator. A seat freed by a leaving player goes to the next client to join, never to a spectator already watching. Once both players have chosen, the round is recorded in the room's history. Each client sees the history, the wins, losses and draws, and who has chosen.

This project models the core of both in Dafny and proves what the code promises.

| module | file | models |
|---|---|---|
| `Condorcet` | `condorcet.dfy` | `ranked_pairs` and `is_reachable`: ballot validation, the pairwise matrix, sorting and grouping defeats, locking a group with a batch cycle check, peeling off the ranks |
| `CondorcetExamples` | `condorcet_examples.dfy` | the worked examples of `test_ranked_pairs`, group by group, over their pairwise matrices |
| `Vote` | `vote.dfy` | the vote coordinator: `ServerRoom` and `VoteState`, the result cache, broadcasting, pruning connections, and parsing the choice list |
| `VoteDb` | `votedb.dfy` | the room table: the versioned stored state, and creating, reading, writing, bumping and cleaning up rows |
| `Rps` | `rps.dfy` | the rock-paper-scissors server: the outcome table, the per-client game view, and join, choose and leave |
| `Client` | `client.dfy` | the ballot widget of the vote page: its state, clicks, the conversion to and from ballot items, and the description of a ballot |
| `Watch` | `watch.dfy` | a watch channel's sending end, as a single slot that `send` overwrites unless the receiver is gone |
| `Api` | `api.dfy` | the messages between server and browser |
| `VoteUtil` | `voteutil.dfy` | client and room ids, and the order in which a map's entries are visited |
| `Seqs`, `Wrappers` | `seqs.dfy`, `wrappers.dfy` | ascending enumeration of a finite set, and `Option` |

## How the model reads

A handful of conventions run through every module.

- **Specification and implementation.**
  - Each algorithm is a `method` with the source's loops: the depth-first search, the ballot filter, the nested count loops, the group loop of the locking step, the rank loop, the broadcast loops, the selection loops of the widget.
  - Each such method is proved against a specification function, such as `Count`/`TotalsOf`, `Filtered`, `LockRuns`, `Tiers`, `Selections`, `Steps` or `Phrase`.
  - The properties are then lemmas about those functions.
- **The tally.** `IsRankedPairs(n, ballots, r)` says that `r` holds two things:
  - the matrix of the ballots;
  - the ranks of the graph you get by locking the defeats strongest first.

  The locked graph does not depend on how ties between equally strong defeats are ordered (`LockOrderIrrelevant`), so the unstable sort of the source is modelled exactly.
- **State.**
  - The in-memory state is made of classes whose fields the methods update: `ServerRoom`, `VoteState`, `RpsState`, `Choices`, `Db` and `Sender`.
  - The room table is a map from room id to a row holding the stored state and its last-activity time.
  - The clock is a parameter `now`, in seconds.
- **Properties of the model, not of the source.** `Valid` predicates hold every invariant that the source's `.expect`/`.unwrap` calls rely on and that the state machine keeps:
  - players are clients, and there are at most two of them;
  - the channels of distinct connections are distinct;
  - no client entry is empty.

## Model

| member | source | states |
|---|---|---|
| Condorcet.IsReachable | decide/src/condorcet.rs:5-20 | returns true exactly when the graph has a path from a to b, so a node always reaches itself |
| Condorcet.ClosedContainsReachable | decide/src/condorcet.rs:9-18 | a set of nodes that holds a and is closed under successors holds every node reachable from a; this is why the search answers false once its stack is empty |
| Condorcet.RetainValid | decide/src/condorcet.rs:44-49 | the retain loop with its seen-candidates array computes the filtered ballot |
| Condorcet.ValidateVotes | decide/src/condorcet.rs:41-53 | every ballot is filtered, one result per ballot, in order |
| Condorcet.FilteredSpec | decide/src/condorcet.rs:44-49 | a filtered ballot has only in-range, pairwise distinct candidates and no entry not in the original; it names exactly the in-range candidates the original names |
| Condorcet.FilteredValid | decide/src/condorcet.rs:44-49 | every filtered ballot is valid: in-range, pairwise distinct candidates |
| Condorcet.FilteredValidIdentity | decide/src/condorcet.rs:44-49 | a ballot that is already valid is left unchanged |
| Condorcet.FilteredIdempotent | decide/src/condorcet.rs:41-53 | filtering a filtered ballot changes nothing |
| Condorcet.SortByRank | decide/src/condorcet.rs:59 | the ballot's entries sorted by rank: non-decreasing ranks and the same multiset of entries |
| Condorcet.SortByRankOfSorted | decide/src/condorcet.rs:59 | sorting an already sorted ballot changes nothing (the sort is stable) |
| Condorcet.CountWins | decide/src/condorcet.rs:61-66 | the inner loop adds one to totals[item][other] for each later entry past the run of equal rank, and changes nothing else |
| Condorcet.AddBallot | decide/src/condorcet.rs:59-67 | one sorted ballot adds one to totals[a][b] exactly when it ranks a strictly above b |
| Condorcet.ComputeTotals | decide/src/condorcet.rs:55-68 | the matrix equals TotalsOf: totals[a][b] is the number of filtered ballots ranking a strictly above b |
| Condorcet.SortedBallot | decide/src/condorcet.rs:58-59 | sorting a filtered ballot keeps it valid and keeps every strict preference |
| Condorcet.TieCountsForNeither | decide/src/condorcet.rs:61-65 | two entries of equal rank make the ballot prefer neither candidate to the other |
| Condorcet.TotalsShape | decide/src/condorcet.rs:57-68 | the matrix is n by n with a zero diagonal, and totals[a][b] + totals[b][a] never exceeds the number of ballots |
| Condorcet.TotalsPermutation | decide/src/condorcet.rs:58-68 | ballots with the same multiset give the same matrix |
| Condorcet.Defeats | decide/src/condorcet.rs:73-82 | lists exactly the pairs (a, b) with totals[a][b] > totals[b][a], by winner and then by loser |
| Condorcet.SortDefeats | decide/src/condorcet.rs:83-85 | the defeats reordered, strongest first: descending by strength, then by margin |
| Condorcet.SameKeys | decide/src/condorcet.rs:84-93 | two defeats have equal (strength, margin) exactly when they have equal (totals[a][b], totals[b][a]), so each group is a run of the sorted list |
| Condorcet.RunLength | decide/src/condorcet.rs:91-94 | a group is the maximal run of defeats sharing the first one's key |
| Condorcet.InsertEdges | decide/src/condorcet.rs:98-99 | every defeat of the group is added to the graph |
| Condorcet.CycleEdges | decide/src/condorcet.rs:106-110 | picks exactly the group's defeats (a, b) for which a is reachable from b once the whole group is inserted |
| Condorcet.RemoveEdges | decide/src/condorcet.rs:111-113 | removes exactly those defeats |
| Condorcet.LockGroup | decide/src/condorcet.rs:96-113 | locking one group is insert-all-then-remove-cycles |
| Condorcet.GroupStepAcyclic | decide/src/condorcet.rs:96-113 | locking a group keeps the graph acyclic |
| Condorcet.LockDefeats | decide/src/condorcet.rs:88-119 | the group loop computes LockRuns over the sorted defeats from the empty graph |
| Condorcet.LockRunsAcyclic | decide/src/condorcet.rs:88-119 | the locked graph is acyclic |
| Condorcet.LockRunsEdges | decide/src/condorcet.rs:88-119 | only the listed defeats are ever locked |
| Condorcet.LockOrderIrrelevant | decide/src/condorcet.rs:83-119 | any two strongest-first arrangements of the same defeats lock the same graph, so the unstable sort does not matter |
| Condorcet.LockedGraphUnique | decide/src/condorcet.rs:83-119 | the locked graph is determined by the matrix |
| Condorcet.LockedGraphShape | decide/src/condorcet.rs:88-119 | the locked graph has a node per candidate, is acyclic, and each of its edges is a defeat |
| Condorcet.FindWinners | decide/src/condorcet.rs:125-129 | in ascending order, exactly the unranked candidates that no unranked candidate defeats in the locked graph |
| Condorcet.RemoveWinners | decide/src/condorcet.rs:130 | keeps, in order, exactly the unranked candidates that are not winners |
| Condorcet.ExtractRanks | decide/src/condorcet.rs:121-132 | the rank loop computes Tiers: the undefeated candidates, then the undefeated ones among the rest, and so on |
| Condorcet.RankedPairs | decide/src/condorcet.rs:37-135 | the result's matrix is that of the ballots and its ranks are the tiers of the locked, acyclic graph |
| Condorcet.RanksPartition | decide/src/condorcet.rs:121-134 | ranks partition 0..n-1: every candidate is in exactly one rank, and every rank is non-empty and ascending |
| Condorcet.RanksOrder | decide/src/condorcet.rs:121-132 | no candidate is defeated in the locked graph by one of its own or a later rank, and each candidate after rank 0 is defeated by one in the rank before |
| Condorcet.CondorcetWinnerFirst | decide/src/condorcet.rs:121-134 | a candidate that beats every other head to head is alone in rank 0 |
| Condorcet.WinnerLocked | decide/src/condorcet.rs:88-119 | such a candidate has all of its defeats locked and is itself never defeated in the locked graph |
| Condorcet.AllTiedOneRank | decide/src/condorcet.rs:121-132 | without any defeat, all candidates share the single rank [0, ..., n-1] |
| Condorcet.NoCandidates | decide/src/condorcet.rs:37-135 | with no candidates the matrix and the ranks are empty |
| Condorcet.TwoWayTotals | decide/src/condorcet.rs:244-247 | the test's two opposite ballots each prefer one candidate, so both off-diagonal counts are 1 |
| Condorcet.TwoWaySplit | decide/src/condorcet.rs:244-247 | the test's two opposite ballots over two candidates give the ranks [[0, 1]] |
| CondorcetExamples.FiveCandidatesGraph | decide/src/condorcet.rs:229-243 | for the five-ballot test's matrix the locked graph exists and is unique: the first group 1 > 2, 3 > 0, 3 > 2, 4 > 2 is locked; of the second group only 0 > 2 is kept, and 0 > 4, 1 > 0, 1 > 3, 3 > 4, 4 > 1 are dropped, each closing a cycle in the batch |
| CondorcetExamples.FiveCandidatesFirstRank | decide/src/condorcet.rs:229-243 | any tally with that matrix has the first rank [1, 3, 4] |
| CondorcetExamples.Example1FirstRank | decide/src/condorcet.rs:249-255 | in ericgorr example 1, 0 is a Condorcet winner, so any tally with its matrix has the first rank [0] |
| CondorcetExamples.Example2Graph | decide/src/condorcet.rs:257-262 | in ericgorr example 2 the locked graph exists and is unique: 1 > 2 and 0 > 1 are locked, and 2 > 0 is dropped because it closes the cycle 0 > 1 > 2 > 0 |
| CondorcetExamples.Example2FirstRank | decide/src/condorcet.rs:257-262 | any tally with that matrix has the first rank [0] |
| CondorcetExamples.Example3Graph | decide/src/condorcet.rs:264-270 | in ericgorr example 3 the one group 0 > 2, 1 > 2 is locked whole, and 0 and 1 stay tied |
| CondorcetExamples.Example3FirstRank | decide/src/condorcet.rs:264-270 | any tally with that matrix has the first rank [0, 1] |
| CondorcetExamples.Example4Graph | decide/src/condorcet.rs:272-292 | in ericgorr example 4 (run again as interesting example 1) 0 > 3 and 1 > 0 are locked; the tied group 0 > 2, 2 > 1 is dropped whole, as the two close a cycle together; of the group 3 > 1, 3 > 2 only 3 > 2 is kept |
| CondorcetExamples.Example4FirstRank | decide/src/condorcet.rs:272-292 | any tally with that matrix has the first rank [1] |
| CondorcetExamples.Interesting2Graph | decide/src/condorcet.rs:294-300 | in ericgorr interesting example 2, 0 > 2, 2 > 3, 1 > 2 and 0 > 1 are locked; 3 > 0 and 3 > 1 are dropped |
| CondorcetExamples.Interesting2FirstRank | decide/src/condorcet.rs:294-300 | any tally with that matrix has the first rank [0] |
| Condorcet.BallotOrderIrrelevant | decide/src/condorcet.rs:58-119 | ballots with the same multiset give the same matrix and the same locked graph |
| Condorcet.TallyOrderIrrelevant | decide/src/condorcet.rs:37-135 | the result depends only on the multiset of ballots |
| Vote.SplitLines | decide/src/vote.rs:255 | splitting on newlines gives at least one piece and no piece holds a newline |
| Vote.JoinSplit | decide/src/vote.rs:255 | joining the pieces with newlines gives back the text |
| Vote.SplitJoin | decide/src/vote.rs:255 | splitting lines that were joined with newlines gives back the lines |
| Vote.Trim | decide/src/vote.rs:256 | what remains after stripping leading and trailing whitespace: neither end is whitespace, and only whitespace was removed on each side |
| Vote.TrimmedFixed | decide/src/vote.rs:256 | trimming a label without surrounding whitespace changes nothing |
| Vote.ParseChoices | decide/src/vote.rs:253-259 | no parsed choice is empty, has surrounding whitespace or holds a newline |
| Vote.ParseLines | decide/src/vote.rs:253-259 | the choices are the trimmed lines that are not blank, in their order |
| Vote.ParseFormatted | decide/src/vote.rs:253-259 | clean labels written one per line parse back to the same list |
| Vote.Ballots | decide/src/vote.rs:147-158 | one ballot per voter, in the order the voters are visited: each ballot is the selections of its voter, and every selection list occurs exactly as many times as voters submitted it |
| Vote.CalculateRoomTally | decide/src/vote.rs:142-165 | the tally is ranked pairs over as many candidates as choices and over every submitted ballot |
| Vote.TallyIndependentOfOrder | decide/src/vote.rs:147-159 | visiting the voters in any other order gives the same tally |
| Vote.WithBallot | decide/src/vote.rs:117-118 | the voter's ballot is inserted or replaced; other ballots, the choices and the tallied flag are unchanged |
| Vote.MarkTallied | decide/src/vote.rs:124-125 | sets tallied and leaves choices and ballots unchanged |
| Vote.TallyIdempotent | decide/src/vote.rs:123-128 | tallying twice is tallying once, and tallying a tallied room changes nothing |
| Vote.Joined | decide/src/vote.rs:54 | the client's entry is created if missing and gets the new connection appended; other clients are unchanged |
| Vote.OpenOnes | decide/src/vote.rs:218 | the connections whose channel is still open, and every one of them |
| Vote.RetainOpen | decide/src/vote.rs:218 | the retain loop keeps exactly the open connections |
| Vote.Pruned | decide/src/vote.rs:217-226 | the client keeps only its open connections and is dropped when none remain; other clients are unchanged |
| Vote.PrunedValid | decide/src/vote.rs:217-226 | pruning keeps connection handles distinct and entries non-empty, and adds no sender |
| Vote.NotificationContents | decide/src/vote.rs:79-108 | the notification is Connected with the room's choices, the viewer's own ballot exactly when one exists, the ballot count and client count, and results exactly when the cache is filled, carrying the cached tally and the submitted votes, each vote listed exactly as many times as voters hold it |
| Vote.ServerRoom.constructor | decide/src/vote.rs:46-51 | a room with no clients and no cached tally |
| Vote.ServerRoom.UpdateResultsCache | decide/src/vote.rs:58-65 | afterwards the cache is filled exactly when the room is tallied; a missing tally is computed by ranked pairs and an existing one is kept |
| Vote.ServerRoom.SendToClient | decide/src/vote.rs:70-75 | every open connection of the client gets the message; closed ones and other clients' connections keep theirs |
| Vote.ServerRoom.SendToAll | decide/src/vote.rs:69-76 | every open connection of every client gets that client's notification; closed ones keep theirs |
| Vote.ServerRoom.BroadcastRoomState | decide/src/vote.rs:67-77 | the cache is updated, then every open connection holds its client's notification and no channel changes its closed state |
| Vote.ServerRoom.AddClient | decide/src/vote.rs:53-56 | the connection is appended under its client and every open connection is notified; the cache follows the room, and closed channels keep their closed state and their value |
| Vote.ServerRoom.Connect | decide/src/vote.rs:54 | the room's clients become Joined and its channels gain the new one |
| Vote.ServerRoom.SubmitVote | decide/src/vote.rs:110-121 | the stored room gets the ballot inserted or replaced, is written back, and is broadcast; only the cache and the channels' values change, and closed channels keep theirs |
| Vote.ServerRoom.Tally | decide/src/vote.rs:123-128 | the stored room is marked tallied, written back, and broadcast; only the cache and the channels' values change, and closed channels keep theirs |
| Vote.ServerRoom.PruneClient | decide/src/vote.rs:217-226 | the room's clients become Pruned |
| Vote.ServerRoom.Prune | decide/src/vote.rs:216-235 | the room's clients become Pruned, the result says whether none is left, and the room is told its stored state; closed channels keep their values |
| Vote.VoteState.constructor | decide/src/vote.rs:168-174 | no room in memory |
| Vote.VoteState.CreateRoom | decide/src/vote.rs:176-178 | a fresh row for the choices, with no ballots and not tallied |
| Vote.VoteState.StartVote | decide/src/vote.rs:252-260 | parses the form's text into choices and creates the room |
| Vote.VoteState.Entry | decide/src/vote.rs:194-197 | returns the room in memory, or a new empty one stored under the id |
| Vote.VoteState.RegisterClient | decide/src/vote.rs:180-200 | returns true exactly when the row exists; otherwise nothing changes; when it exists, the row is bumped, the room is created if absent, the connection is appended, the cache follows the stored room and the room is broadcast; only that room and its channels' values can change |
| Vote.VoteState.SubmitVote | decide/src/vote.rs:202-206 | a room not in memory leaves the table unchanged; otherwise the ballot is written, the clients are kept, the cache follows the written room, the room is broadcast and closed channels keep their values; nothing but that room's cache and channel values changes |
| Vote.VoteState.Tally | decide/src/vote.rs:208-212 | a room not in memory leaves the table unchanged; otherwise it is marked tallied, the clients are kept, the cache follows the written room, the room is broadcast and closed channels keep their values; nothing but that room's cache and channel values changes |
| Vote.VoteState.PruneConnectionHandles | decide/src/vote.rs:214-240 | the client keeps only its open connections; the room leaves memory exactly when no client remains, and otherwise keeps its cache, is broadcast and its closed channels keep their values; no other room changes |
| Vote.VoteState.CleanupRooms | decide/src/vote.rs:242-249 | every room in memory is bumped, then the rows idle for more than a day are deleted |
| VoteDb.ToState | decide/src/vote/db.rs:44-52 | converting to the stored V1 form and back gives the same room |
| VoteDb.StateRoundTrip | decide/src/vote/db.rs:32-52 | converting a stored state to a room and back gives the same stored state |
| VoteDb.Stored | decide/src/vote/db.rs:97-111 | None exactly when the row is missing or cannot be decoded, otherwise the stored room |
| VoteDb.NewRoom | decide/src/vote/db.rs:81-85 | the given choices, no ballots, not tallied |
| VoteDb.Created | decide/src/vote/db.rs:79-95 | adds one row under the new id holding the new room; every other row is unchanged |
| VoteDb.Written | decide/src/vote/db.rs:113-126 | a present row gets the room and a fresh activity time; a missing row leaves the table unchanged; other rows are unchanged |
| VoteDb.Bumped | decide/src/vote/db.rs:128-134 | only the activity time of that row changes |
| VoteDb.BumpedAll | decide/src/vote.rs:244-246 | only the activity times of the given rows change |
| VoteDb.Cleaned | decide/src/vote/db.rs:136-141 | exactly the rows active within the last day remain, unchanged |
| VoteDb.Db.constructor | decide/src/vote/db.rs:67-77 | a connection to the given table |
| VoteDb.Db.CreateRoom | decide/src/vote/db.rs:79-95 | returns the new id and the table becomes Created |
| VoteDb.Db.ReadRoomState | decide/src/vote/db.rs:97-111 | returns Stored |
| VoteDb.Db.WriteRoomState | decide/src/vote/db.rs:113-126 | returns true exactly when the row exists; the table becomes Written |
| VoteDb.Db.BumpRoomActivity | decide/src/vote/db.rs:128-134 | the table becomes Bumped |
| VoteDb.Db.CleanupRooms | decide/src/vote/db.rs:136-141 | the table becomes Cleaned |
| VoteDb.ReadYourWrite | decide/src/vote/db.rs:97-126 | after writing a present room, reading it gives that room, and reading another gives what it gave before |
| VoteDb.BumpKeepsStates | decide/src/vote/db.rs:128-134 | bumping never changes what any read returns |
| VoteDb.CleanupKeepsBumped | decide/src/vote.rs:242-249 | rooms bumped just before cleanup survive it with their state |
| VoteUtil.KeysInOrder | decide/src/vote.rs:69 | the map's keys, each once |
| VoteUtil.ValuesInOrder | decide/src/vote.rs:104 | the map's values, one per key in the order the keys are visited: each value occurs exactly as many times as keys hold it |
| Watch.Sender.constructor | decide/src/vote.rs:275 | a channel holding the initial value, receiver attached |
| Watch.Sender.Send | decide/src/vote.rs:71-74 | succeeds exactly when the receiver is attached, and only then replaces the value |
| Watch.Sender.DropReceiver | decide/src/vote.rs:386 | the channel is closed and keeps its last value |
| Rps.GetOutcome | decide/src/rps.rs:35-47 | Draw exactly for equal choices, Win exactly when the first beats the second (rock beats scissors, scissors beats paper, paper beats rock), Loss exactly when the second beats the first |
| Rps.OutcomeAntisymmetric | decide/src/rps.rs:35-47 | a win one way is a loss the other way, and draws are symmetric |
| Rps.RoundOrder | decide/src/rps.rs:137-139 | the round's client ids sorted by key (the viewer first, the others by ascending id), each once |
| Rps.Pick | decide/src/rps.rs:140 | the choices of the given ids, in that order |
| Rps.RoundView | decide/src/rps.rs:136-140 | one choice per entry, the viewer's own first when they took part |
| Rps.HistoryView | decide/src/rps.rs:132-142 | each recorded round seen by the viewer, with the viewer's choice first |
| Rps.Outcomes | decide/src/rps.rs:144-147 | one outcome per round |
| Rps.TalliesCount | decide/src/rps.rs:152-158 | the folded wins, losses and draws are the numbers of rounds with each outcome |
| Rps.Tallies | decide/src/rps.rs:152-158 | the fold's wins, losses and draws add up to the number of rounds |
| Rps.ChosenFlags | decide/src/rps.rs:179 | one flag per player, in the order the players are visited, set exactly when that player has chosen; so as many flags are set as players have chosen |
| Rps.PlayerViewOf | decide/src/rps.rs:143-167 | the player's choice, and wins + losses + draws and the outcome history both as long as the history |
| Rps.SpectatorViewOf | decide/src/rps.rs:168-185 | two win counts that add up with the draws to the history length, and a chosen flag per player, as many set as players have chosen |
| Rps.GameView | decide/src/rps.rs:130-195 | players and spectators add up to the clients; the history keeps each round's length with the viewer first; a player view exactly for players and a spectator view exactly for the others, with the counting identities, the opponent-chosen flag and the number of set chosen flags |
| Rps.PlayerOutcome | decide/src/rps.rs:144-147 | each listed outcome is the player's own outcome against the other player of that round |
| Rps.SpectatorOrder | decide/src/rps.rs:136-140 | a spectator sees each round's two choices ordered by ascending player id |
| Rps.SpectatorRound | decide/src/rps.rs:136-140 | for a two-player round the viewer did not play, the view lists the lower id's choice first |
| Rps.RoomViewable | decide/src/rps.rs:186-187 | under the room invariant the spectator count does not underflow and every round has two choices |
| Rps.SendAll | decide/src/rps.rs:199-209 | every open channel gets its client's message; a closed one keeps its value; no channel is opened or closed |
| Rps.Broadcast | decide/src/rps.rs:197-210 | every open channel of the room holds its client's game view and no channel changes its closed state |
| Rps.RpsState.constructor | decide/src/rps.rs:118-123 | no rooms, and the next client id is 1 |
| Rps.RpsState.GetNewClientId | decide/src/rps.rs:125-128 | returns the counter and increments it, so ids go 1, 2, 3, ... and a new id is above every id in use |
| Rps.RpsState.BroadcastState | decide/src/rps.rs:197-210 | the room is broadcast |
| Rps.RpsState.AddClient | decide/src/rps.rs:219-225 | a fresh id becomes a client of the room, which is created if missing |
| Rps.RpsState.Join | decide/src/rps.rs:217-227 | the room becomes JoinRoom of the old one with a fresh id, and every open channel of the room, the new one included, holds its client's view |
| Rps.JoinKeepsRoomOk | decide/src/rps.rs:220-225 | the client always joins the clients; it becomes a player and the history is cleared exactly when there were fewer than two players; the room invariant is kept |
| Rps.RoundOf | decide/src/rps.rs:239-251 | once every player has chosen, the round maps each player to their choice |
| Rps.ClearChoices | decide/src/rps.rs:253-256 | the same players, all with no choice |
| Rps.ChooseInRoom | decide/src/rps.rs:235-257 | the room becomes ChooseRoom |
| Rps.RpsState.ApplyChoice | decide/src/rps.rs:234-257 | a choice from a non-player changes nothing; otherwise the room becomes ChooseRoom |
| Rps.RpsState.Choose | decide/src/rps.rs:230-259 | a choice from a non-player changes nothing and sends nothing; otherwise the room becomes ChooseRoom and is broadcast, every client's channel then holds its view, and a closed channel keeps its value |
| Rps.ChooseKeepsRoomOk | decide/src/rps.rs:235-257 | the room invariant, the clients and the players are kept, and no two chosen players are left pending |
| Rps.RecordKeepsRoomOk | decide/src/rps.rs:245-257 | recording a round keeps the room invariant |
| Rps.ChooseHistory | decide/src/rps.rs:245-252 | the history grows by one round exactly when both of two players have now chosen, and otherwise stays; earlier rounds are kept |
| Rps.ChooseCompletes | decide/src/rps.rs:245-256 | the recorded round holds each player's choice, the new one included, and every choice is reset |
| Rps.ChooseWaits | decide/src/rps.rs:235-245 | otherwise only the chooser's choice is set and the history is unchanged |
| Rps.RecordedRound | decide/src/rps.rs:247-256 | recording appends exactly RoundOf the players and resets every choice |
| Rps.RpsState.RemoveClient | decide/src/rps.rs:320-325 | the client leaves players and clients; the room is deleted exactly when no client remains |
| Rps.RpsState.Leave | decide/src/rps.rs:317-328 | as RemoveClient, and a room that remains is broadcast: every client's channel then holds its view, and a closed channel keeps its value |
| Rps.LeaveKeepsRoomOk | decide/src/rps.rs:320-322 | leaving keeps the room invariant and opens no channel |
| Client.FilledArray | client/public/index.tsx:197 | Array(len).fill(x) gives len copies of x exactly when len is an array length, and a RangeError otherwise |
| Client.NoChoicesThrows | client/public/index.tsx:197 | with no choices the constructor throws a RangeError |
| Client.InitialGt | client/public/index.tsx:195-197 | one true per pair of neighbours, none without choices |
| Client.InitialGtAgrees | client/public/index.tsx:197 | wherever the constructor does not throw, it computes InitialGt |
| Client.Upto | client/public/index.tsx:195 | sorted position i shows choice i |
| Client.Swapped | client/public/index.tsx:203-209 | a copy with positions i and j exchanged and everything else kept, hence a permutation |
| Client.Choices.constructor | client/public/index.tsx:191-201 | order 0..n-1, all `>`, nothing selected, then the earlier ballot if one is given |
| Client.Choices.OnChoiceClick | client/public/index.tsx:211-217 | without a selection it selects; with one it swaps the two positions and clears the selection |
| Client.Choices.OnRankClick | client/public/index.tsx:219-223 | flips gt[i] and nothing else |
| Client.Choices.OnDragStart | client/public/index.tsx:225-227 | selects the position |
| Client.Choices.OnDragEnter | client/public/index.tsx:229-232 | swaps with the selected position, and the entered position becomes the selection |
| Client.Selections | client/public/index.tsx:256-267 | one item per position: the candidate shown there, with as rank the number of `>` before it |
| Client.RankAtMonotone | client/public/index.tsx:256-267 | ranks never decrease along the order |
| Client.SelectionsRanks | client/public/index.tsx:256-267 | ranks start at 0 and grow by exactly one after each `>` |
| Client.SelectionsSorted | client/public/index.tsx:256-267 | the items come out sorted by rank |
| Client.Choices.GetSelections | client/public/index.tsx:256-267 | the loop computes Selections of the current state |
| Client.Candidates | client/public/index.tsx:274 | the candidates of the items, in order |
| Client.Steps | client/public/index.tsx:275-278 | one flag per pair of neighbours: true exactly when the rank grows |
| Client.Choices.SetSelections | client/public/index.tsx:269-280 | no items changes nothing; otherwise order and gt are the candidates and steps of the items sorted by rank |
| Client.SetKeepsSortedOrder | client/public/index.tsx:273-274 | items already sorted by rank keep their order |
| Client.GetAfterSet | client/public/index.tsx:256-280 | set then get gives the same candidates in sorted order, ranks from 0, a rank increase exactly where the items had one, and steps of one |
| Client.SetAfterGet | client/public/index.tsx:256-280 | get then set restores the order and every `>`/`=` |
| Client.DescribeVote | client/public/index.tsx:151-165 | the voter's name, ": ", then the choice labels in selection order |
| Client.DescribedAsRanked | client/public/index.tsx:155-160 | between two neighbours of the widget's ballot stands " > " exactly where the voter put `>`, and " = " otherwise |

## Left out

- Websocket connection loops, serialisation of messages, `tokio::select!` and HTTP routes: the model keeps only the state updates these loops call. This covers `handle_vote_client`, the connection loop of `handle_rps_client`, `routes`, `run_cleanup_task`, and the redirect in `start_vote`.
- `tokio::sync::Mutex` and concurrency between connections: every operation runs alone on the state.
- Watch channels are single sequential slots. The receiving side appears only as the `closed` flag that `DropReceiver` sets.
- SQLite and JSON:
  - the table is a map from room id to a row;
  - a row that cannot be decoded is a distinct payload `Undecodable`;
  - `CURRENT_TIMESTAMP` and `datetime('now','-1 day')` become a `now` parameter in seconds;
  - migrations and `Db::init` are left out.
- Random ids: `RoomId::new_random` becomes a fresh id passed in by the caller. UUID parsing and the `InvalidUuid` reply happen in the connection loop, which is not modelled.
- Integer widths: `u64` and `usize` are unbounded naturals. The matrix counts, `next_client_id` and the win counters would need more than 2^64 votes, clients or rounds to wrap.
- HashMap iteration order is unspecified. The model visits keys in ascending order.
  - For the tally this is harmless, because the result is proved independent of the order (`Vote.TallyIndependentOfOrder`).
  - For the spectator's `player_chosen` flags and the ballots listed in results, the model fixes one order where the source gives some order.
- Logging (`log::error!` on an incorrect cache) and `Instant` timing.
- `.expect("Missing DB room")` and the `unwrap` calls on a room become preconditions, which the `Valid` invariants or the caller's checks discharge.
- Rendering: the JSX of `Choices.render` and of the pages, `shuffle_array` (it uses `Math.random`), and the results display.
- Preact: `setState` is applied at once and in full.
- Client.Choices.SetSelections: the source sorts the caller's array in place. The model sorts a copy, so the caller's list is unchanged.
- Client.Choices.OnDragEnter: the `console.assert` that a position is selected becomes a precondition.
- Client.Choices.OnChoiceClick: the positions are required to be inside the order, as the rendered buttons guarantee.
- Client.Choices.OnRankClick: the same requirement applies to the `>`/`=` buttons.
- Client.Choices.OnDragStart: the same requirement applies to the position a drag starts from.
- CondorcetExamples: the examples are proved over the pairwise matrices of their ballots. That `TotalsOf` of the literal ballot lists gives these matrices is not proved; each matrix is the count the ballots listed in its doc comment give.
- Vote.VoteState.RegisterClient: does not state that closed channels keep their values. Its frame lets no channel's closed flag change, and the room's own AddClient proves the values are kept, but carrying that across the bump and the room's creation was too costly for the verifier.
- Rps.RpsState.Join: does not state that closed channels keep their values. Broadcast proves it, but carrying it across the client insertion was too costly for the verifier.
- Older copies of this logic (`src/main.rs`, `src/vote.rs`, `client/public/index.js`, `client/src/index.js`) and the load-test client are not part of this model.

## Findings

| source | as written | input that shows it | evidently intended | confidence | as-written member | corrected member |
|---|---|---|---|---|---|---|
| client/public/index.tsx:197 | `gt: Array(props.choices.length - 1).fill(true)` | a vote whose choice form holds only blank lines: `start_vote` keeps no choice (decide/src/vote.rs:253-259), so the widget gets 0 choices and `Array(-1)` throws a RangeError | an empty `gt` when there are no choices | medium, not executed | Client.NoChoicesThrows | Client.InitialGt |

`Client.InitialGtAsWritten` models the constructor's expression as written, and `Client.NoChoicesThrows` proves that it throws for zero choices. The widget's constructor uses `Client.InitialGt`, which has no `>` without choices. `Client.InitialGtAgrees` proves that it agrees with the source wherever the source does not throw.
