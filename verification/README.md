# Verification of the game backend's stateful core

A Dafny 4.11 model of four stateful components of the multiplayer backend, with proofs of what they
guarantee over every input, every run and every interleaving of coroutines. `dafny verify
dfyconfig.toml` checks the whole project.

| File | What it holds |
|---|---|
| `Wrappers.dfy` | optional values, map lookup with a default, cardinality of subsets |
| `Grid.dfy`, `Territory.dfy` | the grid, independent sets of cells, and the declarative meaning of a board |
| `GameRules.dfy` | one game on values: actions, disconnect, forfeit, reconnect; which games can be played at all |
| `GameEngine.dfy` | the engine and its games as classes whose methods change fields in place, proved equal to those rules |
| `Lifecycle.dfy`, `Outcomes.dfy` | one game among its concurrent coroutines and timers, as a transition system; what every interleaving guarantees |
| `Absence.dfy` | players who are away without the engine knowing |
| `Snapshot.dfy` | saving to Redis and restoring |
| `Elo.dfy` | the rating update |
| `Ranking.dfy` | the order of a Redis sorted set |
| `Matchmaking.dfy`, `MatchRuns.dfy` | the queue and its pop script as a class; any number of instances sharing the queue |
| `Registry.dfy`, `RegistryRuns.dfy` | the three connection indexes as a class; every interleaving of its coroutines |
| `RateLimit.dfy` | the sliding-window limiter against the full request log |

## The model in short

**Territory game.** A placement claims its cell and the empty orthogonal neighbours. Hidden in that
loop is a theorem: the placed cells are pairwise non-adjacent, and a list of cells is the move list of
some game exactly when it is pairwise distinct and non-adjacent (`LegalIffSpaced`). A board of side n
therefore sees at most (n*n+1)/2 turns, that number is reached, and the cap of 100 turns never ends a
10 by 10 game. The board size and the cap are parameters; 10 and 100 appear only in corollaries.

**Lifecycle.** A step is the code between two awaits. In-flight disconnect handlers and sleeping timers
are multisets, the rest of the pipeline to `_handle_game_over` and the result record are counters, and
`drops` and `outcome` are history variables. All results quantify over every reachable state or every
continuation. Two promises of the code's documentation hold only under a condition, and both conditions
are proved exact: a forfeit is completed once exactly when the forfeiter has no second timer
(`ForfeitCompletesOnceIff`), and a missing player has a full grace period exactly when no timer of an
earlier disconnect is pending (`FullGraceIff`). `DoubleCompletion` and `EarlyForfeit` are reachable runs
in which the condition fails.

**Matchmaking.** The Redis sorted set and hash are maps, a transaction or script run is one atomic step.
The nested loops of the script are proved to find the lexicographically least accepting pair of the
sorted list, which is then shown to be a lowest-rated player who has a partner at all, with the nearest of
all compatible opponents above or below. Equal ratings are ordered by id, as Redis does, so that the answer
is a function of the queue, the join times and the clock.

**Registry.** The player and room indexes are proved to agree with one relation, connection to player and
optional room, at every await boundary. "One player, one connection" can fail when connects overlap;
`StaysOneIff` says from exactly which states it holds for ever after.

**Rate limiter.** With requests in order and distinct ids the pruned and expiring set answers exactly as the
full log of accepted and rejected requests would. `AnswersAsFullLogIff` says exactly when it still does if
the clocks of several instances disagree or an id is used twice.

## Assumptions

- The two player ids of a game differ (the queue is keyed by player id).
- Coordinates are integers or missing.
- Connection ids are never reused. Rooms may be joined under any name; since the code takes the empty name
  for no room in some places, `JoinAgreesIff`, `DisconnectAgreesIff` and, for whole runs, `IndexesAgreeIff`
  state exactly when that breaks the rooms index. The contracts of `ConnectionManager` say `Valid` of
  managers whose rooms have a name.
- A request id starts with the time of the request, so equal ids have equal times (`IdsNameTimes`); the
  limiter's lemmas that also need times that do not decrease, or distinct ids, say `InOrder` and
  `DistinctIds`. A client is always checked with the same window. Redis expires keys by the clock of the
  request.
- Ratings use the reals, and 10^x is any positive increasing function that is 1 at 0 and satisfies
  10^x * 10^-x = 1 (`PowerExists` shows that there is one). `round` is roundTiesToEven, section 4.3.1 of
  IEEE 754-2008.
- Matchmaking times are reals and each instance may read any clock; lemmas that compare times say so.

## Where code and documentation differ

The model follows the code: K is always 32, while the module's documentation mentions 48 for new players; a
grace timer is not cancelled by a reconnect; a restored game keeps only its last 20 actions and has lost its
ratings and, at odd turn numbers, its player to move.

## Model

| member | source | states |
|---|---|---|
| Grid.IndependentBound | app/core/game_engine.py:330-344 | pairwise non-adjacent cells of an n by n grid number at most (n*n+1)/2 |
| Territory.PlaceExplains | app/core/game_engine.py:330-344 | filling the cross of an empty cell keeps "each cell belongs to the earliest placement that reaches it", and keeps placements pairwise distinct and non-adjacent |
| Territory.BoardDetermined | app/core/game_engine.py:16-19 | the placements alone determine the board |
| Territory.TurnBound | app/core/game_engine.py:330-359 | such placements are an independent set, so there are at most (n*n+1)/2 of them |
| Territory.FullIffMaximal | app/core/game_engine.py:360-370 | the board is full exactly when the placed cells are a maximal independent set |
| Territory.FilledBound | app/core/game_engine.py:339-344 | t placements fill at most 5t cells |
| GameRules.ScoreConservation | app/core/game_engine.py:335-346 | the two scores and the empty cells add up to n*n |
| GameRules.FullBoardMajority | app/core/game_engine.py:373-386 | on a full board the leader owns more than half, and a draw is exactly half |
| GameRules.AdvanceExplained | app/core/game_engine.py:330-346 | an accepted placement keeps the board's meaning, and keeps each score equal to the number of cells owned |
| GameRules.ActFills | app/core/game_engine.py:330-346 | an accepted action fills exactly the empty cells among its own and the four beside it, and scores each, on any board, restored ones included |
| GameRules.ActRecords | app/core/game_engine.py:266-291 | it is recorded under its turn, and either ends the game in favour of the higher score, exactly at the cap or with no cell left empty, or passes the turn |
| GameRules.ReplaySound | app/core/game_engine.py:252-299 | a legal history alternates strictly, is what the game recorded, explains board and scores, and the game is over exactly when its last action exhausted it |
| GameRules.ActGenuine | app/core/game_engine.py:16-19 | an accepted action extends the history so that the game is still what its history replays to |
| GameRules.LegalIffSpaced | app/core/game_engine.py:301-346 | a list of cells can be played, in that order, exactly when it is pairwise distinct and non-adjacent and not longer than the turn cap |
| GameRules.GameLengthBound | app/core/game_engine.py:348-371 | a legal game has at most (n*n+1)/2 turns, and one with a full board at least n*n/5 |
| GameRules.LongestGame | app/core/game_engine.py:301-346 | a legal game of exactly (n*n+1)/2 turns exists for every n |
| GameRules.FinishedIsFull | app/core/game_engine.py:355-371 | with a cap above that bound, a finished legal game has a full board and its winner more than half of it |
| GameRules.StandardGame | app/utils/constants.py:124-127 | on 10 by 10 with cap 100: at most 50 turns, never the cap, winner at least 51 cells, draw 50 to 50 |
| GameEngine.ActiveGame.Claim | app/core/game_engine.py:334-346 | the neighbour loop fills exactly the empty cells of the cross and adds exactly their number to the score |
| GameEngine.ActiveGame.ApplyPlace | app/core/game_engine.py:301-346 | which placements are rejected and why, that a rejection changes nothing, and the whole effect of an acceptance |
| GameEngine.ActiveGame.HasEmpty | app/core/game_engine.py:360-366 | finds an empty cell exactly when the board is not full |
| GameEngine.ActiveGame.DetermineWinner | app/core/game_engine.py:373-386 | a player wins exactly when scoring more than the other, so nobody on a tie |
| GameEngine.ActiveGame.CheckGameOver | app/core/game_engine.py:348-371 | over exactly when the cap is reached or the board is full, and what changes then |
| GameEngine.ActiveGame.Process | app/core/game_engine.py:257-297 | each rejection in terms of status, mover, action and cell, in the code's order and changing nothing, and otherwise the effect of the rules |
| GameEngine.Engine.ProcessAction | app/core/game_engine.py:238-299 | the action's effect on its room, and that no other room changes |
| GameEngine.Engine.HandleDisconnect | app/core/game_engine.py:544-558 | records a disconnect only in a running game; no other room changes |
| GameEngine.Engine.DisconnectTimer | app/core/game_engine.py:582-601 | forfeits exactly a player who is still disconnected; no other room changes |
| GameEngine.Engine.HandleReconnect | app/core/game_engine.py:603-617 | removes the player, and resumes a pause when nobody is missing; no other room changes |
| GameEngine.Engine.CreateGame | app/core/game_engine.py:177-194 | installs a fresh game and changes no other room |
| GameEngine.Engine.RestoreGame | app/core/game_engine.py:651-680 | installs the restored game if there are a snapshot and a room record, else nothing; changes no other room |
| GameEngine.Engine.Cleanup | app/core/game_engine.py:711-715 | removes exactly one room |
| Lifecycle.StepKeeps | app/core/game_engine.py:238-299 | every step of every coroutine keeps the invariant of the game, its completions and its timers |
| Lifecycle.ReachableInv | app/core/game_engine.py:544-601 | the invariant holds in every reachable state |
| Outcomes.StatusMeaning | app/core/game_engine.py:553-617 | running means nobody recorded as disconnected, paused means exactly one missing player of an unfinished game, finished means ended by board or forfeit |
| Absence.RunningAwayIff | app/core/game_engine.py:553-558 | a player of a running game is in fact away exactly when the last departure arrived while the game was not running |
| Absence.MissedIsIgnored | app/core/game_engine.py:553-601 | such an absence has no consequence: without a further departure, no interleaving of a running game pauses or forfeits it |
| Absence.AwayUnnoticed | app/core/game_engine.py:553-558 | a reachable running game with an absent player and no timer or handler for that player |
| Outcomes.BoardMeaning | app/core/game_engine.py:252-346 | in every reachable state turns alternate strictly across pauses, the board is owned by earliest placements, scores count cells, and the turn bound holds |
| Outcomes.ReplayGivesGame | app/core/game_engine.py:16-19 | replaying the history from the start gives the same board, scores, turn and player to move |
| Outcomes.RecordsIffLegal | app/core/game_engine.py:238-299 | the histories that interleavings of one game can record are exactly the legal ones |
| Outcomes.LegalIsReachable | app/core/game_engine.py:252-297 | every legal history can be played, and ends the game by its board exactly when its last action exhausts it |
| Outcomes.RatedAsCreated | app/core/game_engine.py:177-194 | the players and ratings of a game never change |
| Outcomes.ClientsEnabled | app/core/game_engine.py:238-257 | in every reachable state any player can act, drop and return |
| Outcomes.StandardOutcome | app/utils/constants.py:124-127 | on the standard board every reachable game has at most 50 turns, and one ended by its board is full |
| Outcomes.FinishedIsFinal | app/core/game_engine.py:586-601 | once finished, no interleaving changes board, scores, turn, status or winner |
| Outcomes.FinishedIsBeingClosed | app/core/game_engine.py:413-464 | a finished game that is still listed always has its completion under way, and one that was removed had its result handed over first |
| Outcomes.FinishedCanClose | app/core/game_engine.py:413-464 | and at most three more steps report it, hand its result over and remove it |
| Outcomes.PauseIsTransparent | app/core/game_engine.py:553-617 | a player who drops and returns before a forfeit finds exactly the game that was left, whatever was tried in between |
| Outcomes.BoardEndCompletesOnce | app/core/game_engine.py:286-297 | a game ended by its board is completed exactly once and never forfeited |
| Outcomes.ForfeitCompletesOnceIff | app/core/game_engine.py:582-601 | a forfeited game is completed once in every continuation exactly when the forfeiter has no second timer or handler |
| Outcomes.DoubleCompletion | app/core/game_engine.py:569-601 | a reachable run in which a forfeit is completed and recorded twice |
| Outcomes.PauseCanEnd | app/core/game_engine.py:557-601 | every pause has a pending timer or handler for the missing player, and can end in that player's forfeit within one grace period |
| Outcomes.OneTimerPerDrop | app/core/game_engine.py:557-584 | recorded disconnects number as many as handlers and timers pending and timers expired |
| Outcomes.ForfeitStep | app/core/game_engine.py:590-601 | only the timer of the missing player of a paused game forfeits it, and the opponent wins |
| Outcomes.ForfeitIsEarned | app/core/game_engine.py:582-601 | the loser of a forfeit had a disconnect recorded at least one grace period earlier, and the winner is another player of the game |
| Outcomes.FullGraceIff | app/core/game_engine.py:547-552 | a missing player is sure of a full grace period exactly when no older timer of that player is pending |
| Outcomes.EarlyForfeit | app/core/game_engine.py:584-601 | a reachable run that forfeits a player less than a grace period after the latest disconnect |
| Outcomes.MoverSurvivesRestoreIff | app/core/game_engine.py:667-676 | restoring an unfinished game keeps the player to move exactly at even turn numbers |
| Outcomes.RestoredPause | app/core/game_engine.py:667-676 | a game saved while paused comes back with nobody missing: no interleaving without a reconnect changes it, and the reconnect of any player resumes it |
| Snapshot.RestoredKeeps | app/core/game_engine.py:94-105 | a restored game has the board, scores, turn, status and winner of the original and its last min(20, turns) actions |
| Snapshot.RestoredVerdictsIff | app/core/game_engine.py:667-676 | it judges every action of every player as the original exactly when that was not running or the first player was to move |
| Snapshot.SavedMover | app/core/game_engine.py:94-105 | a snapshot of a running game names the player whose turn it is |
| Snapshot.SaveRestoreSave | app/core/game_engine.py:94-105 | saving the restored game gives the same snapshot exactly when the first player was to move |
| Snapshot.PlayExplained | app/core/game_engine.py:667-676 | any further play of an explained game, restored or not, only adds placements that keep it explained |
| Snapshot.RestoredPlayBound | app/core/game_engine.py:644-680 | play after a restore stays within the original turn bound, scores still count cells, and no owned cell changes hands |
| Elo.RoundNearest | app/core/game_engine.py:495-496 | rounding goes to a nearest integer, to the even one of two |
| Elo.RoundOdd | app/core/game_engine.py:495-496 | rounding half to even is an odd function |
| Elo.NearestDelta | app/core/game_engine.py:476-501 | the first player's change is an integer nearest to 32 points for each score above the expected one, and is added to the one rating and taken from the other |
| Elo.OppositeDeltas | app/core/game_engine.py:476-501 | the two changes are exactly opposite, for all ratings and outcomes |
| Elo.ZeroSum | app/core/game_engine.py:476-501 | the sum of the ratings is conserved |
| Elo.DeltaBounds | app/core/game_engine.py:484-496 | at most 32 points, at most 16 on a draw, and a winner never loses any |
| Elo.OrderIrrelevant | app/core/game_engine.py:476-501 | swapping the order of the players changes nobody's result |
| Elo.LeadEarnsLess | app/core/game_engine.py:480-496 | for the same outcome, a larger rating lead never earns more |
| Elo.UpsetPaysMore | app/core/game_engine.py:480-496 | a draw never pays the favourite, and beating the favourite pays at least as much as the favourite's win |
| Elo.WinnerGainsIff | app/core/game_engine.py:480-496 | a winner gains something exactly when the expected odds are below 63 to 1 |
| Elo.RestoredGameIsEven | app/core/game_engine.py:667-676 | after a restore every win is rated as between two 1000-rated players |
| Matchmaking.ScanFindsGreedy | app/core/matchmaking.py:78-91 | the first accepting index pair is a lowest-rated player with a partner, and the nearest of all compatible opponents |
| Matchmaking.ScanFindsNone | app/core/matchmaking.py:78-95 | when the scan finds nothing, no two queued players accept each other |
| Matchmaking.AcceptanceMoment | app/core/matchmaking.py:69-83 | two players accept each other exactly when both have waited (difference - base) / expansion seconds and the difference is at most the maximum |
| Matchmaking.JustJoined | app/core/matchmaking.py:69-83 | two who have just joined accept each other exactly within base and maximum |
| Matchmaking.WithoutStamp | app/core/matchmaking.py:69-70 | a player without a join time counts as just joined |
| Matchmaking.TieBreak | app/core/matchmaking.py:56-57 | of players with equal ratings the one with the first id is matched first |
| Matchmaking.PopExists | app/core/matchmaking.py:48-96 | from every queue the script has an answer |
| Matchmaking.Matchmaker.FirstPair | app/core/matchmaking.py:78-95 | the nested loops return the lexicographically least accepting pair, or none exists |
| Matchmaking.Matchmaker.PopPair | app/core/matchmaking.py:48-96 | the script answers nothing exactly when no pair is compatible, and otherwise removes exactly the greedy pair, the first by rating and id, from queue and hash |
| Matchmaking.PopDetermined | app/core/matchmaking.py:48-96 | what the script answers and leaves is determined by queue, join times and clock |
| Matchmaking.Matchmaker.TryMatch | app/core/matchmaking.py:222-267 | as the script, or nothing and no change when the script has to be reloaded |
| Matchmaking.Matchmaker.Drain | app/core/matchmaking.py:206-212 | the loop ends; each pair is the script's answer on what the one before left; nothing compatible is left when the script answered nothing |
| Matchmaking.DrainedPair | app/core/matchmaking.py:206-212 | every pair of a drain was the greedy one when made and carries the ratings of the initial queue |
| Matchmaking.ChainDrains | app/core/matchmaking.py:206-212 | pairs and residue account for the initial queue |
| Matchmaking.DrainedPairsDisjoint | app/core/matchmaking.py:206-212 | the pairs of one drain are disjoint |
| MatchRuns.RunBalanced | app/core/matchmaking.py:83-90 | every run of any number of instances balances entries against matches, departures, re-entries and the queue, and keeps the hash's keys equal to the queue's |
| MatchRuns.NoDoubleBooking | app/core/matchmaking.py:20-24 | nobody is matched more often than enqueued, with one entry to spare while queued |
| MatchRuns.JoinTimeKnown | app/core/matchmaking.py:69-70 | the fallback to the current time is never used for a queued player |
| MatchRuns.QueuedAsEntered | app/core/matchmaking.py:140-151 | whoever is queued has the rating and join time of the last own enqueue |
| MatchRuns.AlwaysEnabled | app/core/matchmaking.py:48-96 | players can come and go and the script can run in every state, with exactly one possible answer |
| MatchRuns.UntilEnqueued | app/core/matchmaking.py:140-191 | a player outside the queue is not matched until the next enqueue, and a queued one keeps rating and join time |
| MatchRuns.CompatibleStays | app/core/matchmaking.py:69-83 | a compatible pair stays compatible over any interleaving while both stay queued, so a later pop is not empty |
| MatchRuns.NothingFoundSeparates | app/core/matchmaking.py:69-95 | after an empty pop any two players who waited long enough differ by more than the tolerance of that wait |
| MatchRuns.SaturatedSeparates | app/config.py:57-59 | in particular by more than the maximum after (max - base) / expansion seconds, and by more than the base at once |
| MatchRuns.ResidueSpread | app/core/matchmaking.py:206-212 | n players left over span more than n - 1 such gaps |
| MatchRuns.EventuallyCompatibleIff | app/core/matchmaking.py:12-14 | two waiting players will ever accept each other exactly when they differ by at most the maximum tolerance |
| Registry.RoomsDetermined | app/core/ws_manager.py:66-72 | the rooms index is a function of the connections |
| Registry.RegisterAgrees | app/core/ws_manager.py:105-111 | registering a new connection keeps the indexes in agreement |
| Registry.JoinAgreesIff | app/core/ws_manager.py:161-174 | joining, with leaving the old room first, keeps them in agreement exactly when the connection does not come from the room with the empty name |
| Registry.LeaveAgrees | app/core/ws_manager.py:178-190 | leaving keeps them in agreement |
| Registry.DisconnectAgreesIff | app/core/ws_manager.py:127-139 | disconnecting keeps them in agreement exactly when the connection is not in the room with the empty name |
| Registry.ConnectionManager.RegisterConnection | app/core/ws_manager.py:105-111 | the new connection has no room and is its player's entry; the rest is unchanged |
| Registry.ConnectionManager.DisconnectConnection | app/core/ws_manager.py:121-147 | removes the connection, keeps the player entries that point elsewhere, and returns what was removed |
| Registry.ConnectionManager.JoinRoom | app/core/ws_manager.py:161-176 | a live connection ends with the room as its own and as a member of it; the other connections and all player entries are unchanged |
| Registry.ConnectionManager.LeaveRoom | app/core/ws_manager.py:178-190 | a live connection ends without a room; the other connections and all player entries are unchanged |
| Registry.ConnectionManager.GetRoomMemberIds | app/core/ws_manager.py:192-200 | lists each player as often as that player has live connections in the room |
| Registry.ConnectionManager.BroadcastToRoom | app/core/ws_manager.py:215-244 | counts the reached connections of the room other than the excluded player's, and removes exactly those of them whose send failed, and the player entries that point to them |
| Registry.ConnectionManager.SendToConnection | app/core/ws_manager.py:246-283 | a failed send disconnects its connection, a delivered one changes nothing |
| Registry.ConnectionManager.CloseAll | app/core/ws_manager.py:306-311 | empties all three indexes |
| RegistryRuns.IndexesAgreeIff | app/core/ws_manager.py:66-139 | in every interleaving the indexes agree at every await boundary exactly when nobody disconnects from, or joins another room from, the room with the empty name; player entries are right in any case |
| RegistryRuns.IndexesAgree | app/core/ws_manager.py:66-139 | so they always agree when rooms have names |
| RegistryRuns.LiveAsJoined | app/core/ws_manager.py:161-190 | in every interleaving a live connection belongs to the player who connected with it and is in the room it joined last, unless it left since |
| RegistryRuns.ConnectEvicts | app/core/ws_manager.py:86-111 | what an uninterrupted connect does: the old entry's connection is gone, the new one is the entry and has no room, all others are as before |
| RegistryRuns.OneConnectionPerPlayer | app/core/ws_manager.py:86-111 | when connects of one player never overlap, each player has at most one live connection, the one registered last |
| RegistryRuns.StaysOneIff | app/core/ws_manager.py:86-111 | from a given state no player can ever get a second live connection, while connects do not overlap, exactly when every live connection is its player's entry, no two connects of one player wait, and each waiting one will evict its player's live connection |
| RegistryRuns.OverlapLeavesTwo | app/core/ws_manager.py:92-111 | a run of two overlapping connects that leaves two live connections |
| RegistryRuns.ShutdownEmpties | app/core/ws_manager.py:306-311 | however close_all interleaves, without a finished connect no connection and no player entry is left, and no room either if the indexes agreed |
| RateLimit.RateLimiter.CheckRateLimit | app/api/middleware.py:102-119 | the answer counts the ids of the request and of the requests still kept; of distinct requests in order, those less than a window old in the full log |
| RateLimit.BucketRepresents | app/api/middleware.py:106-114 | at any later time the set holds exactly the requests less than a window old, expired or not |
| RateLimit.CountsKept | app/api/middleware.py:102-119 | with clocks in any order, the requests that count are those that no later clock pruned or expired, one for each id |
| RateLimit.CountsAsFullLogIff | app/api/middleware.py:102-116 | the count is that of the full log exactly when no clock since a recent request was a window ahead of it or expired the set, and the ids differ |
| RateLimit.AnswersAsFullLogIff | app/api/middleware.py:82-91 | and then, and only then, the answer is that of the full log for every limit |
| RateLimit.AnswersAsFullLog | app/api/middleware.py:82-91 | in particular for requests in order with distinct ids: admitted exactly when it and the requests less than a window older number at most the limit |
| RateLimit.WindowLimitUnlessLost | app/api/middleware.py:82-91 | at most max_requests are admitted in any window, wherever it starts, if the set lost nothing that the admitted ones should have found |
| RateLimit.WindowLimit | app/api/middleware.py:82-91 | in particular for requests in order with distinct ids |
| RateLimit.SilentClientAdmitted | app/api/middleware.py:106-119 | a client silent for a window is admitted exactly when the limit is at least one |
| RateLimit.PersistentClientRejected | app/api/middleware.py:109-119 | rejected requests count: a client that keeps the window full is never admitted |
| RateLimit.BackwardClockForgets | app/api/middleware.py:102-110 | a run in which a clock steps back: a pruned request that the log would count, and an admission that it would refuse |

## Left out

- Message contents, schemas, logging, pub/sub, authentication, SQLAlchemy and the web layer: a send is an
  await, with a result where the result changes state.
- Matchmaking.Matchmaker.Drain: states one instance's loop while nobody else touches the queue, since with
  others its pairs need not be disjoint; what any number of instances guarantee together is in `MatchRuns`.
- Registry.ConnectionManager.BroadcastToRoom: runs its sends one after the other with nothing in between;
  what holds when other coroutines run between them is in `RegistryRuns`.
- Registry.ConnectionManager.SendToConnection: joins the removal to the failed send; `RegistryRuns` lets the
  removal come at any later point.
- Registry.ConnectionManager.CloseAll: runs without interruption; `ShutdownEmpties` covers interleavings.
- Redis itself: transactions and scripts are atomic, keys are maps. `RangeByScore` stands for the sorted
  range.
- Failures inside `_handle_game_over` (an exception in a send or in Redis) and cancelled coroutines:
  every started coroutine of the lifecycle model can go on.
- Timestamps of history entries, `started_at`, `last_activity` and message counts: no decision depends on
  them.
- `ConnectionInfo` is a value in the connections map: an alias that a caller keeps after the removal is
  not modelled.
- The asynchronous order of the sends of one broadcast: they touch different connections.
- Floating-point rounding in ratings and tolerances.
- `scripts/lua/matchmaking_pop.lua` and `scripts/lua/claim_room.lua`: a copy of the embedded script, and a
  compare-and-set that no Python code calls.
- Session records, leaderboards, the waiting-time estimate and room creation: they would only add easy
  members.
- Restoring as a step of the lifecycle: nothing in the repository calls `restore_game_from_snapshot`, so
  runs start from created games, and `Snapshot.dfy` treats what follows a restore by itself.
