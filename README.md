# Mafia game rules, modelled and verified in Dafny

This project models the game-rules layer of a Flask server for the party game
Mafia (an Arabic-language social deduction game):

- who gets which role (a fixed table for 4 to 20 players, an automatic fallback,
  a balance check, a shuffled deal);
- the phase state machine of one game, with its action ledger, timers and the
  night resolver (heals shared by Mafia and Vigilante kills, investigations);
- weighted voting: one session per room, a tally kept in step with the votes,
  completion into no votes, an elimination or a tie;
- the game session and the registry of sessions by room and by game, the win
  rule, the end of a game with the per-player statistics it writes;
- the entities those layers mutate: players, games, rooms, the room manager's
  user-to-room map, chat messages, user rows and user statistics;
- the cleaner applied to speech transcriptions.

Database rows become Dafny classes whose fields the methods update in place;
queries become in-memory maps or sequences passed in by the caller. Clocks
become an explicit `now` argument, and the random shuffle and room-code choice
become caller-supplied draws. Everything runs sequentially.

Modules follow the source files: `PlayerModel` (models/player.py), `GameModel`
(models/game.py), `RoomModel` (models/room.py), `MessageModel`
(models/message.py), `UserModel` (models/user.py), `StatisticsModel`
(models/statistics.py), `RoleManagement` (game/role_manager.py),
`PhaseManagement` (game/phase_manager.py), `VotingManagement`
(game/voting_manager.py), `RoomManagement` (game/room_manager.py),
`GameManagement` (game/game_manager.py) and `SpeechToText`
(ai/speech_to_text.py). `Wrappers` holds the `Option` type.

## Model

| member | source | states |
|---|---|---|
| PlayerModel.Player.constructor | models/player.py:50-88 | a new player is alive, active, not ready, without a role, with zero counters and a consistent death record |
| PlayerModel.Player.AssignRole | models/player.py:90-92 | the role becomes the given one |
| PlayerModel.Player.Kill | models/player.py:103-115 | reports success exactly when the player was alive; a dead player is left unchanged; otherwise the player is dead with the given cause, time and round, and the killer is recorded only when one is given; alive flag and status stay consistent |
| PlayerModel.Player.Eliminate | models/player.py:131-133 | a kill with cause Lynch and no killer, under the same success rule |
| PlayerModel.Player.LeaveGame | models/player.py:135-141 | the player becomes inactive with a leave time and is dead afterwards; a living player is killed with cause LeftGame, a dead one keeps its death record |
| PlayerModel.Player.Vote | models/player.py:153-161 | the voter's votes cast grow by one, and the resolved target's votes received by one, a self-vote included; nothing else of the voter changes; the target's role, status, death record, counters other than votes received, actions and leave time stay as they were |
| PlayerModel.Player.TakeAction | models/player.py:174-191 | actions taken grows by one and exactly one action record is appended |
| PlayerModel.Player.CanTakeAction | models/player.py:264-273 | acting requires being able to vote and holding one of the night roles, never Citizen, Mayor, Jester or no role |
| PlayerModel.Player.IsCitizen | models/player.py:275-281 | citizen is the complement of mafia, and a player without a role is a citizen |
| PlayerModel.AlivePlayers | models/game.py:204-210 | exactly the living players of the list, no more players than the list has |
| PlayerModel.AlivePlayersAppend | models/game.py:204-210 | filtering a concatenation concatenates the filtered parts, so the living players keep the order of the list |
| PlayerModel.AliveMafia | game/role_manager.py:186-188 | `get_mafia_players` (and the query of the same name in models/game.py): exactly the living players whose role is Mafia, no more than the living players |
| PlayerModel.CitizenPlayers | game/role_manager.py:190-192 | `get_citizen_players` (and the query of the same name in models/game.py): exactly the living players whose role is not Mafia |
| PlayerModel.MafiaCitizenPartition | game/role_manager.py:186-192 | the living Mafia and the living citizens split the living players: each living player is in exactly one list, no dead one in either, and the lengths add up |
| PlayerModel.AliveIds | game/game_manager.py:86-96 | the ids of exactly the living players, one per living player |
| GameModel.DecideWinner | models/game.py:230-241 | citizens win exactly when no Mafia is alive; Mafia win exactly when some are alive and they are at least as many as the rest; otherwise no verdict |
| GameModel.WinnerAmong | game/game_manager.py:150-161 | three verdicts, each exactly under its condition: citizens exactly when no living player is Mafia; Mafia exactly when some Mafia live and they are at least half of the living; no verdict exactly when the living Mafia are fewer than half and not zero; never a draw or a cancellation |
| GameModel.NoAliveMafia | game/game_manager.py:152-155 | the living-Mafia list is empty exactly when no living player has the Mafia role |
| GameModel.MaxNumber | models/game.py:80 | the largest of the room's game numbers, one of them |
| GameModel.NextGameNumber | models/game.py:79-81 | 1 for a room without games, else one past the largest existing number, above every existing number |
| GameModel.Game.constructor | models/game.py:74-81 | a new game is starting, in the Day phase, round 1, numbered by NextGameNumber, with no deadline, finish or winner |
| GameModel.Game.StartPhase | models/game.py:98-107 | the phase and its start time are set; the deadline is start plus duration for a non-zero duration, none otherwise |
| GameModel.Game.NextRound | models/game.py:114-117 | the round grows by exactly one |
| GameModel.Game.FinishGame | models/game.py:121-127 | status and phase Finished, the given winner and team, a finish time |
| GameModel.Game.CancelGame | models/game.py:141-146 | status Cancelled, phase Finished, winner Cancelled, a finish time; the team is left as it was |
| GameModel.Game.PauseGame | models/game.py:152-157 | the status becomes Paused |
| GameModel.Game.ResumeGame | models/game.py:159-164 | the status becomes Active |
| GameModel.Game.PhaseRemainingTime | models/game.py:189-202 | none exactly when there is no deadline; otherwise never negative, zero exactly when the phase has expired, and a positive value reaches the deadline |
| GameModel.Game.CheckWinCondition | models/game.py:230-241 | the shared win rule over the room's players: citizens exactly when no living Mafia; Mafia exactly when living Mafia are some and at least as many as the living citizens; no verdict exactly when they are fewer and not zero; never a draw or a cancellation |
| UserModel.User.constructor | models/user.py:33-57 | a new user is active, offline, with zero won, lost and total games |
| UserModel.User.UpdateLastSeen | models/user.py:67-71 | the user is online, last seen now |
| UserModel.User.SetOffline | models/user.py:73-77 | the user is offline, last seen now |
| UserModel.User.GetWinRate | models/user.py:79-83 | 0 with no games; otherwise the won share times 100, within 0..100 while won plus lost equals total |
| UserModel.User.UpdateGameStats | models/user.py:85-91 | total grows by one and exactly one of won or lost grows by one, keeping total = won + lost |
| UserModel.Percentage | models/user.py:83 | the ratio times 100, exact: it scales back to the part, is non-negative, positive exactly for a positive part, at most 100 when the part is within the whole |
| StatisticsModel.RoleOfName | models/statistics.py:104-112 | a name addresses a role's counters only when it is that role's name |
| StatisticsModel.RoleNameRoundTrip | models/statistics.py:104-112 | every role's own name addresses that role's counters |
| StatisticsModel.RoleListed | models/statistics.py:217-232 | every role is in the listing order |
| StatisticsModel.Bump | models/statistics.py:104-112 | exactly one role counter grows by one, so the sum grows by one |
| StatisticsModel.BumpKeepsAtMost | models/statistics.py:104-112 | counting a game for a role, and a win only when won, keeps wins within games role by role |
| StatisticsModel.AtMostCount | models/statistics.py:199-213 | wins within games role by role gives wins within games for any one role |
| StatisticsModel.UserStatistics.constructor | models/statistics.py:12-89 | every counter starts at zero and the counters agree |
| StatisticsModel.UserStatistics.UpdateGameStats | models/statistics.py:91-116 | total grows by one and exactly one of won or lost (a draw counts as lost); survivals grow only when survived; only a known role name moves its games counter, and its wins counter only on a win; play time grows by the duration and the average is play time per game; all counter invariants are kept |
| StatisticsModel.UserStatistics.CountGame | models/statistics.py:94-116 | the same counting once the role name is resolved, keeping the invariants |
| StatisticsModel.UserStatistics.UpdateAverageGameDuration | models/statistics.py:176-179 | after a game the average is play time per game; before any game it is untouched |
| StatisticsModel.UserStatistics.UpdateDeathStats | models/statistics.py:120-127 | exactly the counter of the named cause grows by one; any other cause changes nothing |
| StatisticsModel.UserStatistics.UpdateVoteStats | models/statistics.py:131-137 | the vote total grows by one and exactly one of correct or incorrect, keeping total = correct + incorrect |
| StatisticsModel.UserStatistics.UpdateActionStats | models/statistics.py:141-154 | exactly one action counter grows for heal, successful investigation, mafia kill or vigilante kill; a failed investigation and any other action change nothing |
| StatisticsModel.UserStatistics.GetWinRate | models/statistics.py:181-185 | 0 with no games; otherwise the won share times 100, within 0..100 under the invariant |
| StatisticsModel.UserStatistics.GetSurvivalRate | models/statistics.py:187-191 | 0 with no games; otherwise the survived share times 100, within 0..100 under the invariant |
| StatisticsModel.UserStatistics.GetVoteAccuracy | models/statistics.py:193-197 | 0 with no votes; otherwise the correct share times 100, within 0..100 under the invariant |
| StatisticsModel.UserStatistics.RoleWinRate | models/statistics.py:207-213 | 0 for a role never played; otherwise the role's won share times 100, within 0..100, positive exactly when the role was won |
| StatisticsModel.UserStatistics.GetRoleWinRate | models/statistics.py:199-213 | 0 for a name that is no role, else that role's win rate |
| StatisticsModel.UserStatistics.GetFavoriteRole | models/statistics.py:215-228 | none exactly when no role was played; otherwise a most-played role, and every role listed before it was played less often |
| StatisticsModel.UserStatistics.GetBestRole | models/statistics.py:230-242 | (none, 0) exactly when no role has a positive rate; otherwise a role with the highest rate, every role listed before it strictly lower |
| StatisticsModel.Average | models/statistics.py:179 | the play time per game, which multiplied by the games gives the play time |
| StatisticsModel.FirstMax | models/statistics.py:227 | an element with the largest count, and every earlier element has a smaller count (the first maximum, as Python's `max` picks) |
| MessageModel.DeletedAndSystem | models/message.py:159-167 | nobody sees a deleted message; everybody sees a system message that is not deleted |
| MessageModel.HiddenOnlySender | models/message.py:169-171 | a hidden message that is not a system message is visible exactly to its sender |
| MessageModel.PrivateSenderAndTarget | models/message.py:173-177 | a private message, neither hidden nor deleted, is visible exactly to its sender and its target |
| MessageModel.MafiaActionOnlyMafia | models/message.py:179-189 | a game action of a Mafia sender, neither hidden nor deleted, is visible exactly to the Mafia players of the room |
| MessageModel.OthersVisibleToAll | models/message.py:159-191 | a message can be withheld only when it is deleted, hidden, private, or a Mafia game action |
| MessageModel.SenderSeesOwn | models/message.py:159-191 | a message that is not deleted is visible to its own sender, whatever its kind |
| MessageModel.DisplayShowsContent | models/message.py:193-204 | the viewer is shown the content exactly when the message is visible and neither hidden nor deleted; the deleted placeholder is never shown |
| MessageModel.Message.constructor | models/message.py:70-80 | a new message is sent, unflagged, with score 0 and no edit or hide record |
| MessageModel.Message.FlagAsSuspicious | models/message.py:103-119 | the message is flagged, the score (0.8 unless given) becomes the larger of old and new so it never decreases, and exactly one flag is appended |
| MessageModel.Message.HideMessage | models/message.py:122-131 | the status is Hidden with the reason (the moderator's default unless given) and time; unless it is a system message only its sender sees it, and whoever sees it is shown the hidden placeholder |
| MessageModel.Message.EditContent | models/message.py:134-137 | the content is replaced and the edit time recorded |
| MessageModel.Message.DeleteMessage | models/message.py:140-143 | the status is Deleted, the content the deleted placeholder, nobody sees it and everybody is shown the not-visible placeholder |
| MessageModel.CreateSystemMessage | models/message.py:243-255 | a fresh sent system message without a sender |
| MessageModel.CreateGameActionMessage | models/message.py:257-269 | a fresh sent game-action message with the given sender |
| RoomModel.CodeOf | models/room.py:80 | a code has one character per draw, each from A-Z and 0-9 |
| RoomModel.GenerateRoomCode | models/room.py:73-82 | the first candidate code no room uses: six characters of A-Z0-9, unused, every earlier candidate taken; none exactly when every candidate is taken |
| RoomModel.SeatIds | models/room.py:89-92 | the user ids of the room's players rows, one per row, in order |
| RoomModel.RemoveSeat | models/room.py:132 | the rows without the leaving user's, no longer than before |
| RoomModel.RemoveSeatFacts | models/room.py:123-133 | removing an absent user removes nothing; afterwards the user has no row; on distinct rows exactly one row goes and the rest stay distinct |
| RoomModel.RemoveSeatIds | models/room.py:123-133 | removing an absent user removes nothing, and afterwards the user has no row |
| RoomModel.RemoveSeatDistinct | models/room.py:123-133 | on distinct rows, removing a present user removes exactly one row and keeps the rest distinct |
| RoomModel.ActiveSeats | models/room.py:174-177 | exactly the rows of active players |
| RoomModel.SetReady | game/room_manager.py:236 | only the given user's ready flag changes, to the given value; ids and active flags stay |
| RoomModel.Room.constructor | models/room.py:36-71 | a new waiting room, empty, with the given settings or the defaults (12 seats, 4 to start, both chats, no auto start) |
| RoomModel.Room.StartGame | models/room.py:148-160 | succeeds exactly for a waiting room with at least the minimum players, then Starting with a start time; otherwise nothing changes |
| RoomModel.Room.AddPlayer | models/room.py:84-117 | succeeds exactly when the user has no row and the room can be joined; then one row is appended, the count grows by one and stays within the maximum, and the room is Starting exactly when auto start is set and the minimum is reached; a refusal changes nothing |
| RoomModel.Room.RemovePlayer | models/room.py:119-146 | succeeds exactly when the user has a row; then that row goes and the count drops by one; a leaving creator is replaced by the first remaining player, or the room is cancelled when none remain; a refusal changes nothing |
| RoomModel.Room.FinishGame | models/room.py:162-166 | the room is Finished with a finish time |
| RoomModel.Room.CancelGame | models/room.py:168-172 | the room is Cancelled with a finish time |
| RoomModel.Room.GetActivePlayers | models/room.py:174-177 | exactly the rows of active players |
| RoomModel.Room.SetSeatReady | game/room_manager.py:228-237 | finds the user's row exactly when there is one and sets only its ready flag; otherwise nothing changes |
| RoomManagement.IdSet | game/room_manager.py:296-298 | exactly the user ids of the given rows |
| RoomManagement.AddThenRemove | game/room_manager.py:54-55 | deleting a room just added under a fresh code gives the rooms table back |
| RoomManagement.RoomManager.constructor | game/room_manager.py:17-22 | the table, the cache, the user-to-room map and the locks start empty |
| RoomManagement.RoomManager.Lookup | game/room_manager.py:150-163 | a room is found exactly when its code is cached or in the table, and it is one of those rooms |
| RoomManagement.RoomManager.LookupValid | game/room_manager.py:150-163 | a found room sits under its own code and keeps its seat invariant |
| RoomManagement.RoomManager.GetRoom | game/room_manager.py:150-163 | returns the cached room, else the table's; a live room found only in the table is cached and given a lock, nothing else is cached; the room under every code stays the same |
| RoomManagement.RoomManager.CleanupEmptyRoom | game/room_manager.py:309-322 | the code leaves the cache and the locks; the table's room under it is cancelled exactly when it has no players; only that room's status may change, and the room found under the code stays the same |
| RoomManagement.RoomManager.StoreNewRoom | game/room_manager.py:37-48 | a fresh waiting, empty room with the next id is stored under its code in the table and the cache, with a lock |
| RoomManagement.RoomManager.CreateRoomJoining | game/room_manager.py:24-58 | `create_room` with the creator's join password as a parameter: each refusal (unknown user, user in a room, no free code, full room, wrong password) happens exactly under its condition, in that order, and leaves the table and the map as they were; success stores a room with a new code and seats and maps the creator alone |
| RoomManagement.RoomManager.OpenRoom | game/room_manager.py:37-58 | after storing the room the creator joins through the room's checks; a failed join deletes the room from the table again; success seats and maps the creator |
| RoomManagement.RoomManager.CreateRoomAsWritten | game/room_manager.py:24-58 | as written, a room with a non-empty password is never created: the creator's join is refused with a wrong password |
| RoomManagement.RoomManager.CreateRoom | game/room_manager.py:24-58 | the creator joins under the room's own password: creation never fails on the password and succeeds exactly when the user is known and in no room, a code is free and the room has a seat, then the creator sits alone in it |
| RoomManagement.RoomManager.AdmitPlayer | game/room_manager.py:86-104 | the room's refusals in order (full, not waiting, wrong password, already seated), each exactly under its condition and changing nothing; success appends exactly the user's active, not-ready row, adds one to the count, leaves the room waiting or starting (starting exactly with auto start at the minimum, with a start time), maps the user to the room and marks the user online now |
| RoomManagement.RoomManager.JoinRoom | game/room_manager.py:64-104 | returns one of nine outcomes: an unknown user, a user already in this room or another, an unknown room, and each refusal of the room, each exactly under its condition; only success seats the user as AdmitPlayer does, adds the mapping and marks that user online; a refusal leaves the mapping and the room; no other room and no other user changes |
| RoomManagement.RoomManager.JoinFreeUser | game/room_manager.py:80-104 | for a known user in no room: an unknown room is refused; otherwise the room admits the user (the row appended, the count and the start rule as in AdmitPlayer, the mapping added, the user online) or refuses under the same conditions, leaving room, user and mapping; no other room changes |
| RoomManagement.RoomManager.Depart | game/room_manager.py:125-135 | succeeds exactly when the user sits in the room; then the seat goes, the count drops by one, a departing creator hands over to the first remaining player or leaves the room cancelled, the mapping goes, and an emptied room leaves the cache and the locks and is cancelled in the table; a refusal changes nothing; no other room changes |
| RoomManagement.RoomManager.Unseat | game/room_manager.py:128-130 | succeeds exactly when the user sits in the room, then the seat and the mapping go as Departed says; a refusal changes nothing |
| RoomManagement.RoomManager.LeaveRoom | game/room_manager.py:109-135 | refuses an unmapped user; a mapping to a room that no longer exists is dropped; otherwise succeeds exactly when the user sits in the room, then leaves it as Depart does; a user without a seat leaves room and mapping unchanged; no other room changes |
| RoomManagement.RoomManager.LeaveMapped | game/room_manager.py:116-135 | for a user mapped to a code: a missing room drops the mapping; otherwise the user departs exactly when seated, as Depart says; only the room under the code can change |
| RoomManagement.RoomManager.RemovePlayerFromAllRooms | game/room_manager.py:140-148 | an unmapped user changes no room and no mapping; a mapping to a missing room is dropped; a seated user leaves the room as Depart does; a mapped user without a seat changes nothing; no other room and no other user changes; a known user ends offline, last seen now |
| RoomManagement.RoomManager.SetPlayerReady | game/room_manager.py:221-248 | refuses a user in no room; otherwise the room-side effect ReadyEffect: refused without a row, nothing changed; else the flag is set and the room starts exactly when readying up with auto start, all active players ready, at least the minimum of them, and the room could start; a room that starts records the start time now, any other keeps its own; only the user's room can change |
| RoomManagement.RoomManager.UpdateRoomSettings | game/room_manager.py:253-278 | refuses an unknown room, every room unchanged; otherwise the room-side effect SettingsEffect: only the creator and only while waiting, each given whitelisted key applied, password, status, seats and creator unchanged; every other room unchanged |
| RoomManagement.RoomManager.UnmapPlayers | game/room_manager.py:295-298 | exactly the listed players lose their mapping; every other mapping stays as it was |
| RoomManagement.RoomManager.DeleteRoom | game/room_manager.py:283-304 | refuses an unknown room and anyone but the creator, changing no mapping and no room; otherwise every active player loses their mapping and nobody else does, the room is cancelled with a finish time and its seats, and leaves the cache and the locks; no other room changes |
| RoomManagement.RoomManager.Dissolve | game/room_manager.py:295-302 | after the creator check: exactly the active players lose their mapping, the room is cancelled with a finish time and keeps its seats, and leaves the cache and the locks; no other room changes |
| RoomManagement.ReadyUp | game/room_manager.py:228-246 | the room-side steps of readying up satisfy ReadyEffect and keep the seat invariant |
| RoomManagement.ApplySettings | game/room_manager.py:260-276 | the room-side steps of a settings update satisfy SettingsEffect |
| RoleManagement.ValidateRoleDistribution | game/role_manager.py:251-278 | balanced exactly when the total is 4 to 20, there is a Mafia, the Mafia are fewer than the rest and their share lies between 20% and 40%; too few and too many players are reported exactly under their conditions; a balanced distribution has between 1 and total-1 Mafia |
| RoleManagement.DefaultDistributionsBalanced | game/role_manager.py:16-34 | the table has an entry exactly for 4 to 20 players, and each entry lists each role once, sums to its player count and is balanced |
| RoleManagement.DefaultEntry | game/role_manager.py:16-34 | the same, for one player count |
| RoleManagement.AutomaticMafiaCount | game/role_manager.py:114 | max(1, min(n div 3, n div 4 + 1)), which from 4 players on is the min itself and at least 1 |
| RoleManagement.LayoutCounts | game/role_manager.py:118-138 | the generated dictionary lists each role once, with the counts handed out, and sums them |
| RoleManagement.DistinctLayout | game/role_manager.py:118-138 | the generated dictionary has no repeated role |
| RoleManagement.RanksIncrease | game/role_manager.py:118-138 | the generated dictionary lists Mafia, Doctor, Detective, Vigilante, Mayor, Citizen in that insertion order |
| RoleManagement.AutomaticDistribution | game/role_manager.py:108-140 | an error exactly below 4 players; otherwise each role once, the counts summing to n and min(n div 3, n div 4 + 1) Mafia, at least one |
| RoleManagement.AutomaticDistributionPriority | game/role_manager.py:120-138 | each special role at most once, in priority order (Mayor only with Vigilante, Vigilante only with Detective, Detective only with Doctor), each added exactly when more slots remain than its threshold (2, 3, 5, 7); at least two citizens; no Jester |
| RoleManagement.AutomaticDistributionShares | game/role_manager.py:251-278 | the automatic Mafia count is a minority within 20%-40%, so the automatic distribution is balanced for 4 to 20 players and fails only the player cap above 20 |
| RoleManagement.GenerateAutomaticDistribution | game/role_manager.py:108-140 | the step-by-step generator that decrements the remaining slots yields AutomaticDistribution |
| RoleManagement.GetRoleDistribution | game/role_manager.py:92-106 | a given custom distribution is returned exactly when its counts sum to n, with no balance check; otherwise the table entry for 4 to 20, the automatic one above 20, and an error below 4; any result sums to n |
| RoleManagement.FallbackDistribution | game/role_manager.py:296-304 | the last-resort distribution sums to n and lists each role once |
| RoleManagement.BalancedDistributionSteps | game/role_manager.py:280-294 | for 4 to 20 the lookup gives the balanced table entry; above 20 lookup and regeneration both give the automatic distribution, which fails the cap; below 4 the lookup fails |
| RoleManagement.GetBalancedDistribution | game/role_manager.py:280-304 | always sums to n; the balanced table entry for 4 to 20 players; the fallback otherwise |
| RoleManagement.Repeat | game/role_manager.py:156 | `[role] * count`: max(0, count) copies of the role |
| RoleManagement.RoleList | game/role_manager.py:154-156 | the flat list holds each listed role as often as its (non-negative) count, and is at least as long as the total |
| RoleManagement.RoleListAppend | game/role_manager.py:155-156 | extending by one more entry appends that entry's copies |
| RoleManagement.BuildRoleList | game/role_manager.py:153-156 | the loop that extends the list entry by entry yields RoleList |
| RoleManagement.MultisetRepeat | game/role_manager.py:156 | the copies of one role hold max(0, count) of it and nothing else |
| RoleManagement.RoleListLength | game/role_manager.py:153-156 | with no negative count the flat list has exactly total roles |
| RoleManagement.Shuffle | game/role_manager.py:159 | the in-place shuffle permutes the array: the multiset of roles is unchanged |
| RoleManagement.AssignedRoles | game/role_manager.py:162-163 | one entry per player, holding that player's role |
| RoleManagement.AssignRoles | game/role_manager.py:142-169 | succeeds exactly with at least 4 players and a distribution; failure assigns nothing; success gives every player a role, the assigned multiset is within the distribution's flat list and equal to it when no count is negative |
| RoleManagement.DealShuffled | game/role_manager.py:153-163 | every player receives a role; the assigned multiset is within the flat list, and equal to it when the list has one role per player |
| RoleManagement.ShuffledRoles | game/role_manager.py:153-159 | a fresh array holding a permutation of the flat list |
| RoleManagement.GiveRoles | game/role_manager.py:161-163 | player i holds role i of the array |
| RoleManagement.CanUseAbility | game/role_manager.py:208-228 | only a living holder of the ability; at night exactly the night abilities of the role; by day or in voting exactly voting, and the double vote for a Mayor; never in Trial or Finished |
| RoleManagement.OtherLiving | game/role_manager.py:239-247 | exactly the living players other than the actor, without Mafia when asked |
| RoleManagement.GetRoleTargets | game/role_manager.py:230-249 | targets are living players other than the actor, and never Mafia for a kill; an ability unusable at night, voting included, has no targets |
| RoleManagement.RoleTargetsComplete | game/role_manager.py:237-247 | when the ability is usable at night, every eligible player is a target |
| RoleManagement.GetPlayersWithAbility | game/role_manager.py:194-206 | exactly the living players whose role has the ability, in order |
| RoleManagement.SummaryCounts | game/role_manager.py:306-325 | alive plus dead is the total, and the team counts sum to the players with a role |
| RoleManagement.GetRoleSummary | game/role_manager.py:306-325 | the loop's tallies: the total, living and dead adding up to it, a role count exactly for each role present, and team counts summing to the players with a role |
| PhaseManagement.DefaultDuration | game/phase_manager.py:82-87 | every phase has a positive default length: 300, 60, 120, 180 seconds, and 300 for a phase outside the table |
| PhaseManagement.Lookup | game/phase_manager.py:430 | the ledger has an entry for an actor exactly when some action of theirs is stored, and returns that action |
| PhaseManagement.Upsert | game/phase_manager.py:195 | storing under an actor's key appends a new actor, keeps the length for a known one, and leaves every other actor's entry in place |
| PhaseManagement.UpsertKeepsUnique | game/phase_manager.py:195 | the ledger keeps at most one action per actor |
| PhaseManagement.UpsertLookup | game/phase_manager.py:195 | after storing, the actor's entry is the new action and every other actor's entry is unchanged |
| PhaseManagement.LastSubmissionWins | game/phase_manager.py:195 | of two submissions by the same actor the later one is kept, and nobody else's entry moves |
| PhaseManagement.RoleAction | game/phase_manager.py:221-228 | a role has a night action exactly when it is Mafia (kill), Doctor (heal), Detective (investigate) or Vigilante (vigilante kill) |
| PhaseManagement.ValidateAction | game/phase_manager.py:199-245 | a missing or dead actor is refused first; by day exactly speak, accuse and defend pass; in voting exactly vote; in Trial and Finished anything; at night exactly the role's own action, and a given target must be alive, not the actor, and not a Mafia for a kill, a dead or missing one being reported as such |
| PhaseManagement.OfKind | game/phase_manager.py:291-299 | the actions of one kind, and only those |
| PhaseManagement.KillPass | game/phase_manager.py:311-341 | the kills in ledger order, each answered on the outcomes and survivors the earlier ones left; the table keeps exactly the same players |
| PhaseManagement.KillPassAlive | game/phase_manager.py:311-341 | a kill pass never revives anyone and leaves protected players as they were |
| PhaseManagement.KillPassOutcomes | game/phase_manager.py:311-341 | every outcome answers a kill of the ledger on a target that was alive, is blocked exactly when the target is protected, leaves a successful target dead; no target is killed twice in a pass |
| PhaseManagement.KillPassDeaths | game/phase_manager.py:311-341 | every death is reported by a successful outcome, and every kill on a living unprotected target kills it |
| PhaseManagement.HealResults | game/phase_manager.py:343-359 | exactly the heals whose target exists are reported, each with its healer |
| PhaseManagement.InvestigationResults | game/phase_manager.py:361-379 | exactly the investigations whose target exists are reported, each saying truthfully whether the target is Mafia |
| PhaseManagement.NightSurvivorsFacts | game/phase_manager.py:281-309 | over the night nobody comes back to life, a healed player ends it as they began it, and every death is a successful kill of the Mafia or the vigilante pass |
| PhaseManagement.NightKillsOnce | game/phase_manager.py:302-307 | the successful kills of both passes together name distinct targets, so nobody is killed twice in a night |
| PhaseManagement.AliveOf | game/phase_manager.py:322 | the alive flags of exactly the players of the table |
| PhaseManagement.RolesOf | game/phase_manager.py:370 | the roles of exactly the players of the table |
| PhaseManagement.ResolveKills | game/phase_manager.py:311-341 | the loop's outcomes and resulting alive flags are those of the kill pass, each successful outcome leaves its target's death record with the cause and killer, and the records of the earlier pass survive |
| PhaseManagement.ApplyKill | game/phase_manager.py:319-339 | one iteration of the kill loop on the player table agrees with one step of the kill pass |
| PhaseManagement.ProcessHeals | game/phase_manager.py:343-359 | the loop yields the heal reports |
| PhaseManagement.ProcessInvestigations | game/phase_manager.py:361-379 | the loop yields the investigation reports |
| PhaseManagement.Partition | game/phase_manager.py:286-299 | the loop splits the ledger into the four kinds, in ledger order |
| PhaseManagement.ProcessNightActions | game/phase_manager.py:281-309 | the reports are the night's outcome on the ledger, the players left alive are exactly the survivors, and each successful kill is recorded with its cause |
| PhaseManagement.ResolveNight | game/phase_manager.py:302-307 | the Mafia pass first, then heals, investigations, and the vigilante pass against the players the Mafia left alive, both passes protected by the same heals |
| PhaseManagement.PhaseTimer.constructor | game/phase_manager.py:29-35 | a running timer whose deadline is the start time plus the duration |
| PhaseManagement.PhaseTimer.RemainingTime | game/phase_manager.py:47-53 | never negative; 0 once cancelled; otherwise the distance to the deadline, 0 exactly when it has passed |
| PhaseManagement.PhaseTimer.Cancel | game/phase_manager.py:59-63 | the timer stops |
| PhaseManagement.PhaseTimer.Extend | game/phase_manager.py:65-76 | a running timer's deadline moves by the given seconds; a cancelled one keeps its deadline |
| PhaseManagement.TimeoutTarget | game/phase_manager.py:155-179 | a timeout moves the phase exactly when the manager is active and the phase is Day (to Voting) or Night (to Day) |
| PhaseManagement.PhaseManager.constructor | game/phase_manager.py:89-99 | a new manager is active in Day, with no timer and an empty ledger |
| PhaseManagement.PhaseManager.StartPhase | game/phase_manager.py:109-153 | refused and nothing changed when stopped; otherwise the old timer is cancelled, the phase and start time set, the ledger emptied, the change notified with the resolved duration, and a fresh timer set exactly when that duration is positive |
| PhaseManagement.PhaseManager.SubmitAction | game/phase_manager.py:181-197 | refused exactly when stopped or when validation fails, with its reason and the ledger unchanged; accepted otherwise, the actor's entry becoming the new action and no other entry moving |
| PhaseManagement.PhaseManager.OnPhaseTimeout | game/phase_manager.py:155-179 | a stopped manager, or the Voting, Trial and Finished phases, change nothing; Day starts Voting; Night resolves the ledger against the players and starts Day |
| PhaseManagement.PhaseManager.EndNight | game/phase_manager.py:172-175 | the night's outcome and survivors, then a fresh Day with its default timer |
| PhaseManagement.PhaseManager.TimerFired | game/phase_manager.py:37-45 | the timeout runs once a running timer's deadline has passed, and nothing happens before |
| PhaseManagement.PhaseManager.ExtendPhase | game/phase_manager.py:440-445 | succeeds exactly with a timer while active, moving a running timer's deadline |
| PhaseManagement.PhaseManager.ForceEndPhase | game/phase_manager.py:447-453 | with a timer while active, the timer is cancelled and the timeout runs; otherwise nothing changes |
| PhaseManagement.PhaseManager.Stop | game/phase_manager.py:455-458 | the manager stops and its timer is cancelled and dropped; the phase, the ledger of actions, the notifications, the phase's start time and the wedge flag stay, and nothing but the active flag, the timer reference and that timer's active flag is written |
| PhaseManagement.PhaseManager.GetPlayerAction | game/phase_manager.py:428-438 | the actor's stored action if they submitted one in this phase |
| PhaseManagement.StepAsWritten | game/phase_manager.py:155-179 | one call as written: an active Day or Night timeout wedges the lock; while wedged, no call moves the phase or frees the lock |
| PhaseManagement.WedgedForever | game/phase_manager.py:112 | once wedged, any sequence of calls leaves the lock wedged and the phase where it was |
| PhaseManagement.DayTimeoutNeverVotes | game/phase_manager.py:164-166 | a Day timeout as written leaves the game in Day after any later calls, where the intended one moves to Voting |
| PhaseManagement.NightTimeoutNeverDawns | game/phase_manager.py:172-175 | a Night timeout as written leaves the game in Night after any later calls, where the intended one starts Day |
| PhaseManagement.PhaseManager.OnPhaseTimeoutAsWritten | game/phase_manager.py:155-179 | a wedged lock blocks it; an active Day timeout wedges the lock with phase and ledger unchanged; an active Night timeout resolves the ledger against the players, then wedges the lock, still in Night |
| PhaseManagement.PhaseManager.NightAsWritten | game/phase_manager.py:172-175 | the night's survivors and recorded kills on the ledger, and then the lock is wedged |
| PhaseManagement.PhaseManager.ForceEndPhaseAsWritten | game/phase_manager.py:447-453 | with a timer while active, the timer is cancelled and the as-written timeout runs; the view moves as StepAsWritten says |
| PhaseManagement.PhaseManager.StartPhaseAsWritten | game/phase_manager.py:109-112 | blocked exactly when the lock is wedged, then nothing changes; otherwise StartPhase |
| PhaseManagement.PhaseManager.SubmitActionAsWritten | game/phase_manager.py:181-184 | blocked exactly when the lock is wedged, then the ledger stays; otherwise SubmitAction |
| VotingManagement.TallyBounds | game/voting_manager.py:78-86 | with positive weights a target's tally is never negative and includes the whole weight of every vote for it |
| VotingManagement.TallyInsert | game/voting_manager.py:83-86 | recording a vote adds its weight to its own target's tally and to no other |
| VotingManagement.TallyUnaffected | game/voting_manager.py:35-38 | votes of voters who are not eligible count for nothing |
| VotingManagement.TallyRemove | game/voting_manager.py:76-80 | withdrawing a voter's vote takes its weight off its own target's tally and no other |
| VotingManagement.TallyNewVoter | game/voting_manager.py:46-49 | listing a voter who has not voted changes no tally |
| VotingManagement.RecastReplaces | game/voting_manager.py:75-86 | after two casts by one voter only the later one counts |
| VotingManagement.MaxCount | game/voting_manager.py:154 | the largest count of a non-empty tally, held by some target |
| VotingManagement.OutcomeElimination | game/voting_manager.py:153-165 | the result is an elimination of t with n votes exactly when t holds n and every other target has fewer |
| VotingManagement.OutcomeTie | game/voting_manager.py:153-173 | for a non-empty tally the result is an elimination or a tie, a tie exactly when two or more targets share the maximum, and it lists exactly those targets with the maximum |
| VotingManagement.OutcomeOfMaximum | game/voting_manager.py:154-173 | a running maximum over all targets, with the targets that hold it, determines the result |
| VotingManagement.ComputeOutcome | game/voting_manager.py:145-173 | no votes for an empty tally; otherwise the elimination or tie of the tally |
| VotingManagement.RunningMaximum | game/voting_manager.py:154-155 | the loop finds the largest count and exactly the targets that hold it |
| VotingManagement.Dedup | game/voting_manager.py:46-54 | the list without repetitions, holding the same ids |
| VotingManagement.DedupAppend | game/voting_manager.py:46-54 | adding one more id appends it exactly when it is new |
| VotingManagement.VotingSession.constructor | game/voting_manager.py:27-44 | a new session is active, not completed, without votes, tally, eligible lists or result, and ends duration seconds from now |
| VotingManagement.VotingSession.AddEligibleVoter | game/voting_manager.py:46-49 | a voter is appended unless already listed; the tally invariant is kept |
| VotingManagement.VotingSession.AddEligibleTarget | game/voting_manager.py:51-54 | a target is appended unless already listed |
| VotingManagement.VotingSession.RemainingTime | game/voting_manager.py:123-129 | never negative, 0 exactly when inactive or past the deadline, otherwise the distance to it |
| VotingManagement.VotingSession.CastVote | game/voting_manager.py:66-91 | accepted exactly when the voter is eligible, the session active and not expired, and a given target eligible; a refusal changes nothing; a vote replaces the voter's earlier one, an abstention withdraws it; the tally and its key order are those of taking the earlier vote off (an emptied key dropped) and adding the new one (a new key appended) |
| VotingManagement.VotingSession.WithdrawVote | game/voting_manager.py:76-80 | the voter's vote leaves the votes and its weight leaves the tally; an emptied entry is dropped from the tally and from the order of its keys, as TakeOff states |
| VotingManagement.VotingSession.RecordVote | game/voting_manager.py:83-86 | the vote joins the votes and its weight joins its target's tally; a target without an entry is appended to the order of the keys, as PutOn states |
| VotingManagement.VotingSession.CompleteVoting | game/voting_manager.py:135-175 | the first call makes the session inactive and completed with the outcome of its tally (none, elimination or tie); later calls return the stored result and change nothing |
| VotingManagement.AddEligibleVoters | game/voting_manager.py:205-207 | the eligible voters become the given list without repetitions |
| VotingManagement.AddEligibleTargets | game/voting_manager.py:210-212 | the eligible targets become the given list without repetitions |
| VotingManagement.NewSession | game/voting_manager.py:202-212 | a fresh empty active session with the deduplicated eligibility lists |
| VotingManagement.InsertByCount | game/voting_manager.py:304 | inserting keeps every entry and adds exactly the new one |
| VotingManagement.InsertMembers | game/voting_manager.py:304 | the entries after an insertion are the old ones and the new one |
| VotingManagement.InsertKeepsSorted | game/voting_manager.py:304 | insertion keeps the summary ordered by count, highest first |
| VotingManagement.InsertKeepsDistinct | game/voting_manager.py:304 | insertion of a new target keeps the targets distinct |
| VotingManagement.SortedSummary | game/voting_manager.py:295-304 | one entry per target of the tally, with its count, ordered by count, highest first, targets of equal count in the tally's key order (the stable sort) |
| VotingManagement.InsertKeepsStable | game/voting_manager.py:304 | inserting an entry whose target comes after every present one in key order keeps equal counts in key order |
| VotingManagement.InsertStep | game/voting_manager.py:295-304 | adding the next key of the tally keeps the summary of the keys so far sorted, distinct, stable and complete |
| VotingManagement.LeaderCountedFirst | game/voting_manager.py:304-315 | the leader of the stable summary is, among the targets sharing the top count, the one first in key order |
| VotingManagement.Without | game/voting_manager.py:80 | `del vote_counts[t]` on the key order: every key but t stays, and the keys stay distinct |
| VotingManagement.NoDupCard | game/voting_manager.py:295-304 | a key order without repetitions is as long as its set of keys |
| VotingManagement.LeaderHasMaximum | game/voting_manager.py:315 | the first entry of the sorted summary has the largest count |
| VotingManagement.Completed | game/voting_manager.py:141-173 | a session after its first completion: inactive, completed, with the outcome of its tally |
| VotingManagement.VotingManager.constructor | game/voting_manager.py:180-184 | no sessions, no room entries, counter at 0 |
| VotingManagement.VotingManager.OneActivePerRoom | game/voting_manager.py:192-196 | a room never has two active sessions |
| VotingManagement.VotingManager.StartVotingSession | game/voting_manager.py:186-218 | refused, changing nothing, exactly while the room's registered session is active; otherwise the counter moves on, and a fresh active session under the new id becomes the room's registered one, with the deduplicated eligibility lists |
| VotingManagement.VotingManager.GetActiveSession | game/voting_manager.py:233-244 | the room's registered session exactly when it exists, is active and has not expired |
| VotingManagement.VotingManager.ActiveSessionIsTheRoomsOnly | game/voting_manager.py:233-244 | the session found is the room's only active one |
| VotingManagement.VotingManager.CastVote | game/voting_manager.py:220-231 | refused without an active session; otherwise the session's cast with weight 2 for a Mayor and 1 for anyone else; only votes, tallies and key orders are written, so the session's active and completed flags, result and eligible voters and targets stay, and other sessions are untouched |
| VotingManagement.VotingManager.CompleteVoting | game/voting_manager.py:261-269 | completes exactly an active session, returning the outcome of its tally; only the active and completed flags and the result are written, so its votes, tally, key order and eligible voters and targets stay; without one nothing changes |
| VotingManagement.VotingManager.ExpireSession | game/voting_manager.py:279-282 | completes one session exactly when it is active and past its deadline; every other session is as it was |
| VotingManagement.VotingManager.SweepOne | game/voting_manager.py:279-282 | one iteration of the sweep keeps the sweep's invariant for the next id |
| VotingManagement.VotingManager.CheckExpiredSessions | game/voting_manager.py:275-284 | lists, in registration order, exactly the sessions that were active and past their deadline, completes each with the outcome of its tally, and leaves every other session as it was |
| VotingManagement.VotingManager.GetVoteSummary | game/voting_manager.py:286-316 | none without an active session; otherwise the session's figures, its tally ordered by count with ties in key order, and as leading candidate the target with the largest count that entered the tally first, none exactly when nobody has votes |
| VotingManagement.VotingManager.CancelVotingSession | game/voting_manager.py:334-357 | refused, changing nothing, when the room has no registered session; otherwise only that session changes: it becomes inactive with a cancelled result and keeps its votes, tally, eligibility lists and completion flag, and leaves both maps |
| VotingManagement.VotingManager.Unregister | game/voting_manager.py:341-355 | the room's session leaves both maps and is the one that was registered |
| VotingManagement.VotingSession.Cancel | game/voting_manager.py:344-350 | the session becomes inactive with a cancelled result and keeps its invariant |
| VotingManagement.VoteWeight | game/voting_manager.py:228-229 | 2 exactly for a player whose role is Mayor, else 1 |
| GameManagement.VerdictWinners | game/game_manager.py:201-208 | after a decided game every player has a result, and a player won exactly when their side is the one named: Mafia for the "mafia" team, everybody else for "citizens" |
| GameManagement.PlayerWon | game/game_manager.py:201-208 | no result exactly for a draw; a win exactly for a non-Mafia player on a citizens' win or a Mafia player on a Mafia win; any other ending is a loss |
| GameManagement.DurationOf | game/game_manager.py:195 | 0 without a game or a finish time; otherwise the time from start to finish |
| GameManagement.TeamsOpposite | game/game_manager.py:203-206 | a citizens' win and a mafia win split every role into winners and losers in opposite ways |
| GameManagement.CancelledIsLost | game/game_manager.py:202-208 | a cancelled game is a loss for every player; a draw has no result |
| GameManagement.Outcomes | game/game_manager.py:197-222 | one outcome per player: role, result and whether they survived |
| GameManagement.UsersAfter | game/game_manager.py:210-212 | each counted user row's counters move by its player's result, a draw moving nothing |
| GameManagement.StatsAfterAll | game/game_manager.py:214-222 | each counted statistics row counts one more game, won only on a win and lost otherwise, one more game for its player's role and one more win for that role when won, survival, play time and the average over the games; uncounted rows stay |
| GameManagement.UserAfterBalanced | game/game_manager.py:210-212 | counting a result keeps games equal to wins plus losses and adds a game unless drawn |
| GameManagement.CountingStarts | game/game_manager.py:197 | before the loop no row has counted the game |
| GameManagement.CountingEnds | game/game_manager.py:197-222 | after the loop every user row and every statistics row holds its counters from before after one more game, per-role games and wins included |
| GameManagement.CountGameFor | game/game_manager.py:215-222 | a statistics row counts the game: total, won or lost, the role's games and, when won, its wins, survival, play time and average; it keeps its invariant, and its draws, death, vote and action counters are not touched |
| GameManagement.CountResultFor | game/game_manager.py:211-212 | a user row counts a win or a loss and is left alone on a draw; only its game counters can move |
| GameManagement.CountUser | game/game_manager.py:198-212 | player i's user row, when present, counts the result; the loop state moves on by one user |
| GameManagement.CountStats | game/game_manager.py:214-222 | player i's statistics row, when present, counts the game, per-role wins included; only that row's game counters can move, and the loop state moves on by one row |
| GameManagement.UpdatePlayerStatistics | game/game_manager.py:192-222 | every player's user row counts the result unless drawn and every statistics row counts the game, per-role games and wins included, each row once, for its own player; all rows keep their invariants and no counter outside the game counters moves |
| GameManagement.GameSession.constructor | game/game_manager.py:24-49 | an active session in round 1, without players, with a fresh phase manager in Day and an empty voting manager |
| GameManagement.GameSession.CheckWinCondition | game/game_manager.py:150-161 | citizens win exactly with no living Mafia; Mafia win exactly when living Mafia are at least as many as the other living players; otherwise no verdict |
| GameManagement.GameSession.EndGame | game/game_manager.py:163-190 | the first call deactivates the session, finishes the game (status, the Finished phase, winner, team, finish time now), counts it for every player with the game's duration (per-role wins included, no other counter moved), finishes the room at now, cancels the old timer and stops the phase manager; a later call leaves the phase manager, its timer, the game's result fields, the room and every row as they were; only the game's result fields, the room's status and finish time and the phase manager's flag and timer are written |
| GameManagement.GameSession.Finish | game/game_manager.py:171-185 | the ending steps in the source's order: game finished in the Finished phase, players counted (per-role wins included), room finished at now, old timer cancelled and phases stopped |
| GameManagement.GameSession.Shutdown | game/game_manager.py:179-185 | the room, when present, is finished at now, the old timer is cancelled and the phases stop; the game's result fields and every player row stay |
| GameManagement.GameSession.CloseRoom | game/game_manager.py:179-182 | the room, when present, is finished at now, keeping its seats, player count, creator and start time; no player row changes |
| GameManagement.GameSession.StopPhases | game/game_manager.py:185 | the phase manager takes `stop`'s step: it stops, its old timer is cancelled and dropped, and its phase, ledger, notifications, start time and wedge flag stay; no player row changes |
| GameManagement.GameSession.Record | game/game_manager.py:171-177 | the game is finished in the Finished phase with the winner, team and finish time, then the game is counted for every player with its duration, per-role wins included |
| GameManagement.GameSession.MarkFinished | game/game_manager.py:171-174 | the game, when present, is finished in the Finished phase with the winner, team and finish time now, its start kept; no player row changes |
| GameManagement.GameSession.Stop | game/game_manager.py:224-227 | an active session ends cancelled: the game finished with winner Cancelled and no team at now, a loss counted for every player in every game counter, the room finished at now, the old timer cancelled and the phases stopped; an ended one leaves the phase manager, game, room and every row alone |
| GameManagement.GameSession.StartDayPhase | game/game_manager.py:133-143 | returns the verdict of the win check; with a verdict an active session ends with its condition and team (game finished at now, players counted, room finished at now, old timer cancelled, phases stopped); without one, or on an ended session, the session, phase manager, its timer, the game's result fields, the room and every row stay |
| GameManagement.GameSession.StartVotingPhase | game/game_manager.py:84-102 | a one-minute lynch vote opens unless the room's vote is still active, with exactly the living players as both voters and targets |
| GameManagement.FinishedRooms | game/game_manager.py:442-444 | exactly the rooms whose session is no longer active |
| GameManagement.GameManager.constructor | game/game_manager.py:232-235 | both registries empty |
| GameManagement.GameManager.RegistriesAgree | game/game_manager.py:276-277 | a session is registered by game exactly when it is registered by room |
| GameManagement.GameManager.StartGame | game/game_manager.py:237-300 | refused with the first failing reason: a session already runs, no room, fewer active players than the room's minimum, roles could not be dealt; a refusal registers nothing and leaves the room's status and every player's role; on success a fresh game and session holding the players, every player with a role, the room playing, registration under room and game id, and the Day phase started; nothing of the room but its status changes |
| GameManagement.GameManager.CreateAndDeal | game/game_manager.py:257-269 | a fresh game under the next id with the number of players, a fresh session holding them, and dealing succeeds exactly when a distribution exists for at least 4 players; a failed deal leaves every role as it was |
| GameManagement.GameManager.Activate | game/game_manager.py:271-280 | the room is playing, the session registered under room and game, and its Day phase started |
| GameManagement.GameManager.Register | game/game_manager.py:276-277 | the session is added under its room and its game id |
| GameManagement.GameManager.EndGame | game/game_manager.py:407-435 | refused without a session, with game, room and every row unchanged; otherwise an active session ends cancelled: the game finished with winner Cancelled and no team at now, every player's rows counting a loss, the phases stopped; an ended one counts nothing and leaves the game's result fields; the session leaves both registries and the room is finished, its finish time set to now only when the session was active; only the room's status and finish time are written |
| GameManagement.GameManager.EndRegistered | game/game_manager.py:416-430 | a registered session ends cancelled (game finished with winner Cancelled and no team at now and a loss counted on every player's rows when it was active; nothing counted and the game's result fields kept otherwise), leaves both registries, and the room is finished, its finish time set to now only when the session was active |
| GameManagement.GameManager.EndSession | game/game_manager.py:417 | `session._end_game(CANCELLED, None)` with the registries unchanged: an active session ends as `GameSession.EndGame` says with winner Cancelled and no team; an ended one leaves the phase manager's flag and timer, every row, the game's result fields and the room as they were |
| GameManagement.GameManager.Retire | game/game_manager.py:419-430 | the session leaves both registries and the room, when present, is finished, keeping its finish time, seats and player count; the session, its phase manager, the game and every player row stay |
| GameManagement.GameManager.Unregister | game/game_manager.py:420-424 | the session leaves both registries |
| GameManagement.GameManager.CleanupFinishedGames | game/game_manager.py:437-454 | exactly the inactive sessions leave both registries, the active ones stay where they were, and the count returned is the number removed |
| GameManagement.GameManager.RemoveAll | game/game_manager.py:446-452 | the listed rooms and their sessions leave both registries and nothing else does |
| GameManagement.GameManager.RemoveFinished | game/game_manager.py:447-452 | one more room and its session leave both registries |
| GameManagement.GameManager.CollectFinished | game/game_manager.py:442-444 | lists each room with an inactive session exactly once |
| SpeechToText.WordLen | ai/speech_to_text.py:114 | the length of the leading run of non-space characters |
| SpeechToText.Split | ai/speech_to_text.py:114 | `str.split()`: non-empty words without whitespace |
| SpeechToText.JoinEnds | ai/speech_to_text.py:121 | `' '.join` of words is empty exactly for no words and starts and ends with a non-space |
| SpeechToText.SplitJoin | ai/speech_to_text.py:114-121 | splitting the words joined by single spaces gives the words back |
| SpeechToText.DropFillers | ai/speech_to_text.py:117-119 | exactly the words that are not fillers, in order |
| SpeechToText.DropFillersAppend | ai/speech_to_text.py:119 | dropping fillers distributes over concatenation |
| SpeechToText.DropFillersNone | ai/speech_to_text.py:119 | a text without fillers keeps all its words |
| SpeechToText.Merge | ai/speech_to_text.py:124-125 | removing the space before a mark glues each word that starts with it onto the previous word; no later word starts with the mark |
| SpeechToText.MergeKeepsNoLeading | ai/speech_to_text.py:124-125 | marks already glued stay glued |
| SpeechToText.MergeNoFiller | ai/speech_to_text.py:124-125 | gluing a mark onto words never produces a filler |
| SpeechToText.MergeNothing | ai/speech_to_text.py:124-125 | with no word starting with the mark nothing changes |
| SpeechToText.FixJoin | ai/speech_to_text.py:124-125 | replacing " p" by "p" in joined words is joining the merged words |
| SpeechToText.StripJoin | ai/speech_to_text.py:127 | joined words have nothing to strip |
| SpeechToText.Strip | ai/speech_to_text.py:127 | `strip()`: no longer than the text, no whitespace at either end, and a text without whitespace is kept |
| SpeechToText.Clean | ai/speech_to_text.py:108-127 | no text or an empty one gives ""; the result has no whitespace at either end |
| SpeechToText.CleanIsJoin | ai/speech_to_text.py:108-127 | the cleaned text is its words joined by single spaces |
| SpeechToText.CleanWordsShape | ai/speech_to_text.py:117-125 | no word of the result starts with a mark and none is a filler |
| SpeechToText.CleanProperties | ai/speech_to_text.py:108-127 | no text or an empty one gives ""; the result has no filler word, no leading or trailing whitespace, only single spaces between words, and no space before `,` `.` `؟` `!` |
| SpeechToText.CleanWordsOfClean | ai/speech_to_text.py:108-127 | cleaning an already clean word list changes nothing |
| SpeechToText.CleanIdempotent | ai/speech_to_text.py:108-127 | cleaning twice is cleaning once |
| SpeechToText.CleanKeepsOrder | ai/speech_to_text.py:114-127 | for a text with no word starting with a mark, the result is its non-filler words in order, joined by single spaces |

Pure predicates that only name a condition (`RoomModel.Room.IsFull`,
`RoomModel.Room.CanJoin`, `PlayerModel.Player.CanVote`,
`PlayerModel.Player.IsMafia`, `MessageModel.Message.CanBeSeenBy`,
`GameModel.Game.IsPhaseExpired`, `VotingManagement.VotingSession.CanVote`,
`PhaseManagement.PhaseTimer.IsExpired` and the like) have no rows of their own;
what they mean is stated by the contracts and lemmas above that use them.

## Left out

- Threads, locks and background timers: everything runs sequentially and a timer's expiry is the explicit call `PhaseManagement.PhaseManager.TimerFired(now)`. The one consequence of the locking that changes behaviour, the deadlock of `_on_phase_timeout`, is modelled by the as-written members listed under Findings; the corrected members take no lock.
- PlayerModel.CitizenPlayers: a player without a role counts as a citizen, as the list comprehension of game/role_manager.py:190-192 does. The SQL query of models/game.py:221-228 leaves such a player out, but its only caller, the win check, already needs every living player to have a role.
- GameModel.Game.CheckWinCondition needs every living player to hold a role, where `p.role.name` (models/game.py:233) raises for a living player without one; the exception path is not modelled.
- Database queries, commits and rollbacks: rows are objects passed in by the caller. A row `Query.get` may miss becomes a nullable parameter (the game and room in `GameManagement`). The players' user rows and statistics rows become sequences aligned with the player list. The exception paths that roll back (`start_game`, `end_game`, `create_room`, `join_room`) are not modelled.
- Randomness: `random.shuffle` becomes a Fisher-Yates shuffle driven by caller-supplied draws. `random.choices` for room codes becomes a caller-supplied list of candidate codes. When every candidate is taken, `RoomManagement.RoomManager.CreateRoomJoining` and `RoomManagement.RoomManager.CreateRoom` refuse with `NoFreeCode`; that refusal has no counterpart in the source, whose `generate_room_code` (models/room.py:79-82) draws again until a code is free.
- Clocks: every `datetime.utcnow()` becomes an explicit `now` in whole seconds. Durations are integers, not float seconds.
- Floating point: win rates, survival rates, vote accuracy, the average game duration and the suspicion score are exact `real` values where the source computes Python floats, so rounding is not modelled.
- PhaseManagement.PhaseTimer.Extend: the source re-arms the timer's thread only when the remaining time after the extension is positive (game/phase_manager.py:70-76). An extension that moves the deadline to now or earlier leaves no thread, so that timer never fires, while the model's `PhaseManagement.PhaseManager.TimerFired` still runs the timeout once the deadline has passed.
- The phase-change callback `_on_phase_change`, the night-start and other system or game-action messages, `GameLog` entries, event listeners and printing are left out. `PhaseManagement.PhaseManager.phaseChanges` records what the callback would be told.
- Views that only assemble dictionaries are left out: `get_phase_info`, `get_voting_results`, `get_vote_results`, `get_player_vote`, `get_game_status`, `get_player_info`, `get_statistics`, `get_active_games_count`, `get_role_info`, `get_team_players` and every `to_dict`.
- `GameManager.submit_action` and `GameManager.cast_vote` (game/game_manager.py:324, :333), which only forward to the session's phase and voting managers, `VotingManager.force_complete_voting` (game/voting_manager.py:271) and `VotingManager.cleanup_old_sessions` (game/voting_manager.py:359) are left out.
- `update_chat_stats` and the analysis record of a message are left out. Only the flags list, the suspicion score and the hidden reason and time are kept.
- Session ids: a voting session's id is the counter value, not the string `vote_<room>_<counter>_<time>`.
- Role values: the model works on role values directly, so `role.lower()` and strings naming no role are not modelled.
- StatisticsModel.UserStatistics.UpdateGameStats: a draw (`won` unset) is counted as a loss and `gamesDrawn` never moves, as the code does. The invariant total = won + lost + drawn still holds.
- VotingManagement.ComputeOutcome: a tie carries the set of tied targets, so the order of `tied_players` (the tally's key order, game/voting_manager.py:155 and :171) is not kept; nothing in the model reads that order.
- GameManagement.PlayerWon: a cancelled game is counted as a loss for every player, as the code does.
- GameManagement.DurationOf: a game without a finish time counts 0 where `get_duration` measures up to the current time. It is read only after `finish_game` has set the finish time.
- The query for the room's earlier game numbers (models/game.py:80) becomes a sequence passed to the game's constructor.

## Findings

| source | as written | input that shows it | evidently intended | confidence | as-written member | corrected member |
|---|---|---|---|---|---|---|
| game/room_manager.py:51 | the creator is joined to the new room without a password, and `join_room` (game/room_manager.py:95) refuses a wrong password, so the room is deleted again | any `create_room` call whose settings carry a non-empty password | the creator is admitted to their own private room | not executed | RoomManagement.RoomManager.CreateRoomAsWritten | RoomManagement.RoomManager.CreateRoom |
| game/phase_manager.py:157-175 | `_on_phase_timeout` holds the manager's `threading.Lock` while it calls `start_phase` (game/phase_manager.py:166, 175), which takes the same non-reentrant lock again (game/phase_manager.py:112): the Day and Night timeouts never return, the lock is never released, and every later `start_phase`, `submit_action`, timeout and `force_end_phase` blocks (`PhaseManagement.DayTimeoutNeverVotes`, `PhaseManagement.WedgedForever`) | an active manager in Day whose timer expires, or `force_end_phase` in Day: the game stays in Day for good | a Day timeout starts Voting and a Night timeout resolves the night and starts Day | not executed | PhaseManagement.PhaseManager.OnPhaseTimeoutAsWritten | PhaseManagement.PhaseManager.OnPhaseTimeout |
