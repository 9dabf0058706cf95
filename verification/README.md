# Raja-Mantri-Chor-Sipahi room server, modelled in Dafny

The server runs a four-player party game. Players join a room. Each round every seated
player is dealt one of the roles Raja, Mantri, Chor and Sipahi. The Mantri then guesses
who the Chor is, and every seated player scores according to a fixed table. This project
models the game engine of `main.py` as pure functions over immutable data:

- `wrappers.dfy`: `Option` and `Result`, the failure-compatible wrappers.
- `roles.dfy`: the roles, the `POINTS` table, the per-role delta of a guess, and deals.
  A deal is the shuffled role list.
- `room.dfy`: `Player`, `Room`, the error kinds `NotFound | InvalidState | Forbidden`,
  and the room invariant `RoomInv`.
- `membership.dfy`: joining. Seats fill up to four and everyone after goes to the waitlist.
- `rounds.dfy`: dealing roles (`assign_roles`).
- `scoring.dfy`: the Mantri's guess and scoring (`submit_guess`).
- `views.dfy`: the roster, one player's role, the round result, and the leaderboard.
  The leaderboard is a stable sort by descending score.
- `directory.dfy`: the room directory (`rooms`), one function per request handler, and the
  directory invariant `Valid`. The file also proves that every directory reachable by any
  sequence of requests is valid.
- `scenarios.dfy`: concrete games played through the model.

Identifiers come from a fresh-id counter (`Server.nextId`) instead of uuid4. Creating a room
takes two ids: the host's first, then the room's, in the order the source builds them. A join
takes one id per name, whether that player is seated or waitlisted. The random shuffle is
replaced by a `Deal` argument: four pairwise-distinct roles, which `DealIsPermutation` shows
is exactly a permutation of the four roles. A failed request returns `Err` and the directory
stays as it was (`Directory.Apply`).

Two behaviours of the code are worth noting:

- Starting a round does not clear the previous `guessedPlayerId` (main.py:168-170).
- A guess needs only that the caller is the recorded Mantri. A guess before any deal is refused
  only because no Mantri is recorded yet. A second guess in the same round is accepted and
  scores again.

## Model

| member | source | states |
|---|---|---|
| Roles.DeltaTable | main.py:204-217 | On a correct guess Raja, Mantri, Chor and Sipahi gain 1000, 800, 0 and 500. On a wrong guess they gain 1000, 0, 800 and 500. |
| Roles.DealIsPermutation | main.py:158-159 | Four pairwise-distinct roles are exactly a permutation of Raja, Mantri, Chor, Sipahi, and conversely. This is what shuffling the role list yields. |
| Rooms.NewRoomInv | main.py:60-78 | A new room seats only its host, has an empty waitlist and no round, and satisfies the room invariant. Its only id is the host's. |
| Rooms.UniqueIdsAppend | main.py:119-122 | Appending players keeps ids unique exactly when both parts have unique ids and share none. |
| Rooms.RecordedHolders | main.py:74-75 | Under the invariant, a Mantri id and a Chor id are recorded exactly when a round has been dealt. Each names a seated player holding that role. |
| Membership.JoinAll | main.py:116-123 | Every name lands either among the added or among the waitlisted players. A room with at most four seated players still has at most four after the join. |
| Membership.Admitted | main.py:118 | The number seated from a join is as many as fit, never more than were named, and zero once the room is full. |
| Membership.JoinAllSplit | main.py:116-123 | The first `Admitted` names are seated in input order and the rest are waitlisted in input order. Ids are handed out consecutively, so `added ++ waitlisted` matches the input. |
| Membership.JoinAllRoom | main.py:116-123 | The seated list becomes the old one plus the added players, and the waitlist the old one plus the waitlisted ones. Roles, scores, flags, recorded ids and the round do not change. |
| Membership.JoinAllFresh | main.py:116-117 | The added players followed by the waitlisted ones are exactly the new players made from the names, in order. |
| Membership.AppendInv | main.py:118-122 | Seating new players with higher, distinct ids keeps the room invariant when the seats do not overflow and nobody is seated after a deal. Waitlisting any number of them does too. |
| Membership.JoinAllInv | main.py:116-123 | A join keeps the room invariant, including the cap of four and unique ids. The room's ids grow by exactly the fresh ids. |
| Rounds.DealRolesSeats | main.py:161-162 | Seat i gets the i-th role of the deal and keeps its id, name and score. |
| Rounds.DealRolesMantri | main.py:161-164 | The recorded Mantri id is that of the last seat dealt Mantri, or the previous value if no seat is. |
| Rounds.DealRolesChor | main.py:161-166 | The recorded Chor id is that of the last seat dealt Chor, or the previous value if no seat is. |
| Rounds.AssignRoles | main.py:155-170 | Fails with InvalidState exactly when the seated count is not four. On success the round is marked dealt and unguessed, and the round number goes up by exactly one. The previous guessed id is kept. |
| Rounds.AssignRolesDeals | main.py:158-170 | A successful deal gives each role to exactly one of the four seated players and records the Mantri's and Chor's ids. It keeps every seated player's id, name and score and leaves the waitlist alone. |
| Rounds.AssignRolesInv | main.py:149-172 | A successful deal keeps the room invariant and the room's ids. |
| Scoring.SubmitGuess | main.py:196-202 | Fails with Forbidden exactly when the caller is not the recorded Mantri. On success the guess is stored and flagged. The verdict is correct iff the guess names the recorded Chor, and reports the Chor's id. |
| Scoring.GuessPays | main.py:204-217 | An accepted guess adds to each seated player's score the table's points for their role and the outcome. No score goes down, and nothing else changes except the guess fields. |
| Scoring.NoGuessBeforeDeal | main.py:74 | Before any deal, every guess is refused with Forbidden. |
| Scoring.AwardSum | main.py:204-217 | Scoring raises the sum of the seated scores by the sum of the deltas. |
| Scoring.DealtSumDeltas | main.py:83-88 | With the four roles held once each, the deltas of either outcome sum to 2300. |
| Scoring.DealSum | main.py:209-217 | The four deltas of any permutation of the roles sum to 2300. |
| Scoring.GuessTotal | main.py:199-217 | Every accepted guess adds exactly 2300 points in total. |
| Scoring.GuessInv | main.py:199-217 | An accepted guess keeps the room invariant and the room's ids. |
| Scoring.RepeatGuessPaysTwice | main.py:196-217 | The same guess submitted twice is accepted twice and pays 4600 in total, so guessing is not idempotent. |
| Views.GetPlayers | main.py:139-145 | The roster lists the seated players' ids and names in seating order, and the waitlist's length. |
| Views.RosterBounded | main.py:141-145 | In a valid room the roster lists at most four players with distinct ids. |
| Views.FindSeat | main.py:181-183 | Finds the first seat holding the id, or reports that no seat does. |
| Views.ViewRoleSpec | main.py:181-185 | A role is shown exactly for seated players, and it is the role that player holds. Waitlisted players get NotFound. |
| Views.GetResult | main.py:234-252 | The result is refused with InvalidState before a deal, and again after a deal but before a guess. Otherwise it gives the round number and one line per seated player. |
| Views.ResultLines | main.py:240-251 | In a valid room each result line shows that player's id, name, real role and a non-negative score. The "Unknown" fallback never appears. |
| Views.SeatedHoldRoles | main.py:161-162 | When the four roles are held once each, every seat holds a role. |
| Views.SortPermutes | main.py:263 | The leaderboard sort keeps exactly the players it is given, as a multiset. |
| Views.SortDescending | main.py:263 | The leaderboard sort orders scores from highest to lowest. |
| Views.SortStable | main.py:263 | For every score, the players with that score appear in their seating order, because the sort is stable. |
| Views.LeaderboardLists | main.py:263-270 | Every seated player's id, name and score appear as a line of the leaderboard. |
| Views.LeaderboardSpec | main.py:263-270 | The leaderboard lists the standings of a rearrangement of the seated players. That rearrangement is non-increasing in score and keeps seating order among ties. |
| Directory.Lookup | main.py:109-112 | Finds a room by id, or fails with NotFound. |
| Directory.CreateRoom | main.py:92-95 | Creating a room adds exactly one room key, holding a new room with the given name that seats only the new host under the host's id, with an empty waitlist. Both ids are distinct and not below the old id counter, so in a valid directory they are unused (`CreateRoomFresh`). |
| Directory.CreateRoomFresh | main.py:93-95 | In a valid directory the new room id is unused, and the host id belongs to no player of any room. |
| Directory.JoinMultiple | main.py:107-123 | Fails with NotFound exactly for an unknown room. On success that room becomes the room `Membership.JoinAll` produces and every other room stays the same. The report lists the added and the waitlisted players' ids and names, and the id counter advances by one per name. |
| Directory.GetPlayers | main.py:134-145 | Fails exactly for an unknown room. Otherwise returns that room's roster: seated ids and names in order, plus the waitlist length. |
| Directory.AssignRoles | main.py:149-172 | An unknown room gives NotFound, and a seated count other than four gives InvalidState. It succeeds exactly for a known room with four seats. Then that room becomes the dealt room from `Rounds.AssignRoles`, every other room and the id counter stay the same, and the reported round number is one more than before. |
| Directory.ViewRole | main.py:176-185 | Fails only with NotFound. It succeeds exactly when the room is known and the id belongs to a seated player, and then gives that room's role view. |
| Directory.SubmitGuess | main.py:189-222 | An unknown room gives NotFound, and a caller who is not the recorded Mantri gives Forbidden. It succeeds exactly for the Mantri of a known room. Then that room becomes the scored room, the verdict is the room-level one, and every other room and the id counter stay the same. |
| Directory.GetResult | main.py:227-238 | Unknown room gives NotFound. Otherwise the result is the room's result view. |
| Directory.Leaderboard | main.py:258-270 | Fails exactly for an unknown room. Otherwise returns that room's leaderboard, which has a line for every seated player. |
| Directory.CreateRoomValid | main.py:91-95 | Creating a room keeps the directory valid. |
| Directory.JoinMultipleValid | main.py:107-123 | A join keeps the directory valid. Ids stay unique across all rooms. |
| Directory.AssignRolesValid | main.py:149-170 | A deal keeps the directory valid. |
| Directory.SubmitGuessValid | main.py:189-217 | A guess keeps the directory valid. |
| Directory.ApplyValid | main.py:91-222 | Serving any request that changes state keeps the directory valid. |
| Directory.RunValid | main.py:81 | Any sequence of requests keeps a valid directory valid. |
| Directory.ReachableValid | main.py:81 | Every directory reachable from the empty one is valid. Its rooms seat at most four players each, with unique ids and roles dealt once each. |
| Directory.ApplyGrows | main.py:116-170 | No request removes a room, unseats a player, lowers a score, shrinks a waitlist or lowers a round number. |
| Directory.RefusedDealUnchanged | main.py:155-156 | A deal refused for a seated count other than four leaves the whole directory unchanged. |
| Directory.RefusedGuessUnchanged | main.py:196-197 | A guess by anyone but the recorded Mantri is Forbidden and leaves the whole directory unchanged. |
| Scenarios.FillThenOverflow | main.py:116-123 | A room created by "Alice" seats only her. Joining five more seats three and waitlists two, in input order. |
| Scenarios.DealScenario | main.py:158-170 | Dealing Raja, Mantri, Chor, Sipahi to P1..P4 records P2 as Mantri and P3 as Chor, and starts round 1. |
| Scenarios.CorrectGuessScenario | main.py:199-221 | The Mantri naming the Chor is correct, and the scores become 1000, 800, 0, 500. |
| Scenarios.OnlyMantriScenario | main.py:196-197 | P1, P3 and P4 are refused with Forbidden. |
| Scenarios.SecondRoundScenario | main.py:168-217 | A second deal keeps the scores and the previous guess. A wrong guess then adds 1000, 0, 800, 500. |
| Scenarios.ResultGated | main.py:234-238 | The result is refused before the first deal and between the deal and the guess. |

## Left out

- HTTP routing, request and response classes, status codes and the response messages
  (main.py:1-56 and the decorators). Failures are the abstract kinds NotFound, InvalidState and
  Forbidden. The response classes' own validation is not modelled either. For example, a
  `null` role in the role response would be rejected by the framework, while the model returns
  `None`.
- uuid4 (main.py:62, 69) is replaced by the `nextId` counter. Uniqueness is an invariant of the
  directory, not a probabilistic property.
- `random.shuffle` (main.py:159) is replaced by the `Deal` argument. Uniformity of the shuffle
  cannot be stated here.
- The process-global `rooms` dict (main.py:81) is an explicit `Server` value passed in and out.
  Concurrency and locking are not modelled.
- The defensive `None` checks on scores (main.py:206-207, 246) are left out. A score is always
  an integer from construction (main.py:65).
- Roles.Delta: a seated player without a role gains 0. In the source the table lookup would
  fail for such a player. That case is unreachable, because a recorded Mantri implies all four
  seats hold roles (`Rooms.RecordedHolders`, `Views.SeatedHoldRoles`).
- Ids are natural numbers, not strings. A guess may name any id, as in the source, where the
  guessed id need not belong to a player.
- Room and player names are arbitrary strings. They are never validated in the source either.
