# Battleship game API: a Dafny model

This project models the game-rule code of the Battleship web API
(`battleship/api.py`). The model covers:
- the move handler `make_move`, which decides whether a move is refused, records it, builds the outcome message, ends the game or passes the turn, and queues a reminder for a human opponent;
- the cancellation handler `cancel_game`;
- the score queries: one user's scores, the high-score list, and the user ranking, which groups scores by winner, sums them and sorts the sums;
- the game queries: one user's active games, and the sweep for games with no move in twelve hours.

Modules:
- `Wrappers`: the `Option` type. `None` in a player slot is the computer opponent.
- `Seqs`: the order-preserving filter that stands for datastore queries. It also holds the stable insertion sort that stands for Python's `sorted` and for the datastore's `order`.
- `Games`: the game record as a class `Game`, whose methods update its fields in place. The record also has a value snapshot `GameState`. The specification functions `Move` and `CancelGame` work on snapshots. `Run` serves a sequence of requests, and lemmas are proved about it.
- `Scores`: score records, `UserScores` with its lookup by user name, `HighScores` and the ranking loop `UserRankings`. A score's winner may be empty, as a player slot may be, and the ranking fails on such a score as the code does.
- `Queries`: `UserGames` with its lookup by user name, the `timedelta` arithmetic and the dormant-game loop `DormantGames`.

The board rules (`GameLogic`, in `game.py`) are not part of this model. Their verdicts are inputs to `Move` and `MakeMove`, as one `Logic` value, which holds:
- whether the move may go ahead on the turn check. The code refuses a move only when `is_correct_player` returns the literal `False` (`is False`). So `isCorrectPlayer` stands for "the verdict is not `False`", and a verdict such as `None` lets the move through;
- the shot, with its move text, whether it hit, which ship it hit and whether it sank it;
- both ships-remaining counters after `set_new_ships_remaining`.

`end_game` (in `models.py`) is reduced to "the game is over and holds this winner". Times are integer microseconds, and the current time is a parameter.

Two points where the code departs from a plain reading of the rules. The model follows the code in both:
- When both counters are below one after a move, player 2 wins. The code tests player 1's counter first.
- The ranking sorts ascending and then reverses the list. Users with equal totals therefore come out in the reverse of the dictionary's order, not in a stable order. The model claims no tie order.

## Model

| member | source | states |
|---|---|---|
| `Games.Move` | battleship/api.py:111-194 | Refusals are checked in the order over, cancelled, wrong turn. Each refusal has its own message, changes nothing and queues nothing. An accepted move appends one history entry. The entry holds the mover's name ("Computer" for an empty slot), the move and the destroyed flag. The move also stamps the time and takes GameLogic's counters. The game is then over exactly when a counter is below 1. Player 2 wins whenever player 1's counter is below 1; otherwise player 1 wins. When the game goes on, the turn passes to the opponent, and a reminder is queued exactly when the opponent is human. |
| `Games.HitMessage` | battleship/api.py:149-156 | The message is the mover's name and " has hit the ", then "<ship> of <opponent>" or "nothing", then " and sunk it" exactly when a ship was destroyed. |
| `Games.GameEnded` | battleship/api.py:170-177 | `end_game` marks the record over, stores the winner passed in, and changes nothing else. |
| `Games.CancelGame` | battleship/api.py:240-253 | A game already over, or already cancelled, is returned unchanged with its own message. The over check comes first. An active game becomes cancelled, and nothing else changes. |
| `Games.FinishedGameIsFrozen` | battleship/api.py:114-118 | Once a game is over or cancelled, no sequence of move or cancel requests changes it. |
| `Games.HistoryIsAppendOnly` | battleship/api.py:158-163 | Over any sequence of requests, earlier history entries stay as they were, and each request adds at most one entry. |
| `Games.NeverOverAndCancelled` | battleship/api.py:243-251 | A game that is not both over and cancelled never becomes both, whatever requests follow. |
| `Games.Game.MakeMove` | battleship/api.py:111-194 | The in-place handler leaves the record as `Move` describes, and returns its reply and queued reminder. |
| `Games.Game.EndGame` | battleship/api.py:171-177 | The record becomes `GameEnded` of its old value. |
| `Games.Game.Cancel` | battleship/api.py:240-253 | The in-place handler leaves the record, and returns the reply, as `CancelGame` describes. |
| `Seqs.Filter` | battleship/api.py:229-233 | A filtered query keeps exactly the elements that satisfy the filter. Each kept element occurs exactly as often as in the input, and a rejected one not at all. A one-element input is kept whole or dropped. |
| `Seqs.FilterAppend` | battleship/api.py:229-233 | Filtering a concatenation gives the filtered parts, concatenated in order. With the one-element case, this fixes the result as the kept elements in query order. |
| `Seqs.SortBy` | battleship/api.py:287-288 | Sorting by a key gives a non-decreasing permutation of the input. |
| `Seqs.SortKeepsDistinct` | battleship/api.py:287-288 | Sorting never creates two entries for the same user. |
| `Seqs.PrefixHoldsLeast` | battleship/api.py:263-265 | Cutting an ascending list after n entries keeps entries whose key is no larger than any dropped entry's key. With the key -ships_remaining, no dropped score has more ships than a kept one. |
| `Games.FindUser` | battleship/api.py:211 | The lookup finds nothing exactly when no user has the name. Otherwise it returns the first user, in query order, with that name. |
| `Scores.UserScores` | battleship/api.py:215 | Keeps exactly the scores whose winner is the user, compared by key. A score with an empty winner matches no user. Each kept score occurs exactly as often as in the query. |
| `Scores.UserScoresNamed` | battleship/api.py:209-216 | When no user has the name, the result is the not-found error. Otherwise it is the scores of the first user with that name. |
| `Scores.HighScores` | battleship/api.py:262-265 | Returns min(n, number of scores) scores, highest first, all taken from the query. No score left out is higher than one returned. |
| `Scores.GroupByWinner` | battleship/api.py:278-285 | Grouping fails exactly when some score has an empty winner, because `score.winner.get()` fails there. Otherwise the dictionary's keys are exactly the winners' names. Each key's value is the sum of `ships_remaining` over that winner's scores. |
| `Scores.TotalOfNonWinner` | battleship/api.py:282-285 | A name that won no game sums to zero. This is why a key seen for the first time can start at the score's value. |
| `Scores.Items` | battleship/api.py:287-288 | `items()` yields each key once, with its value, in an unspecified order. |
| `Scores.SortedItems` | battleship/api.py:287-288 | After sorting, the items are still each key once, with its value. |
| `Scores.ReverseInPlace` | battleship/api.py:289 | `reverse()` puts each element at the mirrored position. |
| `Scores.Reversed` | battleship/api.py:289 | The list after `reverse()` is the input read backwards. |
| `Scores.ReversedRanking` | battleship/api.py:287-289 | The sorted items read backwards list every winner once, with its total, ordered non-increasing by total. |
| `Scores.UserRankings` | battleship/api.py:275-297 | The ranking fails exactly when some score has an empty winner. Otherwise, each winner name appears exactly once, and only winners appear. Each score is that winner's total of `ships_remaining`. The list is non-increasing by score. |
| `Queries.UserGames` | battleship/api.py:229-233 | Keeps exactly the games that are neither over nor cancelled and that have the user in either slot. Each kept game occurs exactly as often as in the query. |
| `Queries.UserGamesNamed` | battleship/api.py:223-233 | When no user has the name, the result is the not-found error. Otherwise it is the active games of the first user with that name. |
| `Queries.ActiveGames` | battleship/api.py:320-321 | Keeps exactly the games that are neither over nor cancelled. Each kept game occurs exactly as often as in the query. |
| `Queries.Elapsed` | battleship/api.py:323 | The elapsed `timedelta` has seconds in [0, 86400) and microseconds in [0, 10^6), and adds back up to the elapsed time. |
| `Queries.IdleHours` | battleship/api.py:323-325 | The quotient of `divmod(days*86400 + seconds, 3600)` is the elapsed time in whole hours, rounded down, also when the elapsed time is negative. |
| `Queries.DormantThreshold` | battleship/api.py:324-326 | Twelve or more whole hours under `divmod(days*86400 + seconds, 3600)` is the same as an elapsed time of at least 43200 seconds. |
| `Queries.DormantGames` | battleship/api.py:316-329 | Returns the active games, in query order, that pass the twelve-hour test. These are exactly the games that are not over, not cancelled and idle for at least 43200 seconds. |

## Left out

- The request plumbing is not modelled: Cloud Endpoints, protorpc messages, `get_by_urlsafe`, `put()` and the conversion to response forms. A reply is modelled as its kind of form and its message.
- The task queue is not modelled. A queued reminder is a `Notification` value that carries the name of the player to move.
- GameLogic's `is_correct_player`, `make_move` and `set_new_ships_remaining` live in `game.py`, which is not part of this model. Grids, ship placement and re-attack behaviour are not modelled either.
- `Games.Move`: its ships-remaining counters are whatever GameLogic returns. The model does not claim that a sunk ship lowers the opponent's counter by one.
- `create_user` and `new_game` create records, and `create_user` also refuses a taken name. `get_game`, `get_scores` and `get_game_history` only read records into forms. None of them is modelled.
- `make_move` and `cancel_game` on a key that finds no game are not modelled. Looking up a game is not part of this model.
- `end_game`, `Game.new_game` and the form builders live in `models.py`, which is not part of this model. `end_game` is reduced to setting `game_over` and the winner. Any score record it may write is not modelled. Whether a computer win leaves a score with an empty winner is decided there too, so the score queries accept such scores.
- `Scores.HighScores`: takes the result count as a natural number. What the datastore's `fetch` does with a negative or missing count, and the resulting "Please put in a positive number" error, are not modelled.
- `Scores.UserRankings`: makes no claim about the order of users with equal totals. Dictionary order is unspecified, and `reverse()` flips the sort's order among ties.
- `Queries.UserGames`: the order of its result is not modelled. The query at battleship/api.py:229-232 combines two key conditions with `ndb.OR` and has no `order`, so the datastore decides the order. The contract claims only membership and multiplicity.
- `Queries.DormantGames`: reads the clock once, as the parameter `now`. The source calls `datetime.now()` anew for each game (battleship/api.py:323), so a sweep that runs across a twelve-hour boundary may judge later games at a later time. The model does not capture that.
- `Games.FindUser`: a user name is matched by exact string equality, and "query order" is the order of the given user list. The datastore's index order is not modelled.
- Microseconds count only through the `timedelta` normalisation, just as the source drops them before `divmod`.
- Concurrent requests against one game are not modelled. Each request is served on its own.
