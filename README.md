# PickRound in-memory team picker, modelled in Dafny

PickRound is a small web backend that picks teams at random for recurring status
meetings. Its in-memory picker keeps two process-wide ordered lists of team
names: `teams` holds the teams not yet drawn in the current cycle, and
`selectedTeams` holds the teams already drawn. `POST /random` draws without
replacement. If `teams` is empty it first starts a new cycle, moving every drawn
team back into `teams` and clearing `selectedTeams`. It then removes the team at
a random index from `teams`, appends it to `selectedTeams`, and answers the drawn
team and the teams still left. `GET /teams` reports both lists and changes nothing.

The project has two files:

- `picker.dfy`, module `PickRound`: the picker on values. It defines the state
  `Pools`, the startup state `Initial`, the cycle reset `Refill` and one draw
  `Step`. `Run` is a sequence of draws. The lemmas state what a draw and a run
  of draws do to the two lists.
- `server.dfy`, module `Server`: class `TeamPicker` holds the two lists as
  `seq<string>` fields, as the service does. `Draw` mirrors the `POST /random`
  handler step by step and is proved equal to `Step`. `Snapshot` is the
  `GET /teams` view.

The random index `Math.floor(Math.random() * teams.length)` is a parameter `i`
of `Draw` and `Step`. The precondition `IndexOk` allows exactly the values that
expression can take once the refill has happened: an index in range of the
refilled pool, or 0 when both lists are empty.

## Model

| member | source | states |
|---|---|---|
| PickRound.Initial | index.js:9-10 | At startup the pool is the four teams "Team A" to "Team D" in that order, and no team has been drawn. |
| PickRound.RosterDistinct | index.js:9 | The startup roster names every team once. |
| PickRound.Refill | index.js:19-23 | A non-empty pool is left alone. An empty pool becomes the old list of drawn teams, in the same order, and the list of drawn teams becomes empty. After the reset the pool is empty exactly when both lists were empty. |
| PickRound.Step | index.js:18-30 | A draw yields no team exactly when both lists are empty, and then leaves the state as it was. |
| PickRound.StepConserves | index.js:19-27 | A draw keeps the multiset of all teams in the two lists, and the drawn team is one of them. |
| PickRound.StepWithinCycle | index.js:25-27 | From a non-empty pool a draw returns the team at the index. The pool becomes the old pool without that element, with the rest in order. The team is appended to the drawn teams. The pool shrinks by one and the drawn list grows by one. |
| PickRound.StepRefills | index.js:19-27 | From an empty pool the draw is made from the old drawn teams. It returns the one at the index and leaves the others in order as the pool. The drawn list becomes that single team. |
| PickRound.RefillDraw | index.js:19-27 | A reset draw from duplicate-free drawn teams returns one of them. That team is no longer in the pool, which holds exactly the other teams. |
| PickRound.StepKeepsDistinct | index.js:19-27 | Lists that are each duplicate-free and share no team stay so after a draw. |
| PickRound.PartitionNeverEmpty | index.js:19-26 | When the two lists together hold the roster, the two lists are never both empty. |
| PickRound.PartitionProperties | index.js:19-27 | When the two lists together hold the roster, each list is duplicate-free, they share no team, and a draw always yields a team. |
| PickRound.Run | index.js:18-30 | A sequence of draws yields exactly one team per draw. |
| PickRound.RunWithinCycle | index.js:25-27 | Within one cycle, k draws shrink the pool by k. They append the drawn teams, in draw order, to the drawn list. The drawn teams together with the new pool make up the old pool. |
| PickRound.RunKeepsPartition | index.js:9-27 | Every state reached from startup by any draws holds each roster team exactly once across the two lists. |
| PickRound.FourDraws | index.js:9-30 | From startup, any four draws return each of the four teams exactly once. They leave the pool empty and the drawn list equal to the draws in order. |
| PickRound.NewCycleDraw | index.js:18-30 | From a fresh cycle over duplicate-free teams, one draw more than the pool holds starts a new cycle. The last draw returns one of the teams, makes it the whole drawn list, and leaves exactly the other teams in the pool. |
| PickRound.FifthDraw | index.js:9-30 | From startup, a fifth draw starts a new cycle and returns one of the four teams. That team becomes the whole drawn list. The other three, and only they, are back in the pool. |
| Server.TeamPicker.constructor | index.js:9-10 | The service starts in the startup state, which partitions the roster. |
| Server.TeamPicker.Draw | index.js:18-30 | The handler's new state and answer are those of `Step`. The same ensures spell this out directly for the within-cycle, reset and empty cases. `remainingTeams` is the new pool. The multiset of all teams is unchanged. A state that partitions the roster still does so, and the draw yields a team. |
| Server.TeamPicker.Snapshot | index.js:13-15 | The view reports exactly the current pool and drawn list, and changes no state. |

## Left out

- Step: when both lists are empty, the service computes `splice(0, 1)` on an empty array. It answers `undefined` and pushes `undefined` onto `selectedTeams`. The model answers `None` and leaves the state unchanged, because its lists hold only team names. `PartitionNeverEmpty` and `RunKeepsPartition` show that no state reachable from startup has both lists empty.
- Server.TeamPicker.Draw: the same difference as for `Step` in the state where both lists are empty.
- `Math.random()` and the floating-point arithmetic that turns it into an index. The index is a parameter; `IndexOk` states the range it can fall in. Uniformity of the draw is not modelled.
- HTTP wiring: Express setup, CORS, JSON body parsing, the JSON encoding of responses (`res.json` drops an `undefined` field), and port selection with `app.listen` (index.js:1-6, 33-34). The handlers are modelled as methods with parameters and results.
- Concurrency between requests. Each handler runs to completion on Node's event loop, so each draw is modelled as one atomic method call.
- setupTables.js. It only sends `CREATE TABLE IF NOT EXISTS` statements to an external database client and logs the result. The persisted multi-project service is not part of this model.
