# Connect-path tile matcher

This project models the game logic of `app.js`, a browser tile-matching game. The game is a
`rows x cols` board in which every cell holds a stack of items, and only the top of each stack can
be picked. The player picks two tops of the same kind. When a path of empty cells joins them (the
two ends may be occupied), both tops leave the board and the player scores 40 points. A miss costs
5 points, and the score never drops below zero.

Every first pick, and every second pick on another cell, appends the picked kind to a holding bar
of at most seven entries. Picking the selected cell again only drops the selection, and a pick on
an empty cell or an ended session does nothing. A match takes one pair of its kind back out of the
bar. The session ends in one of three ways:
- a win, when the board is empty;
- a loss, when the bar is full;
- a loss, when the ten-minute countdown reaches zero.

"Shaking the pot" swaps the tops of random disjoint pairs of occupied cells and costs 10 points.
Each level deals a pool of items onto an empty board. The pool holds an even number of items, and
pairs of kinds are chosen round-robin.

The model has one file per module:

- `prelude.dfy` (`Prelude`): `null` as `Option`, `clamp`, the score floor, and the in-place
  Fisher–Yates `shuffle` over an array. It also holds facts about duplicate-free sequences.
- `board.dfy` (`Board`): the grid of stacks, plus `topAt`, push and pop. It counts the items on
  the board both as a number and as a multiset.
- `paths.dfy` (`Paths`): `neighbors` and the breadth-first `hasPath`. `HasPath` is proved to
  answer exactly whether a path exists.
- `bar.dfy` (`HoldingBar`): `pushBar`, and `clearPairFromBar` as the function `WithoutFirst`,
  with its counting and ordering properties.
- `clock.dfy` (`Clock`): `fmtTime`, with a parser to read the display back.
- `level.dfy` (`Level`): the numbers `buildLevel` derives from the level, and its pool of pairs.
- `game.dfy` (`Game`): the `state` object as a value. It also holds the transitions of `pick`,
  the timer tick and `shakePot` as functions, and the invariant they keep.
- `play.dfy` (`Play`): the `state` object as a class. Its methods change the fields in place
  and are proved against the transitions of `Game`. The module also holds the loops of
  `buildLevel` and `shakePot` as methods.

`Inv` is the invariant every transition keeps. It says:
- the grid has the board's shape, and `remaining` is the number of items on it;
- `remaining` never exceeds `goal`;
- the score is never negative;
- `secs` lies in `[0, LIMIT_SECONDS]`;
- the bar never exceeds `BAR_CAP`;
- a running session has time, items and bar room left;
- every end state agrees with its cause;
- a pending selection names an on-board cell whose top is still the selected kind, and that
  kind is the bar's last entry.

## Model

| member | source | states |
|---|---|---|
| Prelude.Clamp | app.js:45-47 | the result lies in `[lo, hi]`; it is `n` when `n` is in range, `lo` below it and `hi` above it |
| Prelude.FloorAtZero | app.js:334 | `Math.max(0, x)`: the result is at least `x`, and is either 0 or `x` |
| Prelude.Shuffle | app.js:53-59 | the array afterwards is a permutation (same multiset) of the array before |
| Prelude.PermutationKeepsNoDup | app.js:388 | a permutation of a duplicate-free list is duplicate-free, so the shuffled `tops` still name each cell once |
| Board.TopAt | app.js:124-127 | `topAt` is `null` exactly for an empty stack, and otherwise the stack's last item |
| Board.PopAt | app.js:274 | `pop` drops the top: the stack plus the old top is the old stack; the shape and every other cell are unchanged |
| Board.PushAt | app.js:163 | `push` puts the item on top of the stack; the shape and every other cell are unchanged |
| Board.PushThenPop | app.js:395-398 | pushing an item makes it the top, and popping it again gives back the board |
| Board.PopThenPush | app.js:395-398 | popping the top and pushing it back gives back the board |
| Board.PopAtItems | app.js:274 | `pop` removes exactly the top item: the board's multiset loses that item and the count drops by one |
| Board.PushAtItems | app.js:163 | `push` adds exactly the pushed item to the board's multiset and one to its count |
| Board.EmptyGrid | app.js:153 | the new grid has the board's shape and every stack is empty |
| Board.EmptyGridItems | app.js:153 | a grid of empty stacks holds no item |
| Board.PopTwo | app.js:326-327 | popping two distinct cells that show kind `k` takes exactly two `k` items off the board, and the second top is still there after the first pop |
| Paths.OnBoard | app.js:244 | the filter keeps exactly the candidates that are on the board |
| Paths.Neighbors | app.js:238-245 | `y` is returned iff it is on the board and one orthogonal step from `x`; at most four cells are returned |
| Paths.EnqueueNeighbours | app.js:256-266 | the inner loop marks and queues exactly the unseen passable neighbours: every on-board passable neighbour is seen afterwards, every newly seen cell is a passable neighbour, and the queue gains exactly the newly seen cells; every seen cell is on the board, is the start, the target or empty, and is connected to the start |
| Paths.SeenSoundAdd | app.js:260-265 | marking a passable neighbour of a seen cell as seen keeps every seen cell on the board, passable and connected to the start |
| Paths.EnqueueAdd | app.js:258-265 | queueing an unseen passable neighbour keeps the loop's bookkeeping: only passable cells of `neighbors` are added, each one queued |
| Paths.EnqueueSkip | app.js:258-262 | skipping a seen or blocked neighbour keeps the loop's bookkeeping |
| Paths.HasPath | app.js:248-270 | the search answers true iff a path of orthogonal steps joins `a` and `b` with every interior cell empty; it terminates because each cell enters `seen`, and so the queue, at most once |
| Paths.ExtendConnected | app.js:260-265 | a cell reached from the start through empty cells connects the start to each of its on-board neighbours |
| Paths.ExhaustedMeansDisconnected | app.js:252-269 | when the queue empties without reaching `b`, no path to `b` exists |
| Paths.ConnectedReflexive | app.js:249-254 | a cell is connected to itself, so `hasPath(a, a)` is true |
| Paths.ConnectedNeighbours | app.js:260-261 | orthogonal neighbours are connected even when both are occupied |
| Paths.ConnectedSymmetric | app.js:248-270 | connectivity from `a` to `b` implies it from `b` to `a` |
| HoldingBar.Pushed | app.js:279-282 | the bar is the old bar plus the kind, cut back to at most `BAR_CAP` entries; with room left, nothing is cut |
| HoldingBar.WithoutFirst | app.js:284-295 | the bar that the copy loop builds is never longer than the old bar; its counts, order and which entries go are stated by the lemmas below |
| HoldingBar.CopyStep | app.js:287-293 | one step of the copy loop: each entry is either one of the `need` entries skipped or appended to `next`, and the result stays the same |
| HoldingBar.WithoutFirstCount | app.js:284-295 | kind `k` occurs `min(n, count of k)` fewer times after clearing, and every other kind as often as before |
| HoldingBar.WithoutFirstCounts | app.js:284-295 | clearing removes `min(n, count of k)` copies of `k`, leaves every other kind's count alone, and shortens the bar by exactly that much |
| HoldingBar.WithoutFirstLength | app.js:284-295 | the cleared bar is `min(n, count of k)` entries shorter |
| HoldingBar.WithoutFirstKeepsOthers | app.js:287-293 | the entries of other kinds keep their order |
| HoldingBar.WithoutFirstTakesEarliest | app.js:287-293 | the copies removed are the first ones; everything after them is kept as it stands |
| HoldingBar.WithoutNoneIsIdentity | app.js:288 | once `need` is zero, the rest of the bar is copied unchanged |
| HoldingBar.ClearPairRemovesOnePair | app.js:328 | with at least two copies of `k` in the bar, exactly one pair of `k` leaves it |
| HoldingBar.PairAfterPush | app.js:322-328 | after the second pick's push, clearing the pair leaves the bar one entry shorter than before that pick, with one `k` fewer |
| Clock.DecimalString | app.js:90 | `String(n)` consists of digits only; it is one digit below 10 and two digits below 100 |
| Clock.PadStart2 | app.js:90 | `padStart(2, "0")` gives at least two characters, and exactly two for a shorter input |
| Clock.PadStart2Pads | app.js:90 | the padded string ends in the input, and every character in front of it is `'0'` |
| Clock.FmtTime | app.js:87-91 | the display has at least five characters with the colon third from the end |
| Clock.DecimalStringValue | app.js:90 | the digits of `String(n)` read back as `n` |
| Clock.LeadingZeroValue | app.js:90 | the padding `0` does not change the value |
| Clock.PaddedValue | app.js:90 | the padded field consists of digits and reads back as `n` |
| Clock.FmtTimeRoundTrip | app.js:87-91 | the field before the colon is digits reading back as `secs / 60`, the two digits after it read back as `secs % 60`, and the parser (which accepts only a seconds field below 60) gives back `secs` |
| Clock.FmtTimeWidth | app.js:87-91 | below 100 minutes the display is exactly five characters, with the colon at index 2 |
| Level.Layers | app.js:139 | `layers` lies in `[2, 4]` and is `2 + floor(level / 2)` when that is in range |
| Level.KindsCount | app.js:140 | `kindsCount` lies in `[4, 6]` and is `4 + floor(level / 2)` when that is in range |
| Level.LevelKinds | app.js:141 | `KINDS.slice(0, kindsCount)`: the first `KindsCount(level)` entries of `KINDS`, between 4 and 6 of them |
| Level.LevelKindsDistinct | app.js:141 | the kinds of a level are pairwise distinct, so the level uses exactly `kindsCount` different kinds |
| Level.RoundedDown | app.js:144 | `raw - raw % 2` is even, at most `raw`, and more than `raw - 2` |
| Level.TotalItems | app.js:143-144 | `totalItems` is even |
| Level.TotalItemsNearRaw | app.js:143-144 | `totalItems` is `rows * cols * layers` or one less |
| Level.TotalItemsPositive | app.js:138-144 | every non-empty board gets at least one pair |
| Level.FillCount | app.js:160 | a layer fills between half the cells and all of them |
| Level.RoundRobin | app.js:148 | pair `i` takes one of the level's kinds |
| Level.RoundRobinIsModulo | app.js:148 | the round-robin kind is `kinds[i % kinds.length]` |
| Level.Pool | app.js:146-150 | the pool holds two items per pair |
| Level.PoolCounts | app.js:146-150 | each kind occurs in the pool twice as often as the round-robin chooses it |
| Level.PoolEven | app.js:146-150 | every kind occurs an even number of times in the pool |
| Level.PoolKinds | app.js:146-150 | the pool holds only kinds of the level |
| Level.PoolGrows | app.js:147-150 | the pool with fewer pairs is a prefix of the pool with more |
| Level.PoolUsesEveryKind | app.js:146-150 | with at least as many pairs as kinds, every kind of the level is in the pool |
| Level.LevelPool | app.js:144-150 | the level's pool holds exactly `totalItems` items |
| Level.LevelPoolEven | app.js:144-151 | the level's pool has an even number of items of every kind |
| Level.DealtEven | app.js:146-176 | a board holding exactly the level's pool has an even number of items of every kind |
| Game.FreshInv | app.js:441-456 | a session just dealt by `restart` satisfies the invariant |
| Game.Ended | app.js:353-375 | `win`, `failByBar` and `failByTimeout` set `ended` and record which end was reached; every other field is unchanged |
| Game.TakeTop | app.js:272-277 | `removeTop` changes only the grid and `remaining`, and keeps the board's shape |
| Game.TakeTopCounts | app.js:272-277 | on an empty stack nothing changes; otherwise exactly the top item leaves and `remaining` drops by one, so `remaining` still counts the items |
| Game.Selected | app.js:302-311 | the first pick selects the cell, the bar becomes `Pushed(bar, kind)`, board, `remaining` and score are unchanged, and the session ends, lost to the bar, exactly when the bar is full |
| Game.Matched | app.js:325-329 | a match keeps the board's shape, clears the first pair of the kind from the bar and adds 40 points |
| Game.Settled | app.js:344-350 | the checks change only the end state; the session has ended iff it had, or the board is empty, or the bar is full; an empty board is a win even with a full bar, and a full bar with items left is a loss |
| Game.Picked | app.js:297-351 | a pick keeps the board's shape and never touches the level, the board size, the goal or the clock |
| Game.PickIgnored | app.js:298-300 | a pick on an ended session or an empty cell changes nothing |
| Game.FirstPick | app.js:302-311 | the first pick selects the cell, appends its kind to the bar, leaves the board and score alone, and ends the game iff the bar becomes full |
| Game.PickSameCell | app.js:313-320 | picking the selected cell again only drops the selection; the first pick's kind stays in the bar |
| Game.PickMatch | app.js:322-347 | a legal match pops exactly the two tops, lowers `remaining` by two, removes the selected kind once from the pushed bar, adds 40 points, clears the selection, and ends the game iff the board is empty |
| Game.MatchedBoard | app.js:325-329 | the match keeps `remaining` equal to the item count and takes exactly two items of the kind off the board |
| Game.PickMiss | app.js:333-350 | an illegal second pick leaves the board alone, appends the kind to the bar, sets the score to `max(0, score - 5)`, clears the selection, and ends the game iff the bar is full |
| Game.PickEndings | app.js:344-350 | a win comes only from a cleared board with room in the bar, and a bar loss only with items left: the win check comes first and the two never compete |
| Game.PickKeepsInv | app.js:297-351 | every pick keeps the invariant |
| Game.Ticked | app.js:428-438 | a tick changes only `secs` and the end state; it is ignored once ended, and otherwise sets `secs` to `max(0, secs - 1)` |
| Game.TickCountsDown | app.js:428-438 | a tick keeps the invariant, is ignored once ended, otherwise counts one second down, ends the game exactly at zero and changes nothing but `secs` and the end state |
| Game.TimeRunsOut | app.js:428-438 | after as many ticks as there are seconds left, the session has ended, by timeout unless it ended before |
| Game.EndedStays | app.js:429 | ticks leave an ended session as it is |
| Game.SwapTop | app.js:393-398 | the two pop/push pairs exchange the two top items and leave every stack depth and every other cell alone |
| Game.ReplaceTopItems | app.js:395-398 | replacing a top by `t` trades that item for `t` among the board's items |
| Game.SwapTopKeepsItems | app.js:393-398 | one swap keeps the multiset of items on the board |
| Game.SwapAll | app.js:390-399 | the swaps one after the other keep the board's shape and every stack depth |
| Game.SwapAllKeepsItems | app.js:390-399 | shaking keeps the multiset and the number of items |
| Game.SwapAllLast | app.js:390-399 | the last swap is done on two distinct occupied cells that no earlier pair touches |
| Game.SwapAllUntouched | app.js:390-399 | a cell in no pair keeps its stack |
| Game.SwapAllExchanges | app.js:390-399 | the two cells of every pair trade their original tops, and nothing below the tops moves |
| Game.Shaken | app.js:377-402 | shaking changes only the grid, the score and the selection; on a running session every stack keeps its depth, the score becomes `max(0, score - 10)`, and the selection is dropped |
| Game.ShakeKeepsInv | app.js:377-402 | `shakePot` does nothing once ended; otherwise it keeps the invariant, the items, the stack depths and `remaining`, sets the score to `max(0, score - 10)` and clears the selection |
| Play.OccupiedCells | app.js:381-386 | `tops` names each occupied board cell exactly once |
| Play.ShuffledTops | app.js:381-388 | the shuffled `tops` are distinct, on the board and occupied, and as many as the occupied cells |
| Play.SwapPairs | app.js:389-399 | the loop swaps disjoint pairs of occupied cells taken in order from the shuffled list, `swaps` of them, with the effect of `SwapAll` |
| Play.SwapStep | app.js:390-398 | the next two cells of the shuffled list are distinct, occupied and in no earlier pair |
| Play.RowMajorCells | app.js:157-158 | `coords` lists every cell of the board exactly once, `rows * cols` entries |
| Play.ShuffledCells | app.js:157-159 | the shuffled `coords` are still every cell of the board, each exactly once |
| Play.MakePool | app.js:146-150 | the array built by the loop is the pool of round-robin pairs |
| Play.Deal | app.js:163 | moving the pool's last item onto a cell keeps the items of the board and the pool together |
| Play.DealLayer | app.js:156-164 | one layer moves exactly `min(fillCount, pool.length)` items from the end of the pool onto the board, at most one onto each cell, losing none and creating none |
| Play.DealLeftovers | app.js:168-172 | every leftover item lands on the board |
| Play.DealPool | app.js:153-172 | every pool item is placed exactly once: the board's items are the pool's items |
| Play.DealtGrid | app.js:141-172 | the dealt board holds exactly the level's pool, `totalItems` items |
| Play.Session.constructor | app.js:30-43 | the initial `state` followed by `restart(1)`: level 1, score 0, full time, empty bar, `goal == remaining == totalItems`, the board holds exactly the level-1 pool, and so an even number of every kind |
| Play.Session.End | app.js:353-375 | the end transitions, in place |
| Play.Session.RemoveTop | app.js:272-277 | returns the old top, or `None` for an empty stack, and performs `TakeTop` on the fields |
| Play.Session.PushBar | app.js:279-282 | the new bar is `Pushed(old bar, kind)` |
| Play.Session.ClearPairFromBar | app.js:284-295 | the loop with its `need` counter leaves the bar as `WithoutFirst(old bar, kind, 2)` |
| Play.Session.Pick | app.js:297-351 | keeps the invariant and performs `Picked` on the fields |
| Play.Session.TakePair | app.js:326-329 | the two `removeTop` calls, `clearPairFromBar` and the 40 points, in place, are the transition `Matched` |
| Play.Session.SecondPick | app.js:322-350 | the second pick, in place, is the transition `Picked` |
| Play.Session.Tick | app.js:428-438 | keeps the invariant and performs `Ticked` on the fields |
| Play.Session.ShakePot | app.js:377-417 | keeps the invariant, swaps disjoint pairs of occupied cells, `floor(n * 0.2)` of them, and performs `Shaken` on the fields |
| Play.Session.BuildLevel | app.js:133-177 | the board holds exactly the level's pool, and `goal == remaining == item count == totalItems` |
| Play.Session.Restart | app.js:441-456 | the session is fresh: full time, empty bar, no selection, not ended, the invariant holds, and the score is 0 on level 1 and kept otherwise; the board holds exactly the level's pool, so every kind has an even number of items |

## Left out

- Rendering and the DOM (`renderBoard`, `renderBar`, `updateHud`, `svgIcon`, `setHint`, `showModal`, `hideModal`, `boardEl.animate`) are left out: they hold no game logic. The model's `outcome` field records which end screen `win`, `failByBar` or `failByTimeout` would show.
- `beep` and the `sound` toggle are left out: they are Web Audio output.
- Event wiring is left out. That covers the button listeners, the `devicemotion` shake detector (which reads `Date.now()`), the modal click handler, and the `setInterval`/`clearInterval` plumbing of `startTimer`/`stopTimer`. Only the body of the one-second interval is modelled, as `Tick`.
- The resize handler (restart at the same level, then restore the score) is left out: it is a composition of `Restart` with a score assignment driven by a browser event.
- `computeSize` reads the window width. The board size is therefore a parameter (`rows`, `cols`) of the constructor, `Restart` and `BuildLevel`.
- `Math.random` in `shuffle` and `randInt` becomes a nondeterministic choice (`:|`). `Shuffle` therefore promises only a permutation, and `randInt(0, n - 1)` any index in range.
- `taunt` and `isTopVisible` are left out. `taunt` picks a message for an end screen. `isTopVisible` is `topAt` tested for non-null and is not used by the game logic.
- The files `drive/app.js` and `drive-pro/app.js` are not part of this model. They are frame-driven games with floating-point positions.
- The float multiplications are written as integer arithmetic, which gives the same values for the board sizes the game uses: `floor(n * 0.2)` is `n / 5`, `floor(n * 0.15)` is `n * 15 / 100`, and `floor(n * 0.5)` is `n / 2`.
- Play.Session.Pick: requires the picked cell to be on the board. The source reads `state.grid[r][c]` without a check and receives only coordinates of rendered tiles.
- Paths.HasPath: requires both ends to be on the board. The source calls it only with the selected cell and a picked cell.
- Play.Session.Restart: requires a non-negative score. Every reachable session has one, by the invariant.
- Play.Session.BuildLevel: says which items are dealt and how many, not on which cells they land, because the cells are chosen at random.
- Play.Session.ShakePot: names the cells found and the pairs swapped through ghost outputs. The random order itself is not observable.
- Play.DealLayer: the pool array of `buildLevel` is shuffled in place, as an array. The later `pool.pop()` calls are modelled on a sequence that shrinks from the end.
- Clock.ParseTime: exists only to read a display back; it accepts a minutes field of any length and a seconds field below 60.
- Clock.FmtTime: takes a non-negative number of seconds. The countdown clamps `secs` at 0, and the win message formats only `LIMIT_SECONDS - secs`.
