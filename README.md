# Connect Four engine, modelled in Dafny

This project models the core of a browser Connect Four game in Dafny. It covers three parts:

- **The game engine** (`models.js`): class `Game` and class `AiPlayer`.
- **The player-id hash** (`hash.js`).
- **The page handlers** (`connect4.js`): the parts with logic of their own.

The engine keeps the board as a height × width matrix of cells. Each cell holds:

- `value`: `null` or the id of the player whose piece is there;
- `validCoordSets`: the four-in-a-row lines that start at that cell, precomputed when the board is built.

The engine also keeps:

- a log `placedPieces` of occupied cells;
- the roster of players, the index of the current player, and the flags `gameStarted` and `gameEnded`;
- for each AI player, a list `availCols` of the columns it still considers worth trying.

A drop works like this:

1. It looks for the landing row, scanning the column from the top down.
2. It writes the current player's id into that cell and appends the cell to the log.
3. It ends the game on a full top row (a tie), or when some placed piece has a coord set held entirely by the current player (a win).
4. Otherwise it hands the turn to the next player in round-robin order.
5. If the next player is an AI, that player picks random candidate columns, splicing out each full one, until a drop succeeds.

The files:

- `winlines.dfy` (module `WinLines`): coordinates and directions, the coord sets of `_populateValidCoordSets`, and the geometry of four-in-a-row lines.
- `board.dfy` (module `Board`): the board as a value.
  - Functions: the landing row, the tie test, the win scan and the verdict of `_checkForGameEnd`.
  - The board invariant: shape, coord sets, gravity, and the log matching the occupied cells.
  - Lemmas about all of these.
- `models.dfy` (module `Models`): the classes `Player` and `Game`.
  - Their fields are updated in place, by methods with `modifies` clauses.
  - Each method is specified through the functions of `Board`.
  - `AiPlayer` is folded into `Player`: `isAi` stands for `instanceof AiPlayer`.
- `hash.js` is modelled in `hash.dfy` (module `Hash`). `generateMD5HashHex` is not MD5 but the 31-multiplier string hash printed in hexadecimal.
  - The loop is a method proved against the exact JavaScript accumulator.
  - The accumulator is proved equal, modulo 2^32, to the textbook recurrence h := (31·h + code) mod 2^32.
- `connect4.dfy` (module `Connect4`): the handlers.
  - `handleAddPlayer`'s validation, with `String.prototype.trim`.
  - `handlePieceDrop`'s regular-expression column parse.
  - The id that `handleRemovePlayer` passes on.
  - DOM reads become parameters, and the global `game` becomes a parameter too.

Places where the code does something easy to misread:

- **Tie before win.** `_checkForGameEnd` tests for a tie before it looks for a win, so a winning move that fills the top row is reported as a tie.
- **Every placed piece is scanned.** The win scan goes over every placed piece in log order, not only the last one.
  - This is needed: coord sets only run up or sideways, so in a vertical win the last piece (the top one) does not own the winning line.
  - `Board.StraightFourIsWin` proves that the scan finds every four-in-a-row, in all eight directions.
- **Line order.** Coord sets come in the order up, up-left, up-right, left, right.
- **Drop after the end.** `dropPiece` on an ended game returns `undefined` (`Ended` here). On a full column it returns `false` (`Full`). Otherwise it returns `true` (`Placed`), also when that move ended the game.
- **No two-player check.** `startGame` starts with any non-empty roster; there is no check for at least two players.

## Model

| member | source | states |
|---|---|---|
| WinLines.Line | models.js:226-274 | a coord set is four cells, starting at the cell itself |
| WinLines.LineIsStraightFour | models.js:226-274 | each line of a direction steps one unit in that direction from cell to cell |
| WinLines.CoordSets | models.js:209-279 | a cell has at most five coord sets (up, up-left, up-right, left, right), and a cell of a board under four rows high and four columns wide has none |
| WinLines.LineFits | models.js:221-268 | the source's "does this row / cell exist" tests hold exactly when all four cells of the line lie on the board |
| WinLines.FittingLinesMembers | models.js:209-279 | the reference list of on-board lines holds exactly the lines, in the listed directions, that fit on the board |
| WinLines.CoordSetsAreFittingLines | models.js:209-279 | for a cell on the board, the coord sets are exactly the lines that fit, in the order up, up-left, up-right, left, right |
| WinLines.BranchesAreFittingLines | models.js:220-275 | each guarded branch adds the line of its direction exactly when that line fits; with fewer than three rows above, no upward line fits |
| WinLines.CoordSetsExactlyLines | models.js:220-275 | a list is a coord set of (y, x) if and only if it is the line from (y, x) in some direction and lies on the board |
| WinLines.CoordSetStartsAtCell | models.js:220-275 | every coord set of a cell has four cells and starts at that cell |
| WinLines.CoordSetsNeverReachBelow | models.js:220-275 | no coord set reaches a row below its own cell |
| WinLines.HorizontalMirror | models.js:257-275 | the left line of (y, x) and the right line of (y, x-3) are both coord sets, with the same cells in reverse order |
| WinLines.Coverage | models.js:221-275 | every on-board four-in-a-row, in any of the eight directions, equals as a set of cells a coord set of one of its own cells: the lowest cell for a vertical or diagonal line, the first cell for a horizontal one |
| Board.FirstOccupied | models.js:332-339 | the downward scan stops at an occupied cell, or at the height when it meets none |
| Board.NewGrid | models.js:169-204 | the fresh board has `height` rows of `width` cells, and every cell is empty |
| Board.Place | models.js:345 | the written cell holds the player's id and keeps its coord sets; the board keeps its dimensions |
| Board.LandingRow | models.js:316-341 | there is no landing row exactly when the top cell is occupied; otherwise the landing row is an empty cell on the board, and it is the bottom row or sits on an occupied cell (that every cell above it is empty too is `LandingIsLowestEmpty`) |
| Board.TopRowFull | models.js:376 | the tie test, defined as the source's `every` over the top row; `Board.TopRowFullMeansBoardFull` and `Models.Game.TopRowIsFull` are proved against it |
| Board.FirstHeld | models.js:388-394 | a coord set the inner scan returns is one of the cell's sets and is held entirely by the player |
| Board.FirstWin | models.js:383-395 | a line the scan returns is held entirely by the player |
| Board.EndOfGame | models.js:373-402 | the verdict is a tie exactly when the top row is full; a reported win has a gap in the top row and a line held by the player |
| Board.NewGridInvariant | models.js:169-204 | the fresh board of `_createGameState` with an empty log satisfies the board invariant; its top row is full only when the width is 0 |
| Board.LandingIsLowestEmpty | models.js:316-341 | under gravity there is no landing row exactly when the column is full; otherwise the landing row is the lowest empty cell, with empty cells above it and occupied ones below |
| Board.TopRowFullMeansBoardFull | models.js:376 | under gravity a full top row means every cell is occupied, so the tie test is a full-board test |
| Board.EmptyColumnLandsAtBottom | models.js:340 | an empty column lands a piece on the bottom row |
| Board.DropThenLanding | models.js:319-346 | after a piece lands on row r, the next drop into that column lands on r-1, or finds the column full after row 0; other columns answer as before |
| Board.FirstOccupiedAt | models.js:332-339 | the scan stops at the first occupied cell below a run of empty ones |
| Board.FirstOccupiedSameColumn | models.js:332-339 | the scan of a column depends only on that column's cells |
| Board.PlaceKeepsColumnsFull | models.js:345 | a full column stays full after a placement, and placing a piece never changes whether another column is full |
| Board.DropPreservesInvariant | models.js:344-346 | a drop at the landing row keeps the board invariant, with the log extended by that cell |
| Board.PlaceKeepsCoordSets | models.js:345 | writing a piece keeps every cell's coord sets |
| Board.DropKeepsGravity | models.js:345 | a piece placed on the lowest empty cell of its column keeps pieces resting on pieces |
| Board.DropKeepsLog | models.js:345-346 | after the placement and the push, the log lists every occupied cell exactly once and nothing else |
| Board.PlaceShrinksOpen | models.js:345 | a drop removes exactly its cell from the set of empty cells |
| Board.DropKeepsOthersLost | models.js:345-346 | a piece of one player completes no coord set of another: a coord set another id holds after the drop belongs to an earlier piece and was held before it |
| Board.PieceWinsBeforeDrop | models.js:383-395 | a piece that owns a coord set held by another id after a drop is not the new piece, and owned it before the drop |
| Board.Unplace | models.js:345 | taking a piece back out keeps the board's dimensions and leaves that cell empty |
| Board.UnplacePlace | models.js:345 | taking back the piece just placed in an empty cell gives the board before the drop |
| Board.FirstHeldSpec | models.js:388-394 | the inner scan finds a coord set held entirely by the player if and only if there is one, and what it finds is such a set |
| Board.FirstWinSpec | models.js:383-395 | the scan over the placed pieces finds a line if and only if some placed piece owns a coord set held entirely by the player; what it finds is such a set |
| Board.EndOfGameCases | models.js:373-402 | the verdict is a tie if and only if the top row is full; a win if and only if the top row has a gap and the player holds a coord set, and the line reported is held by the player; otherwise play continues |
| Board.WinIsStraightFour | models.js:383-395 | a reported win is an on-board four-in-a-row held by the player |
| Board.StraightFourIsWin | models.js:383-395 | every on-board four-in-a-row held by the player, in any of the eight directions, is found by the scan |
| Models.NextIndexIsSuccessorModulo | models.js:412-418 | for an index on the roster, the non-random advance is (i + 1) mod n and stays on the roster |
| Models.NextIndex | models.js:412-417 | the advance goes to index 0 or to the next index, and from an index on the roster it stays on the roster |
| Models.AdvanceWithinRound | models.js:412-418 | k < n advances from index i reach i + k, wrapped once past the last index |
| Models.RoundRobin | models.js:412-418 | in n advances every index comes up exactly once, and then the turn is back where it started |
| Models.SubsequenceMembers | models.js:85 | a subsequence has no new elements and is no longer |
| Models.SubsequenceTransitive | models.js:85 | successive splices compose: a subsequence of a subsequence is one |
| Models.SpliceIsSubsequence | models.js:85 | `splice(k, 1)` drops exactly the entry at k: the others stay, in order, and nothing is added |
| Models.RemoveAsWritten | models.js:109-115 | removal never lengthens the roster and adds no one |
| Models.RemoveKeepsOthers | models.js:109-115 | `removePlayer` keeps every player with a different id, in order, and adds no one |
| Models.RemoveStep | models.js:111-112 | a splice at a match moves the loop past the player who slid into that slot |
| Models.KeepStep | models.js:110-111 | stepping past a non-matching player leaves the pending result unchanged |
| Models.PendingAtEnd | models.js:110 | once the loop index is past the last player nothing is pending, so the roster is the result |
| Models.RemoveSingleMatch | models.js:109-115 | with at most one player of that id, exactly the players with other ids remain |
| Models.NoMatchUnchanged | models.js:109-115 | with no player of that id the roster is unchanged |
| Models.RemoveSkipsNeighbour | models.js:110-113 | of two adjacent players with the removed id, the second one stays |
| Models.AllColumnsCover | models.js:65-77 | the full candidate list [0 .. width) contains every open column |
| Models.GrowsKeepsCover | models.js:83-85 | a full column stays full as the board fills, so a candidate list covering the open columns keeps covering them |
| Models.SpliceKeepsCover | models.js:83-85 | splicing a full column out of the candidate list keeps it covering every open column |
| Models.RetryKeepsCandidates | models.js:83-87 | after a failed attempt and the retry on the spliced list, the final list is a subsequence of the original and every column it lost was full |
| Models.PlaceGrows | models.js:344-345 | writing a piece into an empty cell leaves every occupied cell as it was |
| Models.Player.Human | models.js:39-46 | the new player has the given name and colour, is not an AI, and its id is the hexadecimal hash of its name |
| Models.Player.Ai | models.js:53-57 | the new AI player has the given name and colour, its id is the hexadecimal hash of its name, and it has no candidate columns yet |
| Models.Player.AiInitAvailCols | models.js:69-77 | the returned list is 0, 1, …, width − 1, in order |
| Models.Player.NewGame | models.js:65-67 | after `newGame` every column is a candidate again, in order |
| Models.Player.TakeTurn | models.js:59-62 | an AI turn drops one piece into a column of its candidate list: the piece lands on that column's landing row, the log gains that cell, the game ends if and only if the top row is full or the AI holds a coord set, and otherwise the turn advances by one; the board invariant, every AI's candidate coverage and a valid turn index are kept, and the set of empty cells shrinks |
| Models.Player.AiDropPiece | models.js:79-89 | the retry loop ends with exactly one placed piece, in a column that was and still is a candidate, with the turn's outcome as in `dropPiece`; only columns that were full are spliced out, and the rest keep their order |
| Models.Game.constructor | models.js:94-101 | a new game has the given size, 7 by 6 when the arguments are left out, an empty roster and log, and both flags cleared |
| Models.Game.AddPlayer | models.js:104-106 | the player is appended at the end of the roster and nothing else changes |
| Models.Game.RemovePlayer | models.js:109-115 | the roster becomes the as-written removal, which skips the player after each removal; nothing else changes |
| Models.Game.StartGame | models.js:118-137 | after `startGame` the board is consistent and grew from the fresh board, every AI's candidate list covers the open columns, the game is started, the turn index is on the roster and names the current player, and a human is on move or the game is over; when the player drawn first is human, that player is on move on an empty board with an empty log; when it is an AI, at least one piece is placed and the log is that AI chain in the sense of `RunAiTurns` from the drawn index, in which no AI played on after a win |
| Models.Game.NotifyNewGame | models.js:122-127 | every AI on the roster has the full candidate list afterwards |
| Models.Game.DropPiece | models.js:144-162 | the result is `Ended` on an ended game, `Full` on a full column (both change nothing), and `Placed` otherwise; then the mover's piece is on the landing row of the column, the log gains that cell and occupied cells are kept; a move that fills the top row or completes a coord set of the mover ends the game with that board and the turn kept; otherwise, when the next player is human, the game goes on with the turn advanced by one and nothing more placed, and when the next player is an AI, at least one AI drop follows and the rest of the log is the AI chain of `RunAiTurns` from that AI's index, in which no AI played on after a win; a move that does not end the game has a non-empty roster; after the AI turns, no AI is on move; the roster may be empty when the move ends the game |
| Models.Game.DropPieceOnce | models.js:144-161 | one drop: the three outcomes; on success the board is the old board with the mover's piece on the landing row and the log gains that cell; the game ends if and only if the top row is full or the mover holds a coord set, in which case the turn is kept, and otherwise the turn advances by one |
| Models.Game.PlaceAt | models.js:344-348 | placing at the landing row keeps the board invariant, writes the mover's id into that cell only, and appends the cell to the log |
| Models.Game.CreateGameState | models.js:169-204 | the nested loops build the empty board whose every cell carries its coord sets, and clear the log |
| Models.Game.FindEmptyCellInColumn | models.js:316-341 | the answer is nothing if and only if the top cell is occupied; otherwise it is the row above the first occupied cell scanning down, or the bottom row |
| Models.Game.AddToBoard | models.js:344-348 | the current player's id goes into that one cell and the cell is appended to the log |
| Models.Game.EndGame | models.js:366-370 | the game is marked over, immediately |
| Models.Game.CheckForGameEnd | models.js:373-402 | the verdict is the tie test first and then the win scan; a tie or a win ends the game and keeps the turn; otherwise the turn advances with wrap-around |
| Models.Game.TopRowIsFull | models.js:376 | true if and only if every cell of the top row holds a piece |
| Models.Game.FindWinningSet | models.js:383-395 | the nested loops return the first coord set, in log order then set order, held entirely by the current player; it is held by that player |
| Models.Game.UpdateCurrPlayer | models.js:405-418 | the new index is on the roster and names the current player; the non-random advance is the wrap-around successor |
| Models.Game.RunAiTurns | models.js:405-426 | the AI turn chain ends with no AI on move, and at least one AI drops when an AI was on move; the board only grows and the log only gains entries; from a valid turn index i0, the k-th new log entry is a piece of an AI, the player k advances after i0; a game the chain ended has a full top row or a coord set held by the AI on move, which made the last drop, with the turn index one advance short; otherwise the turn index is one advance per drop past i0, on a player that is not an AI, and the last drop neither filled the top row nor completed a coord set of its AI; while the game runs, no AI of the chain holds a coord set, and when the last drop ended it, no earlier AI of the chain held one on the board and log before that drop |
| Models.AiChainStep | models.js:79-89 | one more AI drop on a growing board extends the chain by that AI's piece, and the earlier AI pieces stay in place |
| Models.ChainAt | models.js:405-426 | the k-th drop of a chain lies in the log at its position and was made by the AI k advances after the chain's first index |
| Models.Game.AiTurn | models.js:423-426 | one pass of the chain: the AI on move takes its turn, the board gains exactly one piece, and the chain description from the same start grows by that drop |
| Models.Game.ChainStep | models.js:405-426 | one AI turn of the chain (drop, end check, advance) keeps the order part of the chain description of `RunAiTurns`: who dropped each piece, where the turn is, and why the chain stopped |
| Models.Game.UnwonStep | models.js:373-402 | one AI turn keeps the win part of the chain description: a drop that lets the game go on leaves every mover of the chain without a coord set, and a drop that ends it leaves the board before it, with no earlier mover holding one |
| Models.NoChainWinStep | models.js:383-402 | a drop by the next mover of the chain that is no win for that mover gives no earlier mover a win either |
| Models.MoverLostAfterDrop | models.js:383-395 | a player who held no coord set still holds none after a drop by a player with another id, or by a player with the same id whose drop is no win |
| Models.Game.NoChainAiHasWon | models.js:373-426 | while the game runs after a chain of AI turns, every AI that dropped in it holds no coord set, since a drop that completed one would have ended the game there |
| Models.Game.MoveEndIsReal | models.js:144-162 | an ended game after `dropPiece` with its AI turns has a full top row or a coord set held by the player on move, who dropped last, also when the roster is empty |
| Models.Game.AiRepliesOnce | models.js:405-426 | with one human and one AI, after the human's drop the AI replies exactly once: one or two pieces are placed, and unless the game ended both were placed and the human is on move again |
| Hash.Int32 | hash.js:9 | ToInt32 lies in [−2^31, 2^31) and agrees with its argument modulo 2^32 |
| Hash.CharCode | hash.js:8-9 | `charCodeAt(0)` is a UTF-16 code unit: the character itself below U+10000 |
| Hash.HashValue | hash.js:8-12 | the 31-multiplier hash lies in [0, 2^32) |
| Hash.JsStep | hash.js:9 | one step adds to `code - h` the 32-bit signed value of `(h << 5)` |
| Hash.JsAccumulator | hash.js:6-10 | a one-character string accumulates to its character code |
| Hash.ToHex | hash.js:12 | the printed form has at least one digit, ends in the digit of n mod 16, and has exactly one digit when n < 16 |
| Hash.GenerateMD5HashHex | hash.js:5-13 | the loop computes the exact JavaScript accumulator; the output is its value modulo 2^32, printed in lower-case hexadecimal, which equals the 31-multiplier hash |
| Hash.StepCongruent | hash.js:9 | one step `(h << 5) - h + code` is congruent to 31·h + code modulo 2^32 |
| Hash.AccumulatorCongruent | hash.js:8-12 | modulo 2^32 the JavaScript accumulator equals the 31-multiplier hash |
| Hash.AccumulatorBound | hash.js:9 | the accumulator moves by at most 2^31 + 2^16 per character |
| Hash.AccumulatorExact | hash.js:9 | for names up to four million characters the accumulator stays within ±2^53, where JavaScript numbers are exact |
| Hash.HashOfEmpty | hash.js:6-12 | the empty name gets the id "0" |
| Hash.HashRecurrence | hash.js:8-9 | appending a character applies h := (31·h + code) mod 2^32 once |
| Hash.HashOfSingleChar | hash.js:6-9 | a one-character name hashes to its character code |
| Hash.HexLength | hash.js:12 | a value below 16^k prints in 1 to k hexadecimal digits |
| Hash.HexDigits | hash.js:12 | every printed character is a lower-case hexadecimal digit |
| Hash.HexNoLeadingZero | hash.js:12 | the printed form starts with '0' only for the value 0 |
| Hash.HashFormat | hash.js:12 | an id has 1 to 8 lower-case hexadecimal digits, with a leading zero only in "0" |
| Hash.HexRoundTrip | hash.js:12 | reading the printed form as hexadecimal gives the value back |
| Hash.HashRoundTrip | hash.js:12 | reading an id as hexadecimal gives back the 32-bit hash of the name |
| Connect4.TrimStart | connect4.js:78 | the result is the suffix after a run of whitespace and does not start with whitespace |
| Connect4.TrimEnd | connect4.js:78 | the result is the prefix before a run of whitespace and does not end with whitespace |
| Connect4.Trim | connect4.js:78 | `trim()` is no longer than its argument and a non-empty result neither starts nor ends with whitespace |
| Connect4.TrimSlice | connect4.js:78 | `trim()` is a slice whose outside is all whitespace and whose ends are not whitespace |
| Connect4.BlankIffAllWhitespace | connect4.js:78-82 | a name trims to "" if and only if every character is whitespace |
| Connect4.HandleAddPlayer | connect4.js:75-106 | empty-name rejection first, then rejection of an exact duplicate name, both leaving the roster unchanged; otherwise one player with that name, colour, AI flag and hashed id is appended at the end; distinct names stay distinct |
| Connect4.AppendNewPlayer | connect4.js:95-104 | a new AI or human player, as the toggle says, is appended to the roster |
| Connect4.AppendKeepsDistinct | connect4.js:87-104 | appending a player whose name (or id) is not on the roster keeps names (or ids) distinct |
| Connect4.CollidingNames | connect4.js:87-93 | with a player named "Aa" on the roster, the name "BB" passes the name check, yet both names get the same id |
| Connect4.HandleAddPlayerDistinctIds | connect4.js:75-106 | the corrected handler also rejects a name whose id is already taken, so ids stay distinct as well as names |
| Connect4.SearchRoster | connect4.js:87-93 | the roster scan of the corrected handler answers true if and only if a player on the roster has that name or that id |
| Connect4.FirstDigitFrom | connect4.js:62-63 | the leftmost match of `/(\d+)/` starts at the first digit |
| Connect4.DigitsEnd | connect4.js:62-63 | the greedy `\d+` runs to the last digit of the run |
| Connect4.ParseColumn | connect4.js:62-63 | the column is the value of a non-empty run of digits that no digit precedes and no digit follows |
| Connect4.TopRowCellId | models.js:296 | the id is `top-row-cell-` followed by a non-empty run of decimal digits |
| Connect4.DecimalRoundTrip | connect4.js:63 | printing a number in decimal and reading it back with `Number` gives the number back |
| Connect4.ParseTopRowCellId | connect4.js:62-63 | the parse of the id `top-row-cell-x` is x |
| Connect4.HandlePieceDrop | connect4.js:57-72 | the drop goes into the parsed column, with `dropPiece`'s three outcomes: `Ended` and `Full` change nothing, and `Placed` puts the mover's piece on that column's landing row with the end check, the turn advance and the AI turns of `dropPiece`; an empty roster is admitted for a move that ends the game |
| Connect4.ClickTopRowCell | models.js:294-298 | a click on the drop cell over column x drops into column x: `Ended` and `Full` change nothing, and `Placed` puts the mover's piece on the landing row of column x with the end check, the turn advance and the AI turns of `dropPiece`; an empty roster is admitted for a move that ends the game |
| Connect4.HandleRemovePlayer | connect4.js:109-112 | the remove button's id, the player's id, goes to `removePlayer`; when only that player has the id, exactly that player leaves; the board, the log, both flags, the turn index and the current player are kept |
| Connect4.WithoutIdDropsIt | models.js:109-115 | removing by a player's id leaves that player off the roster |

## Left out

- DOM and presentation are not modelled. This covers `_createHtmlBoard`, `_placePieceInHtml`, the alert writes of `_endGame`, the current-player display, `startGame`'s page resets, the event listeners, `addPlayerToHtmlList` and `removePlayerFromHtmlList`. `console.log` output is also left out.
- `highlightPieces` is not defined in the modelled files; the win branch treats it as returning.
- `async`, `await`, `delay` and `setTimeout` are not modelled. The AI turn chain is a sequential loop without the thinking delay. `setTimeout(this._endGame(...), 10)` calls `_endGame` at once, which sets the flag at once; that is the behaviour modelled.
- `Math.random()` becomes a nondeterministic choice of an index in range. For the first player the range is [0, n); for the AI's column it is [0, |availCols|).
- Models.Game.StartGame: it clears `gameEnded` and sets `gameStarted` before the first turn chain. The source assigns both only after the awaited `_updateCurrPlayer(true)`, and the model does not follow that order, which has two consequences in the source:
  1. A restart after a finished game with an AI drawn first runs that AI with `gameEnded` still true. Every drop then returns `undefined`, so the AI splices out every column. Once its list is empty it keeps calling `dropPiece(undefined)`, which still returns `undefined`, so the retry never ends, `startGame` never resumes, and the restarted game accepts no drop.
  2. A game played by AIs alone has `gameEnded` cleared after it ends.
- Models.Game.DropPiece: an out-of-range column and a drop before `startGame` are preconditions. In the source both crash with a TypeError at `this.state[0][col]`.
- Models.Game.UpdateCurrPlayer: the empty roster is excluded by a precondition. In the source it crashes when the display reads the new player's name, and `startGame` with no players crashes the same way.
- Models.Game.DropPiece: with an empty roster, after `removePlayer` emptied it in the middle of a game, only a drop that ends the game is admitted (`MoveEnds`). The source accepts that drop, because `_checkForGameEnd` ends the game before the roster is read. A drop that goes on is excluded, since the source's `_updateCurrPlayer` then crashes. Connect4.HandlePieceDrop and Connect4.ClickTopRowCell pass the same precondition on.
- Models.Player.AiDropPiece: its preconditions exclude two things the source does not guard against.
  - An AI whose candidate list misses an open column. An AI added in the middle of a game has an empty list. In the source it calls `dropPiece(undefined)` and crashes.
  - A turn on a full board. This cannot happen, because a full top row ends the game first.
- Connect4.HandlePieceDrop: an id without a digit is a precondition. In the source `match` returns `null` and indexing it throws.
- Models.Game.DropPiece: it requires `AiReady()`, that every AI on the roster covers the open columns. An AI added in the middle of a game has an empty candidate list, so while one is on the roster no drop is admitted at all, even a winning move the source accepts.
- Connect4.HandlePieceDrop and Connect4.ClickTopRowCell: they pass `dropPiece`'s `AiReady()` precondition on, with the same gap.
- The `ai` field that `Player` keeps from its third constructor argument is not modelled. Nothing reads it, and `instanceof AiPlayer` (modelled as `isAi`) decides AI behaviour.
- JavaScript numbers are modelled as unbounded integers. `Hash.AccumulatorExact` shows they stay exact for names up to four million characters.
- Characters from `for…of` are Unicode scalar values. `charCodeAt(0)` of a character above U+FFFF is its high surrogate, as `Hash.CharCode` states.
- Concurrency is not modelled; the model has one path of control. This leaves out a pending AI turn racing a restart. It also leaves out a click during the AI's thinking delay: `handlePieceDrop` does not await, and `dropPiece` does not check whose turn it is, so that click places a piece in the name of the AI on move.
- The board is a sequence of rows of cell values that the class's `state` field holds, not a shared mutable matrix. No alias of a row or cell escapes the class, so in-place updates and replacement of the field agree.

## Findings

| source | as written | input that shows it | evidently intended | confidence | as-written member | corrected member |
|---|---|---|---|---|---|---|
| connect4.js:87-93 | new players are checked for a distinct name only, while the id, a 32-bit hash of the name, is what the board stores and what `removePlayer` matches | names "Aa" and "BB": both pass the check, and both get id "840" (0x840 = 2112) | each player has an id of their own, so pieces and removal identify one player | not executed | Connect4.CollidingNames | Connect4.HandleAddPlayerDistinctIds |
