# Minesweeper engine, score ledger and game history

This project models the core of a desktop Minesweeper game in Dafny. It
covers three parts.

- **The board engine** (`game.dfy`, module `Minesweeper`). `Game` is a class
  whose fields are updated in place:
  - three parallel `height × width` grids: `board` holds -1 on a mine and
    otherwise the number of neighbouring mines; `revealed` and `flagged`;
  - the flags `gameOver` and `firstMove`, and the set `minePositions`.
  
  The first reveal places the mines lazily, away from the clicked cell and
  its neighbours. A reveal floods outward from a zero cell. Revealing an
  already-revealed number "chords" its neighbours. Flags toggle, and the
  win check looks only at non-mine cells. Each save either archives a
  finished game or checkpoints one in progress. The saved files are a
  `Store` object: one optional checkpoint (`saved_game.json`) and an archive
  of finished games keyed by save timestamp (`Saves/game_<timestamp>.json`).
- **The score ledger** (`scoreboard.dfy`, module `Scoreboard`). For each of
  "Easy", "Medium" and "Hard" it keeps the last five winners' names.
- **The game-history list** (`history.dfy`, module `History`). Every archived
  `.json` game becomes an entry with its won/lost status and its difficulty.
  The entries are sorted newest first by timestamp string.

`grid.dfy` (module `Grid`) holds positions, neighbourhoods and rectangular
grids. `option.dfy` holds the `Option` type.

**How the recursive reveal is structured.** The engine's `reveal` calls
itself in two places: on the neighbours of a zero cell and on the
neighbours chosen by a chord. Both call sites only pass cells that are
unrevealed, and the chord only passes unflagged ones. The model splits
`reveal` into six methods:

- `Reveal`: first-move mine placement, then dispatch;
- `RevealAdjacentCells` and its loop `Chord`: the chord;
- `Uncover`: revealing one unrevealed, unflagged cell, then the loss
  check, the flood and the win check;
- `Cascade`: the flood loop;
- `UncoverNeighbour`: one step of either loop, which uncovers the next
  neighbour unless it is revealed or flagged.

`UncoverNeighbour` calls `Uncover` only on unrevealed, unflagged cells.
After the first move, `reveal` on such a cell does exactly what `Uncover`
does, and `reveal` on a flagged cell returns at once. So the order and
effects of the calls are those of the source. Termination is measured by
the number of unrevealed cells.

**What a reveal reveals.** Two predicates pin down the flood in both
directions:

- `FloodClosed`: every zero cell revealed by the call has every touching
  cell revealed or flagged. The flood went all the way.
- `Spread`: every cell revealed by the call is a "direct" cell or touches a
  zero cell revealed by the same call. The flood went no further. The
  direct cell is the clicked cell for an ordinary reveal, and its
  neighbours for a chord.

A chord that hits a mine is described by `StoppedAt`:

- the mine is the k-th neighbour, and it is the only mine revealed;
- every earlier neighbour is revealed or flagged;
- later neighbours were revealed only by the floods of earlier ones.

**Saves and the clock.** `save_game` stamps each save with the current time.
In the model the time is a parameter `now` of `Reveal`, so all saves made
during one reveal share one timestamp. A later save under the same
timestamp replaces the earlier archive file. The lemma `SavedThen` shows
that the saves made by the nested reveal frames then add up to one archive
entry holding the final state.

## Model

| member | source | states |
|---|---|---|
| Grid.Adjacent | game.py:142-152 | At most 8 neighbours are returned. |
| Grid.AdjacentSpec | game.py:142-152 | The neighbour list has no duplicates. It contains p exactly when p is on the board, is not (x, y), and differs from (x, y) by at most 1 in each coordinate. |
| Grid.AdjacentSymmetric | game.py:138-140 | For two cells on the board, p is a neighbour of q exactly when q is a neighbour of p. The mine counts rely on this. |
| Grid.InBoundsOnlySpec | game.py:149-151 | The bounds filter keeps exactly the listed positions that lie on the board, and it introduces no duplicates. |
| Grid.CountInIsCardinality | game.py:25-29 | Counting the listed members of a set, one by one, gives the size of their set. |
| Grid.CountInAdd | game.py:136-140 | Adding one mine raises a cell's count by one exactly when the mine is a new neighbour of that cell. |
| Grid.Fill | game.py:12-14 | Fill builds a `height × width` grid holding the given value in every cell. |
| Grid.Update | game.py:59 | Update sets exactly one cell and leaves every other cell unchanged. |
| Grid.CountFalseGrows | game.py:59-71 | Revealing cells never increases the number of unrevealed cells, and revealing a new cell decreases it. This is the termination measure of the recursive reveal. |
| Minesweeper.SeededUnique | game.py:136-140 | Two boards that are both correctly seeded from the same mine set are equal. So the order in which the mines were counted does not matter. |
| Minesweeper.WonStaysWon | game.py:159-165 | Once every safe cell is revealed, revealing more cells keeps every safe cell revealed. |
| Minesweeper.SavedThen | game.py:74-75 | A save by an inner reveal frame followed by a save by an outer frame, under the same timestamp, leaves the same store as the outer save alone. |
| Minesweeper.MineRevealedThen | game.py:40-41 | Revealing in two steps uncovers a new mine exactly when one of the two steps does. |
| Minesweeper.RevealOne | game.py:59-65 | Revealing one unrevealed cell uncovers a mine exactly when that cell is a mine. |
| Minesweeper.ZeroNeighboursSafe | game.py:68-71 | On a seeded board, no neighbour of a zero cell is a mine. So the flood never loses the game. |
| Minesweeper.CoveredNeighbours | game.py:69-71 | Once every listed neighbour is revealed or flagged, every touching cell on the board is revealed or flagged. |
| Grid.ElementsSize | game.py:128 | A list of cells holds at most as many distinct cells as entries. |
| Grid.Row | game.py:129 | A row of a width-w board has exactly w cells. |
| Grid.Cells | game.py:129-130 | A w × h board has exactly w × h cells, and they are exactly the in-bounds positions. |
| Minesweeper.NeighboursCoveredGrows | game.py:69-71 | A cell whose touching cells are all revealed or flagged stays so as more cells are revealed. |
| Minesweeper.FloodThen | game.py:68-71 | Two complete floods in a row make one complete flood. |
| Minesweeper.SpreadThen | game.py:68-71 | If each of two reveals in a row stays within the floods of its own direct cells, the pair stays within the floods of both sets of direct cells. |
| Minesweeper.SpreadWider | game.py:38-41 | Allowing more direct cells keeps a reveal within the floods of its direct cells. |
| Minesweeper.FloodFromZero | game.py:59-71 | Revealing a zero cell and then flooding its neighbours completely, and no further than their own floods, is a complete flood that reveals directly only that zero cell. |
| Minesweeper.FloodStep | game.py:38-41 | One step of the neighbour loop carries the loop's facts to the next neighbour. Everything revealed so far stays within the floods of the neighbours handled, every flood is complete, those neighbours are revealed or flagged, and a mine was revealed exactly when one was revealed before or in this step. |
| Minesweeper.ChordStops | game.py:38-41 | A chord that has revealed no mine yet and reveals a mine at its i-th neighbour has stopped at i, in the sense of `StoppedAt`. |
| Minesweeper.SubsetOfSize | game.py:133 | A subset of any size up to the set's own size exists. This is what the random sample needs. |
| Minesweeper.CountingEnds | game.py:136-140 | After one more mine is counted in, the board is exactly the board seeded from the enlarged mine set. |
| Minesweeper.Game.constructor | game.py:8-17 | A new game has an all-zero board, no cell revealed or flagged, the game not over, the first move pending, no mines, and the state invariant. |
| Minesweeper.Game.CountAdjacentFlags | game.py:23-29 | The result is the number of distinct flagged neighbours of (x, y), and it is at most 8. |
| Minesweeper.Game.SafeZone | game.py:128 | The safe zone has at most nine cells. |
| Minesweeper.Game.SafeZoneMembers | game.py:128 | The safe zone holds exactly the clicked cell and the cells on the board that touch it. |
| Minesweeper.Game.Candidates | game.py:128-130 | The mine candidates are exactly the cells on the board outside the first click and its neighbours. |
| Minesweeper.Game.CandidatesSize | game.py:128-133 | For a click on the board there are width × height − (size of the safe zone) candidates, and at least width × height − 9. |
| Minesweeper.Game.MenuGamesFit | game.py:133 | In each game the menu offers (9×9 with 10 mines, 16×16 with 40, 30×16 with 99), any first click leaves at least as many candidates as mines. So the random sample always succeeds there. |
| Minesweeper.Game.Snapshot | game.py:81-92 | The saved record of a game that satisfies the state invariant satisfies the invariant too. |
| Minesweeper.Game.PlaceMines | game.py:126-140 | Requires as many candidate cells as mines, as the random sample does. Places exactly `mines` mines, all outside the safe zone. Afterwards the board is -1 exactly on the mines, and every other cell holds its number of mine neighbours. |
| Minesweeper.Game.CountMines | game.py:135-140 | Starting from the all-zero board and mines all on the board, the board ends up -1 exactly on the mines and every other cell holds its number of mine neighbours. |
| Minesweeper.Game.AddMine | game.py:136-140 | Marking one new mine and bumping each of its non-mine neighbours turns a board seeded from `done` into one seeded from `done` plus that mine. |
| Minesweeper.Game.CheckWin | game.py:159-165 | The result is true exactly when every non-mine cell is revealed; flags play no part. |
| Minesweeper.Game.ToggleFlag | game.py:154-157 | An unrevealed cell's flag is flipped, and a revealed cell's flag is left alone. Nothing else changes. No cell is ever both flagged and revealed. |
| Minesweeper.Game.Reveal | game.py:44-77 | Requires, on the first move, at most width × height − (size of the safe zone) mines, as the random sample does. The first reveal places the mines outside the safe zone and succeeds. Later reveals never change the board or the mines. Revealed cells only go from false to true. An unrevealed flagged cell is left alone and the result is true. On an unflagged hidden cell: a non-zero cell is the only cell revealed, and a zero leaves every touching cell revealed or flagged. On a revealed cell that does not chord, nothing changes and the result is true. A chord that fails has stopped at its first mine. Every cell revealed is the clicked cell (its neighbours, for a chord) or touches a zero cell revealed by the same call. Every zero cell revealed has all its touching cells revealed or flagged. The result is false exactly when a mine was newly revealed, and then the game is over. If the reveal changed something and lost or won the game, the final state is archived and the checkpoint is removed; otherwise the store is unchanged. There is no check that the game is already over. |
| Minesweeper.Game.Uncover | game.py:58-77 | The cell is revealed. The result is false exactly when it is a mine, which ends and archives the game. A non-zero cell is the only cell revealed. A zero leaves every touching cell revealed or flagged. Every cell revealed is the cell itself or touches a zero cell revealed by the call, and every zero cell revealed has all its touching cells revealed or flagged. A win archives the final state. |
| Minesweeper.Game.Cascade | game.py:67-71 | Every touching cell ends up revealed or flagged. Every cell revealed is a neighbour or touches a zero cell revealed by the flood, and every zero cell revealed has all its touching cells revealed or flagged. No mine is revealed, and the game-over flag is unchanged. A win reached on the way is archived. |
| Minesweeper.Game.UncoverNeighbour | game.py:38-41 | The i-th neighbour is left alone when revealed or flagged; otherwise it is uncovered. The result is false exactly when it was uncovered and is a mine; the sweep has then stopped at i. The sweep's revealed cells stay within the floods of the neighbours handled so far, its floods are complete, and its saves carry over. |
| Minesweeper.Game.RevealAdjacentCells | game.py:31-42 | Unless the cell is revealed, positive, and has exactly that many flagged neighbours, nothing changes and the result is true. When the chord goes through, the result is false exactly when a mine was revealed, and it has then stopped at its first mine. On success every touching cell is revealed or flagged. Every cell revealed is a neighbour or touches a zero cell revealed by the chord, and every flood is complete. |
| Minesweeper.Game.Chord | game.py:37-42 | The result is false exactly when a mine was revealed, and then the game is over. In that case the chord stopped at that mine: it is the only mine revealed, every earlier neighbour is revealed or flagged, and later neighbours were revealed only by earlier floods. On success every touching cell is revealed or flagged. Every cell revealed is a neighbour or touches a zero cell revealed by the chord, and every flood is complete. |
| Minesweeper.Game.SaveGame | game.py:79-107 | A game that is over or won is archived under the timestamp and the checkpoint is removed. Any other game replaces the checkpoint, and the archive is unchanged. |
| Minesweeper.Game.SaveThenLoad | game.py:79-124 | Saving a game that is neither over nor won and then loading the checkpoint gives a new game equal to it in every field: dimensions, mine count, the three grids, both flags and the mine set. |
| Minesweeper.Game.LoadGame | game.py:109-124 | With no checkpoint the result is null. Otherwise the result is a new game whose dimensions, mine count, grids, flags and mine set are exactly those saved. |
| Scoreboard.DefaultScores | scoreboard.py:13 | The default ledger maps exactly "Easy", "Medium" and "Hard", each to an empty list. |
| Scoreboard.LoadScores | scoreboard.py:9-13 | A stored ledger is returned as it is. With no file, the result is the default ledger. |
| Scoreboard.LastKept | scoreboard.py:20 | The result is the last min(length, 5) elements. |
| Scoreboard.WithScore | scoreboard.py:16-20 | Requires the difficulty to be a key of the ledger. The keys are unchanged. The difficulty's list becomes the last 5 of the old list followed by the name. Every other difficulty is unchanged. |
| Scoreboard.WithScoreShape | scoreboard.py:19-20 | The updated list is nonempty, at most 5 long, and ends in the name. A list shorter than 5 simply gains the name; a full list loses exactly its oldest name. |
| Scoreboard.WithScores | scoreboard.py:16-20 | Recording several wins one after another keeps the ledger's keys. |
| Scoreboard.LastKeptSuffix | scoreboard.py:20 | The last 5 of a list are the last 5 of any of its suffixes that has at least 5 elements. |
| Scoreboard.LastKeptConcat | scoreboard.py:19-20 | Truncating to 5 before appending a whole list does not change the last 5. |
| Scoreboard.LastKeptFirst | scoreboard.py:19-20 | Recording the first of several names and then the rest keeps the same last 5 as recording them all at once. |
| Scoreboard.WithScoresKeepsLast | scoreboard.py:16-20 | Starting from a list of at most 5 names, after any sequence of wins at one difficulty, its list is the last 5 of the old list followed by the winners. |
| Scoreboard.WithScoresKeepsOthers | scoreboard.py:18-23 | Any sequence of wins at one difficulty leaves every other difficulty's list unchanged. |
| Scoreboard.SaveScore | scoreboard.py:16-23 | The file afterwards holds the loaded ledger updated with the name at the difficulty. A difficulty missing from the ledger is excluded by the precondition. |
| History.GetDifficulty | history.py:79-86 | The result is "Easy" exactly for (9, 9, 10), "Medium" exactly for (16, 16, 40), "Hard" exactly for (30, 16, 99), and "Custom" for every other triple, including (16, 30, 99). |
| History.DifficultyHasLedger | history.py:79-86 | A difficulty has a scoreboard list exactly when it is not "Custom". |
| History.ScanWon | history.py:59-66 | The result is true exactly when no scanned cell is a revealed mine. The early exit from a row does not change the result. |
| History.ScanCoversBoard | history.py:60-66 | For a well-formed record, the scan covers every cell. So the game counts as lost exactly when some mine cell is revealed. |
| History.Collected | history.py:53-76 | At most one entry is collected per listed file name. |
| History.CollectedSpec | history.py:56-76 | The entries are exactly the summaries of the listed ".json" files. Each entry's timestamp, difficulty and won status come from that entry's own record. |
| History.LexLeTotal | history.py:77 | Any two timestamps compare, in Python's string order. |
| History.LexLeTransitive | history.py:77 | Python's string order is transitive. |
| History.InsertDesc | history.py:77 | Inserting an entry adds exactly that entry to the list's multiset. |
| History.InsertDescBelow | history.py:77 | If an entry and every entry of a list are no newer than a timestamp, so is every entry after insertion. |
| History.InsertDescSorted | history.py:77 | Inserting into a newest-first list keeps it newest first. |
| History.SortDesc | history.py:77 | The sorted list is a permutation of its input. |
| History.SortDescSorted | history.py:77 | The sorted list is ordered by non-increasing timestamp. |
| History.LoadGameHistory | history.py:51-77 | With no archive directory the list is empty. Otherwise the list is the newest-first sort of the collected entries: a permutation of them, ordered by non-increasing timestamp. |

## Left out

- The tkinter windows, menus, scoreboard and history widgets, and the game viewer are presentation only.
- File I/O and JSON are left out:
  - The checkpoint and the archive are fields of `Store`.
  - The scores file is the `stored` field of `ScoreFile`.
  - The archive directory listing is an `Option<seq<string>>` parameter, in any order, `None` when the directory is missing.
  - The archived files' contents are a map from file name to record.
- Creating the `Saves` directory in the constructor is a file-system side effect and is not modelled.
- `datetime.now()` is a parameter `now`. One reveal's saves share one timestamp, whereas the source reads the clock at each save. In the source, a win reached inside a cascade is saved by the inner frame and again by each outer frame. When those saves fall in different seconds, the archive holds several files for one game, and the history list shows that win more than once. The model always collapses them into one archive entry.
- The display formatting of timestamps (`strptime`/`strftime`) is left out.
- `random.sample` is an arbitrary choice of `mines` candidate cells. Which cells are chosen is not modelled.
- Minesweeper.Game.PlaceMines: requires at least as many candidate cells as mines. In the source, too many mines make `random.sample` raise `ValueError`; that error path is not modelled.
- Minesweeper.Game.Reveal: `Spread` asks each revealed cell to be a direct cell or to touch a zero cell revealed by the same call. It does not ask that chain of zero cells to lead back to a direct cell, so a second, disconnected zero region revealed in the same call would also satisfy it; the engine never reveals one.
- Minesweeper.Game.Uncover: the same gap in `Spread` as for `Reveal`: the chain of revealed zero cells is not required to lead back to a direct cell, so a disconnected zero region is not excluded.
- Minesweeper.Game.Cascade: the same gap in `Spread` as for `Reveal`: the chain of revealed zero cells is not required to lead back to a direct cell, so a disconnected zero region is not excluded.
- Minesweeper.Game.UncoverNeighbour: the same gap in `Spread` as for `Reveal`: the chain of revealed zero cells is not required to lead back to a direct cell, so a disconnected zero region is not excluded.
- Minesweeper.Game.RevealAdjacentCells: the same gap in `Spread` as for `Reveal`: the chain of revealed zero cells is not required to lead back to a direct cell, so a disconnected zero region is not excluded.
- Minesweeper.Game.Chord: the same gap in `Spread` as for `Reveal`: the chain of revealed zero cells is not required to lead back to a direct cell, so a disconnected zero region is not excluded.
- Minesweeper.Game.LoadGame: requires `store.Valid()`, that is, a checkpoint that the engine itself wrote. The source accepts any file that has the keys, whatever their values.
- Minesweeper.Game.Reveal: bounds are a precondition. In the source, a negative index would wrap around in Python. The first move also requires room for the mines outside the safe zone; in the source, too many mines raise `ValueError` from `random.sample`, which is not modelled.
- Minesweeper.Game.ToggleFlag: bounds are a precondition. In the source, a negative index would wrap around in Python.
- Scoreboard.SaveScore: a difficulty that is not a key of the ledger (a "Custom" game) raises an error in the source. Here it is excluded by the precondition.
- History.ScanWon: the records must be rectangular in the scanned area. The source only reads a row's `revealed` entry where the board holds a mine, before the first revealed mine of that row.
- History.SortDesc: that entries with equal timestamps keep their listing order (the stability of Python's sort) holds by construction but is not stated as a lemma.
- A record read from a file is assumed to have every key. A missing key is a `KeyError` in the source and is not modelled.
- The copies of the difficulty classifier in the game window and the history viewer are identical to `History.GetDifficulty` and are not modelled again.

