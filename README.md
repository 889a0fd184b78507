# Towers of Hanoi session engine

This project models the session engine of the Towers of Hanoi desktop game in
Dafny. The engine is the `HanoiTowersGame` window class with its Qt drawing,
sound and dialogs stripped away. The repository has two variants of it:

- `game.py`, the complete one (module `Game`). It tracks the levels completed
  in this run and enables "next level" only on such a level. Its best times are
  stored as `{"time": t}` under the level as a decimal string, and loading
  rewrites old bare-integer entries to that form (module `Records`).
- `main_game.py`, an older one (module `MainGame`). "Next level" is enabled on
  every level but the last. Best times are bare integers under the integer
  level, and a win at the last level records nothing.

Both classes share the board logic in module `Board`:

- three pegs of disk sizes, with the top disk at the end;
- the thirds of the play surface that each peg owns (`get_peg_index`);
- the drop rule (`is_valid_move`);
- the pop-and-append of an accepted release;
- the board invariant: every peg strictly decreases from bottom to top, and
  together the pegs hold exactly the disks 1..`num_disks`.

Each event handler is a method of the class: `NewGame`, `MousePress`,
`MouseRelease`, `Tick`, `NextLevel`, `PreviousLevel`, `ResetGame` and
`UpdateRecord`. The pure queries are functions: `CheckWin`, the button
predicates, `PegAt` and `Accepts`. The window width, the mouse button and the
mouse x coordinate are parameters of the handlers. `ticking` records whether
the one-second timer is running.

Two behaviours of the code are modelled as written:

- **A release that is not accepted keeps the selection.** A release outside
  every region, or onto a peg that refuses the disk, changes nothing, and the
  disk stays selected.
- **A new game does not clear the selection.** `new_game` rebuilds the board
  but leaves `selected_disk` and `selected_peg` alone. The board invariant is
  therefore not part of `Valid()`. `MouseRelease` preserves it if the
  selection is still the top disk of its peg (`SelectionCurrent()`), and
  `Board.StaleDropAlwaysBreaks` shows that an accepted move with any other
  selected disk breaks it.
  `Board.StaleDropBreaksBoard` and `Game.StaleSelectionDuplicatesDisk` show the
  corruption is reachable from a fresh window through the handlers alone:
  1. move disk 1 to peg 2;
  2. try to drop disk 2 on it, which is refused, so disk 2 stays selected;
  3. start a new game;
  4. press and release on the empty middle peg.

  The last release pops disk 1 and pushes disk 2 a second time.

With a stale selection the selected peg can also be empty. There
`list.pop()` raises `IndexError`, after the drop rule has already accepted
the target, and nothing in the program catches it. The model reports this
as the outcome `PopFromEmpty` and leaves the state unchanged.
`MouseRelease` proves that this outcome never happens while the selection
is current. `Game.StaleSelectionPopsEmptyPeg` reaches it from a fresh
window:
1. move disk 1 to peg 2 and disk 2 to peg 1;
2. try to drop disk 2 on disk 1, which is refused, so disk 2 stays selected on peg 1;
3. start a new game;
4. press and release on peg 2.

## Model

| member | source | states |
|---|---|---|
| Board.StackTower | game.py:255-257 | the append loop of `new_game` builds exactly the tower [n, n-1, ..., 1] |
| Board.TowerShape | game.py:255-257 | the tower of n disks has n entries, and entry k is disk n - k, so it strictly decreases bottom to top |
| Board.InitialWellFormed | game.py:254-257 | a fresh board (the tower on peg 0, pegs 1 and 2 empty) satisfies the board invariant |
| Board.PegAt | game.py:494-499 | peg i is returned exactly when x lies strictly inside the i-th third `(i*(w//3), (i+1)*(w//3))`, and every result is 0, 1 or 2 |
| Board.PegIndex | game.py:494-499 | the bounded search loop of `get_peg_index` returns exactly the peg of `PegAt` |
| Board.RegionsDisjoint | game.py:496-498 | no x lies inside two peg regions, so the first match of the search is the only one |
| Board.EdgesMissed | game.py:494-499 | x at or left of 0, at or beyond `3*(w//3)`, or on a dividing line maps to no peg |
| Board.Accepts | game.py:501-504 | on a decreasing peg, a drop is accepted exactly when the peg stays strictly decreasing after the push; a disk is never accepted back on the peg it tops |
| Board.PushKeepsOrder | game.py:501-504 | on a decreasing peg, "empty, or the disk is smaller than the top" is equivalent to the peg staying decreasing after the push |
| Board.PopKeepsOrder | game.py:378 | popping the top disk keeps a peg strictly decreasing |
| Board.Drop | game.py:378-379 | an accepted release changes only the source and target pegs: the source loses its top, the target gains the selected disk, and the disks on the board change accordingly |
| Board.ReleaseOutcome | game.py:374-379 | a release is a move exactly when it is a left release with a disk selected, inside a peg region, onto a peg that accepts the disk, from a non-empty selected peg; a current selection is never moved onto its own peg |
| Board.MovePreservesBoard | game.py:374-383 | when the selected disk is the top of its peg, an accepted drop never targets the source peg and keeps the board invariant |
| Board.StaleDropAlwaysBreaks | game.py:378-379 | on a well-formed board, an accepted drop whose selected disk is not the top of the popped peg always breaks the invariant |
| Board.StaleDropBreaksBoard | game.py:254-263 | a concrete stale drop: disk 2 selected on [3, 2, 1] and dropped on an empty peg gives [[3, 2], [2], []], which breaks the invariant |
| Board.StaleDropResult | game.py:378-379 | the pop-and-append on [[3, 2, 1], [], []] with disk 2 onto peg 1 gives [[3, 2], [2], []] |
| Board.DuplicateIllFormed | game.py:254-257 | the board [[3, 2], [2], []] does not hold the disks 1..3 exactly once |
| Board.DecreasingGap | game.py:506-507 | on a strictly decreasing peg, the disk at position i exceeds the one at j by at least j - i |
| Board.RangeSize | game.py:506-507 | the set of disks 1..n counts n disks |
| Board.SolvedIffFull | game.py:506-507 | on a well-formed board, peg 2 holding `num_disks` disks is the same as the whole tower standing on peg 2, in order, with pegs 0 and 1 empty |
| Records.Str | game.py:84 | `str(level)` is a non-empty string of decimal digits |
| Records.StrInjective | game.py:84-86 | distinct levels are stored under distinct keys |
| Records.LoadRecords | game.py:72-75 | the loading loop keeps every key, rewrites each bare integer v to {"time": v}, and keeps object values; afterwards every entry is an object, and a bare N reads as best time N |
| Records.Improve | game.py:83-86 | after `update_record` the best time of the level is the minimum of the old one (absent meaning infinity) and the elapsed time; no other key changes, and every entry stays an object |
| Records.UpdateLeavesOtherLevels | game.py:83-86 | an update for one level never changes the best time of a different level |
| Records.RecordIsMinimum | game.py:83-86 | after any run of updates, the best time is at most every time passed and at most the earlier record; it is one of them; it is absent only when there was no record and no update |
| Game.HanoiTowersGame.constructor | game.py:14-31 | the window starts at level 1 with 3 disks, the tower on peg 0, no selection, zero counters, the timer running and no completed levels; records are the loaded file (empty when it is missing or not valid JSON) |
| Game.HanoiTowersGame.NewGame | game.py:254-263 | peg 0 holds numDisks..1, pegs 1 and 2 are empty, both counters are 0, the timer runs, the board invariant holds, and level, selection, completed levels and records are unchanged |
| Game.HanoiTowersGame.CheckWin | game.py:506-507 | on a sound board, the level is won exactly when the whole tower stands on peg 2 |
| Game.HanoiTowersGame.Tick | game.py:288-289 | each timer tick adds exactly one second |
| Game.HanoiTowersGame.MousePress | game.py:360-367 | a left press inside a peg region on a non-empty peg selects that peg's top disk; a press elsewhere or on an empty peg changes nothing; a current selection stays current |
| Game.HanoiTowersGame.UpdateRecord | game.py:83-88 | the records become the minimum update of the level's string key with the elapsed time |
| Game.HanoiTowersGame.Shift | game.py:378-382 | the pegs become the pop-and-append result, the move count rises by exactly 1 and the selection is cleared |
| Game.HanoiTowersGame.Win | game.py:386-390 | a win stops the timer, adds the level to the completed levels and updates its record |
| Game.HanoiTowersGame.Move | game.py:378-390 | an accepted drop shifts the disk; the result is a win exactly when `CheckWin` holds afterwards; only a win touches the timer, completed levels and records; a win enables "next level" exactly below the last level |
| Game.HanoiTowersGame.MouseRelease | game.py:374-394 | the outcome is classified by button, selection, region, drop rule and pop; anything but a move changes no state and keeps the selection; a move shifts the disk, counts it, clears the selection and handles a win; a win enables "next level" exactly below the last level; a move from a current selection keeps the board invariant; an empty selected peg implies a stale selection |
| Game.HanoiTowersGame.NextLevel | game.py:265-274 | below the last level, level and disk count rise together and a new game starts; at the last level nothing changes and "all levels passed" is reported; with "next level" enabled it always advances |
| Game.HanoiTowersGame.PreviousLevel | game.py:276-282 | above level 1, level and disk count fall together and a new game starts; at level 1 nothing changes; the level changes exactly when "previous level" was enabled |
| Game.HanoiTowersGame.ResetGame | game.py:485-492 | back to level 1 with 3 disks, a new game and no completed levels, so "next level" is disabled |
| Game.HanoiTowersGame.NextLevelEnabled | game.py:284-285 | "next level" is enabled exactly when this level is completed and is below the last; `Move`, `MouseRelease`, `NextLevel` and `ResetGame` relate it to a win, an advance and a reset |
| Game.HanoiTowersGame.PreviousLevelEnabled | game.py:286 | "previous level" is enabled exactly above level 1, which `PreviousLevel` shows is exactly when it changes the level |
| Game.MoveDiskOne | game.py:374-383 | on a fresh 3-disk board, pressing on peg 0 and releasing on peg 2 moves disk 1 and clears the selection |
| Game.RejectedDropKeepsSelection | game.py:374-377 | a refused drop of disk 2 on disk 1 leaves the board as it was and keeps disk 2 selected |
| Game.DropStaleSelection | game.py:374-383 | with disk 2 of a fresh board still selected, a release on the empty middle peg pops disk 1 and pushes disk 2 |
| Game.NewGameKeepsSelection | game.py:254-263 | after a move and a refused drop, a new game restores the board but keeps disk 2 selected |
| Game.StaleSelectionDuplicatesDisk | game.py:254-263 | the handlers alone reach a board that breaks the invariant |
| Game.FirstMoveResult | game.py:378-379 | moving disk 1 from [[3, 2, 1], [], []] to peg 2 gives [[3, 2], [], [1]] |
| Game.SecondMoveResult | game.py:378-379 | moving disk 2 from [[3, 2], [], [1]] to peg 1 gives [[3], [2], [1]] |
| Game.MoveDiskTwo | game.py:374-383 | pressing on peg 0 and releasing on the empty peg 1 moves disk 2 and clears the selection |
| Game.RejectedDropFromMiddle | game.py:374-377 | a refused drop of disk 2 from peg 1 onto disk 1 keeps the board and keeps disk 2 of peg 1 selected |
| Game.NewGameKeepsMiddleSelection | game.py:254-263 | after two moves and a refused drop, a new game restores the board but keeps disk 2 of the now empty peg 1 selected |
| Game.ReleaseOnEmptySource | game.py:374-379 | with that stale selection, a press and release on the empty peg 2 is accepted by the drop rule and then pops the empty peg 1 |
| Game.StaleSelectionPopsEmptyPeg | game.py:378 | the handlers alone reach the `IndexError` of popping an empty peg |
| MainGame.Improve | main_game.py:379-383 | after `update_record` the time under the integer level key is the minimum of the old one (absent meaning infinity) and the elapsed time; no other key changes |
| MainGame.Loaded | main_game.py:405-410 | the loaded dictionary has exactly the file's keys, as strings, with their values |
| MainGame.HanoiTowersGame.constructor | main_game.py:71-81 | the window starts at level 1 with 3 disks, the tower on peg 0, no selection, zero counters and the timer running; records are the loaded file, with string keys |
| MainGame.HanoiTowersGame.NewGame | main_game.py:201-211 | peg 0 holds numDisks..1, pegs 1 and 2 are empty, both counters are 0, the timer runs, the board invariant holds, and level, selection and records are unchanged |
| MainGame.HanoiTowersGame.CheckWin | main_game.py:397-403 | on a sound board, the level is won exactly when the whole tower stands on peg 2 |
| MainGame.HanoiTowersGame.Tick | main_game.py:239-241 | each timer tick adds exactly one second |
| MainGame.HanoiTowersGame.MousePress | main_game.py:313-320 | a left press inside a peg region on a non-empty peg selects that peg's top disk; anything else changes nothing; a current selection stays current |
| MainGame.HanoiTowersGame.UpdateRecord | main_game.py:379-383 | the records become the minimum update under the integer level key |
| MainGame.HanoiTowersGame.Shift | main_game.py:330-334 | the pegs become the pop-and-append result, the move count rises by exactly 1 and the selection is cleared |
| MainGame.HanoiTowersGame.Win | main_game.py:343-349 | a win stops the timer; the record is updated below the last level and left alone at the last level |
| MainGame.HanoiTowersGame.Move | main_game.py:330-349 | an accepted drop shifts the disk; the result is a win exactly when `CheckWin` holds afterwards; only a win touches the timer and records |
| MainGame.HanoiTowersGame.MouseRelease | main_game.py:327-349 | the same classification and state change as the complete variant; on a win, the record is updated only below the last level; a move from a current selection keeps the board invariant |
| MainGame.HanoiTowersGame.NextLevel | main_game.py:213-222 | below the last level, level and disk count rise together and a new game starts; at the last level nothing changes; it advances exactly when "next level" was enabled |
| MainGame.HanoiTowersGame.PreviousLevel | main_game.py:224-231 | above level 1, level and disk count fall together and a new game starts; at level 1 nothing changes |
| MainGame.HanoiTowersGame.ResetGame | main_game.py:372-377 | back to level 1 with 3 disks and a new game |
| MainGame.HanoiTowersGame.NextLevelEnabled | main_game.py:233-237 | "next level" is enabled exactly below the last level, with no completion needed; `NextLevel` shows that is exactly when it advances |
| MainGame.LoadedRecordsIgnored | main_game.py:380-382 | loaded records sit under string keys that the integer lookup never finds, so the first record update of a level in a session (a win below the last level) always stores its time |

## Left out

- Drawing, layout, fonts, gradients, style sheets, `resizeEvent`, the drag-follow `mouse_pos` and `mouseMoveEvent`: these only render state.
- All dialogs (exit, win message, winner, rules, records display), `MainWindow` and `main.py`: these only show and hide windows. The winner dialog's "new game" button is modelled as `ResetGame`.
- Sound, including the playback that `check_win` in main_game.py starts. `CheckWin` is the truth value only. main_game.py calls `check_win` twice after a move; nothing changes between the calls, so one call is modelled.
- Timer scheduling: `ticking` records whether the timer runs. `Tick` does not check it, since the timer delivers ticks only while it runs.
- Display text: `update_timer_display` and the minutes/seconds split of times.
- File and JSON I/O. In game.py, `update_record` also writes the file after each improvement. In main_game.py the file is written only in `closeEvent`. Both constructors take the parsed file content as a parameter instead.
- game.py's exception handling in `load_records`: a missing or malformed file is the parameter `None`.
- main_game.py's `load_records` lets a `JSONDecodeError` escape. That crash is not modelled: the constructor takes a parsed map.
- JSON values other than integers and objects of integers, such as floats, strings or a top-level array, are not modelled in game.py.
- MainGame.HanoiTowersGame.constructor: main_game.py keeps whatever `json.load` returns, including `{"time": t}` objects that game.py writes to the same file. The model takes integer values only. No loaded value is ever read, because the integer lookups never find a loaded string key (`LoadedRecordsIgnored`), so nothing observable is lost.
- `PopFromEmpty` stands for the uncaught `IndexError` that escapes `mouseReleaseEvent` when the selected peg is empty. The model leaves the state unchanged there; what the program does after that exception, and any events that follow it, is not modelled as program behaviour.
- Records.LoadRecords: the loop rewrites the parsed dictionary in place during iteration. The model builds the new map by reassigning a map variable, so aliasing of the parsed dictionary is not modelled.
- `next_level` in game.py is reachable only through the "next level" button, whose gating is `NextLevelEnabled`. `NextLevel` itself does not check the gating, and neither does the source method.
