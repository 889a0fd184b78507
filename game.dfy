/**
 * The complete game window (`HanoiTowersGame` of game.py) without its
 * drawing, sound and dialogs: the board, the selection, the move and second
 * counters, the level, the levels completed in this run and the best times.
 */
module Game {
  import opened Wrappers
  import opened Board
  import opened Records

  const MaxLevels: int := 5

  class HanoiTowersGame {
    var numDisks: nat
    var level: int
    var pegs: seq<Peg>
    var selection: Option<Selection>
    var moveCount: nat
    var timeElapsed: nat
    /** Whether the one-second timer is running (started by a new game, stopped by a win). */
    var ticking: bool
    var completedLevels: set<int>
    var records: map<string, Value>

    /** What every handler keeps: three pegs, the level in range with two more disks than its number. */
    ghost predicate Valid()
      reads this
    {
      && |pegs| == 3
      && 1 <= level <= MaxLevels
      && numDisks == level + 2
      && (selection.Some? ==> selection.value.peg < 3)
      && Normal(records)
    }

    /** The board invariant: strictly decreasing pegs holding the disks 1..numDisks. */
    ghost predicate BoardOk()
      reads this
    {
      WellFormed(pegs, numDisks)
    }

    /** The selected disk is still the top disk of the peg it was taken from. */
    predicate SelectionCurrent()
      reads this
      requires |pegs| == 3
    {
      selection.Some? ==>
        && selection.value.peg < 3
        && pegs[selection.value.peg] != []
        && Top(pegs[selection.value.peg]) == selection.value.disk
    }

    /**
     * The window as first shown: level 1 with three disks, records loaded
     * from the parsed records file (`None` when the file is missing or is
     * not valid JSON), and a new game started.
     */
    constructor (parsed: Option<map<string, Value>>)
      ensures Valid() && BoardOk()
      ensures level == 1 && numDisks == 3 && pegs == [Tower(3), [], []]
      ensures selection == None && moveCount == 0 && timeElapsed == 0 && ticking
      ensures completedLevels == {}
      ensures parsed.None? ==> records == map[]
      ensures parsed.Some? ==>
        && records.Keys == parsed.value.Keys
        && forall k :: k in parsed.value ==> records[k] == Normalise(parsed.value[k])
    {
      numDisks := 3;
      level := 1;
      pegs := [[], [], []];
      selection := None;
      moveCount := 0;
      timeElapsed := 0;
      ticking := false;
      completedLevels := {};
      var loaded := map[];
      if parsed.Some? {
        loaded := LoadRecords(parsed.value);
      }
      records := loaded;
      new;
      NewGame();
    }

    /**
     * `new_game`: stack numDisks..1 on peg 0, empty the other pegs, zero both
     * counters and start the timer. The selection is kept as it was.
     */
    method NewGame()
      requires Valid()
      modifies this
      ensures Valid() && BoardOk()
      ensures pegs == [Tower(numDisks), [], []]
      ensures moveCount == 0 && timeElapsed == 0 && ticking
      ensures level == old(level) && numDisks == old(numDisks) && selection == old(selection)
      ensures completedLevels == old(completedLevels) && records == old(records)
    {
      var tower := StackTower(numDisks);
      pegs := [tower, [], []];
      moveCount := 0;
      timeElapsed := 0;
      ticking := true;
      InitialWellFormed(numDisks);
    }

    /** `check_win`: peg 2 holds numDisks disks; on a sound board, the whole tower is there in order. */
    function CheckWin(): (won: bool)
      reads this
      requires Valid()
      ensures BoardOk() ==> (won <==> pegs == [[], [], Tower(numDisks)])
    {
      SolvedIffFull(pegs, numDisks);
      |pegs[2]| == numDisks
    }

    /** `update_timer`: one timer tick adds one second. */
    method Tick()
      requires Valid()
      modifies this`timeElapsed
      ensures Valid()
      ensures timeElapsed == old(timeElapsed) + 1
    {
      timeElapsed := timeElapsed + 1;
    }

    /**
     * `mousePressEvent`: a left press inside a peg region that holds disks
     * selects that peg's top disk; any other press changes nothing.
     */
    method MousePress(left: bool, width: nat, x: int)
      requires Valid()
      modifies this`selection
      ensures Valid()
      ensures var hit := PegAt(width, x);
        selection ==
          if left && hit.Some? && pegs[hit.value] != []
          then Some(Selection(Top(pegs[hit.value]), hit.value))
          else old(selection)
      ensures old(SelectionCurrent()) ==> SelectionCurrent()
      ensures selection != old(selection) ==> SelectionCurrent()
    {
      if left {
        var peg := PegIndex(width, x);
        if peg.Some? && pegs[peg.value] != [] {
          selection := Some(Selection(Top(pegs[peg.value]), peg.value));
        }
      }
    }

    /**
     * `update_record`: store the elapsed time under str(level) when the level
     * has no best time yet or the new time is strictly smaller.
     */
    method UpdateRecord()
      requires Valid()
      modifies this`records
      ensures Valid()
      ensures records == Improve(old(records), Str(level), timeElapsed)
    {
      records := Improve(records, Str(level), timeElapsed);
    }

    /** The accepted branch of a release: pop `from`, push `disk` onto `to`, count the move, drop the selection. */
    method Shift(from: nat, to: nat, disk: int)
      requires Valid() && from < 3 && to < 3 && pegs[from] != []
      modifies this`pegs, this`moveCount, this`selection
      ensures Valid()
      ensures pegs == Drop(old(pegs), from, to, disk)
      ensures moveCount == old(moveCount) + 1 && selection == None
    {
      var source := pegs[from];
      pegs := pegs[from := source[..|source| - 1]];
      pegs := pegs[to := pegs[to] + [disk]];
      moveCount := moveCount + 1;
      selection := None;
    }

    /** The win branch of a release: stop the timer, mark the level completed, update its record. */
    method Win()
      requires Valid()
      modifies this`ticking, this`completedLevels, this`records
      ensures Valid()
      ensures !ticking && completedLevels == old(completedLevels) + {level}
      ensures records == Improve(old(records), Str(level), timeElapsed)
    {
      ticking := false;
      completedLevels := completedLevels + {level};
      UpdateRecord();
    }

    /**
     * An accepted release: shift the disk, then check for a win and, on a
     * win, run the win branch.
     */
    method Move(from: nat, to: nat, disk: int) returns (won: bool)
      requires Valid() && from < 3 && to < 3 && pegs[from] != []
      modifies this`pegs, this`moveCount, this`selection, this`ticking, this`completedLevels, this`records
      ensures Valid()
      ensures pegs == Drop(old(pegs), from, to, disk)
      ensures moveCount == old(moveCount) + 1 && selection == None
      ensures won == CheckWin()
      ensures won ==>
        && !ticking
        && completedLevels == old(completedLevels) + {level}
        && records == Improve(old(records), Str(level), timeElapsed)
        && (NextLevelEnabled() <==> level < MaxLevels)
      ensures !won ==>
        && ticking == old(ticking)
        && completedLevels == old(completedLevels)
        && records == old(records)
    {
      Shift(from, to, disk);
      won := CheckWin();
      if won {
        Win();
      }
    }

    /**
     * `mouseReleaseEvent`: with a disk selected, a left release inside a peg
     * region that accepts the disk pops the selected peg, pushes the selected
     * disk onto the target, counts the move and clears the selection; a win
     * then stops the timer, marks the level completed and updates its record.
     * A release outside every region or onto a peg that refuses the disk
     * changes nothing and keeps the selection.
     */
    method MouseRelease(left: bool, width: nat, x: int) returns (outcome: Release)
      requires Valid()
      modifies this
      ensures Valid()
      ensures outcome == ReleaseOutcome(old(pegs), numDisks, old(selection), left, PegAt(width, x))
      ensures !outcome.Moved? ==> unchanged(this)
      ensures outcome.Moved? ==>
        && pegs == Drop(old(pegs), old(selection).value.peg, PegAt(width, x).value, old(selection).value.disk)
        && moveCount == old(moveCount) + 1
        && selection == None
        && outcome.won == CheckWin()
        && level == old(level) && numDisks == old(numDisks) && timeElapsed == old(timeElapsed)
      ensures outcome == Moved(true) ==>
        && !ticking
        && completedLevels == old(completedLevels) + {level}
        && records == Improve(old(records), Str(level), timeElapsed)
        && (NextLevelEnabled() <==> level < MaxLevels)
      ensures outcome == Moved(false) ==>
        && ticking == old(ticking)
        && completedLevels == old(completedLevels)
        && records == old(records)
      ensures old(BoardOk()) && old(SelectionCurrent()) ==> BoardOk() && SelectionCurrent()
      ensures outcome == PopFromEmpty ==> !old(SelectionCurrent())
    {
      if !left || selection.None? {
        return Ignored;
      }
      var target := PegIndex(width, x);
      if target.None? {
        return Missed;
      }
      var sel := selection.value;
      if !Accepts(pegs[target.value], sel.disk) {
        return Rejected;
      }
      if pegs[sel.peg] == [] {
        return PopFromEmpty;
      }
      if BoardOk() && SelectionCurrent() {
        MovePreservesBoard(pegs, numDisks, sel.peg, target.value);
      }
      var won := Move(sel.peg, target.value, sel.disk);
      return Moved(won);
    }

    /**
     * `next_level`: below the last level, advance level and disk count
     * together and start a new game; at the last level change nothing and
     * report that all levels are complete.
     */
    method NextLevel() returns (allComplete: bool)
      requires Valid()
      modifies this
      ensures Valid()
      ensures allComplete <==> old(level) == MaxLevels
      ensures old(NextLevelEnabled()) ==> !allComplete
      ensures allComplete ==> unchanged(this)
      ensures !allComplete ==>
        && level == old(level) + 1 && numDisks == old(numDisks) + 1
        && pegs == [Tower(numDisks), [], []] && BoardOk()
        && moveCount == 0 && timeElapsed == 0 && ticking
        && selection == old(selection)
        && completedLevels == old(completedLevels) && records == old(records)
    {
      if level < MaxLevels {
        level := level + 1;
        numDisks := numDisks + 1;
        NewGame();
        return false;
      }
      return true;
    }

    /**
     * `previous_level`: above level 1, step level and disk count back together
     * and start a new game; at level 1 change nothing.
     */
    method PreviousLevel()
      requires Valid()
      modifies this
      ensures Valid()
      ensures old(PreviousLevelEnabled()) <==> level != old(level)
      ensures old(level) == 1 ==> unchanged(this)
      ensures old(level) > 1 ==>
        && level == old(level) - 1 && numDisks == old(numDisks) - 1
        && pegs == [Tower(numDisks), [], []] && BoardOk()
        && moveCount == 0 && timeElapsed == 0 && ticking
        && selection == old(selection)
        && completedLevels == old(completedLevels) && records == old(records)
    {
      if level > 1 {
        level := level - 1;
        numDisks := numDisks - 1;
        NewGame();
      }
    }

    /**
     * `reset_game` (the winner dialog's "new game"): back to level 1 with three
     * disks, a new game, and no level completed.
     */
    method ResetGame()
      requires Valid()
      modifies this
      ensures Valid()
      ensures level == 1 && numDisks == 3 && pegs == [Tower(3), [], []] && BoardOk()
      ensures moveCount == 0 && timeElapsed == 0 && ticking
      ensures selection == old(selection) && completedLevels == {} && records == old(records)
      ensures !NextLevelEnabled()
    {
      level := 1;
      numDisks := 3;
      NewGame();
      completedLevels := {};
    }

    /**
     * The "next level" button of `update_level_buttons_state`: enabled only
     * once this level is completed in the current run, and never at the last level.
     */
    function NextLevelEnabled(): (enabled: bool)
      reads this
      requires Valid()
      ensures enabled ==> level in completedLevels && level + 1 <= MaxLevels
      ensures !enabled ==> level !in completedLevels || level == MaxLevels
    {
      level in completedLevels && level < MaxLevels
    }

    /** The "previous level" button: enabled everywhere but level 1. */
    function PreviousLevelEnabled(): (enabled: bool)
      reads this
      requires Valid()
      ensures enabled <==> level != 1
    {
      level > 1
    }
  }

  // ---------------------------------------------------------------------------
  // A reachable corruption of the board. The window is 300 pixels wide, so the
  // peg regions are (0, 100), (100, 200) and (200, 300).

  /** Press on peg 0 and release on empty peg 2: disk 1 moves and the selection is cleared. */
  method MoveDiskOne(g: HanoiTowersGame)
    requires g.Valid() && g.pegs == [[3, 2, 1], [], []]
    modifies g
    ensures g.Valid() && g.pegs == [[3, 2], [], [1]] && g.selection == None
    ensures g.level == old(g.level)
  {
    assert PegAt(300, 50) == Some(0) && PegAt(300, 250) == Some(2);
    g.MousePress(true, 300, 50);
    assert g.selection == Some(Selection(1, 0));
    FirstMoveResult();
    var r := g.MouseRelease(true, 300, 250);
  }

  lemma FirstMoveResult()
    ensures Drop([[3, 2, 1], [], []], 0, 2, 1) == [[3, 2], [], [1]]
  {
    var d := Drop([[3, 2, 1], [], []], 0, 2, 1);
    assert [3, 2, 1][..2] == [3, 2];
    assert d[0] == [3, 2] && d[1] == [] && d[2] == [1];
  }

  /** Take disk 2 from peg 0 and drop it on disk 1: rejected, and disk 2 stays selected. */
  method RejectedDropKeepsSelection(g: HanoiTowersGame)
    requires g.Valid() && g.pegs == [[3, 2], [], [1]]
    modifies g
    ensures g.Valid() && g.pegs == [[3, 2], [], [1]] && g.selection == Some(Selection(2, 0))
    ensures g.level == old(g.level)
  {
    assert PegAt(300, 50) == Some(0) && PegAt(300, 250) == Some(2);
    g.MousePress(true, 300, 50);
    var r := g.MouseRelease(true, 300, 250);
  }

  /**
   * With disk 2 still selected on a fresh board, press on the empty middle
   * peg (nothing changes) and release there: the drop is accepted, the top
   * disk 1 is popped and disk 2 is pushed a second time.
   */
  method DropStaleSelection(g: HanoiTowersGame)
    requires g.Valid() && g.pegs == [[3, 2, 1], [], []] && g.selection == Some(Selection(2, 0))
    modifies g
    ensures g.Valid() && g.pegs == [[3, 2], [2], []]
    ensures g.level == old(g.level)
  {
    assert PegAt(300, 150) == Some(1);
    g.MousePress(true, 300, 150);
    assert Drop(g.pegs, 0, 1, 2) == [[3, 2], [2], []] by {
      StaleDropBreaksBoard();
    }
    var r := g.MouseRelease(true, 300, 150);
  }

  /**
   * From a fresh window: move disk 1, make a rejected drop of disk 2, then
   * start a new game. The board is fresh, but disk 2 of peg 0 is still selected.
   */
  method NewGameKeepsSelection() returns (g: HanoiTowersGame)
    ensures fresh(g) && g.Valid() && g.level == 1
    ensures g.pegs == [[3, 2, 1], [], []] && g.selection == Some(Selection(2, 0))
  {
    g := new HanoiTowersGame(None);
    assert Tower(3) == [3, 2, 1];
    MoveDiskOne(g);
    RejectedDropKeepsSelection(g);
    g.NewGame();
  }

  /**
   * The event handlers alone corrupt the board once a selection survives a
   * new game: pressing and releasing on the empty middle peg duplicates disk 2
   * and loses disk 1.
   */
  method StaleSelectionDuplicatesDisk() returns (g: HanoiTowersGame)
    ensures g.Valid() && g.level == 1
    ensures g.pegs == [[3, 2], [2], []]
    ensures !g.BoardOk()
  {
    g := NewGameKeepsSelection();
    DropStaleSelection(g);
    StaleDropBreaksBoard();
  }

  /** Press on peg 0 and release on empty peg 1: disk 2 moves and the selection is cleared. */
  method MoveDiskTwo(g: HanoiTowersGame)
    requires g.Valid() && g.pegs == [[3, 2], [], [1]]
    modifies g
    ensures g.Valid() && g.pegs == [[3], [2], [1]] && g.selection == None
    ensures g.level == old(g.level)
  {
    assert PegAt(300, 50) == Some(0) && PegAt(300, 150) == Some(1);
    g.MousePress(true, 300, 50);
    assert g.selection == Some(Selection(2, 0));
    SecondMoveResult();
    var r := g.MouseRelease(true, 300, 150);
  }

  lemma SecondMoveResult()
    ensures Drop([[3, 2], [], [1]], 0, 1, 2) == [[3], [2], [1]]
  {
    var d := Drop([[3, 2], [], [1]], 0, 1, 2);
    assert [3, 2][..1] == [3];
    assert d[0] == [3] && d[1] == [2] && d[2] == [1];
  }

  /** Take disk 2 from peg 1 and drop it on disk 1: rejected, and disk 2 stays selected on peg 1. */
  method RejectedDropFromMiddle(g: HanoiTowersGame)
    requires g.Valid() && g.pegs == [[3], [2], [1]]
    modifies g
    ensures g.Valid() && g.pegs == [[3], [2], [1]] && g.selection == Some(Selection(2, 1))
    ensures g.level == old(g.level)
  {
    assert PegAt(300, 150) == Some(1) && PegAt(300, 250) == Some(2);
    g.MousePress(true, 300, 150);
    var r := g.MouseRelease(true, 300, 250);
  }

  /**
   * With disk 2 of peg 1 still selected on a fresh board, press on the empty
   * peg 2 (nothing changes) and release there: the drop is accepted, and the
   * `pop()` of the empty peg 1 raises IndexError.
   */
  method ReleaseOnEmptySource(g: HanoiTowersGame) returns (r: Release)
    requires g.Valid() && g.pegs == [[3, 2, 1], [], []] && g.selection == Some(Selection(2, 1))
    modifies g
    ensures r == PopFromEmpty
    ensures g.pegs == [[3, 2, 1], [], []] && g.selection == Some(Selection(2, 1))
  {
    assert PegAt(300, 250) == Some(2);
    g.MousePress(true, 300, 250);
    r := g.MouseRelease(true, 300, 250);
  }

  /**
   * Press and release on peg 2 after `NewGameKeepsMiddleSelection`: the stale
   * selection names the empty peg 1, and the release ends in the IndexError
   * of popping it.
   */
  method StaleSelectionPopsEmptyPeg() returns (g: HanoiTowersGame, r: Release)
    ensures r == PopFromEmpty
    ensures g.pegs == [[3, 2, 1], [], []] && g.selection == Some(Selection(2, 1))
  {
    g := NewGameKeepsMiddleSelection();
    r := ReleaseOnEmptySource(g);
  }

  /**
   * From a fresh window: move disk 1 to peg 2 and disk 2 to peg 1, make a
   * refused drop of disk 2 on disk 1, then start a new game. Disk 2 of the
   * now empty peg 1 is still selected.
   */
  method NewGameKeepsMiddleSelection() returns (g: HanoiTowersGame)
    ensures fresh(g) && g.Valid() && g.level == 1
    ensures g.pegs == [[3, 2, 1], [], []] && g.selection == Some(Selection(2, 1))
  {
    g := new HanoiTowersGame(None);
    assert Tower(3) == [3, 2, 1];
    MoveDiskOne(g);
    MoveDiskTwo(g);
    RejectedDropFromMiddle(g);
    g.NewGame();
  }
}
