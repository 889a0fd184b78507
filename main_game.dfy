/**
 * The older game window (`HanoiTowersGame` of main_game.py) without its
 * drawing, sound and dialogs. It differs from the complete one in three
 * ways: "next level" is enabled on every level but the last, no completed
 * levels are tracked, and best times are bare integers keyed by the level
 * number, kept in memory and written out only when the window closes.
 */
module MainGame {
  import opened Wrappers
  import opened Board

  const MaxLevels: int := 5

  /**
   * A key of the records dictionary. The file is parsed into string keys,
   * while `update_record` and the time display use the integer level.
   */
  datatype RecordKey = Level(n: int) | Text(s: string)

  /**
   * `update_record` on the records dictionary: store `t` under the integer
   * key `level` when nothing is stored there (read as infinity) or `t` is
   * strictly smaller. The result is the minimum, and no other key changes.
   */
  function Improve(records: map<RecordKey, int>, level: int, t: int): (r: map<RecordKey, int>)
    ensures Level(level) in r
    ensures Level(level) in records ==> r[Level(level)] <= records[Level(level)] && r[Level(level)] <= t
    ensures r[Level(level)] == t || (Level(level) in records && r[Level(level)] == records[Level(level)])
    ensures forall k :: k != Level(level) ==> (k in r <==> k in records) && (k in r ==> r[k] == records[k])
  {
    if Level(level) !in records || t < records[Level(level)] then records[Level(level) := t] else records
  }

  /** The records dictionary as `json.load` returns it: every key a string. */
  function Loaded(stored: map<string, int>): (r: map<RecordKey, int>)
    ensures forall k :: k in r <==> k.Text? && k.s in stored
    ensures forall s :: s in stored ==> r[Text(s)] == stored[s]
  {
    map s | s in stored :: Text(s) := stored[s]
  }

  /**
   * Records loaded from the file sit under string keys, which the integer
   * lookup never finds: the first record update of a level in a session (a
   * win below the last level) stores its time, however good the loaded record
   * for that level was.
   */
  lemma LoadedRecordsIgnored(stored: map<string, int>, level: int, t: int)
    ensures Improve(Loaded(stored), level, t) == Loaded(stored)[Level(level) := t]
  {
  }

  class HanoiTowersGame {
    var numDisks: nat
    var level: int
    var pegs: seq<Peg>
    var selection: Option<Selection>
    var moveCount: nat
    var timeElapsed: nat
    /** Whether the one-second timer is running (started by a new game, stopped by a win). */
    var ticking: bool
    var records: map<RecordKey, int>

    /** What every handler keeps: three pegs, the level in range with two more disks than its number. */
    ghost predicate Valid()
      reads this
    {
      && |pegs| == 3
      && 1 <= level <= MaxLevels
      && numDisks == level + 2
      && (selection.Some? ==> selection.value.peg < 3)
    }

    /** The board invariant: strictly decreasing pegs holding the disks 1..numDisks. */
    ghost predicate BoardOk()
      reads this
    {
      WellFormed(pegs, numDisks)
    }

    /** The selected disk is still the top disk of the peg it was taken from. */
    predicate SelectionCurrent()
      reads this
      requires |pegs| == 3
    {
      selection.Some? ==>
        && selection.value.peg < 3
        && pegs[selection.value.peg] != []
        && Top(pegs[selection.value.peg]) == selection.value.disk
    }

    /**
     * The window as first shown: level 1 with three disks, the records file
     * as parsed (empty when it is missing), and a new game started.
     */
    constructor (stored: map<string, int>)
      ensures Valid() && BoardOk()
      ensures level == 1 && numDisks == 3 && pegs == [Tower(3), [], []]
      ensures selection == None && moveCount == 0 && timeElapsed == 0 && ticking
      ensures records == Loaded(stored)
    {
      numDisks := 3;
      level := 1;
      pegs := [[], [], []];
      selection := None;
      moveCount := 0;
      timeElapsed := 0;
      ticking := false;
      records := Loaded(stored);
      new;
      NewGame();
    }

    /**
     * `new_game`: stack numDisks..1 on peg 0, empty the other pegs, zero both
     * counters and start the timer. The selection is kept as it was.
     */
    method NewGame()
      requires Valid()
      modifies this
      ensures Valid() && BoardOk()
      ensures pegs == [Tower(numDisks), [], []]
      ensures moveCount == 0 && timeElapsed == 0 && ticking
      ensures level == old(level) && numDisks == old(numDisks) && selection == old(selection)
      ensures records == old(records)
    {
      var tower := StackTower(numDisks);
      pegs := [tower, [], []];
      moveCount := 0;
      timeElapsed := 0;
      ticking := true;
      InitialWellFormed(numDisks);
    }

    /** `check_win` without its sound: peg 2 holds numDisks disks; on a sound board, the whole tower is there in order. */
    function CheckWin(): (won: bool)
      reads this
      requires Valid()
      ensures BoardOk() ==> (won <==> pegs == [[], [], Tower(numDisks)])
    {
      SolvedIffFull(pegs, numDisks);
      |pegs[2]| == numDisks
    }

    /** `update_timer`: one timer tick adds one second. */
    method Tick()
      requires Valid()
      modifies this`timeElapsed
      ensures Valid()
      ensures timeElapsed == old(timeElapsed) + 1
    {
      timeElapsed := timeElapsed + 1;
    }

    /**
     * `mousePressEvent`: a left press inside a peg region that holds disks
     * selects that peg's top disk; any other press changes nothing.
     */
    method MousePress(left: bool, width: nat, x: int)
      requires Valid()
      modifies this`selection
      ensures Valid()
      ensures var hit := PegAt(width, x);
        selection ==
          if left && hit.Some? && pegs[hit.value] != []
          then Some(Selection(Top(pegs[hit.value]), hit.value))
          else old(selection)
      ensures old(SelectionCurrent()) ==> SelectionCurrent()
      ensures selection != old(selection) ==> SelectionCurrent()
    {
      if left {
        var peg := PegIndex(width, x);
        if peg.Some? && pegs[peg.value] != [] {
          selection := Some(Selection(Top(pegs[peg.value]), peg.value));
        }
      }
    }

    /** `update_record`: keep the smaller of the stored time for this level and the elapsed time. */
    method UpdateRecord()
      requires Valid()
      modifies this`records
      ensures Valid()
      ensures records == Improve(old(records), level, timeElapsed)
    {
      records := Improve(records, level, timeElapsed);
    }

    /** The accepted branch of a release: pop `from`, push `disk` onto `to`, count the move, drop the selection. */
    method Shift(from: nat, to: nat, disk: int)
      requires Valid() && from < 3 && to < 3 && pegs[from] != []
      modifies this`pegs, this`moveCount, this`selection
      ensures Valid()
      ensures pegs == Drop(old(pegs), from, to, disk)
      ensures moveCount == old(moveCount) + 1 && selection == None
    {
      var source := pegs[from];
      pegs := pegs[from := source[..|source| - 1]];
      pegs := pegs[to := pegs[to] + [disk]];
      moveCount := moveCount + 1;
      selection := None;
    }

    /**
     * The win branch of a release: stop the timer; below the last level the
     * record is updated, at the last level it is not.
     */
    method Win()
      requires Valid()
      modifies this`ticking, this`records
      ensures Valid()
      ensures !ticking
      ensures records == if level == MaxLevels then old(records) else Improve(old(records), level, timeElapsed)
    {
      ticking := false;
      if level != MaxLevels {
        UpdateRecord();
      }
    }

    /**
     * An accepted release: shift the disk, then check for a win and, on a
     * win, run the win branch.
     */
    method Move(from: nat, to: nat, disk: int) returns (won: bool)
      requires Valid() && from < 3 && to < 3 && pegs[from] != []
      modifies this`pegs, this`moveCount, this`selection, this`ticking, this`records
      ensures Valid()
      ensures pegs == Drop(old(pegs), from, to, disk)
      ensures moveCount == old(moveCount) + 1 && selection == None
      ensures won == CheckWin()
      ensures won ==>
        && !ticking
        && records == if level == MaxLevels then old(records) else Improve(old(records), level, timeElapsed)
      ensures !won ==> ticking == old(ticking) && records == old(records)
    {
      Shift(from, to, disk);
      won := CheckWin();
      if won {
        Win();
      }
    }

    /**
     * `mouseReleaseEvent`: with a disk selected, a left release inside a peg
     * region that accepts the disk pops the selected peg, pushes the selected
     * disk onto the target, counts the move and clears the selection; a win
     * then stops the timer and, below the last level, updates the record.
     * A release outside every region or onto a peg that refuses the disk
     * changes nothing and keeps the selection.
     */
    method MouseRelease(left: bool, width: nat, x: int) returns (outcome: Release)
      requires Valid()
      modifies this
      ensures Valid()
      ensures outcome == ReleaseOutcome(old(pegs), numDisks, old(selection), left, PegAt(width, x))
      ensures !outcome.Moved? ==> unchanged(this)
      ensures outcome.Moved? ==>
        && pegs == Drop(old(pegs), old(selection).value.peg, PegAt(width, x).value, old(selection).value.disk)
        && moveCount == old(moveCount) + 1
        && selection == None
        && outcome.won == CheckWin()
        && level == old(level) && numDisks == old(numDisks) && timeElapsed == old(timeElapsed)
      ensures outcome == Moved(true) ==>
        && !ticking
        && records == if level == MaxLevels then old(records) else Improve(old(records), level, timeElapsed)
      ensures outcome == Moved(false) ==> ticking == old(ticking) && records == old(records)
      ensures old(BoardOk()) && old(SelectionCurrent()) ==> BoardOk() && SelectionCurrent()
      ensures outcome == PopFromEmpty ==> !old(SelectionCurrent())
    {
      if !left || selection.None? {
        return Ignored;
      }
      var target := PegIndex(width, x);
      if target.None? {
        return Missed;
      }
      var sel := selection.value;
      if !Accepts(pegs[target.value], sel.disk) {
        return Rejected;
      }
      if pegs[sel.peg] == [] {
        return PopFromEmpty;
      }
      if BoardOk() && SelectionCurrent() {
        MovePreservesBoard(pegs, numDisks, sel.peg, target.value);
      }
      var won := Move(sel.peg, target.value, sel.disk);
      return Moved(won);
    }

    /**
     * `next_level`: below the last level, advance level and disk count
     * together and start a new game; at the last level change nothing and
     * report that all levels are complete.
     */
    method NextLevel() returns (allComplete: bool)
      requires Valid()
      modifies this
      ensures Valid()
      ensures allComplete <==> old(level) == MaxLevels
      ensures allComplete <==> !old(NextLevelEnabled())
      ensures allComplete ==> unchanged(this)
      ensures !allComplete ==>
        && level == old(level) + 1 && numDisks == old(numDisks) + 1
        && pegs == [Tower(numDisks), [], []] && BoardOk()
        && moveCount == 0 && timeElapsed == 0 && ticking
        && selection == old(selection) && records == old(records)
    {
      if level < MaxLevels {
        level := level + 1;
        numDisks := numDisks + 1;
        NewGame();
        return false;
      }
      return true;
    }

    /**
     * `previous_level`: above level 1, step level and disk count back together
     * and start a new game; at level 1 change nothing.
     */
    method PreviousLevel()
      requires Valid()
      modifies this
      ensures Valid()
      ensures old(level) == 1 ==> unchanged(this)
      ensures old(level) > 1 ==>
        && level == old(level) - 1 && numDisks == old(numDisks) - 1
        && pegs == [Tower(numDisks), [], []] && BoardOk()
        && moveCount == 0 && timeElapsed == 0 && ticking
        && selection == old(selection) && records == old(records)
    {
      if level > 1 {
        level := level - 1;
        numDisks := numDisks - 1;
        NewGame();
      }
    }

    /** `reset_game` (the winner dialog's "new game"): back to level 1 with three disks and a new game. */
    method ResetGame()
      requires Valid()
      modifies this
      ensures Valid()
      ensures level == 1 && numDisks == 3 && pegs == [Tower(3), [], []] && BoardOk()
      ensures moveCount == 0 && timeElapsed == 0 && ticking
      ensures selection == old(selection) && records == old(records)
    {
      level := 1;
      numDisks := 3;
      NewGame();
    }

    /**
     * `update_next_level_button_state`: "next level" is enabled on every level
     * but the last, completed or not; that is exactly when `next_level` advances.
     */
    function NextLevelEnabled(): (enabled: bool)
      reads this
      requires Valid()
      ensures enabled <==> level < MaxLevels
    {
      level != MaxLevels
    }
  }
}
