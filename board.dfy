/**
 * The puzzle board shared by both game windows: three pegs of disk sizes,
 * the region of the play surface each peg owns, the legality rule for a drop,
 * and the invariant that legal moves keep.
 */
module Board {
  import opened Wrappers

  /** A peg lists disk sizes from bottom to top: the last element is the top disk. */
  type Peg = seq<int>

  /** The player's current pick: a disk size and the peg it was taken from. */
  datatype Selection = Selection(disk: int, peg: nat)

  /** What a mouse release did. */
  datatype Release =
    | Ignored        // not the left button, or nothing selected
    | Missed         // released outside every peg region
    | Rejected       // the target peg does not accept the selected disk
    | PopFromEmpty   // the selected peg is empty: `list.pop()` raises IndexError
    | Moved(won: bool)

  // ---------------------------------------------------------------------------
  // Board invariant

  /** Disk sizes strictly decrease from bottom to top. */
  predicate Decreasing(p: Peg) {
    forall i, j :: 0 <= i < j < |p| ==> p[i] > p[j]
  }

  function Top(p: Peg): int
    requires p != []
  {
    p[|p| - 1]
  }

  /** The disks 1..n, each exactly once. */
  function Range(n: nat): (m: multiset<int>)
    ensures forall d :: m[d] == if 1 <= d <= n then 1 else 0
  {
    if n == 0 then multiset{} else Range(n - 1) + multiset{n}
  }

  /** All disks on the board. */
  function Disks(pegs: seq<Peg>): multiset<int>
    requires |pegs| == 3
  {
    multiset(pegs[0]) + multiset(pegs[1]) + multiset(pegs[2])
  }

  /** Three pegs, each strictly decreasing, holding together exactly the disks 1..n. */
  predicate WellFormed(pegs: seq<Peg>, n: nat) {
    && |pegs| == 3
    && Decreasing(pegs[0]) && Decreasing(pegs[1]) && Decreasing(pegs[2])
    && Disks(pegs) == Range(n)
  }

  // ---------------------------------------------------------------------------
  // The starting tower

  /** The tower [n, n-1, ..., 1] that `new_game` stacks on peg 0. */
  function Tower(n: nat): Peg {
    if n == 0 then [] else [n] + Tower(n - 1)
  }

  lemma {:induction false} TowerShape(n: nat)
    ensures |Tower(n)| == n
    ensures forall k :: 0 <= k < n ==> Tower(n)[k] == n - k
  {
    if n > 0 {
      TowerShape(n - 1);
    }
  }

  lemma {:induction false} TowerDisks(n: nat)
    ensures multiset(Tower(n)) == Range(n)
  {
    if n > 0 {
      TowerDisks(n - 1);
    }
  }

  /** The append loop of `new_game`: push n, n-1, ..., 1 onto an empty peg. */
  method StackTower(n: nat) returns (tower: Peg)
    ensures tower == Tower(n)
  {
    tower := [];
    var i := n;
    while i > 0
      invariant 0 <= i <= n
      invariant tower + Tower(i) == Tower(n)
    {
      tower := tower + [i];
      i := i - 1;
    }
    assert tower + Tower(0) == tower;
  }

  /** A fresh board, [Tower(n), [], []], satisfies the board invariant. */
  lemma InitialWellFormed(n: nat)
    ensures WellFormed([Tower(n), [], []], n)
  {
    TowerShape(n);
    TowerDisks(n);
  }

  // ---------------------------------------------------------------------------
  // Peg regions of the play surface

  /** `x` lies strictly inside the i-th third of a surface `width` pixels wide. */
  predicate InRegion(width: nat, i: nat, x: int) {
    i * (width / 3) < x < (i + 1) * (width / 3)
  }

  lemma RegionsDisjoint(width: nat, i: nat, j: nat, x: int)
    requires InRegion(width, i, x) && InRegion(width, j, x)
    ensures i == j
  {
    var s := width / 3;
    if i < j {
      MulMonotone(i + 1, j, s);
    } else if j < i {
      MulMonotone(j + 1, i, s);
    }
  }

  lemma MulMonotone(a: nat, b: nat, s: nat)
    requires a <= b
    ensures a * s <= b * s
  {
  }

  /** The peg whose region contains `x`, if any. */
  function PegAt(width: nat, x: int): (r: Option<nat>)
    ensures forall i :: 0 <= i < 3 ==> (r == Some(i) <==> InRegion(width, i, x))
    ensures r.None? || r.value < 3
  {
    if InRegion(width, 0, x) then Some(0)
    else if InRegion(width, 1, x) then Some(1)
    else if InRegion(width, 2, x) then Some(2)
    else None
  }

  /**
   * Boundaries and the strip beyond the last third map to no peg: the
   * dividing lines themselves, everything left of 0 and everything from
   * 3 * (width / 3) on.
   */
  lemma EdgesMissed(width: nat, x: int)
    requires x <= 0 || x >= 3 * (width / 3) || (width / 3 > 0 && x % (width / 3) == 0)
    ensures PegAt(width, x) == None
  {
    var s := width / 3;
    forall i | 0 <= i < 3
      ensures !InRegion(width, i, x)
    {
      if InRegion(width, i, x) {
        if x >= 3 * s {
          MulMonotone(i + 1, 3, s);
        } else if x > 0 {
          var q := x / s;
          assert x == q * s;
          if q <= i {
            MulMonotone(q, i, s);
          } else {
            MulMonotone(i + 1, q, s);
          }
        }
      }
    }
  }

  /** The peg lookup as the loop over the three regions, stopping at the first hit. */
  method PegIndex(width: nat, x: int) returns (r: Option<nat>)
    ensures r == PegAt(width, x)
  {
    for i := 0 to 3
      invariant forall j :: 0 <= j < i ==> !InRegion(width, j, x)
    {
      if InRegion(width, i, x) {
        return Some(i);
      }
    }
    return None;
  }

  // ---------------------------------------------------------------------------
  // Moves

  /**
   * The legality rule for dropping `disk` on `target`: an empty peg, or a top
   * disk strictly larger. On a well-ordered peg it is exactly the condition
   * that keeps the peg strictly decreasing. A disk is never accepted back on
   * the peg whose top it is.
   */
  function Accepts(target: Peg, disk: int): (ok: bool)
    ensures Decreasing(target) ==> (ok <==> Decreasing(target + [disk]))
    ensures target != [] && disk == Top(target) ==> !ok
  {
    PushKeepsOrder(target, disk);
    target == [] || disk < Top(target)
  }

  lemma PushKeepsOrder(target: Peg, disk: int)
    ensures Decreasing(target) ==>
      ((target == [] || disk < Top(target)) <==> Decreasing(target + [disk]))
  {
    var t := target + [disk];
    if Decreasing(target) && target != [] {
      if disk < Top(target) {
        forall i, j | 0 <= i < j < |t|
          ensures t[i] > t[j]
        {
          if j == |target| && i < |target| - 1 {
            assert target[i] > target[|target| - 1];
          }
        }
      } else {
        assert t[|target| - 1] <= t[|target|];
      }
    }
  }

  /** Popping the top disk keeps a peg strictly decreasing. */
  lemma PopKeepsOrder(p: Peg)
    requires Decreasing(p) && p != []
    ensures Decreasing(p[..|p| - 1])
  {
  }

  /**
   * A release as written: pop the top of peg `from`, then append `disk` to
   * peg `to`. Only those two pegs change, and the board loses the popped disk
   * and gains `disk`.
   */
  function Drop(pegs: seq<Peg>, from: nat, to: nat, disk: int): (r: seq<Peg>)
    requires |pegs| == 3 && from < 3 && to < 3 && pegs[from] != []
    ensures |r| == 3
    ensures forall i :: 0 <= i < 3 && i != from && i != to ==> r[i] == pegs[i]
    ensures from != to ==> r[from] == pegs[from][..|pegs[from]| - 1] && r[to] == pegs[to] + [disk]
    ensures from == to ==> r[to] == pegs[from][..|pegs[from]| - 1] + [disk]
    ensures Disks(r) == Disks(pegs) - multiset{Top(pegs[from])} + multiset{disk}
  {
    var p := pegs[from];
    assert p == p[..|p| - 1] + [Top(p)];
    var popped := pegs[from := p[..|p| - 1]];
    popped[to := popped[to] + [disk]]
  }

  /**
   * How a release is handled, in the order both handlers test: the button and
   * the selection, the target region, the legality of the drop, and finally
   * the `pop()` of the selected peg. An accepted move is a win when peg 2 then
   * holds all n disks. A release is a move exactly when all four tests pass,
   * and a current selection is never moved onto its own peg.
   */
  function ReleaseOutcome(pegs: seq<Peg>, n: nat, sel: Option<Selection>, left: bool, target: Option<nat>): (r: Release)
    requires |pegs| == 3 && (sel.Some? ==> sel.value.peg < 3) && (target.Some? ==> target.value < 3)
    ensures r.Moved? <==>
      && left && sel.Some? && target.Some?
      && Accepts(pegs[target.value], sel.value.disk)
      && pegs[sel.value.peg] != []
    ensures r.Moved? && Top(pegs[sel.value.peg]) == sel.value.disk ==> sel.value.peg != target.value
  {
    if !left || sel.None? then Ignored
    else if target.None? then Missed
    else if !Accepts(pegs[target.value], sel.value.disk) then Rejected
    else if pegs[sel.value.peg] == [] then PopFromEmpty
    else Moved(|Drop(pegs, sel.value.peg, target.value, sel.value.disk)[2]| == n)
  }

  /**
   * A legal move of the top disk of `from` keeps the board invariant, and it
   * never targets its own source peg (the disk is not smaller than itself).
   */
  lemma MovePreservesBoard(pegs: seq<Peg>, n: nat, from: nat, to: nat)
    requires WellFormed(pegs, n) && from < 3 && to < 3 && pegs[from] != []
    requires Accepts(pegs[to], Top(pegs[from]))
    ensures from != to
    ensures WellFormed(Drop(pegs, from, to, Top(pegs[from])), n)
  {
    var disk := Top(pegs[from]);
    var p := pegs[from];
    var r := Drop(pegs, from, to, disk);
    assert from != to;
    assert r[from] == p[..|p| - 1];
    assert r[to] == pegs[to] + [disk];
    PopKeepsOrder(p);
    PushKeepsOrder(pegs[to], disk);
    assert disk in multiset(p) by { assert p[|p| - 1] == disk; }
    assert disk in Disks(pegs);
    assert Decreasing(r[0]) && Decreasing(r[1]) && Decreasing(r[2]);
  }

  /**
   * The converse of `MovePreservesBoard`: on a well-formed board, dropping a
   * disk other than the top of the peg that is popped always breaks the board,
   * since the popped disk then appears one time fewer.
   */
  lemma StaleDropAlwaysBreaks(pegs: seq<Peg>, n: nat, from: nat, to: nat, disk: int)
    requires WellFormed(pegs, n) && from < 3 && to < 3 && pegs[from] != []
    requires disk != Top(pegs[from])
    ensures !WellFormed(Drop(pegs, from, to, disk), n)
  {
    var p := pegs[from];
    assert p[|p| - 1] == Top(p);
    assert Top(p) in multiset(p);
    assert Top(p) in Disks(pegs);
    assert Disks(Drop(pegs, from, to, disk))[Top(p)] == Disks(pegs)[Top(p)] - 1;
  }

  /**
   * A concrete instance of `StaleDropAlwaysBreaks`: disk 2 taken as if from
   * [3, 2, 1] and dropped on an empty peg pops disk 1 and duplicates disk 2.
   */
  lemma StaleDropBreaksBoard()
    ensures WellFormed([[3, 2, 1], [], []], 3)
    ensures Accepts([], 2)
    ensures Drop([[3, 2, 1], [], []], 0, 1, 2) == [[3, 2], [2], []]
    ensures !WellFormed([[3, 2], [2], []], 3)
  {
    assert Tower(3) == [3, 2, 1];
    InitialWellFormed(3);
    StaleDropResult();
    DuplicateIllFormed();
  }

  lemma StaleDropResult()
    ensures Drop([[3, 2, 1], [], []], 0, 1, 2) == [[3, 2], [2], []]
  {
    var d := Drop([[3, 2, 1], [], []], 0, 1, 2);
    assert [3, 2, 1][..2] == [3, 2];
    assert d[0] == [3, 2] && d[1] == [2] && d[2] == [];
  }

  lemma DuplicateIllFormed()
    ensures !WellFormed([[3, 2], [2], []], 3)
  {
    assert Disks([[3, 2], [2], []])[1] == 0;
  }

  // ---------------------------------------------------------------------------
  // The win condition

  lemma {:induction false} DecreasingGap(p: Peg, i: nat, j: nat)
    requires Decreasing(p) && i <= j < |p|
    ensures p[i] >= p[j] + (j - i)
    decreases j - i
  {
    if i < j {
      DecreasingGap(p, i + 1, j);
    }
  }

  lemma {:induction false} RangeSize(n: nat)
    ensures |Range(n)| == n
  {
    if n > 0 {
      RangeSize(n - 1);
    }
  }

  /**
   * On a well-formed board, peg 2 holding n disks is the same as the whole
   * tower standing on peg 2, in order, with the other pegs empty. (A board
   * that is not well formed is left unconstrained.)
   */
  lemma SolvedIffFull(pegs: seq<Peg>, n: nat)
    ensures WellFormed(pegs, n) ==> (|pegs[2]| == n <==> pegs == [[], [], Tower(n)])
  {
    TowerShape(n);
    if WellFormed(pegs, n) && |pegs[2]| == n {
      RangeSize(n);
      assert |Disks(pegs)| == |pegs[0]| + |pegs[1]| + |pegs[2]|;
      assert pegs[0] == [] && pegs[1] == [];
      var p := pegs[2];
      forall k | 0 <= k < n
        ensures p[k] == Tower(n)[k]
      {
        forall m | 0 <= m < n
          ensures 1 <= p[m] <= n
        {
          assert p[m] in multiset(p);
          assert Range(n)[p[m]] > 0;
        }
        DecreasingGap(p, k, n - 1);
        DecreasingGap(p, 0, k);
      }
      assert p == Tower(n);
    }
  }
}
