/** The falling-sand step of assets/stage1.js (`stepSand`) and the initial fill (`createSand`).

    `Step` is the step as a function of the pre-step grid: it visits rows H−2 down to 0,
    columns left to right, in the source's order, threading the partly built `next`
    buffer through every visit. `StepSand` is the source's array loop, proved equal to it. */
module Sand {
  import opened Grid

  /** What a visited grain does: stay, or move to column `col` of the row below. */
  datatype Choice = Stay | MoveTo(col: int)

  /** A cell a grain may enter: inside the grid, inside the mask, empty before the
      step and still empty in the buffer being built. */
  predicate Open(sand: seq<bool>, mask: seq<bool>, next: seq<bool>, W: nat, H: nat, x: int, y: int)
    requires |sand| == W * H && |mask| == W * H && |next| == W * H
  {
    0 <= x < W && 0 <= y < H
    && mask[Idx(W, H, x, y)] && !sand[Idx(W, H, x, y)] && !next[Idx(W, H, x, y)]
  }

  /** The diagonal tried first: one column right when x + parity is odd, else left. */
  function FirstSide(x: nat, parity: nat): (side: int)
    ensures side == 1 || side == -1
    ensures side == 1 <==> (x + parity) % 2 == 1
  {
    if (x + parity) % 2 == 1 then 1 else -1
  }

  /** The destination chosen for a grain at (x, y): straight down if open, otherwise
      the first open diagonal in the parity order, otherwise none. */
  function Target(sand: seq<bool>, mask: seq<bool>, next: seq<bool>, W: nat, H: nat, parity: nat,
                  x: nat, y: nat): (c: Choice)
    requires |sand| == W * H && |mask| == W * H && |next| == W * H
    requires x < W && y < H
    ensures c.MoveTo? ==> Open(sand, mask, next, W, H, c.col, y + 1) && x - 1 <= c.col <= x + 1
    ensures Open(sand, mask, next, W, H, x, y + 1) ==> c == MoveTo(x)
    ensures !Open(sand, mask, next, W, H, x, y + 1) && Open(sand, mask, next, W, H, x + FirstSide(x, parity), y + 1)
            ==> c == MoveTo(x + FirstSide(x, parity))
    ensures c == Stay <==>
              !Open(sand, mask, next, W, H, x - 1, y + 1) && !Open(sand, mask, next, W, H, x, y + 1)
              && !Open(sand, mask, next, W, H, x + 1, y + 1)
  {
    var side := FirstSide(x, parity);
    if Open(sand, mask, next, W, H, x, y + 1) then MoveTo(x)
    else if Open(sand, mask, next, W, H, x + side, y + 1) then MoveTo(x + side)
    else if Open(sand, mask, next, W, H, x - side, y + 1) then MoveTo(x - side)
    else Stay
  }

  /** One visit of the scan: a grain of the pre-step grid at (x, y) moves to its target in `next`. */
  function Visit(sand: seq<bool>, mask: seq<bool>, W: nat, H: nat, parity: nat,
                 next: seq<bool>, x: nat, y: nat): (r: seq<bool>)
    requires |sand| == W * H && |mask| == W * H && |next| == W * H
    requires x < W && y < H
    ensures |r| == W * H
  {
    var i := Idx(W, H, x, y);
    if !sand[i] then next
    else match Target(sand, mask, next, W, H, parity, x, y)
      case Stay => next
      case MoveTo(nx) => next[i := false][Idx(W, H, nx, y + 1) := true]
  }

  /** Visits columns x .. W−1 of row y, left to right. */
  function ScanRow(sand: seq<bool>, mask: seq<bool>, W: nat, H: nat, parity: nat,
                   next: seq<bool>, x: nat, y: nat): (r: seq<bool>)
    requires |sand| == W * H && |mask| == W * H && |next| == W * H
    requires x <= W && y < H
    ensures |r| == W * H
    decreases W - x
  {
    if x == W then next
    else ScanRow(sand, mask, W, H, parity, Visit(sand, mask, W, H, parity, next, x, y), x + 1, y)
  }

  /** Visits rows rows−1 down to 0. */
  function ScanRows(sand: seq<bool>, mask: seq<bool>, W: nat, H: nat, parity: nat,
                    next: seq<bool>, rows: nat): (r: seq<bool>)
    requires |sand| == W * H && |mask| == W * H && |next| == W * H
    requires rows <= H
    ensures |r| == W * H
    decreases rows
  {
    if rows == 0 then next
    else ScanRows(sand, mask, W, H, parity, ScanRow(sand, mask, W, H, parity, next, 0, rows - 1), rows - 1)
  }

  /** Number of rows a step visits: every row but the bottom one. */
  function VisitedRows(H: nat): nat { if H == 0 then 0 else H - 1 }

  /** One step of the automaton. */
  function Step(sand: seq<bool>, mask: seq<bool>, W: nat, H: nat, parity: nat): (r: seq<bool>)
    requires |sand| == W * H && |mask| == W * H
    ensures |r| == W * H
  {
    ScanRows(sand, mask, W, H, parity, sand, VisitedRows(H))
  }

  /** The source's parity update `parity ^= 1` on a non-negative integer. */
  function Flip(p: nat): (q: nat)
    ensures q % 2 != p % 2 && q / 2 == p / 2
  {
    if p % 2 == 0 then p + 1 else p - 1
  }

  /** n consecutive steps, the parity flipped after each. */
  function Run(sand: seq<bool>, mask: seq<bool>, W: nat, H: nat, parity: nat, n: nat): (r: seq<bool>)
    requires |sand| == W * H && |mask| == W * H
    ensures |r| == W * H
    decreases n
  {
    if n == 0 then sand else Run(Step(sand, mask, W, H, parity), mask, W, H, Flip(parity), n - 1)
  }

  // ---------------------------------------------------------------------------
  // What one step guarantees.

  /** A grain of the pre-step grid at (x, y) is no longer there. */
  predicate Left(sand: seq<bool>, next: seq<bool>, W: nat, H: nat, x: int, y: int)
    requires |sand| == W * H && |next| == W * H
  {
    0 <= x < W && 0 <= y < H && sand[Idx(W, H, x, y)] && !next[Idx(W, H, x, y)]
  }

  /** A grain is at (x, y) that was not there before the step. */
  predicate Entered(sand: seq<bool>, next: seq<bool>, W: nat, H: nat, x: int, y: int)
    requires |sand| == W * H && |next| == W * H
  {
    0 <= x < W && 0 <= y < H && !sand[Idx(W, H, x, y)] && next[Idx(W, H, x, y)]
  }

  /** Every grain that arrived came from one of the three cells above it, and every grain
      that left went to one of the three cells below it. */
  ghost predicate Local(sand: seq<bool>, next: seq<bool>, W: nat, H: nat)
    requires |sand| == W * H && |next| == W * H
  {
    ArrivalsFed(sand, next, W, H) && DeparturesLanded(sand, next, W, H)
  }

  /** The facts every visit keeps between the pre-step grid and the buffer being built:
      as many grains, grains only on the old grid or the mask, and moves only one row down. */
  ghost predicate Kept(sand: seq<bool>, mask: seq<bool>, W: nat, H: nat, next: seq<bool>)
    requires |sand| == W * H && |mask| == W * H
  {
    && |next| == W * H
    && Count(next) == Count(sand)
    && (forall j | 0 <= j < W * H && next[j] :: sand[j] || mask[j])
    && Local(sand, next, W, H)
  }

  /** Cells a .. b−1 still hold their pre-step value. */
  ghost predicate SameOn(sand: seq<bool>, next: seq<bool>, a: int, b: int)
    requires |sand| == |next|
  {
    forall j | 0 <= a <= j < b && j < |sand| :: next[j] == sand[j]
  }

  /** The cells not yet visited when the scan reaches (x, y) are untouched: rows above y,
      and row y from column x on. */
  ghost predicate Pending(sand: seq<bool>, next: seq<bool>, W: nat, x: nat, y: nat)
    requires |sand| == |next|
  {
    SameOn(sand, next, 0, y * W) && SameOn(sand, next, y * W + x, y * W + W)
  }

  /** The visited source is still occupied and its destination lies in the row below, so a
      move clears a cell holding a grain and fills a distinct empty one. */
  lemma VisitCounts(sand: seq<bool>, mask: seq<bool>, W: nat, H: nat, parity: nat, next: seq<bool>, x: nat, y: nat)
    requires |sand| == W * H && |mask| == W * H && |next| == W * H
    requires x < W && y < H
    requires Kept(sand, mask, W, H, next) && Pending(sand, next, W, x, y)
    ensures Count(Visit(sand, mask, W, H, parity, next, x, y)) == Count(sand)
    ensures Pending(sand, Visit(sand, mask, W, H, parity, next, x, y), W, x + 1, y)
    ensures forall j | 0 <= j < W * H && Visit(sand, mask, W, H, parity, next, x, y)[j] :: sand[j] || mask[j]
  {
    var i := Idx(W, H, x, y);
    if sand[i] {
      match Target(sand, mask, next, W, H, parity, x, y)
      case Stay =>
      case MoveTo(nx) =>
        var d := Idx(W, H, nx, y + 1);
        assert (y + 1) * W == y * W + W;
        MoveKeepsCount(next, i, d);
      }
  }

  /** Every grain that arrived came from one of the three cells above it. */
  ghost predicate ArrivalsFed(sand: seq<bool>, next: seq<bool>, W: nat, H: nat)
    requires |sand| == W * H && |next| == W * H
  {
    forall x: int, y: int | Entered(sand, next, W, H, x, y) ::
      Left(sand, next, W, H, x - 1, y - 1) || Left(sand, next, W, H, x, y - 1)
      || Left(sand, next, W, H, x + 1, y - 1)
  }

  /** Every grain that left went to one of the three cells below it. */
  ghost predicate DeparturesLanded(sand: seq<bool>, next: seq<bool>, W: nat, H: nat)
    requires |sand| == W * H && |next| == W * H
  {
    forall x: int, y: int | Left(sand, next, W, H, x, y) ::
      Entered(sand, next, W, H, x - 1, y + 1) || Entered(sand, next, W, H, x, y + 1)
      || Entered(sand, next, W, H, x + 1, y + 1)
  }

  /** Moving the grain at (x, y) to the empty cell (nx, y + 1) keeps every arrival fed. */
  lemma MoveKeepsArrivalsFed(sand: seq<bool>, next: seq<bool>, W: nat, H: nat, x: nat, y: nat, nx: nat)
    requires |sand| == W * H && |next| == W * H
    requires x < W && y + 1 < H && nx < W && x - 1 <= nx <= x + 1
    requires sand[Idx(W, H, x, y)] && !sand[Idx(W, H, nx, y + 1)]
    requires ArrivalsFed(sand, next, W, H)
    ensures ArrivalsFed(sand, next[Idx(W, H, x, y) := false][Idx(W, H, nx, y + 1) := true], W, H)
  {
    var i, d := Idx(W, H, x, y), Idx(W, H, nx, y + 1);
    var r := next[i := false][d := true];
    forall x': int, y': int | Entered(sand, r, W, H, x', y')
      ensures Left(sand, r, W, H, x' - 1, y' - 1) || Left(sand, r, W, H, x', y' - 1)
              || Left(sand, r, W, H, x' + 1, y' - 1)
    {
      if Idx(W, H, x', y') == d {
        IdxInjective(W, H, x', y', nx, y + 1);
        assert Left(sand, r, W, H, x, y);
      } else {
        assert Entered(sand, next, W, H, x', y');
      }
    }
  }

  /** Moving the grain at (x, y) to the empty cell (nx, y + 1) keeps every departure landed. */
  lemma MoveKeepsDeparturesLanded(sand: seq<bool>, next: seq<bool>, W: nat, H: nat, x: nat, y: nat, nx: nat)
    requires |sand| == W * H && |next| == W * H
    requires x < W && y + 1 < H && nx < W && x - 1 <= nx <= x + 1
    requires sand[Idx(W, H, x, y)] && next[Idx(W, H, x, y)] && !sand[Idx(W, H, nx, y + 1)]
    requires DeparturesLanded(sand, next, W, H)
    ensures DeparturesLanded(sand, next[Idx(W, H, x, y) := false][Idx(W, H, nx, y + 1) := true], W, H)
  {
    var i, d := Idx(W, H, x, y), Idx(W, H, nx, y + 1);
    var r := next[i := false][d := true];
    forall x': int, y': int | Left(sand, r, W, H, x', y')
      ensures Entered(sand, r, W, H, x' - 1, y' + 1) || Entered(sand, r, W, H, x', y' + 1)
              || Entered(sand, r, W, H, x' + 1, y' + 1)
    {
      if Idx(W, H, x', y') == i {
        IdxInjective(W, H, x', y', x, y);
        assert Entered(sand, r, W, H, nx, y + 1);
      } else {
        assert Left(sand, next, W, H, x', y');
      }
    }
  }

  /** A visit keeps every grain's move within one row down and one column sideways. */
  lemma VisitLocal(sand: seq<bool>, mask: seq<bool>, W: nat, H: nat, parity: nat, next: seq<bool>, x: nat, y: nat)
    requires |sand| == W * H && |mask| == W * H && |next| == W * H
    requires x < W && y < H
    requires Local(sand, next, W, H) && Pending(sand, next, W, x, y)
    ensures Local(sand, Visit(sand, mask, W, H, parity, next, x, y), W, H)
  {
    var i := Idx(W, H, x, y);
    assert ArrivalsFed(sand, next, W, H) && DeparturesLanded(sand, next, W, H);
    if sand[i] {
      match Target(sand, mask, next, W, H, parity, x, y)
      case Stay =>
      case MoveTo(nx) =>
        MoveKeepsArrivalsFed(sand, next, W, H, x, y, nx);
        MoveKeepsDeparturesLanded(sand, next, W, H, x, y, nx);
        var r := Visit(sand, mask, W, H, parity, next, x, y);
        assert ArrivalsFed(sand, r, W, H) && DeparturesLanded(sand, r, W, H);
    }
  }

  /** Untouched on a .. c means untouched on a .. b and on b .. c. */
  lemma SameOnSplit(sand: seq<bool>, next: seq<bool>, a: int, b: int, c: int)
    requires |sand| == |next| && 0 <= a <= b <= c
    requires SameOn(sand, next, a, c)
    ensures SameOn(sand, next, a, b) && SameOn(sand, next, b, c)
  {
  }

  /** Scanning the rest of row y keeps the invariant, and leaves the rows above y untouched. */
  lemma {:induction false} ScanRowKeeps(sand: seq<bool>, mask: seq<bool>, W: nat, H: nat, parity: nat,
                                        next: seq<bool>, x: nat, y: nat)
    requires |sand| == W * H && |mask| == W * H && |next| == W * H
    requires x <= W && y < H
    requires Kept(sand, mask, W, H, next) && Pending(sand, next, W, x, y)
    ensures Kept(sand, mask, W, H, ScanRow(sand, mask, W, H, parity, next, x, y))
    ensures SameOn(sand, ScanRow(sand, mask, W, H, parity, next, x, y), 0, y * W)
    decreases W - x
  {
    if x < W {
      VisitCounts(sand, mask, W, H, parity, next, x, y);
      VisitLocal(sand, mask, W, H, parity, next, x, y);
      ScanRowKeeps(sand, mask, W, H, parity, Visit(sand, mask, W, H, parity, next, x, y), x + 1, y);
    }
  }

  /** Scanning rows rows − 1 down to 0, with those rows still untouched, keeps the invariant. */
  lemma {:induction false} ScanRowsKeeps(sand: seq<bool>, mask: seq<bool>, W: nat, H: nat, parity: nat,
                                         next: seq<bool>, rows: nat)
    requires |sand| == W * H && |mask| == W * H && |next| == W * H
    requires rows <= H
    requires Kept(sand, mask, W, H, next) && SameOn(sand, next, 0, rows * W)
    ensures Kept(sand, mask, W, H, ScanRows(sand, mask, W, H, parity, next, rows))
    decreases rows
  {
    if rows > 0 {
      RowsBelow(rows, W);
      SameOnSplit(sand, next, 0, (rows - 1) * W, rows * W);
      ScanRowKeeps(sand, mask, W, H, parity, next, 0, rows - 1);
      var row := ScanRow(sand, mask, W, H, parity, next, 0, rows - 1);
      ScanRowsKeeps(sand, mask, W, H, parity, row, rows - 1);
      assert ScanRows(sand, mask, W, H, parity, next, rows) == ScanRows(sand, mask, W, H, parity, row, rows - 1);
    }
  }

  /** A whole step keeps the invariant between the pre-step grid and its result. */
  lemma StepKept(sand: seq<bool>, mask: seq<bool>, W: nat, H: nat, parity: nat)
    requires |sand| == W * H && |mask| == W * H
    ensures Kept(sand, mask, W, H, Step(sand, mask, W, H, parity))
  {
    ScanRowsKeeps(sand, mask, W, H, parity, sand, VisitedRows(H));
  }

  /** A step neither creates nor destroys grains, so no cell receives two grains. */
  lemma StepConservesGrains(sand: seq<bool>, mask: seq<bool>, W: nat, H: nat, parity: nat)
    requires |sand| == W * H && |mask| == W * H
    ensures Count(Step(sand, mask, W, H, parity)) == Count(sand)
  {
    StepKept(sand, mask, W, H, parity);
  }

  /** Grains only ever enter cells of the mask: a grid whose grains lie on the mask stays so. */
  lemma StepStaysInMask(sand: seq<bool>, mask: seq<bool>, W: nat, H: nat, parity: nat)
    requires |sand| == W * H && |mask| == W * H
    ensures forall j | 0 <= j < W * H && Step(sand, mask, W, H, parity)[j] :: sand[j] || mask[j]
    ensures (forall j | 0 <= j < W * H && sand[j] :: mask[j]) ==>
              forall j | 0 <= j < W * H && Step(sand, mask, W, H, parity)[j] :: mask[j]
  {
    StepKept(sand, mask, W, H, parity);
  }

  /** A grain moves at most one row down and one column sideways: every newly filled cell
      was fed from one of the three cells above it, and every emptied cell fed one of the
      three cells below it. */
  lemma StepMovesLocally(sand: seq<bool>, mask: seq<bool>, W: nat, H: nat, parity: nat)
    requires |sand| == W * H && |mask| == W * H
    ensures Local(sand, Step(sand, mask, W, H, parity), W, H)
  {
    StepKept(sand, mask, W, H, parity);
  }

  /** Grains on the bottom row never move. */
  lemma StepKeepsBottomRow(sand: seq<bool>, mask: seq<bool>, W: nat, H: nat, parity: nat, x: nat)
    requires |sand| == W * H && |mask| == W * H
    requires x < W && 0 < H
    ensures sand[Idx(W, H, x, H - 1)] ==> Step(sand, mask, W, H, parity)[Idx(W, H, x, H - 1)]
  {
    StepKept(sand, mask, W, H, parity);
    assert !Left(sand, Step(sand, mask, W, H, parity), W, H, x, H - 1);
  }

  /** A visit never empties a filled cell other than the visited grain's own: it only
      clears the visited cell, and only when that cell held a grain before the step. */
  lemma VisitKeepsFilled(sand: seq<bool>, mask: seq<bool>, W: nat, H: nat, parity: nat,
                         next: seq<bool>, x: nat, y: nat, j: nat)
    requires |sand| == W * H && |mask| == W * H && |next| == W * H
    requires x < W && y < H && j < W * H
    requires next[j] && (!sand[j] || j != Idx(W, H, x, y))
    ensures Visit(sand, mask, W, H, parity, next, x, y)[j]
  {
  }

  /** Scanning row y from column x keeps a filled cell filled unless it is a grain of the
      pre-step grid still to be visited on that row. */
  lemma {:induction false} ScanRowKeepsFilled(sand: seq<bool>, mask: seq<bool>, W: nat, H: nat, parity: nat,
                                              next: seq<bool>, x: nat, y: nat, j: nat)
    requires |sand| == W * H && |mask| == W * H && |next| == W * H
    requires x <= W && y < H && j < W * H
    requires next[j] && (!sand[j] || j < y * W + x || y * W + W <= j)
    ensures ScanRow(sand, mask, W, H, parity, next, x, y)[j]
    decreases W - x
  {
    if x < W {
      VisitKeepsFilled(sand, mask, W, H, parity, next, x, y, j);
      ScanRowKeepsFilled(sand, mask, W, H, parity, Visit(sand, mask, W, H, parity, next, x, y), x + 1, y, j);
    }
  }

  /** Scanning rows rows − 1 down to 0 keeps a filled cell filled unless it is a grain of
      the pre-step grid on one of those rows. */
  lemma {:induction false} ScanRowsKeepsFilled(sand: seq<bool>, mask: seq<bool>, W: nat, H: nat, parity: nat,
                                               next: seq<bool>, rows: nat, j: nat)
    requires |sand| == W * H && |mask| == W * H && |next| == W * H
    requires rows <= H && j < W * H
    requires next[j] && (!sand[j] || rows * W <= j)
    ensures ScanRows(sand, mask, W, H, parity, next, rows)[j]
    decreases rows
  {
    if rows > 0 {
      RowsBelow(rows, W);
      ScanRowKeepsFilled(sand, mask, W, H, parity, next, 0, rows - 1, j);
      var row := ScanRow(sand, mask, W, H, parity, next, 0, rows - 1);
      ScanRowsKeepsFilled(sand, mask, W, H, parity, row, rows - 1, j);
      assert ScanRows(sand, mask, W, H, parity, next, rows) == ScanRows(sand, mask, W, H, parity, row, rows - 1);
    }
  }

  /** A grain at (x, y) with no cell below that it could ever enter: each of the three is
      outside the grid, off the mask, or held a grain before the step. */
  predicate Blocked(sand: seq<bool>, mask: seq<bool>, W: nat, H: nat, x: nat, y: nat)
    requires |sand| == W * H && |mask| == W * H
    requires x < W && y < H
  {
    sand[Idx(W, H, x, y)]
    && Closed(sand, mask, W, H, x - 1, y + 1) && Closed(sand, mask, W, H, x, y + 1)
    && Closed(sand, mask, W, H, x + 1, y + 1)
  }

  /** A cell no grain can enter during a step: outside the grid, off the mask, or occupied
      before the step. */
  predicate Closed(sand: seq<bool>, mask: seq<bool>, W: nat, H: nat, x: int, y: int)
    requires |sand| == W * H && |mask| == W * H
  {
    !(0 <= x < W && 0 <= y < H) || !mask[Idx(W, H, x, y)] || sand[Idx(W, H, x, y)]
  }

  /** Cell c is filled for good once the grain at (x, y) has been visited: c is that grain's
      own cell and the grain is blocked below, or c is the empty mask cell straight below it. */
  predicate Settles(sand: seq<bool>, mask: seq<bool>, W: nat, H: nat, x: nat, y: nat, c: nat)
    requires |sand| == W * H && |mask| == W * H
    requires x < W && y < H
  {
    || (c == Idx(W, H, x, y) && Blocked(sand, mask, W, H, x, y))
    || (y + 1 < H && c == Idx(W, H, x, y + 1) && mask[c] && !sand[c])
  }

  /** The visit of a grain, while its cell is still filled, fills every cell it settles. */
  lemma VisitSettles(sand: seq<bool>, mask: seq<bool>, W: nat, H: nat, parity: nat,
                     next: seq<bool>, x: nat, y: nat, c: nat)
    requires |sand| == W * H && |mask| == W * H && |next| == W * H
    requires x < W && y < H && sand[Idx(W, H, x, y)] && next[Idx(W, H, x, y)]
    requires Settles(sand, mask, W, H, x, y, c)
    ensures c < W * H && Visit(sand, mask, W, H, parity, next, x, y)[c]
  {
    var i := Idx(W, H, x, y);
    if c == i && Blocked(sand, mask, W, H, x, y) {
      assert !Open(sand, mask, next, W, H, x - 1, y + 1);
      assert !Open(sand, mask, next, W, H, x, y + 1);
      assert !Open(sand, mask, next, W, H, x + 1, y + 1);
    } else if !Open(sand, mask, next, W, H, x, y + 1) {
      VisitKeepsFilled(sand, mask, W, H, parity, next, x, y, c);
    }
  }

  /** Scanning row y from column x, with the grain at (x, y) still in place, fills every
      cell that grain settles. */
  lemma ScanRowSettlesHere(sand: seq<bool>, mask: seq<bool>, W: nat, H: nat, parity: nat,
                           next: seq<bool>, x: nat, y: nat, c: nat)
    requires |sand| == W * H && |mask| == W * H && |next| == W * H
    requires x < W && y < H && sand[Idx(W, H, x, y)] && next[Idx(W, H, x, y)]
    requires Settles(sand, mask, W, H, x, y, c)
    ensures c < W * H && ScanRow(sand, mask, W, H, parity, next, x, y)[c]
  {
    VisitSettles(sand, mask, W, H, parity, next, x, y, c);
    ScanRowKeepsFilled(sand, mask, W, H, parity, Visit(sand, mask, W, H, parity, next, x, y), x + 1, y, c);
  }

  /** Scanning row y from column x0 ≤ x, with the grain at (x, y) still in place, fills
      every cell that grain settles. */
  lemma {:induction false} ScanRowSettles(sand: seq<bool>, mask: seq<bool>, W: nat, H: nat, parity: nat,
                                          next: seq<bool>, x0: nat, x: nat, y: nat, c: nat)
    requires |sand| == W * H && |mask| == W * H && |next| == W * H
    requires x0 <= x < W && y < H && sand[Idx(W, H, x, y)] && next[Idx(W, H, x, y)]
    requires Settles(sand, mask, W, H, x, y, c)
    ensures c < W * H && ScanRow(sand, mask, W, H, parity, next, x0, y)[c]
    decreases W - x0
  {
    if x0 < x {
      VisitKeepsFilled(sand, mask, W, H, parity, next, x0, y, Idx(W, H, x, y));
      ScanRowSettles(sand, mask, W, H, parity, Visit(sand, mask, W, H, parity, next, x0, y), x0 + 1, x, y, c);
    } else {
      ScanRowSettlesHere(sand, mask, W, H, parity, next, x, y, c);
    }
  }

  /** Scanning rows y down to 0, with the grain at (x, y) still in place, fills every cell
      that grain settles. */
  lemma ScanRowsSettleHere(sand: seq<bool>, mask: seq<bool>, W: nat, H: nat, parity: nat,
                           next: seq<bool>, x: nat, y: nat, c: nat)
    requires |sand| == W * H && |mask| == W * H && |next| == W * H
    requires x < W && y < H && sand[Idx(W, H, x, y)] && next[Idx(W, H, x, y)]
    requires Settles(sand, mask, W, H, x, y, c)
    ensures c < W * H && ScanRows(sand, mask, W, H, parity, next, y + 1)[c]
  {
    var row := ScanRow(sand, mask, W, H, parity, next, 0, y);
    ScanRowSettles(sand, mask, W, H, parity, next, 0, x, y, c);
    MulLe(y, y, W);
    ScanRowsKeepsFilled(sand, mask, W, H, parity, row, y, c);
  }

  /** The buffer once the scan has visited rows rows − 1 down to stop. */
  ghost function ScanRowsDown(sand: seq<bool>, mask: seq<bool>, W: nat, H: nat, parity: nat,
                              next: seq<bool>, rows: nat, stop: nat): (r: seq<bool>)
    requires |sand| == W * H && |mask| == W * H && |next| == W * H
    requires stop <= rows <= H
    ensures |r| == W * H
    decreases rows
  {
    if rows == stop then next
    else ScanRowsDown(sand, mask, W, H, parity, ScanRow(sand, mask, W, H, parity, next, 0, rows - 1), rows - 1, stop)
  }

  /** The scan of rows rows − 1 down to 0 is the scan down to stop followed by the rest. */
  lemma {:induction false} ScanRowsSplit(sand: seq<bool>, mask: seq<bool>, W: nat, H: nat, parity: nat,
                                         next: seq<bool>, rows: nat, stop: nat)
    requires |sand| == W * H && |mask| == W * H && |next| == W * H
    requires stop <= rows <= H
    ensures ScanRows(sand, mask, W, H, parity, next, rows)
            == ScanRows(sand, mask, W, H, parity, ScanRowsDown(sand, mask, W, H, parity, next, rows, stop), stop)
    decreases rows
  {
    if rows > stop {
      ScanRowsSplit(sand, mask, W, H, parity, ScanRow(sand, mask, W, H, parity, next, 0, rows - 1), rows - 1, stop);
    }
  }

  /** Scanning rows rows − 1 down to stop keeps a cell of a row above stop filled. */
  lemma {:induction false} ScanRowsDownKeepsFilled(sand: seq<bool>, mask: seq<bool>, W: nat, H: nat, parity: nat,
                                                   next: seq<bool>, rows: nat, stop: nat, j: nat)
    requires |sand| == W * H && |mask| == W * H && |next| == W * H
    requires stop <= rows <= H && j < W * H && j < stop * W && next[j]
    ensures ScanRowsDown(sand, mask, W, H, parity, next, rows, stop)[j]
    decreases rows
  {
    if rows > stop {
      BeforeLaterRow(j, stop, rows - 1, W);
      ScanRowKeepsFilled(sand, mask, W, H, parity, next, 0, rows - 1, j);
      var row := ScanRow(sand, mask, W, H, parity, next, 0, rows - 1);
      ScanRowsDownKeepsFilled(sand, mask, W, H, parity, row, rows - 1, stop, j);
    }
  }

  /** The step is the scan of rows H − 2 down to y + 1 followed by the scan of rows y
      down to 0. */
  lemma StepSplitAt(sand: seq<bool>, mask: seq<bool>, W: nat, H: nat, parity: nat, y: nat)
    requires |sand| == W * H && |mask| == W * H
    requires y + 1 < H
    ensures Step(sand, mask, W, H, parity)
            == ScanRows(sand, mask, W, H, parity, ScanRowsDown(sand, mask, W, H, parity, sand, VisitedRows(H), y + 1), y + 1)
  {
    ScanRowsSplit(sand, mask, W, H, parity, sand, VisitedRows(H), y + 1);
  }

  /** The scan of rows H − 2 down to y + 1 leaves a grain of row y in place. */
  lemma StepReachesRow(sand: seq<bool>, mask: seq<bool>, W: nat, H: nat, parity: nat, x: nat, y: nat)
    requires |sand| == W * H && |mask| == W * H
    requires x < W && y + 1 < H && sand[Idx(W, H, x, y)]
    ensures ScanRowsDown(sand, mask, W, H, parity, sand, VisitedRows(H), y + 1)[Idx(W, H, x, y)]
  {
    RowAbove(W, H, x, y, y + 1);
    ScanRowsDownKeepsFilled(sand, mask, W, H, parity, sand, VisitedRows(H), y + 1, Idx(W, H, x, y));
  }

  /** A grain above an open mask cell that was empty before the step leaves that cell
      filled after the step: the grain falls straight into it, or another grain got there
      first. */
  lemma StepFallsStraight(sand: seq<bool>, mask: seq<bool>, W: nat, H: nat, parity: nat, x: nat, y: nat)
    requires |sand| == W * H && |mask| == W * H
    requires x < W && y + 1 < H && sand[Idx(W, H, x, y)]
    requires mask[Idx(W, H, x, y + 1)] && !sand[Idx(W, H, x, y + 1)]
    ensures Step(sand, mask, W, H, parity)[Idx(W, H, x, y + 1)]
  {
    StepSplitAt(sand, mask, W, H, parity, y);
    StepReachesRow(sand, mask, W, H, parity, x, y);
    var down := ScanRowsDown(sand, mask, W, H, parity, sand, VisitedRows(H), y + 1);
    ScanRowsSettleHere(sand, mask, W, H, parity, down, x, y, Idx(W, H, x, y + 1));
  }

  /** A grain whose three cells below are each outside the grid, off the mask or occupied
      before the step does not move. */
  lemma StepBlockedStays(sand: seq<bool>, mask: seq<bool>, W: nat, H: nat, parity: nat, x: nat, y: nat)
    requires |sand| == W * H && |mask| == W * H
    requires x < W && y < H && Blocked(sand, mask, W, H, x, y)
    ensures Step(sand, mask, W, H, parity)[Idx(W, H, x, y)]
  {
    if y + 1 < H {
      StepSplitAt(sand, mask, W, H, parity, y);
      StepReachesRow(sand, mask, W, H, parity, x, y);
      var down := ScanRowsDown(sand, mask, W, H, parity, sand, VisitedRows(H), y + 1);
      ScanRowsSettleHere(sand, mask, W, H, parity, down, x, y, Idx(W, H, x, y));
    } else {
      StepKeepsBottomRow(sand, mask, W, H, parity, x);
    }
  }

  /** Flipping the parity swaps the diagonal tried first. */
  lemma FlipMirrors(x: nat, parity: nat)
    ensures FirstSide(x, Flip(parity)) == -FirstSide(x, parity)
  {
  }

  /** A grain blocked below with both diagonals open takes the first side of its parity,
      and the mirrored side under the flipped parity. */
  lemma TargetMirrored(sand: seq<bool>, mask: seq<bool>, next: seq<bool>, W: nat, H: nat, parity: nat, x: nat, y: nat)
    requires |sand| == W * H && |mask| == W * H && |next| == W * H
    requires x < W && y < H
    requires !Open(sand, mask, next, W, H, x, y + 1)
    requires Open(sand, mask, next, W, H, x - 1, y + 1) && Open(sand, mask, next, W, H, x + 1, y + 1)
    ensures Target(sand, mask, next, W, H, parity, x, y) == MoveTo(x + FirstSide(x, parity))
    ensures Target(sand, mask, next, W, H, Flip(parity), x, y) == MoveTo(x - FirstSide(x, parity))
  {
    FlipMirrors(x, parity);
  }

  /** Several steps conserve grains and keep them on the mask. */
  lemma {:induction false} RunConserves(sand: seq<bool>, mask: seq<bool>, W: nat, H: nat, parity: nat, n: nat)
    requires |sand| == W * H && |mask| == W * H
    requires forall j | 0 <= j < W * H && sand[j] :: mask[j]
    ensures Count(Run(sand, mask, W, H, parity, n)) == Count(sand)
    ensures forall j | 0 <= j < W * H && Run(sand, mask, W, H, parity, n)[j] :: mask[j]
    decreases n
  {
    if n > 0 {
      StepConservesGrains(sand, mask, W, H, parity);
      StepStaysInMask(sand, mask, W, H, parity);
      RunConserves(Step(sand, mask, W, H, parity), mask, W, H, Flip(parity), n - 1);
    }
  }

  /** Running k + 1 steps is running k and then one more under the parity flipped k times. */
  lemma {:induction false} RunOneMore(sand: seq<bool>, mask: seq<bool>, W: nat, H: nat, parity: nat, k: nat)
    requires |sand| == W * H && |mask| == W * H
    requires parity < 2
    ensures Run(sand, mask, W, H, parity, k + 1)
            == Step(Run(sand, mask, W, H, parity, k), mask, W, H, (parity + k) % 2)
    decreases k
  {
    if k > 0 {
      var next := Step(sand, mask, W, H, parity);
      RunOneMore(next, mask, W, H, Flip(parity), k - 1);
      assert Run(sand, mask, W, H, parity, k) == Run(next, mask, W, H, Flip(parity), k - 1);
      assert (Flip(parity) + (k - 1)) % 2 == (parity + k) % 2;
    } else {
      assert Run(sand, mask, W, H, parity, 1) == Run(Step(sand, mask, W, H, parity), mask, W, H, Flip(parity), 0);
    }
  }

  /** The rows `createSand` fills: from row 2 up to, not including, row floor(H/2) − 1. */
  predicate InitialRow(H: nat, y: int)
  {
    2 <= y < H / 2 - 1
  }

  /** `createSand`: a fresh grid with a grain on every mask cell of the initial rows. */
  method CreateSand(W: nat, H: nat, mask: array<bool>) returns (sand: array<bool>)
    requires mask.Length == W * H
    ensures fresh(sand) && sand.Length == W * H
    ensures forall x: nat, y: nat | x < W && y < H ::
              sand[Idx(W, H, x, y)] == (mask[Idx(W, H, x, y)] && InitialRow(H, y))
    ensures forall j | 0 <= j < W * H && sand[j] :: mask[j]
  {
    sand := new bool[W * H](_ => false);
    var halfH := H / 2;
    var y := 2;
    while y < halfH - 1
      invariant 2 <= y <= Max(2, halfH - 1)
      invariant forall x: nat, y': nat | x < W && y' < H ::
                  sand[Idx(W, H, x, y')] == (mask[Idx(W, H, x, y')] && 2 <= y' < y)
      invariant forall j | 0 <= j < W * H && sand[j] :: mask[j]
    {
      var x := 0;
      while x < W
        invariant 0 <= x <= W
        invariant forall x': nat, y': nat | x' < W && y' < H ::
                    sand[Idx(W, H, x', y')] == (mask[Idx(W, H, x', y')] && (2 <= y' < y || (y' == y && x' < x)))
        invariant forall j | 0 <= j < W * H && sand[j] :: mask[j]
      {
        var i := y * W + x;
        assert i == Idx(W, H, x, y);
        if mask[i] {
          sand[i] := true;
        }
        forall x': nat, y': nat | x' < W && y' < H && Idx(W, H, x', y') == i ensures x' == x && y' == y {
          IdxInjective(W, H, x', y', x, y);
        }
        x := x + 1;
      }
      y := y + 1;
    }
  }

  /** `stepSand`: copies the grid, then scans rows H−2 down to 0 moving grains of the old grid. */
  method StepSand(sand: array<bool>, mask: array<bool>, W: nat, H: nat, parity: nat) returns (next: array<bool>)
    requires sand.Length == W * H && mask.Length == W * H
    ensures fresh(next)
    ensures next[..] == Step(sand[..], mask[..], W, H, parity)
  {
    next := new bool[sand.Length](i requires 0 <= i < sand.Length reads sand => sand[i]);
    ghost var s, m := sand[..], mask[..];
    assert next[..] == s;
    var y: int := H - 2;
    while y >= 0
      invariant -2 <= y <= H - 2
      invariant y < -1 ==> H == 0
      invariant next.Length == W * H
      invariant sand[..] == s && mask[..] == m
      invariant ScanRows(s, m, W, H, parity, next[..], if y < 0 then 0 else y + 1) == Step(s, m, W, H, parity)
      decreases y + 2
    {
      StepRow(sand, mask, next, W, H, parity, y);
      y := y - 1;
    }
  }

  /** One pass of the inner loop of `stepSand`: visits the cells of row y left to right. */
  method StepRow(sand: array<bool>, mask: array<bool>, next: array<bool>, W: nat, H: nat, parity: nat, y: nat)
    requires sand.Length == W * H && mask.Length == W * H && next.Length == W * H
    requires next != sand && next != mask
    requires y < H
    modifies next
    ensures next[..] == ScanRow(sand[..], mask[..], W, H, parity, old(next[..]), 0, y)
  {
    ghost var s, m, rowStart := sand[..], mask[..], next[..];
    var x := 0;
    while x < W
      invariant 0 <= x <= W
      invariant ScanRow(s, m, W, H, parity, next[..], x, y) == ScanRow(s, m, W, H, parity, rowStart, 0, y)
    {
      VisitCell(sand, mask, next, W, H, parity, x, y);
      x := x + 1;
    }
  }

  /** The body of the scan for one cell (x, y): the straight-down attempt, then the two
      diagonals in the parity order, each checked against the mask, the old grid and `next`. */
  method VisitCell(sand: array<bool>, mask: array<bool>, next: array<bool>, W: nat, H: nat, parity: nat,
                   x: nat, y: nat)
    requires sand.Length == W * H && mask.Length == W * H && next.Length == W * H
    requires next != sand && next != mask
    requires x < W && y < H
    modifies next
    ensures next[..] == Visit(sand[..], mask[..], W, H, parity, old(next[..]), x, y)
  {
    ghost var s, m, before := sand[..], mask[..], next[..];
    var i := y * W + x;
    assert i == Idx(W, H, x, y);
    if !sand[i] {
      return;
    }
    var y1 := y + 1;
    var moved := false;
    if y1 < H {
      var iDown := i + W;
      assert iDown == Idx(W, H, x, y1);
      if mask[iDown] && !sand[iDown] && !next[iDown] {
        assert Open(s, m, before, W, H, x, y1);
        next[i] := false;
        next[iDown] := true;
        moved := true;
        assert next[..] == before[i := false][Idx(W, H, x, y1) := true];
        assert next[..] == Visit(s, m, W, H, parity, before, x, y);
        return;
      }
    }
    assert !Open(s, m, before, W, H, x, y + 1);
    var first := if (x + parity) % 2 == 1 then 1 else -1;
    var d := 0;
    while d < 2 && !moved
      invariant 0 <= d <= 2
      invariant !moved && next[..] == before && !Open(s, m, before, W, H, x, y + 1)
      invariant d >= 1 ==> !Open(s, m, before, W, H, x + first, y + 1)
      invariant d >= 2 ==> !Open(s, m, before, W, H, x - first, y + 1)
      decreases 2 - d
    {
      var dx := if d == 0 then first else -first;
      var nx := x + dx;
      var ny := y + 1;
      if nx >= 0 && nx < W && ny < H {
        var j := ny * W + nx;
        assert j == Idx(W, H, nx, ny);
        if mask[j] && !sand[j] && !next[j] {
          assert Open(s, m, before, W, H, nx, ny);
          assert Target(s, m, before, W, H, parity, x, y) == MoveTo(nx);
          next[i] := false;
          next[j] := true;
          moved := true;
          assert next[..] == before[i := false][Idx(W, H, nx, ny) := true];
          break;
        }
      }
      d := d + 1;
    }
    if !moved {
      assert first == 1 || first == -1;
      assert !Open(s, m, before, W, H, x - 1, y + 1) && !Open(s, m, before, W, H, x + 1, y + 1);
      assert Target(s, m, before, W, H, parity, x, y) == Stay;
      assert Visit(s, m, W, H, parity, before, x, y) == before;
    }
  }
}
