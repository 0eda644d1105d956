/**
 * The placement planner of js/utils.js: the Ulam-style square spiral of grid
 * cells (`generateSpiralCoordinates`), the collision test (`distance`,
 * `checkCollision`) and the jittered, collision-avoiding layout
 * (`generatePositions`).
 *
 * The spiral walk is specified by a closed form, `SpiralIndex`, giving for
 * every cell its position along the walk; the walk's loop keeps
 * `SpiralIndex(current cell) == i`, which yields "exactly count cells",
 * "starts at the origin", "no cell repeats" and, with `SpiralIndexInjective`,
 * the cell sequence itself.
 */
module Placement {

  /** POSITION_CONFIG.CELL_SIZE: the side of one grid cell. */
  const CELL_SIZE: int := 6
  /** POSITION_CONFIG.RANDOM_OFFSET_RANGE: the jitter inside a cell is within +-2. */
  const RANDOM_OFFSET_RANGE: real := 2.0

  /** A grid cell `{col, row}`. */
  datatype Cell = Cell(col: int, row: int)

  /** A position `{x, z}` on the floor plane. */
  datatype Pos = Pos(x: real, z: real)

  /** The walking direction `(dx, dz)`. */
  datatype Heading = Heading(dx: int, dz: int)

  function Abs(n: int): nat { if n < 0 then -n else n }

  /** The square ring a cell lies on: its Chebyshev distance from the origin. */
  function Ring(c: Cell): nat {
    if Abs(c.col) < Abs(c.row) then Abs(c.row) else Abs(c.col)
  }

  /**
   * Number of cells strictly inside ring `k` (k >= 1): one for the origin
   * and 8j for each ring j below k, which is (2k-1)^2 (`RingStartSquare`).
   */
  function RingStart(k: int): int
    decreases k
  {
    if k <= 1 then 1 else RingStart(k - 1) + 8 * (k - 1)
  }

  /**
   * Where cell `c` comes in the spiral walk. Ring k >= 1 holds the 8k
   * walk steps RingStart(k) .. RingStart(k) + 8k - 1, walked up its right
   * side, leftwards along its top, down its left side and rightwards along
   * its bottom.
   */
  function SpiralIndex(c: Cell): int {
    var k: int := Ring(c);
    if k == 0 then 0
    else if c.col == k && c.row > -k then RingStart(k) + c.row + k - 1
    else if c.row == k then RingStart(k) + 3 * k - 1 - c.col
    else if c.col == -k then RingStart(k) + 5 * k - 1 - c.row
    else RingStart(k) + 7 * k - 1 + c.col
  }

  /** The heading with which the walk enters cell `c` (before the corner test). */
  function Arrival(c: Cell): Heading {
    var k: int := Ring(c);
    if k == 0 then Heading(0, -1)
    else if c.col == k && c.row == 1 - k then Heading(1, 0)
    else if c.col == k && c.row > -k then Heading(0, 1)
    else if c.row == k then Heading(-1, 0)
    else if c.col == -k then Heading(0, -1)
    else Heading(1, 0)
  }

  /** The corner test of the walk (js/utils.js:210). */
  predicate IsCorner(c: Cell) {
    c.col == c.row || (c.col < 0 && c.col == -c.row) || (c.col > 0 && c.col == 1 - c.row)
  }

  /** A quarter turn: (dx, dz) becomes (-dz, dx). */
  function Rotate(h: Heading): Heading { Heading(-h.dz, h.dx) }

  /** The heading actually taken out of `c`. */
  function Leave(c: Cell, h: Heading): Heading { if IsCorner(c) then Rotate(h) else h }

  function Advance(c: Cell, h: Heading): Cell { Cell(c.col + h.dx, c.row + h.dz) }

  /** One of the four unit axis vectors. */
  predicate IsUnit(h: Heading) {
    (h.dx == 0 && (h.dz == 1 || h.dz == -1)) || (h.dz == 0 && (h.dx == 1 || h.dx == -1))
  }

  /** `b` is reached from `a` by one unit step along an axis. */
  predicate Adjacent(a: Cell, b: Cell) {
    IsUnit(Heading(b.col - a.col, b.row - a.row))
  }

  lemma StepIsAdjacent(c: Cell, h: Heading)
    requires IsUnit(h)
    ensures Adjacent(c, Advance(c, h))
  {
    assert Heading(Advance(c, h).col - c.col, Advance(c, h).row - c.row) == h;
  }

  /** The cells named in the doc comment at js/utils.js:197. */
  const DOCUMENTED_START: seq<Cell> :=
    [Cell(0, 0), Cell(1, 0), Cell(1, 1), Cell(0, 1), Cell(-1, 1), Cell(-1, 0)]

  lemma {:induction false} RingStartPositive(k: int)
    requires k >= 1
    ensures RingStart(k) >= 1
    decreases k
  {
    if k > 1 {
      RingStartPositive(k - 1);
    }
  }

  lemma RingStartGrows(k: int)
    requires k >= 1
    ensures RingStart(k) >= 1
    ensures RingStart(k) + 8 * k == RingStart(k + 1)
  {
    RingStartPositive(k);
  }

  /** The count of cells inside ring k is the area of the (2k-1)-square. */
  lemma {:induction false} RingStartSquare(k: int)
    requires k >= 1
    ensures RingStart(k) == (2 * k - 1) * (2 * k - 1)
    decreases k
  {
    if k > 1 {
      RingStartSquare(k - 1);
      assert (2 * k - 3) * (2 * k - 3) + 8 * (k - 1) == (2 * k - 1) * (2 * k - 1);
    }
  }

  /** Every cell's index lies in the index range of its ring. */
  lemma SpiralIndexInRing(c: Cell)
    ensures Ring(c) == 0 ==> SpiralIndex(c) == 0
    ensures Ring(c) > 0 ==>
      RingStart(Ring(c)) <= SpiralIndex(c) < RingStart(Ring(c)) + 8 * Ring(c)
  {
    if Ring(c) > 0 {
      RingStartGrows(Ring(c));
    }
  }

  lemma {:induction false} RingStartMonotone(j: int, k: int)
    requires 1 <= j < k
    ensures RingStart(j) + 8 * j <= RingStart(k)
    decreases k
  {
    if j < k - 1 {
      RingStartMonotone(j, k - 1);
    }
  }

  /** Distinct cells have distinct indices: the spiral visits no cell twice. */
  lemma SpiralIndexInjective(a: Cell, b: Cell)
    requires SpiralIndex(a) == SpiralIndex(b)
    ensures a == b
  {
    SpiralIndexInRing(a);
    SpiralIndexInRing(b);
    var ka, kb := Ring(a), Ring(b);
    if ka < kb {
      if ka > 0 { RingStartMonotone(ka, kb); } else { RingStartGrows(kb); }
      assert false;
    } else if kb < ka {
      if kb > 0 { RingStartMonotone(kb, ka); } else { RingStartGrows(ka); }
      assert false;
    }
  }

  /** One step of the walk: out of a cell with its arrival heading into the next index. */
  lemma {:induction false} StepAdvancesIndex(c: Cell)
    requires SpiralIndex(c) >= 0
    ensures var h := Leave(c, Arrival(c));
      IsUnit(h) &&
      SpiralIndex(Advance(c, h)) == SpiralIndex(c) + 1 &&
      Arrival(Advance(c, h)) == h
  {
    var k: int := Ring(c);
    var h := Leave(c, Arrival(c));
    var n := Advance(c, h);
    if k == 0 {
      assert n == Cell(1, 0);
    } else if c.col == k && c.row > -k {
      if c.row == k {
        assert n == Cell(k - 1, k) && Ring(n) == k;
      } else {
        assert n == Cell(k, c.row + 1) && Ring(n) == k;
      }
    } else if c.row == k {
      if c.col == -k {
        assert n == Cell(-k, k - 1) && Ring(n) == k;
      } else {
        assert n == Cell(c.col - 1, k) && Ring(n) == k;
      }
    } else if c.col == -k {
      if c.row == -k {
        assert n == Cell(1 - k, -k) && Ring(n) == k;
      } else {
        assert n == Cell(-k, c.row - 1) && Ring(n) == k;
      }
    } else {
      if c.col == k {
        assert n == Cell(k + 1, -k) && Ring(n) == k + 1;
        RingStartGrows(k);
      } else {
        assert n == Cell(c.col + 1, -k) && Ring(n) == k;
      }
    }
  }

  /** Two cell sequences placed along the spiral are the same sequence. */
  lemma SpiralDeterministic(a: seq<Cell>, b: seq<Cell>)
    requires |a| == |b|
    requires forall j :: 0 <= j < |a| ==> SpiralIndex(a[j]) == j
    requires forall j :: 0 <= j < |b| ==> SpiralIndex(b[j]) == j
    ensures a == b
  {
    forall j | 0 <= j < |a| ensures a[j] == b[j] {
      SpiralIndexInjective(a[j], b[j]);
    }
  }

  /**
   * A sequence laid along the spiral has no repeated cell and begins with
   * the cells the doc comment of js/utils.js:197 lists.
   */
  lemma SpiralPrefixFacts(coords: seq<Cell>)
    requires forall j :: 0 <= j < |coords| ==> SpiralIndex(coords[j]) == j
    ensures forall j, l :: 0 <= j < l < |coords| ==> coords[j] != coords[l]
    ensures forall j :: 0 <= j < |coords| && j < |DOCUMENTED_START| ==> coords[j] == DOCUMENTED_START[j]
  {
    forall j | 0 <= j < |coords| && j < |DOCUMENTED_START|
      ensures coords[j] == DOCUMENTED_START[j]
    {
      assert SpiralIndex(DOCUMENTED_START[j]) == j;
      SpiralIndexInjective(coords[j], DOCUMENTED_START[j]);
    }
  }

  /** The walk so far: cell j is the j-th cell of the spiral and one step from the cell before. */
  ghost predicate Walked(coords: seq<Cell>)
    decreases |coords|
  {
    coords == [] ||
    (var n := |coords| - 1;
     Walked(coords[..n]) && SpiralIndex(coords[n]) == n && (n > 0 ==> Adjacent(coords[n - 1], coords[n])))
  }

  /** Appending the cell with the next index, one step from the last, extends the walk. */
  lemma WalkStep(coords: seq<Cell>, c: Cell)
    requires Walked(coords) && SpiralIndex(c) == |coords|
    requires |coords| > 0 ==> Adjacent(coords[|coords| - 1], c)
    ensures Walked(coords + [c])
  {
    assert (coords + [c])[..|coords|] == coords;
  }

  /** What a walk states about each of its cells. */
  lemma {:induction false} WalkedFacts(coords: seq<Cell>)
    requires Walked(coords)
    ensures forall j :: 0 <= j < |coords| ==> SpiralIndex(coords[j]) == j
    ensures forall j :: 0 <= j < |coords| - 1 ==> Adjacent(coords[j], coords[j + 1])
    decreases |coords|
  {
    if coords != [] {
      var n := |coords| - 1;
      WalkedFacts(coords[..n]);
    }
  }

  /**
   * generateSpiralCoordinates (js/utils.js:201-221): `count` cells of the
   * spiral, starting at the origin and heading first towards -z.
   */
  method GenerateSpiralCoordinates(count: nat) returns (coords: seq<Cell>)
    ensures |coords| == count
    ensures forall j :: 0 <= j < count ==> SpiralIndex(coords[j]) == j
    ensures forall j :: 0 <= j < count - 1 ==> Adjacent(coords[j], coords[j + 1])
    ensures forall j, l :: 0 <= j < l < count ==> coords[j] != coords[l]
    ensures forall j :: 0 <= j < count && j < |DOCUMENTED_START| ==> coords[j] == DOCUMENTED_START[j]
  {
    coords := [];
    var x, z := 0, 0;
    var dx, dz := 0, -1;
    for i := 0 to count
      invariant |coords| == i && Walked(coords)
      invariant SpiralIndex(Cell(x, z)) == i
      invariant Heading(dx, dz) == Arrival(Cell(x, z))
      invariant i > 0 ==> Adjacent(coords[i - 1], Cell(x, z))
    {
      var c := Cell(x, z);
      ghost var h := Leave(c, Arrival(c));
      assert Adjacent(c, Advance(c, h)) && SpiralIndex(Advance(c, h)) == i + 1 &&
        Arrival(Advance(c, h)) == h && Walked(coords + [c]) by {
        StepAdvancesIndex(c);
        StepIsAdjacent(c, h);
        WalkStep(coords, c);
      }
      coords := coords + [c];
      assert coords[i] == c;
      if x == z || (x < 0 && x == -z) || (x > 0 && x == 1 - z) {
        dx, dz := -dz, dx;
      }
      assert Heading(dx, dz) == h;
      x, z := x + dx, z + dz;
      assert Cell(x, z) == Advance(c, h);
    }
    WalkedFacts(coords);
    SpiralPrefixFacts(coords);
  }

  /** Squared Euclidean distance (`distance` without the square root, js/utils.js:47-51). */
  function SqDistance(p: Pos, q: Pos): (d: real)
    ensures d >= 0.0
    ensures p == q ==> d == 0.0
  {
    SumOfSquares(p.x - q.x, p.z - q.z);
    (p.x - q.x) * (p.x - q.x) + (p.z - q.z) * (p.z - q.z)
  }

  lemma SumOfSquares(a: real, b: real)
    ensures a * a + b * b >= 0.0
  {
    assert a * a >= 0.0 && b * b >= 0.0;
  }

  /**
   * `distance(p, q) < minDistance`. As the distance is never negative this
   * holds exactly when minDistance is positive and the squared distance is
   * below minDistance squared.
   */
  predicate TooClose(p: Pos, q: Pos, minDistance: real) {
    minDistance > 0.0 && SqDistance(p, q) < minDistance * minDistance
  }

  /** checkCollision (js/utils.js:60-67): some existing position is strictly too close. */
  method CheckCollision(newPos: Pos, existing: seq<Pos>, minDistance: real) returns (hit: bool)
    ensures hit <==> exists j :: 0 <= j < |existing| && TooClose(newPos, existing[j], minDistance)
  {
    for k := 0 to |existing|
      invariant forall j :: 0 <= j < k ==> !TooClose(newPos, existing[j], minDistance)
    {
      if TooClose(newPos, existing[k], minDistance) {
        return true;
      }
    }
    return false;
  }

  /** The centre of a cell: (col * CELL_SIZE, row * CELL_SIZE). */
  function Center(c: Cell): Pos {
    Pos((c.col * CELL_SIZE) as real, (c.row * CELL_SIZE) as real)
  }

  /** `p` lies within +-RANDOM_OFFSET_RANGE of the centre of `c` on both axes. */
  predicate Jittered(p: Pos, c: Cell) {
    var o := Center(c);
    -RANDOM_OFFSET_RANGE <= p.x - o.x < RANDOM_OFFSET_RANGE &&
    -RANDOM_OFFSET_RANGE <= p.z - o.z < RANDOM_OFFSET_RANGE
  }

  /** `(Math.random() - 0.5) * RANDOM_OFFSET_RANGE * 2`. */
  function Offset(r: real): real { (r - 0.5) * RANDOM_OFFSET_RANGE * 2.0 }

  /** Placement i keeps its distance from every earlier placement. */
  predicate SeparatedFromEarlier(positions: seq<Pos>, i: int, minDistance: real)
    requires 0 <= i < |positions|
  {
    forall j :: 0 <= j < i ==> !TooClose(positions[i], positions[j], minDistance)
  }

  predicate Increasing(s: seq<nat>) {
    forall a, b :: 0 <= a < b < |s| ==> s[a] < s[b]
  }

  /**
   * The first |positions| cells are planned: a forced cell holds its centre,
   * any other a jittered position clear of every earlier one.
   */
  ghost predicate Planned(positions: seq<Pos>, forced: seq<nat>, cells: seq<Cell>, minDistance: real) {
    |positions| <= |cells| &&
    Increasing(forced) && (forall f :: f in forced ==> f < |positions|) &&
    (forall j :: 0 <= j < |positions| && j in forced ==> positions[j] == Center(cells[j])) &&
    (forall j :: 0 <= j < |positions| && j !in forced ==>
      Jittered(positions[j], cells[j]) && SeparatedFromEarlier(positions, j, minDistance))
  }

  /** Accepting a candidate for the next cell keeps the plan. */
  lemma PlaceStep(positions: seq<Pos>, forced: seq<nat>, cells: seq<Cell>, minDistance: real, pos: Pos)
    requires Planned(positions, forced, cells, minDistance) && |positions| < |cells|
    requires Jittered(pos, cells[|positions|])
    requires forall j :: 0 <= j < |positions| ==> !TooClose(pos, positions[j], minDistance)
    ensures Planned(positions + [pos], forced, cells, minDistance)
  {
    var next := positions + [pos];
    forall j | 0 <= j < |next| && j !in forced
      ensures Jittered(next[j], cells[j]) && SeparatedFromEarlier(next, j, minDistance)
    {
      if j < |positions| {
        assert SeparatedFromEarlier(positions, j, minDistance);
      }
    }
  }

  /** Placing the next cell at its centre, and listing it as forced, keeps the plan. */
  lemma ForceStep(positions: seq<Pos>, forced: seq<nat>, cells: seq<Cell>, minDistance: real)
    requires Planned(positions, forced, cells, minDistance) && |positions| < |cells|
    ensures Planned(positions + [Center(cells[|positions|])], forced + [|positions|], cells, minDistance)
  {
    var next := positions + [Center(cells[|positions|])];
    assert forall a :: 0 <= a < |forced| ==> forced[a] in forced;
    forall j | 0 <= j < |next| && j !in forced + [|positions|]
      ensures Jittered(next[j], cells[j]) && SeparatedFromEarlier(next, j, minDistance)
    {
      assert SeparatedFromEarlier(positions, j, minDistance);
    }
  }

  /** Some position of `existing` is strictly too close to `p`: what checkCollision reports. */
  predicate Collides(p: Pos, existing: seq<Pos>, minDistance: real) {
    exists j :: 0 <= j < |existing| && TooClose(p, existing[j], minDistance)
  }

  /**
   * Attempt number `a` (from 0) for `cell` when the attempts for that cell
   * start at position `start` of the stream `random`: the cell centre moved
   * by the offsets drawn from the two values at `start + 2 * a`.
   */
  function Candidate(cell: Cell, random: nat -> real, start: nat, a: nat): Pos {
    var o := Center(cell);
    Pos(o.x + Offset(random(start + 2 * a)), o.z + Offset(random(start + 2 * a + 1)))
  }

  /** With Math.random() in [0, 1), every candidate lies in its cell. */
  lemma CandidateJittered(cell: Cell, random: nat -> real, start: nat, a: nat)
    requires 0.0 <= random(start + 2 * a) < 1.0 && 0.0 <= random(start + 2 * a + 1) < 1.0
    ensures Jittered(Candidate(cell, random, start, a), cell)
  {
  }

  /** `maxAttempts`, or 0 when it is not positive: how many candidates a forced cell costs. */
  function Budget(maxAttempts: int): nat {
    if maxAttempts > 0 then maxAttempts else 0
  }

  /** Values of the stream one cell consumes: two per candidate, one more for an accepted one's facing. */
  function Consumed(tries: nat, placed: bool): nat {
    2 * tries + if placed then 1 else 0
  }

  /**
   * The attempt loop for one cell did this against the positions `prior`
   * placed before it: it drew `tries` candidates from stream position
   * `start`; every one it drew and did not accept collided; an accepted cell
   * holds its last candidate, which is clear of `prior`; a forced cell drew
   * all its candidates and holds its centre.
   */
  ghost predicate Attempted(cell: Cell, prior: seq<Pos>, minDistance: real, maxAttempts: int,
                            random: nat -> real, start: nat, tries: nat, placed: bool, pos: Pos) {
    (forall a :: 0 <= a < tries && !(placed && a == tries - 1) ==>
      Collides(Candidate(cell, random, start, a), prior, minDistance)) &&
    (placed ==>
      0 < tries <= maxAttempts && pos == Candidate(cell, random, start, tries - 1) &&
      !Collides(pos, prior, minDistance)) &&
    (!placed ==> tries == Budget(maxAttempts) && pos == Center(cell))
  }

  /** A cell is forced exactly when each of its maxAttempts candidates collides. */
  lemma ForcedIffAllCollide(cell: Cell, prior: seq<Pos>, minDistance: real, maxAttempts: int,
                            random: nat -> real, start: nat, tries: nat, placed: bool, pos: Pos)
    requires Attempted(cell, prior, minDistance, maxAttempts, random, start, tries, placed, pos)
    ensures !placed <==>
      forall a :: 0 <= a < maxAttempts ==> Collides(Candidate(cell, random, start, a), prior, minDistance)
  {
    if placed {
      assert !Collides(Candidate(cell, random, start, tries - 1), prior, minDistance);
    }
  }

  /** With nothing placed yet and at least one attempt allowed, the first candidate is accepted. */
  lemma FirstCellPlaced(cell: Cell, minDistance: real, maxAttempts: int,
                        random: nat -> real, start: nat, tries: nat, placed: bool, pos: Pos)
    requires Attempted(cell, [], minDistance, maxAttempts, random, start, tries, placed, pos) && maxAttempts > 0
    ensures placed && tries == 1 && pos == Candidate(cell, random, start, 0)
  {
    assert !Collides(Candidate(cell, random, start, 0), [], minDistance);
  }

  /**
   * The attempt loop of generatePositions for one cell (js/utils.js:145-176):
   * up to `maxAttempts` candidates, drawn from stream position `next`, until
   * one keeps `minDistance` from every position in `existing`; `tries` is
   * the number drawn (`attempts`) and `after` the stream position reached.
   */
  method TryCell(cell: Cell, existing: seq<Pos>, minDistance: real, maxAttempts: int, random: nat -> real, next: nat)
    returns (placed: bool, pos: Pos, tries: nat, after: nat)
    requires forall n :: 0.0 <= random(n) < 1.0
    ensures Attempted(cell, existing, minDistance, maxAttempts, random, next, tries, placed, pos)
    ensures after == next + Consumed(tries, placed)
    ensures !placed <==>
      forall a :: 0 <= a < maxAttempts ==> Collides(Candidate(cell, random, next, a), existing, minDistance)
    ensures placed ==> Jittered(pos, cell)
    ensures placed ==> forall j :: 0 <= j < |existing| ==> !TooClose(pos, existing[j], minDistance)
    ensures existing == [] && maxAttempts > 0 ==> placed
  {
    placed, pos, tries, after := false, Center(cell), 0, next;
    while !placed && tries < maxAttempts
      invariant tries <= Budget(maxAttempts)
      invariant after == next + Consumed(tries, placed)
      invariant forall a :: 0 <= a < tries && !(placed && a == tries - 1) ==>
        Collides(Candidate(cell, random, next, a), existing, minDistance)
      invariant placed ==>
        0 < tries && pos == Candidate(cell, random, next, tries - 1) && !Collides(pos, existing, minDistance)
      invariant !placed ==> pos == Center(cell)
      decreases maxAttempts - tries
    {
      var cellCenterX := (cell.col * CELL_SIZE) as real;
      var cellCenterZ := (cell.row * CELL_SIZE) as real;
      var candidate := Pos(cellCenterX + Offset(random(after)), cellCenterZ + Offset(random(after + 1)));
      assert candidate == Candidate(cell, random, next, tries);
      after := after + 2;
      var hit := CheckCollision(candidate, existing, minDistance);
      if !hit {
        // random(after) feeds the facing angle, which is not modelled
        after := after + 1;
        pos := candidate;
        placed := true;
      }
      tries := tries + 1;
    }
    ForcedIffAllCollide(cell, existing, minDistance, maxAttempts, random, next, tries, placed, pos);
    if placed {
      CandidateJittered(cell, random, next, tries - 1);
    } else if maxAttempts > 0 {
      assert Collides(Candidate(cell, random, next, 0), existing, minDistance);
    }
  }

  /**
   * Where the attempts for the cell after the first `n` start in the
   * stream: where the last of those started, plus what it consumed.
   */
  function Resume(starts: seq<nat>, tries: seq<nat>, forced: seq<nat>, n: nat): nat
    requires n <= |starts| && n <= |tries|
  {
    if n == 0 then 0 else starts[n - 1] + Consumed(tries[n - 1], n - 1 !in forced)
  }

  /**
   * Each of the first |positions| cells went through its attempt loop
   * against the positions before it, its attempts starting (`starts`) where
   * the previous cell's left off in the stream.
   */
  ghost predicate Traced(positions: seq<Pos>, forced: seq<nat>, cells: seq<Cell>, starts: seq<nat>,
                         tries: seq<nat>, minDistance: real, maxAttempts: int, random: nat -> real) {
    |starts| == |positions| && |tries| == |positions| && |positions| <= |cells| &&
    (|positions| > 0 ==> starts[0] == 0) &&
    (forall j {:trigger tries[j]} :: 0 <= j < |positions| - 1 ==>
      starts[j + 1] == starts[j] + Consumed(tries[j], j !in forced)) &&
    forall j {:trigger cells[j]} :: 0 <= j < |positions| ==>
      Attempted(cells[j], positions[..j], minDistance, maxAttempts, random, starts[j], tries[j], j !in forced, positions[j])
  }

  /** Recording the outcome of the next cell's attempt loop extends the trace. */
  lemma TraceStep(positions: seq<Pos>, forced: seq<nat>, cells: seq<Cell>, starts: seq<nat>, tries: seq<nat>,
                  minDistance: real, maxAttempts: int, random: nat -> real, t: nat, placed: bool, pos: Pos)
    requires Traced(positions, forced, cells, starts, tries, minDistance, maxAttempts, random)
    requires |positions| < |cells| && forall f :: f in forced ==> f < |positions|
    requires Attempted(cells[|positions|], positions, minDistance, maxAttempts, random,
                       Resume(starts, tries, forced, |positions|), t, placed, pos)
    ensures var n := |positions|;
      Traced(positions + [pos], if placed then forced else forced + [n], cells,
             starts + [Resume(starts, tries, forced, n)], tries + [t], minDistance, maxAttempts, random)
  {
    var n := |positions|;
    var positions' := positions + [pos];
    var forced' := if placed then forced else forced + [n];
    var starts' := starts + [Resume(starts, tries, forced, n)];
    var tries' := tries + [t];
    assert n in forced' <==> !placed;
    forall j | 0 <= j < n
      ensures starts'[j + 1] == starts'[j] + Consumed(tries'[j], j !in forced')
    {
      assert j in forced' <==> j in forced;
    }
    forall j | 0 <= j < n + 1
      ensures Attempted(cells[j], positions'[..j], minDistance, maxAttempts, random, starts'[j], tries'[j], j !in forced', positions'[j])
    {
      assert positions'[..j] == positions[..j];
      if j == n {
        assert positions[..j] == positions;
      } else {
        assert j in forced' <==> j in forced;
      }
    }
  }

  /**
   * The state of generatePositions after |positions| cells: the plan and
   * the trace hold, `next` is where the next cell's attempts start, and the
   * cells forced so far are what maxAttempts allows.
   */
  ghost predicate Laid(positions: seq<Pos>, forced: seq<nat>, cells: seq<Cell>, starts: seq<nat>, tries: seq<nat>,
                       next: nat, minDistance: real, maxAttempts: int, random: nat -> real) {
    Planned(positions, forced, cells, minDistance) &&
    Traced(positions, forced, cells, starts, tries, minDistance, maxAttempts, random) &&
    next == Resume(starts, tries, forced, |positions|) &&
    (maxAttempts <= 0 ==> |forced| == |positions|) &&
    (maxAttempts > 0 ==> 0 !in forced)
  }

  /** The outcome of the next cell's attempt loop, recorded, keeps the state. */
  lemma LaidStep(positions: seq<Pos>, forced: seq<nat>, cells: seq<Cell>, starts: seq<nat>, tries: seq<nat>,
                 next: nat, minDistance: real, maxAttempts: int, random: nat -> real, t: nat, placed: bool, pos: Pos)
    requires Laid(positions, forced, cells, starts, tries, next, minDistance, maxAttempts, random)
    requires |positions| < |cells|
    requires Attempted(cells[|positions|], positions, minDistance, maxAttempts, random, next, t, placed, pos)
    requires placed ==> Jittered(pos, cells[|positions|])
    ensures var n := |positions|;
      Laid(positions + [if placed then pos else Center(cells[n])], if placed then forced else forced + [n], cells,
           starts + [next], tries + [t], next + Consumed(t, placed), minDistance, maxAttempts, random)
  {
    var n := |positions|;
    var forced' := if placed then forced else forced + [n];
    if n == 0 && maxAttempts > 0 {
      FirstCellPlaced(cells[n], minDistance, maxAttempts, random, next, t, placed, pos);
    }
    TraceStep(positions, forced, cells, starts, tries, minDistance, maxAttempts, random, t, placed, pos);
    assert n in forced' <==> !placed;
    if placed {
      assert !Collides(pos, positions, minDistance);
      PlaceStep(positions, forced, cells, minDistance, pos);
    } else {
      ForceStep(positions, forced, cells, minDistance);
    }
  }

  /**
   * One pass of the outer loop of generatePositions (js/utils.js:138-189):
   * the attempt loop for cell `i`, then the accepted candidate or the
   * cell centre joins the positions, and a forced cell joins `forced`.
   */
  method PlaceCell(i: nat, cells: seq<Cell>, positions: seq<Pos>, forced: seq<nat>, ghost starts: seq<nat>, ghost tries: seq<nat>,
                   next: nat, minDistance: real, maxAttempts: int, random: nat -> real)
    returns (positions': seq<Pos>, forced': seq<nat>, ghost starts': seq<nat>, ghost tries': seq<nat>, next': nat)
    requires forall n :: 0.0 <= random(n) < 1.0
    requires |positions| == i < |cells|
    requires Laid(positions, forced, cells, starts, tries, next, minDistance, maxAttempts, random)
    ensures |positions'| == i + 1 && positions'[..i] == positions
    ensures forced' == forced || forced' == forced + [i]
    ensures Laid(positions', forced', cells, starts', tries', next', minDistance, maxAttempts, random)
  {
    var placed, pos, t;
    placed, pos, t, next' := TryCell(cells[i], positions, minDistance, maxAttempts, random, next);
    LaidStep(positions, forced, cells, starts, tries, next, minDistance, maxAttempts, random, t, placed, pos);
    starts', tries' := starts + [next], tries + [t];
    if placed {
      positions', forced' := positions + [pos], forced;
    } else {
      positions', forced' := positions + [Center(cells[i])], forced + [i];
    }
    assert positions'[..i] == positions;
  }

  /** What the state after the last cell says about each cell. */
  lemma LayoutFacts(positions: seq<Pos>, forced: seq<nat>, cells: seq<Cell>, starts: seq<nat>, tries: seq<nat>,
                    next: nat, minDistance: real, maxAttempts: int, random: nat -> real)
    requires Laid(positions, forced, cells, starts, tries, next, minDistance, maxAttempts, random)
    ensures |starts| == |positions| && |tries| == |positions|
    ensures Increasing(forced) && forall f :: f in forced ==> f < |positions|
    ensures forall i {:trigger cells[i]} :: 0 <= i < |positions| ==> (i in forced <==>
      forall a :: 0 <= a < maxAttempts ==>
        Collides(Candidate(cells[i], random, starts[i], a), positions[..i], minDistance))
    ensures forall i :: 0 <= i < |positions| && i in forced ==> positions[i] == Center(cells[i])
    ensures forall i :: 0 <= i < |positions| && i !in forced ==>
      Jittered(positions[i], cells[i]) && SeparatedFromEarlier(positions, i, minDistance)
    ensures maxAttempts <= 0 ==> |forced| == |positions|
    ensures maxAttempts > 0 ==> 0 !in forced
  {
    forall i | 0 <= i < |positions|
      ensures i in forced <==>
        forall a :: 0 <= a < maxAttempts ==>
          Collides(Candidate(cells[i], random, starts[i], a), positions[..i], minDistance)
    {
      ForcedIffAllCollide(cells[i], positions[..i], minDistance, maxAttempts, random, starts[i], tries[i], i !in forced, positions[i]);
    }
  }

  /**
   * generatePositions (js/utils.js:133-193). `random` is the stream of
   * Math.random() results the call consumes in order: two per candidate
   * and, for an accepted candidate, one more for its facing angle.
   * `forced` lists, in order, the cells for which the warning of
   * js/utils.js:187 is issued; `cells` is the spiral cell behind each
   * position, `starts` the stream position where its attempts began and
   * `tries` how many candidates it drew.
   */
  method GeneratePositions(count: nat, minDistance: real, maxAttempts: int, random: nat -> real)
    returns (positions: seq<Pos>, forced: seq<nat>, ghost cells: seq<Cell>, ghost starts: seq<nat>, ghost tries: seq<nat>)
    requires forall n :: 0.0 <= random(n) < 1.0
    ensures |positions| == count && |cells| == count && |starts| == count && |tries| == count
    ensures forall i :: 0 <= i < count ==> SpiralIndex(cells[i]) == i
    ensures Increasing(forced) && forall f :: f in forced ==> f < count
    ensures Traced(positions, forced, cells, starts, tries, minDistance, maxAttempts, random)
    ensures forall i {:trigger cells[i]} :: 0 <= i < count ==> (i in forced <==>
      forall a :: 0 <= a < maxAttempts ==>
        Collides(Candidate(cells[i], random, starts[i], a), positions[..i], minDistance))
    ensures forall i :: 0 <= i < count && i in forced ==> positions[i] == Center(cells[i])
    ensures forall i :: 0 <= i < count && i !in forced ==>
      Jittered(positions[i], cells[i]) && SeparatedFromEarlier(positions, i, minDistance)
    ensures maxAttempts <= 0 ==> |forced| == count
    ensures maxAttempts > 0 ==> 0 !in forced
  {
    var spiral := GenerateSpiralCoordinates(count);
    cells := spiral;
    positions, forced, starts, tries := [], [], [], [];
    var next := 0;
    for i := 0 to count
      invariant |positions| == i && cells == spiral
      invariant Laid(positions, forced, cells, starts, tries, next, minDistance, maxAttempts, random)
    {
      positions, forced, starts, tries, next :=
        PlaceCell(i, spiral, positions, forced, starts, tries, next, minDistance, maxAttempts, random);
    }
    LayoutFacts(positions, forced, cells, starts, tries, next, minDistance, maxAttempts, random);
  }
}
