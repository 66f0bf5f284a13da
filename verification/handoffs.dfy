/** Properties of the transition rule: a move between two cells is decided
    twice, once by each cell, from the same previous generation and the same
    jitter; these lemmas show where the two decisions agree, and where they do
    not (the rule neither conserves nor uniquely places every grain). */
module Handoffs {
  import opened Cells
  import opened Rule

  /** The jitter read by a cell at an offset is the jitter the cell at that
      offset reads for itself: it depends on absolute position and time only. */
  lemma JitterIsPositional(noise: Noise, t: real, x: int, y: int, dx: int, dy: int)
    ensures RandDir(noise, t, x, y, dx, dy) == RandDir(noise, t, x + dx, y + dy, 0, 0)
    ensures RandDir(noise, t, x, y, dx, dy) == 1 || RandDir(noise, t, x, y, dx, dy) == -1
  {
  }

  /** Sand or water over a void: the upper cell empties and the lower one
      takes the falling cell whole. Sand swaps in the void cell read from
      below; water leaves a cleared void. */
  lemma FallHandoff(g: Grid, noise: Noise, t: real, x: int, y: int)
    requires IsSquare(g) && InBounds(|g|, x, y) && InBounds(|g|, x, y - 1)
    requires g[y][x].typ == SAND || g[y][x].typ == WATER
    requires g[y - 1][x].typ == VOID
    ensures Next(g, noise, t, x, y - 1) == g[y][x]
    ensures Next(g, noise, t, x, y) == if g[y][x].typ == SAND then g[y - 1][x] else Cel(VOID)
  {
  }

  /** Sand over water that rests on something: the two cells swap. */
  lemma SinkSwap(g: Grid, noise: Noise, t: real, x: int, y: int)
    requires IsSquare(g) && InBounds(|g|, x, y) && InBounds(|g|, x, y - 1)
    requires g[y][x].typ == SAND && g[y - 1][x].typ == WATER
    requires Get(g, x, y, 0, -2).typ != VOID
    ensures Next(g, noise, t, x, y) == g[y - 1][x]
    ensures Next(g, noise, t, x, y - 1) == g[y][x]
  {
  }

  /** Sand that can neither fall nor sink is either unchanged or becomes a
      cleared void, and it becomes void exactly when it slides. */
  lemma SandAtRest(g: Grid, noise: Noise, t: real, x: int, y: int)
    requires IsSquare(g) && InBounds(|g|, x, y) && g[y][x].typ == SAND
    requires Get(g, x, y, 0, -1).typ != VOID
    requires !(Get(g, x, y, 0, -1).typ == WATER && Get(g, x, y, 0, -2).typ != VOID)
    ensures Next(g, noise, t, x, y) == Cel(VOID) <==> Slides(g, noise, t, x, y)
    ensures !Slides(g, noise, t, x, y) ==> Next(g, noise, t, x, y) == g[y][x]
  {
  }

  /** A void whose upper cell is neither sand nor water takes the grain on
      the one diagonal that wants it; when both diagonals want it, or none,
      it stays as it was (neither side has priority). */
  lemma DiagonalFill(g: Grid, noise: Noise, t: real, x: int, y: int)
    requires IsSquare(g) && InBounds(|g|, x, y) && g[y][x].typ == VOID
    requires Get(g, x, y, 0, 1).typ != SAND && Get(g, x, y, 0, 1).typ != WATER
    ensures Next(g, noise, t, x, y) ==
      if Wants(g, noise, t, x, y, -1) && !Wants(g, noise, t, x, y, 1) then Get(g, x, y, -1, 1)
      else if Wants(g, noise, t, x, y, 1) && !Wants(g, noise, t, x, y, -1) then Get(g, x, y, 1, 1)
      else g[y][x]
  {
  }

  /** A sliding grain is caught: unless the cell beside it on its jitter side
      is water, the void diagonally below on that side takes it, and the
      grain's own cell empties. */
  lemma SlideIsCaught(g: Grid, noise: Noise, t: real, x: int, y: int)
    requires IsSquare(g) && InBounds(|g|, x, y) && g[y][x].typ == SAND
    requires Get(g, x, y, 0, -1).typ != VOID
    requires !(Get(g, x, y, 0, -1).typ == WATER && Get(g, x, y, 0, -2).typ != VOID)
    requires Slides(g, noise, t, x, y)
    requires Get(g, x, y, RandDir(noise, t, x, y, 0, 0), 0).typ != WATER
    ensures Next(g, noise, t, x, y) == Cel(VOID)
    ensures var dir := RandDir(noise, t, x, y, 0, 0);
      InBounds(|g|, x + dir, y - 1) && Next(g, noise, t, x + dir, y - 1) == g[y][x]
  {
  }

  /** A lone grain resting on a solid floor, with both diagonals below it
      empty, lands in exactly one of them, the one its jitter picks; the
      other keeps its void. */
  lemma LoneGrainLandsOnce(g: Grid, noise: Noise, t: real, x: int, y: int)
    requires IsSquare(g) && InBounds(|g|, x, y) && g[y][x].typ == SAND
    requires Get(g, x, y, 0, -1).typ != VOID && Get(g, x, y, 0, -1).typ != WATER
    requires Get(g, x, y, -1, 0).typ == VOID && Get(g, x, y, 1, 0).typ == VOID
    requires Get(g, x, y, -1, -1).typ == VOID && Get(g, x, y, 1, -1).typ == VOID
    requires Get(g, x, y, -2, 0).typ != SAND && Get(g, x, y, 2, 0).typ != SAND
    ensures InBounds(|g|, x - 1, y - 1) && InBounds(|g|, x + 1, y - 1)
    ensures Next(g, noise, t, x, y) == Cel(VOID)
    ensures var dir := RandDir(noise, t, x, y, 0, 0);
      Next(g, noise, t, x + dir, y - 1) == g[y][x] &&
      Next(g, noise, t, x - dir, y - 1) == g[y - 1][x - dir]
  {
  }

  /** A sliding grain beside water is lost: its cell empties, the void it
      slides towards takes the water instead, and the water's cell empties
      since the water falls. */
  lemma SlideBesideWaterLosesGrain(g: Grid, noise: Noise, t: real, x: int, y: int)
    requires IsSquare(g) && InBounds(|g|, x, y) && g[y][x].typ == SAND
    requires Get(g, x, y, 0, -1).typ != VOID
    requires !(Get(g, x, y, 0, -1).typ == WATER && Get(g, x, y, 0, -2).typ != VOID)
    requires Slides(g, noise, t, x, y)
    requires Get(g, x, y, RandDir(noise, t, x, y, 0, 0), 0).typ == WATER
    ensures Next(g, noise, t, x, y) == Cel(VOID)
    ensures var dir := RandDir(noise, t, x, y, 0, 0);
      InBounds(|g|, x + dir, y) && InBounds(|g|, x + dir, y - 1) &&
      Next(g, noise, t, x + dir, y - 1) == g[y][x + dir] &&
      Next(g, noise, t, x + dir, y) == Cel(VOID)
  {
  }

  /** The receiving end of a slide: when a void takes the grain on one
      diagonal, that grain empties its own cell, provided the grain cannot
      sink into water and the grain two across from it does not point back. */
  lemma CaughtGrainLeaves(g: Grid, noise: Noise, t: real, x: int, y: int, s: int)
    requires s == 1 || s == -1
    requires IsSquare(g) && InBounds(|g|, x, y) && g[y][x].typ == VOID
    requires Get(g, x, y, 0, 1).typ != SAND && Get(g, x, y, 0, 1).typ != WATER
    requires Wants(g, noise, t, x, y, s) && !Wants(g, noise, t, x, y, -s)
    requires !(Get(g, x, y, s, 0).typ == WATER && Get(g, x, y, s, -1).typ != VOID)
    requires !(Get(g, x, y, -s, 1).typ == SAND && RandDir(noise, t, x, y, -s, 1) == s)
    ensures InBounds(|g|, x + s, y + 1)
    ensures Next(g, noise, t, x, y) == g[y + 1][x + s]
    ensures Next(g, noise, t, x + s, y + 1) == Cel(VOID)
  {
  }

  /** Duplication: a grain that points at a void but is held back by a grain
      two across pointing back, while that second grain falls straight down,
      stays in place and is also copied into the void. */
  lemma PointedBackGrainDuplicates(g: Grid, noise: Noise, t: real, x: int, y: int, s: int)
    requires s == 1 || s == -1
    requires IsSquare(g) && InBounds(|g|, x, y) && g[y][x].typ == VOID
    requires Get(g, x, y, 0, 1).typ != SAND && Get(g, x, y, 0, 1).typ != WATER
    requires Wants(g, noise, t, x, y, s)
    requires !(Get(g, x, y, s, 0).typ == WATER && Get(g, x, y, s, -1).typ != VOID)
    requires Get(g, x, y, -s, 1).typ == SAND && RandDir(noise, t, x, y, -s, 1) == s
    requires Get(g, x, y, -s, 0).typ == VOID
    ensures InBounds(|g|, x + s, y + 1) && InBounds(|g|, x - s, y + 1) && InBounds(|g|, x - s, y)
    ensures Next(g, noise, t, x, y) == g[y + 1][x + s]
    ensures Next(g, noise, t, x + s, y + 1) == g[y + 1][x + s]
    ensures Next(g, noise, t, x - s, y) == g[y + 1][x - s]
  {
  }

  /** Duplication through sinking: a grain over water that rests on
      something sinks into the water, and the void it points at, seeing the
      water as a floor, takes the same grain too. */
  lemma SinkingGrainAlsoCaught(g: Grid, noise: Noise, t: real, x: int, y: int, s: int)
    requires s == 1 || s == -1
    requires IsSquare(g) && InBounds(|g|, x, y) && g[y][x].typ == VOID
    requires Get(g, x, y, 0, 1).typ != SAND && Get(g, x, y, 0, 1).typ != WATER
    requires Get(g, x, y, s, 1).typ == SAND && RandDir(noise, t, x, y, s, 1) == -s
    requires Get(g, x, y, s, 0).typ == WATER && Get(g, x, y, s, -1).typ != VOID
    requires !Wants(g, noise, t, x, y, -s)
    ensures InBounds(|g|, x + s, y + 1) && InBounds(|g|, x + s, y)
    ensures Next(g, noise, t, x, y) == g[y + 1][x + s]
    ensures Next(g, noise, t, x + s, y) == g[y + 1][x + s]
    ensures Next(g, noise, t, x + s, y + 1) == g[y][x + s]
  {
  }

  /** Water on a non-void cell with no sand above it stays as it is. */
  lemma WaterRests(g: Grid, noise: Noise, t: real, x: int, y: int)
    requires IsSquare(g) && InBounds(|g|, x, y) && g[y][x].typ == WATER
    requires Get(g, x, y, 0, -1).typ != VOID && Get(g, x, y, 0, 1).typ != SAND
    ensures Next(g, noise, t, x, y) == g[y][x]
  {
  }

  /** The two generations hold the same walls: a wall in either one is the
      same cell in both. */
  predicate SameWalls(g: Grid, h: Grid)
    requires IsSquare(g) && IsSquare(h) && |g| == |h|
  {
    forall y, x :: 0 <= y < |g| && 0 <= x < |g| && (g[y][x].typ == WALL || h[y][x].typ == WALL) ==>
      h[y][x] == g[y][x]
  }

  /** A pass neither moves, alters nor creates a wall. */
  lemma PassKeepsWalls(g: Grid, noise: Noise, t: real)
    requires IsSquare(g)
    ensures SameWalls(g, NextGrid(g, noise, t))
  {
  }

  /** Any number of passes neither moves, alters nor creates a wall. */
  lemma {:induction false} RunKeepsWalls(g: Grid, noise: Noise, times: seq<real>)
    requires IsSquare(g)
    ensures SameWalls(g, Run(g, noise, times))
    decreases |times|
  {
    if times != [] {
      var h := NextGrid(g, noise, times[0]);
      PassKeepsWalls(g, noise, times[0]);
      RunKeepsWalls(h, noise, times[1..]);
    }
  }

  /** Every cell of the grid is void. */
  predicate AllVoid(g: Grid)
    requires IsSquare(g)
  {
    forall y, x :: 0 <= y < |g| && 0 <= x < |g| ==> g[y][x].typ == VOID
  }

  /** An empty grid is a fixed point of a pass. */
  lemma EmptyIsFixed(g: Grid, noise: Noise, t: real)
    requires IsSquare(g) && AllVoid(g)
    ensures NextGrid(g, noise, t) == g
  {
    var h := NextGrid(g, noise, t);
    forall y | 0 <= y < |g|
      ensures h[y] == g[y]
    {
      forall x | 0 <= x < |g|
        ensures h[y][x] == g[y][x]
      {
        assert !Wants(g, noise, t, x, y, -1) && !Wants(g, noise, t, x, y, 1);
      }
    }
  }

  /** An empty grid stays as it is over any number of passes. */
  lemma {:induction false} EmptyStaysEmpty(g: Grid, noise: Noise, times: seq<real>)
    requires IsSquare(g) && AllVoid(g)
    ensures Run(g, noise, times) == g
    decreases |times|
  {
    if times != [] {
      EmptyIsFixed(g, noise, times[0]);
      EmptyStaysEmpty(g, noise, times[1..]);
    }
  }
}
