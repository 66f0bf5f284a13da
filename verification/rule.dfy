/** The transition rule of the falling-sand automaton: the neighbour read with
    its wall boundary, the jitter sign, the per-cell rule and the whole-grid
    pass built from it. */
module Rule {
  import opened Cells

  /** A generation: `g[y][x]` is the cell in column `x` of row `y`. Row 0 is
      the bottom row, so "under" is the offset (0, -1). */
  type Grid = seq<seq<Cell>>

  /** The grid is `N` by `N`, where `N` is its number of rows. */
  predicate IsSquare(g: Grid) {
    forall y :: 0 <= y < |g| ==> |g[y]| == |g|
  }

  predicate InBounds(n: int, x: int, y: int) {
    0 <= x < n && 0 <= y < n
  }

  /** The neighbour of cell (x, y) at offset (dx, dy). The test is made, as in
      the shader, on the fragment centre (x + dx + 0.5, y + dy + 0.5) against
      the resolution; a read outside the grid yields a fresh wall. */
  function Get(g: Grid, x: int, y: int, dx: int, dy: int): (r: Cell)
    requires IsSquare(g)
    ensures InBounds(|g|, x + dx, y + dy) ==> r == g[y + dy][x + dx]
    ensures !InBounds(|g|, x + dx, y + dy) ==> r == Cel(WALL)
  {
    var px := (x + dx) as real + 0.5;
    var py := (y + dy) as real + 0.5;
    var res := |g| as real;
    if px < 0.0 || py < 0.0 || px > res || py > res then Cel(WALL)
    else
      assert InBounds(|g|, x + dx, y + dy);
      g[y + dy][x + dx]
  }

  /** Gradient noise over (x, y, time) space, evaluated at a fragment centre
      and a time in seconds. The simplex noise of the shader is not part of
      this model; any total function of its three arguments stands for it. */
  type Noise = (real, real, real) -> real

  /** The jitter sign at absolute cell (px, py) and time t: +1 where the noise
      is positive, -1 elsewhere. It reads no grid. */
  function Jitter(noise: Noise, px: int, py: int, t: real): (r: int)
    ensures r == 1 || r == -1
  {
    if noise(px as real + 0.5, py as real + 0.5, t) > 0.0 then 1 else -1
  }

  /** `rand_dir(dx, dy)` as evaluated by the fragment of cell (x, y). */
  function RandDir(noise: Noise, t: real, x: int, y: int, dx: int, dy: int): (r: int)
    ensures r == 1 || r == -1
  {
    Jitter(noise, x + dx, y + dy, t)
  }

  /** A grain of sand at (x, y) that can neither fall nor sink, and whose
      diagonal below in its jitter direction is empty and uncontested. */
  predicate Slides(g: Grid, noise: Noise, t: real, x: int, y: int)
    requires IsSquare(g)
    // the diagonal a sliding grain empties towards lies inside the grid
    ensures Slides(g, noise, t, x, y) ==>
      InBounds(|g|, x + RandDir(noise, t, x, y, 0, 0), y - 1)
  {
    var dir := RandDir(noise, t, x, y, 0, 0);
    Get(g, x, y, dir, -1).typ == VOID &&
    !(Get(g, x, y, dir, 0).typ == SAND ||
      (Get(g, x, y, dir * 2, 0).typ == SAND && RandDir(noise, t, x, y, dir * 2, 0) == -dir))
  }

  /** The grain of sand diagonally above cell (x, y) on side `s` (-1 for the
      upper left, +1 for the upper right) is heading for (x, y) and cannot
      fall straight down. */
  predicate Wants(g: Grid, noise: Noise, t: real, x: int, y: int, s: int)
    requires IsSquare(g)
    // a grain that wants the cell lies inside the grid
    ensures Wants(g, noise, t, x, y, s) ==> InBounds(|g|, x + s, y + 1)
  {
    Get(g, x, y, s, 1).typ == SAND && RandDir(noise, t, x, y, s, 1) == -s &&
    Get(g, x, y, s, 0).typ != VOID
  }

  /** What cell (x, y) becomes in the next generation, computed from the
      previous generation `g`, the noise and the time alone. */
  function Next(g: Grid, noise: Noise, t: real, x: int, y: int): (r: Cell)
    requires IsSquare(g) && InBounds(|g|, x, y)
    // the next state is copied whole from the cell itself, the cell under
    // it, the cell above it, one of the two cells diagonally above it, or
    // is a cleared void: auxiliary bytes are never computed
    ensures r == g[y][x] || r == Get(g, x, y, 0, -1) || r == Get(g, x, y, 0, 1) ||
            r == Get(g, x, y, -1, 1) || r == Get(g, x, y, 1, 1) || r == Cel(VOID)
    // walls and unknown tags never change
    ensures !Moving(g[y][x].typ) ==> r == g[y][x]
    // a cell that changes takes void, sand or water; in particular no cell
    // becomes a wall
    ensures r != g[y][x] ==> Moving(r.typ)
  {
    var c := Get(g, x, y, 0, 0);
    if c.typ == SAND then
      var under := Get(g, x, y, 0, -1);
      if under.typ == VOID then under
      else if under.typ == WATER && Get(g, x, y, 0, -2).typ != VOID then under
      else if Slides(g, noise, t, x, y) then Cel(VOID)
      else c
    else if c.typ == WATER then
      var under := Get(g, x, y, 0, -1);
      if under.typ == VOID then Cel(VOID)
      else
        var above := Get(g, x, y, 0, 1);
        if above.typ == SAND then above else c
    else if c.typ == VOID then
      var above := Get(g, x, y, 0, 1);
      if above.typ == SAND || above.typ == WATER then above
      else
        var leftWants := Wants(g, noise, t, x, y, -1);
        var rightWants := Wants(g, noise, t, x, y, 1);
        if leftWants then
          if !rightWants then Get(g, x, y, -1, 1) else c
        else if rightWants then Get(g, x, y, 1, 1)
        else c
    else c
  }

  /** One pass of the rule over every cell of `g`. */
  function NextGrid(g: Grid, noise: Noise, t: real): (r: Grid)
    requires IsSquare(g)
    ensures |r| == |g| && IsSquare(r)
    ensures forall y, x :: 0 <= y < |g| && 0 <= x < |g| ==> r[y][x] == Next(g, noise, t, x, y)
  {
    seq(|g|, y requires 0 <= y < |g| =>
      seq(|g|, x requires 0 <= x < |g| => Next(g, noise, t, x, y)))
  }

  /** Successive passes, one per time in `times`, with no painting between. */
  function Run(g: Grid, noise: Noise, times: seq<real>): (r: Grid)
    requires IsSquare(g)
    ensures |r| == |g| && IsSquare(r)
    decreases |times|
  {
    if times == [] then g else Run(NextGrid(g, noise, times[0]), noise, times[1..])
  }
}
