/** The double-buffer driver: two N by N textures, the index of the one the
    next pass writes, the 3 by 3 paint applied before a pass, and the pass
    itself. */
module Driver {
  import opened Cells
  import opened Rule

  /** The contents of a texture as a generation: row y, column x is `a[y, x]`. */
  function Snapshot(a: array2<Cell>): (g: Grid)
    reads a
    ensures |g| == a.Length0
    ensures forall y :: 0 <= y < |g| ==> |g[y]| == a.Length1
    ensures forall y, x :: 0 <= y < a.Length0 && 0 <= x < a.Length1 ==> g[y][x] == a[y, x]
  {
    seq(a.Length0, y requires 0 <= y < a.Length0 reads a =>
      seq(a.Length1, x requires 0 <= x < a.Length1 reads a => a[y, x]))
  }

  /** Two generations agree when they agree cell by cell. */
  lemma SameCells(g: Grid, h: Grid)
    requires IsSquare(g) && IsSquare(h) && |g| == |h|
    requires forall y, x :: 0 <= y < |g| && 0 <= x < |g| ==> g[y][x] == h[y][x]
    ensures g == h
  {
    forall y | 0 <= y < |g|
      ensures g[y] == h[y]
    {
    }
  }

  /** The initial scatter: a cell is sand, with cleared auxiliary bytes,
      where its random roll exceeds 0.75, and a cleared void elsewhere. */
  function Scatter(rolls: seq<seq<real>>): (g: Grid)
    requires forall y :: 0 <= y < |rolls| ==> |rolls[y]| == |rolls|
    ensures |g| == |rolls| && IsSquare(g)
    ensures forall y, x :: 0 <= y < |g| && 0 <= x < |g| ==>
      (g[y][x] == Cel(SAND) <==> rolls[y][x] > 0.75) &&
      (g[y][x] == Cel(VOID) <==> rolls[y][x] <= 0.75)
  {
    seq(|rolls|, y requires 0 <= y < |rolls| =>
      seq(|rolls|, x requires 0 <= x < |rolls| =>
        if rolls[y][x] > 0.75 then Cel(SAND) else Cel(VOID)))
  }

  /** The 3 by 3 block centred on (mx, my) lies inside an N by N texture;
      otherwise the texture update is rejected and writes nothing. */
  predicate BlockFits(n: int, mx: int, my: int) {
    0 <= mx - 1 && mx + 2 <= n && 0 <= my - 1 && my + 2 <= n
  }

  predicate InBlock(mx: int, my: int, x: int, y: int) {
    mx - 1 <= x <= mx + 1 && my - 1 <= y <= my + 1
  }

  /** `g` with the 3 by 3 block centred on (mx, my) set to cleared cells of
      `material`, when the block fits; `g` itself when it does not. */
  function Painted(g: Grid, mx: int, my: int, material: Byte): (r: Grid)
    requires IsSquare(g)
    ensures |r| == |g| && IsSquare(r)
    ensures forall y, x :: 0 <= y < |g| && 0 <= x < |g| && BlockFits(|g|, mx, my) && InBlock(mx, my, x, y) ==>
      r[y][x] == Cel(material)
    ensures forall y, x :: 0 <= y < |g| && 0 <= x < |g| && !(BlockFits(|g|, mx, my) && InBlock(mx, my, x, y)) ==>
      r[y][x] == g[y][x]
  {
    if !BlockFits(|g|, mx, my) then g
    else
      seq(|g|, y requires 0 <= y < |g| =>
        seq(|g|, x requires 0 <= x < |g| =>
          if InBlock(mx, my, x, y) then Cel(material) else g[y][x]))
  }

  /** The pair of textures and the index `bufIndex` of the one the next pass
      writes; the other one, `1 - bufIndex`, holds the current generation. */
  class Sandbox {
    const n: nat
    const tex0: array2<Cell>
    const tex1: array2<Cell>
    var bufIndex: int

    ghost predicate Valid()
      reads this
    {
      tex0 != tex1 &&
      tex0.Length0 == n && tex0.Length1 == n &&
      tex1.Length0 == n && tex1.Length1 == n &&
      (bufIndex == 0 || bufIndex == 1)
    }

    /** `tex[i]`. */
    function Tex(i: int): array2<Cell>
      reads this
    {
      if i == 0 then tex0 else tex1
    }

    /** The generation the next pass reads and paint writes to. */
    ghost function Current(): Grid
      reads this, tex0, tex1
    {
      Snapshot(Tex(1 - bufIndex))
    }

    /** The generation the render pass samples, `tex[bufIndex]`. */
    ghost function Shown(): Grid
      reads this, tex0, tex1
    {
      Snapshot(Tex(bufIndex))
    }

    /** Both textures receive the same initial scatter; the first pass
      writes `tex[0]`. */
    constructor (resolution: nat, rolls: seq<seq<real>>)
      requires |rolls| == resolution
      requires forall y :: 0 <= y < |rolls| ==> |rolls[y]| == resolution
      ensures Valid() && fresh(tex0) && fresh(tex1)
      ensures bufIndex == 0
      ensures Current() == Scatter(rolls) && Shown() == Scatter(rolls)
    {
      var a := Fill(rolls);
      var t0 := Upload(a);
      var t1 := Upload(a);
      n := resolution;
      tex0, tex1 := t0, t1;
      bufIndex := 0;
      new;
      SameCells(Current(), Scatter(rolls));
      SameCells(Shown(), Scatter(rolls));
    }

    /** Paint a 3 by 3 block of `material` centred on (mx, my) into the
        current generation `tex[1 - bufIndex]`, when the block fits. */
    method Paint(mx: int, my: int, material: Byte)
      requires Valid()
      modifies Tex(1 - bufIndex)
      ensures Valid() && bufIndex == old(bufIndex)
      ensures Current() == Painted(old(Current()), mx, my, material)
      ensures Shown() == old(Shown())
    {
      var a := Tex(1 - bufIndex);
      if BlockFits(n, mx, my) {
        for dy := 0 to 3
          invariant forall y, x :: 0 <= y < n && 0 <= x < n ==>
            a[y, x] == if InBlock(mx, my, x, y) && y < my - 1 + dy then Cel(material) else old(a[y, x])
        {
          for dx := 0 to 3
            invariant forall y, x :: 0 <= y < n && 0 <= x < n ==>
              a[y, x] == if InBlock(mx, my, x, y) && (y < my - 1 + dy || (y == my - 1 + dy && x < mx - 1 + dx))
                         then Cel(material) else old(a[y, x])
          {
            a[my - 1 + dy, mx - 1 + dx] := Cel(material);
          }
        }
      }
      SameCells(Current(), Painted(old(Current()), mx, my, material));
    }

    /** One pass of the rule: every cell of `tex[bufIndex]` is written from
        the current generation, which is left untouched. */
    method Pass(noise: Noise, t: real)
      requires Valid()
      modifies Tex(bufIndex)
      ensures Valid() && bufIndex == old(bufIndex)
      ensures Current() == old(Current())
      ensures Shown() == NextGrid(old(Current()), noise, t)
    {
      var src := Tex(1 - bufIndex);
      var dst := Tex(bufIndex);
      var g := Snapshot(src);
      for y := 0 to n
        invariant forall yy, xx :: 0 <= yy < y && 0 <= xx < n ==> dst[yy, xx] == Next(g, noise, t, xx, yy)
      {
        for x := 0 to n
          invariant forall yy, xx :: 0 <= yy < y && 0 <= xx < n ==> dst[yy, xx] == Next(g, noise, t, xx, yy)
          invariant forall xx :: 0 <= xx < x ==> dst[y, xx] == Next(g, noise, t, xx, y)
        {
          dst[y, x] := Next(g, noise, t, x, y);
        }
      }
      SameCells(Shown(), NextGrid(g, noise, t));
    }

    /** One animation frame: paint while the mouse button is down, run a pass,
        then swap the roles of the two textures. */
    method Tick(mouseDown: bool, mx: int, my: int, material: Byte, noise: Noise, t: real)
      requires Valid()
      modifies tex0, tex1, this
      ensures Valid() && bufIndex == 1 - old(bufIndex)
      ensures var source := if mouseDown then Painted(old(Current()), mx, my, material) else old(Current());
        Current() == NextGrid(source, noise, t) && Shown() == source
    {
      if mouseDown {
        Paint(mx, my, material);
      }
      Pass(noise, t);
      bufIndex := 1 - bufIndex;
    }

    /** Successive animation frames with the mouse button up, one per time in
        `times`: the current generation goes through the passes of `Run`. */
    method Frames(noise: Noise, times: seq<real>)
      requires Valid()
      modifies tex0, tex1, this
      ensures Valid()
      ensures Current() == Run(old(Current()), noise, times)
    {
      for i := 0 to |times|
        invariant Valid()
        invariant Run(old(Current()), noise, times) == Run(Current(), noise, times[i..])
      {
        Tick(false, 0, 0, VOID, noise, times[i]);
      }
    }
  }

  /** The initial byte buffer, cell by cell. */
  method Fill(rolls: seq<seq<real>>) returns (a: array2<Cell>)
    requires forall y :: 0 <= y < |rolls| ==> |rolls[y]| == |rolls|
    ensures fresh(a) && a.Length0 == a.Length1 == |rolls|
    ensures Snapshot(a) == Scatter(rolls)
  {
    var n := |rolls|;
    a := new Cell[n, n];
    for y := 0 to n
      invariant forall yy, xx :: 0 <= yy < y && 0 <= xx < n ==>
        a[yy, xx] == if rolls[yy][xx] > 0.75 then Cel(SAND) else Cel(VOID)
    {
      for x := 0 to n
        invariant forall yy, xx :: 0 <= yy < y && 0 <= xx < n ==>
          a[yy, xx] == if rolls[yy][xx] > 0.75 then Cel(SAND) else Cel(VOID)
        invariant forall xx :: 0 <= xx < x ==>
          a[y, xx] == if rolls[y][xx] > 0.75 then Cel(SAND) else Cel(VOID)
      {
        a[y, x] := if rolls[y][x] > 0.75 then Cel(SAND) else Cel(VOID);
      }
    }
    SameCells(Snapshot(a), Scatter(rolls));
  }

  /** A texture created from the byte buffer `a`. */
  method Upload(a: array2<Cell>) returns (t: array2<Cell>)
    ensures fresh(t) && t.Length0 == a.Length0 && t.Length1 == a.Length1
    ensures Snapshot(t) == Snapshot(a)
  {
    t := new Cell[a.Length0, a.Length1];
    for y := 0 to a.Length0
      invariant forall yy, xx :: 0 <= yy < y && 0 <= xx < a.Length1 ==> t[yy, xx] == a[yy, xx]
    {
      for x := 0 to a.Length1
        invariant forall yy, xx :: 0 <= yy < y && 0 <= xx < a.Length1 ==> t[yy, xx] == a[yy, xx]
        invariant forall xx :: 0 <= xx < x ==> t[y, xx] == a[y, xx]
      {
        t[y, x] := a[y, x];
      }
    }
    assert forall y | 0 <= y < a.Length0 :: Snapshot(t)[y] == Snapshot(a)[y];
  }
}
