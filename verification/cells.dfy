/** Cells of the falling-sand automaton: a material tag and three auxiliary
    counters, each one byte wide, as stored in one RGBA texel. */
module Cells {

  /** One 8-bit texel channel. */
  type Byte = b: int | 0 <= b < 256

  /** Material tags. */
  const VOID: Byte := 0
  const WALL: Byte := 1
  const SAND: Byte := 2
  const WATER: Byte := 3

  /** A cell: its material tag `typ` and the auxiliary bytes `a`, `b`, `c`. */
  datatype Cell = Cell(typ: Byte, a: Byte, b: Byte, c: Byte)

  /** The cell of material `typ` with every auxiliary byte cleared. */
  function Cel(typ: Byte): (r: Cell)
    ensures r.typ == typ && r.a == 0 && r.b == 0 && r.c == 0
  {
    Cell(typ, 0, 0, 0)
  }

  /** The materials the transition rule moves around. */
  predicate Moving(typ: Byte) {
    typ == VOID || typ == SAND || typ == WATER
  }
}
