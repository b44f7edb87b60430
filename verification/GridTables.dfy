/** Grid shift tables. */
module GridTables {

  datatype LP = LP(lam: real, phi: real)

  /** A regular grid: origin, cell size, number of columns and rows, and the shifts, row by row. */
  datatype CTable = CTable(ll: LP, del: LP, limLam: int, limPhi: int, cvs: seq<LP>)

  /** A usable grid with its refinements. */
  datatype Grid = Grid(ct: CTable, children: seq<CTable>)
}
