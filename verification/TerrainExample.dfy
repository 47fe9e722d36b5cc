/** A tile that rises in steps from cell to cell, one of which has heights of its own. */
module TerrainExample {
  import opened Options
  import opened TerrainHeights

  function Slope(i: int, j: int): Option<Cell> {
    Some(Cell((2 * i + j) as real, if i == 0 && j == 1 then Some(seq(145, k => k as real)) else None))
  }

  const CONFIG := Config(true, 5.0, true, 2.0, 2048.0, 0.005)

  lemma SlopeIsProper()
    ensures ProperCells(Slope)
  {
  }

  /** What the outer points hold. */
  lemma Outer(y: int, x: int, before: real)
    requires 0 <= y <= 128 && 0 <= x <= 128
    ensures var i, j := if y == 128 then 15 else y / 8, if x == 128 then 15 else x / 8;
      Merged9(Slope, 256, y, x, before)
        == if i == 0 && j == 1 then 1.0 + (17 * y + (x - 8)) as real else (2 * i + j) as real
    ensures Merged9(Slope, 256, y, x, before) <= 136.0
  {
    SlopeIsProper();
    LastCellWins(Slope, 256, y, x, before);
    hide Merged9;
  }

  lemma Inner(y: int, x: int, before: real)
    requires 0 <= y < 128 && 0 <= x < 128
    ensures Merged8(Slope, 256, y, x, before)
         == if y / 8 == 0 && x / 8 == 1 then 1.0 + (17 * y + 9 + (x - 8)) as real else (2 * (y / 8) + x / 8) as real
    ensures Merged8(Slope, 256, y, x, before) <= 136.0
  {
    SlopeIsProper();
    InnerCell(Slope, 256, y, x, before);
    hide Merged8;
  }

  /** Heights below 5 are raised, the greatest is the last inner one of the cell with heights of its own, and a range of
      131 is above the limit for bytes. */
  method StoreSlope() returns (grids: Grids, storage: Storage, hi: real, lo: real)
    ensures hi == 136.0 && lo == 5.0 && storage == AsInt16 && grids.Valid()
    ensures grids.V9[3, 10] == 54.0 && grids.V8[3, 10] == 63.0 && grids.V8[7, 15] == 136.0
    ensures grids.V9[0, 0] == 5.0 && grids.V9[8, 16] == 5.0 && grids.V9[16, 24] == 7.0 && grids.V9[24, 16] == 8.0
    ensures grids.V9[128, 128] == 45.0 && grids.V9[127, 128] == 45.0 && grids.V8[127, 119] == 44.0
  {
    SlopeIsProper();
    grids := new Grids();
    hide Merged8;
    hide Merged9;
    forall y, x, before | 0 <= y <= 128 && 0 <= x <= 128 {
      Outer(y, x, before);
    }
    forall y, x, before | 0 <= y < 128 && 0 <= x < 128 {
      Inner(y, x, before);
    }
    var packed8, packed9;
    storage, hi, lo, packed8, packed9 := grids.StoreHeights(Slope, CONFIG);
    assert grids.V9[0, 0] == 5.0 && grids.V8[7, 15] == 136.0;
  }
}
