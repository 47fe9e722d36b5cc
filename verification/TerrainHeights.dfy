/** Height grids of a map tile: merged from its cells, limited, and packed to small integers. */
module TerrainHeights {
  import opened Options

  /** A cell's base height and, if it has any, its 9 x 9 outer and 8 x 8 inner height offsets, interleaved by rows. */
  datatype Cell = Cell(ypos: real, heightMap: Option<seq<real>>)

  type Cells = (int, int) -> Option<Cell>

  ghost predicate ProperCells(cells: Cells) {
    forall i, j :: cells(i, j).Some? && cells(i, j).value.heightMap.Some? ==> |cells(i, j).value.heightMap.value| == 145
  }

  /** The height of a cell's outer point (y, x), or of its inner one. */
  function Height9(cell: Cell, y: int, x: int): real
    requires cell.heightMap.Some? ==> |cell.heightMap.value| == 145
    requires 0 <= y <= 8 && 0 <= x <= 8
  {
    cell.ypos + match cell.heightMap { case None => 0.0 case Some(m) => m[y * 17 + x] }
  }

  function Height8(cell: Cell, y: int, x: int): real
    requires cell.heightMap.Some? ==> |cell.heightMap.value| == 145
    requires 0 <= y < 8 && 0 <= x < 8
  {
    cell.ypos + match cell.heightMap { case None => 0.0 case Some(m) => m[y * 17 + 9 + x] }
  }

  /** Outer points on a border belong to the cells on both sides. */
  predicate Covers9(i: int, j: int, y: int, x: int) {
    i * 8 <= y <= i * 8 + 8 && j * 8 <= x <= j * 8 + 8
  }

  predicate Covers8(i: int, j: int, y: int, x: int) {
    i * 8 <= y < i * 8 + 8 && j * 8 <= x < j * 8 + 8
  }

  /** What point (y, x) holds after the first k cells, row by row, when it held before. */
  function Merged9(cells: Cells, k: int, y: int, x: int, before: real): real
    requires forall i, j :: cells(i, j).Some? && cells(i, j).value.heightMap.Some? ==>
               |cells(i, j).value.heightMap.value| == 145
    decreases k
  {
    if k <= 0 then before
    else
      var i, j := (k - 1) / 16, (k - 1) % 16;
      if cells(i, j).Some? && Covers9(i, j, y, x) then Height9(cells(i, j).value, y - i * 8, x - j * 8)
      else Merged9(cells, k - 1, y, x, before)
  }

  function Merged8(cells: Cells, k: int, y: int, x: int, before: real): real
    requires forall i, j :: cells(i, j).Some? && cells(i, j).value.heightMap.Some? ==>
               |cells(i, j).value.heightMap.value| == 145
    decreases k
  {
    if k <= 0 then before
    else
      var i, j := (k - 1) / 16, (k - 1) % 16;
      if cells(i, j).Some? && Covers8(i, j, y, x) then Height8(cells(i, j).value, y - i * 8, x - j * 8)
      else Merged8(cells, k - 1, y, x, before)
  }

  function Owner(y: int): int {
    if y / 8 < 15 then y / 8 else 15
  }

  /** Where cells overlap the last one wins: a point belongs to cell (min(y/8, 15), min(x/8, 15)). */
  lemma {:induction false} LastCellWins(cells: Cells, k: int, y: int, x: int, before: real)
    requires ProperCells(cells) && 0 <= y <= 128 && 0 <= x <= 128 && cells(Owner(y), Owner(x)).Some?
    requires Owner(y) * 16 + Owner(x) < k <= 256
    ensures Covers9(Owner(y), Owner(x), y, x)
    ensures var i, j := if y == 128 then 15 else y / 8, if x == 128 then 15 else x / 8;
      var cell := cells(i, j).value;
      Merged9(cells, k, y, x, before)
        == if cell.heightMap.None? then cell.ypos else cell.ypos + cell.heightMap.value[17 * (y - 8 * i) + (x - 8 * j)]
    decreases k
  {
    var i, j := (k - 1) / 16, (k - 1) % 16;
    if i != Owner(y) || j != Owner(x) {
      assert !Covers9(i, j, y, x);
      LastCellWins(cells, k - 1, y, x, before);
    }
  }

  /** The inner points of different cells do not overlap. */
  lemma {:induction false} InnerCell(cells: Cells, k: int, y: int, x: int, before: real)
    requires ProperCells(cells) && 0 <= y < 128 && 0 <= x < 128 && cells(y / 8, x / 8).Some?
    requires (y / 8) * 16 + x / 8 < k <= 256
    ensures var cell := cells(y / 8, x / 8).value;
      Merged8(cells, k, y, x, before)
        == if cell.heightMap.None? then cell.ypos else cell.ypos + cell.heightMap.value[17 * (y % 8) + 9 + x % 8]
    decreases k
  {
    var i, j := (k - 1) / 16, (k - 1) % 16;
    if i != y / 8 || j != x / 8 {
      assert !Covers8(i, j, y, x);
      InnerCell(cells, k - 1, y, x, before);
    }
  }

  lemma NothingMerged(cells: Cells)
    requires ProperCells(cells)
    ensures forall y, x, before :: Merged9(cells, 0, y, x, before) == before
    ensures forall y, x, before :: Merged8(cells, 0, y, x, before) == before
  {
  }

  /** Cell (i, j) comes after the first 16 i + j ones. */
  lemma NextMerged(cells: Cells, i: int, j: int, k: int, next: int)
    requires ProperCells(cells) && 0 <= i < 16 && 0 <= j < 16 && k == i * 16 + j && next == k + 1
    ensures forall y, x, before :: Merged9(cells, next, y, x, before) ==
              if cells(i, j).Some? && Covers9(i, j, y, x) then Height9(cells(i, j).value, y - i * 8, x - j * 8)
              else Merged9(cells, k, y, x, before)
    ensures forall y, x, before :: Merged8(cells, next, y, x, before) ==
              if cells(i, j).Some? && Covers8(i, j, y, x) then Height8(cells(i, j).value, y - i * 8, x - j * 8)
              else Merged8(cells, k, y, x, before)
  {
    hide Height8;
    hide Height9;
    hide Covers8;
    hide Covers9;
    assert k / 16 == i && k % 16 == j;
  }

  // ---------- merging ----------

  class Grids {
    const V8: array2<real>
    const V9: array2<real>

    constructor ()
      ensures V8.Length0 == V8.Length1 == 128 && V9.Length0 == V9.Length1 == 129 && fresh(V8) && fresh(V9)
    {
      V8 := new real[128, 128];
      V9 := new real[129, 129];
    }

    ghost predicate Valid() {
      V8.Length0 == V8.Length1 == 128 && V9.Length0 == V9.Length1 == 129
    }

    /** Sets the points that cell (i, j) covers, first to its base height and then adding its own heights. */
    method MergeCell(i: int, j: int, cell: Cell)
      requires Valid() && 0 <= i < 16 && 0 <= j < 16
      requires cell.heightMap.Some? ==> |cell.heightMap.value| == 145
      modifies V8, V9
      ensures forall y, x :: 0 <= y <= 128 && 0 <= x <= 128 ==>
                V9[y, x] == if Covers9(i, j, y, x) then Height9(cell, y - i * 8, x - j * 8) else old(V9[y, x])
      ensures forall y, x :: 0 <= y < 128 && 0 <= x < 128 ==>
                V8[y, x] == if Covers8(i, j, y, x) then Height8(cell, y - i * 8, x - j * 8) else old(V8[y, x])
    {
      var y0, x0 := i * 8, j * 8;
      // Base heights
      forall cy, cx | y0 <= cy <= y0 + 8 && x0 <= cx <= x0 + 8 {
        V9[cy, cx] := cell.ypos;
      }
      forall cy, cx | y0 <= cy < y0 + 8 && x0 <= cx < x0 + 8 {
        V8[cy, cx] := cell.ypos;
      }
      // The offsets of the cell
      if cell.heightMap.None? {
        return;
      }
      var v := cell.heightMap.value;
      forall cy, cx | y0 <= cy <= y0 + 8 && x0 <= cx <= x0 + 8 {
        V9[cy, cx] := V9[cy, cx] + v[(cy - y0) * 17 + (cx - x0)];
      }
      forall cy, cx | y0 <= cy < y0 + 8 && x0 <= cx < x0 + 8 {
        V8[cy, cx] := V8[cy, cx] + v[(cy - y0) * 17 + 9 + (cx - x0)];
      }
    }

    /** Offsets. */
    method MergeCells(cells: Cells)
      requires Valid() && ProperCells(cells)
      modifies V8, V9
      ensures forall y, x :: 0 <= y <= 128 && 0 <= x <= 128 ==> V9[y, x] == Merged9(cells, 256, y, x, old(V9[y, x]))
      ensures forall y, x :: 0 <= y < 128 && 0 <= x < 128 ==> V8[y, x] == Merged8(cells, 256, y, x, old(V8[y, x]))
    {
      hide Height8;
      hide Height9;
      hide Covers8;
      hide Covers9;
      NothingMerged(cells);
      hide Merged8;
      hide Merged9;
      for i := 0 to 16
        invariant forall y, x :: 0 <= y <= 128 && 0 <= x <= 128 ==>
                    V9[y, x] == Merged9(cells, i * 16, y, x, old(V9[y, x]))
        invariant forall y, x :: 0 <= y < 128 && 0 <= x < 128 ==>
                    V8[y, x] == Merged8(cells, i * 16, y, x, old(V8[y, x]))
      {
        for j := 0 to 16
          invariant forall y, x :: 0 <= y <= 128 && 0 <= x <= 128 ==>
                      V9[y, x] == Merged9(cells, i * 16 + j, y, x, old(V9[y, x]))
          invariant forall y, x :: 0 <= y < 128 && 0 <= x < 128 ==>
                      V8[y, x] == Merged8(cells, i * 16 + j, y, x, old(V8[y, x]))
        {
          NextMerged(cells, i, j, i * 16 + j, i * 16 + j + 1);
          if cells(i, j).Some? {
            MergeCell(i, j, cells(i, j).value);
          }
        }
      }
    }

    /** hi is the greatest of all heights and of most, and lo the least of all heights and of least. */
    ghost predicate Extent(hi: real, lo: real, most: real, least: real)
      reads V8, V9
    {
      && Between(V8, lo, hi) && Between(V9, lo, hi) && most <= hi && lo <= least
      && (hi == most || Attains(V8, hi) || Attains(V9, hi))
      && (lo == least || Attains(V8, lo) || Attains(V9, lo))
    }

    /** Raises all heights to a minimum, if that is wanted and one lies below it. */
    method LimitHeights(config: Config, maxHeight: real, minHeight: real, ghost most: real, ghost least: real)
      returns (hi: real, lo: real)
      requires Valid() && Extent(maxHeight, minHeight, most, least)
      modifies V8, V9
      ensures Extent(hi, lo, Limited(config, most), Limited(config, least))
      ensures hi == Limited(config, maxHeight) && lo == Limited(config, minHeight)
      ensures forall y, x :: 0 <= y <= 128 && 0 <= x <= 128 ==> V9[y, x] == Limited(config, old(V9[y, x]))
      ensures forall y, x :: 0 <= y < 128 && 0 <= x < 128 ==> V8[y, x] == Limited(config, old(V8[y, x]))
    {
      hi, lo := maxHeight, minHeight;
      assert lo <= V8[0, 0] <= hi;
      ghost var top8, top9, low8, low9 := Where(V8, hi), Where(V9, hi), Where(V8, lo), Where(V9, lo);
      hide Where;
      if config.allowHeightLimit && lo < config.useMinHeight {
        RaiseTo(V8, config.useMinHeight);
        RaiseTo(V9, config.useMinHeight);
        lo := config.useMinHeight;
        if hi < config.useMinHeight {
          hi := config.useMinHeight;
        }
      }
      assert old(Attains(V8, maxHeight)) ==> V8[top8.0, top8.1] == hi;
      assert old(Attains(V9, maxHeight)) ==> V9[top9.0, top9.1] == hi;
      assert old(Attains(V8, minHeight)) ==> V8[low8.0, low8.1] == lo;
      assert old(Attains(V9, minHeight)) ==> V9[low9.0, low9.1] == lo;
    }

    /** Merges the cells of a tile, limits the heights and packs them as the options allow. The limits reported are the
        greatest and the least height, if those are beyond the values the search starts with. */
    method StoreHeights(cells: Cells, config: Config)
      returns (storage: Storage, hi: real, lo: real, packed8: array2?<int>, packed9: array2?<int>)
      requires Valid() && ProperCells(cells)
      modifies V8, V9
      ensures Extent(hi, lo, Limited(config, -20000.0), Limited(config, 20000.0))
      ensures forall y, x :: 0 <= y <= 128 && 0 <= x <= 128 ==>
                V9[y, x] == Limited(config, Merged9(cells, 256, y, x, old(V9[y, x])))
      ensures forall y, x :: 0 <= y < 128 && 0 <= x < 128 ==>
                V8[y, x] == Limited(config, Merged8(cells, 256, y, x, old(V8[y, x])))
      ensures Stored(config, storage, hi, lo, packed8, packed9)
    {
      hi, lo := MergeAndLimit(cells, config);
      assert Between(V8, lo, hi) && Between(V9, lo, hi);
      hide Limited;
      hide Merged8;
      hide Merged9;
      hide Stored;
      hide Extent;
      storage, packed8, packed9 := PackHeights(config, hi, lo);
    }

    method MergeAndLimit(cells: Cells, config: Config) returns (hi: real, lo: real)
      requires Valid() && ProperCells(cells)
      modifies V8, V9
      ensures Extent(hi, lo, Limited(config, -20000.0), Limited(config, 20000.0))
      ensures forall y, x :: 0 <= y <= 128 && 0 <= x <= 128 ==>
                V9[y, x] == Limited(config, Merged9(cells, 256, y, x, old(V9[y, x])))
      ensures forall y, x :: 0 <= y < 128 && 0 <= x < 128 ==>
                V8[y, x] == Limited(config, Merged8(cells, 256, y, x, old(V8[y, x])))
    {
      hide Merged8;
      hide Merged9;
      hide Limited;
      MergeCells(cells);
      hi, lo := WidenLimits(V8, INITIAL_MAX_HEIGHT, INITIAL_MIN_HEIGHT);
      hi, lo := WidenLimits(V9, hi, lo);
      hi, lo := LimitHeights(config, hi, lo, INITIAL_MAX_HEIGHT, INITIAL_MIN_HEIGHT);
    }

    /** How the heights are stored, and that what is packed unpacks to them. */
    ghost predicate Stored(config: Config, storage: Storage, hi: real, lo: real, packed8: array2?<int>,
                           packed9: array2?<int>)
      reads V8, V9, packed8, packed9
    {
      var diff := hi - lo;
      var flat := diff == 0.0 || (config.allowFloatToInt && diff < config.flatDelta);
      && (storage.NoHeight? <==> flat)
      && (storage.AsInt8? <==> !flat && config.allowFloatToInt && diff < config.int8Limit)
      && (storage.AsInt16? <==> !flat && config.allowFloatToInt && config.int8Limit <= diff < config.int16Limit)
      && (storage.AsInt8? ==> lo < hi && packed8 != null && packed9 != null
                              && Packs(packed8, V8, lo, hi, 255) && Packs(packed9, V9, lo, hi, 255))
      && (storage.AsInt16? ==> lo < hi && packed8 != null && packed9 != null
                               && Packs(packed8, V8, lo, hi, 65535) && Packs(packed9, V9, lo, hi, 65535))
    }

    method PackHeights(config: Config, hi: real, lo: real)
      returns (storage: Storage, packed8: array2?<int>, packed9: array2?<int>)
      requires Valid() && Between(V8, lo, hi) && Between(V9, lo, hi)
      ensures Stored(config, storage, hi, lo, packed8, packed9)
    {
      packed8, packed9 := null, null;
      assert lo <= V8[0, 0] <= hi;
      hide Packs;
      hide Between;
      if hi == lo || (config.allowFloatToInt && hi - lo < config.flatDelta) {
        storage := NoHeight;
        return;
      }
      storage := AsFloat;
      if config.allowFloatToInt {
        var diff := hi - lo;
        if diff < config.int8Limit {
          storage := AsInt8;
          packed8 := PackGrid(V8, lo, hi, 255.0 / diff, 255);
          packed9 := PackGrid(V9, lo, hi, 255.0 / diff, 255);
        } else if diff < config.int16Limit {
          storage := AsInt16;
          packed8 := PackGrid(V8, lo, hi, 65535.0 / diff, 65535);
          packed9 := PackGrid(V9, lo, hi, 65535.0 / diff, 65535);
        }
      }
    }
  }

  // ---------- limits and packing ----------

  ghost predicate Between(grid: array2<real>, lo: real, hi: real)
    reads grid
  {
    forall y, x :: 0 <= y < grid.Length0 && 0 <= x < grid.Length1 ==> lo <= grid[y, x] <= hi
  }

  ghost predicate Attains(grid: array2<real>, h: real)
    reads grid
  {
    exists y, x :: 0 <= y < grid.Length0 && 0 <= x < grid.Length1 && grid[y, x] == h
  }

  /** A point of the grid with the given height, if it has one. */
  ghost function Where(grid: array2<real>, h: real): (p: (int, int))
    reads grid
    ensures Attains(grid, h) ==> 0 <= p.0 < grid.Length0 && 0 <= p.1 < grid.Length1 && grid[p.0, p.1] == h
  {
    if Attains(grid, h) then
      var y, x :| 0 <= y < grid.Length0 && 0 <= x < grid.Length1 && grid[y, x] == h;
      (y, x)
    else (0, 0)
  }

  /** Where the search for the limits starts. */
  const INITIAL_MAX_HEIGHT := -20000.0
  const INITIAL_MIN_HEIGHT := 20000.0

  /** Widens the limits to the heights of a grid. */
  method WidenLimits(grid: array2<real>, maxHeight: real, minHeight: real) returns (hi: real, lo: real)
    ensures Between(grid, lo, hi) && lo <= minHeight && maxHeight <= hi
    ensures lo == minHeight || Attains(grid, lo)
    ensures hi == maxHeight || Attains(grid, hi)
  {
    hi, lo := maxHeight, minHeight;
    for y := 0 to grid.Length0
      invariant lo <= minHeight && maxHeight <= hi
      invariant forall i, x :: 0 <= i < y && 0 <= x < grid.Length1 ==> lo <= grid[i, x] <= hi
      invariant lo == minHeight || Attains(grid, lo)
      invariant hi == maxHeight || Attains(grid, hi)
    {
      for x := 0 to grid.Length1
        invariant lo <= minHeight && maxHeight <= hi
        invariant forall i, j :: 0 <= i < y && 0 <= j < grid.Length1 ==> lo <= grid[i, j] <= hi
        invariant forall j :: 0 <= j < x ==> lo <= grid[y, j] <= hi
        invariant lo == minHeight || Attains(grid, lo)
        invariant hi == maxHeight || Attains(grid, hi)
      {
        var h := grid[y, x];
        if hi < h {
          hi := h;
        }
        if lo > h {
          lo := h;
        }
      }
    }
  }

  function AtLeast(h: real, limit: real): real {
    if h < limit then limit else h
  }

  /** Raises all heights to a minimum. */
  method RaiseTo(grid: array2<real>, limit: real)
    modifies grid
    ensures forall y, x :: 0 <= y < grid.Length0 && 0 <= x < grid.Length1 ==>
              grid[y, x] == AtLeast(old(grid[y, x]), limit)
  {
    for y := 0 to grid.Length0
      invariant forall i, x :: 0 <= i < grid.Length0 && 0 <= x < grid.Length1 ==>
                  grid[i, x] == if i < y then AtLeast(old(grid[i, x]), limit) else old(grid[i, x])
    {
      for x := 0 to grid.Length1
        invariant forall i, j :: 0 <= i < grid.Length0 && 0 <= j < grid.Length1 ==>
                    grid[i, j] == if i < y || (i == y && j < x) then AtLeast(old(grid[i, j]), limit)
                                  else old(grid[i, j])
      {
        if grid[y, x] < limit {
          grid[y, x] := limit;
        }
      }
    }
  }

  /** The integer stored for a height. */
  function Packed(h: real, minHeight: real, step: real): int {
    ((h - minHeight) * step + 0.5).Floor
  }

  /** With a step of levels per height range every height fits 0 to levels, and unpacking is off by at most half a
      step. */
  lemma PackAccuracy(h: real, lo: real, hi: real, levels: int, step: real)
    requires lo <= h <= hi && lo < hi && levels > 0 && step == levels as real / (hi - lo)
    ensures step > 0.0 && 0 <= Packed(h, lo, step) <= levels
    ensures -0.5 / step <= lo + Packed(h, lo, step) as real / step - h <= 0.5 / step
  {
    var d, range := h - lo, hi - lo;
    StepPositive(levels as real, range);
    var t, q := d * step, Packed(h, lo, step);
    assert q as real <= t + 0.5 < q as real + 1.0;
    Scales(d, range, step, levels as real);
    assert 0.0 <= t <= levels as real;
    HalfStep(q as real, t, d, step);
  }

  lemma StepPositive(levels: real, range: real)
    requires levels > 0.0 && range > 0.0
    ensures levels / range > 0.0 && range * (levels / range) == levels
  {
  }

  lemma Scales(d: real, range: real, step: real, levels: real)
    requires 0.0 <= d <= range && step > 0.0 && range * step == levels
    ensures 0.0 <= d * step <= levels
  {
    var rest := range - d;
    assert rest * step >= 0.0;
    assert range * step == d * step + rest * step;
  }

  lemma HalfStep(q: real, t: real, d: real, step: real)
    requires step > 0.0 && t == d * step && t - 0.5 <= q <= t + 0.5
    ensures -0.5 / step <= q / step - d <= 0.5 / step
  {
    var a, h := q / step, 0.5 / step;
    assert a * step == q && h * step == 0.5;
    var low, high := a - d + h, h - (a - d);
    assert low * step == q - t + 0.5 && high * step == 0.5 - (q - t);
    NotNegative(low, step);
    NotNegative(high, step);
    assert -0.5 / step == -h;
  }

  lemma NotNegative(x: real, step: real)
    requires step > 0.0 && x * step >= 0.0
    ensures x >= 0.0
  {
  }

  // ---------- storing the heights of a tile ----------

  /** The options of the extractor that concern heights. */
  datatype Config = Config(allowHeightLimit: bool, useMinHeight: real, allowFloatToInt: bool,
                           int8Limit: real, int16Limit: real, flatDelta: real)

  datatype Storage = NoHeight | AsInt8 | AsInt16 | AsFloat

  function Limited(config: Config, h: real): real {
    if config.allowHeightLimit then AtLeast(h, config.useMinHeight) else h
  }

  /** A grid of integers that unpack to the heights, each off by at most half a step. */
  ghost predicate Packs(packed: array2<int>, grid: array2<real>, lo: real, hi: real, levels: int)
    requires lo < hi && levels > 0
    reads packed, grid
  {
    && packed.Length0 == grid.Length0 && packed.Length1 == grid.Length1
    && forall y, x :: 0 <= y < grid.Length0 && 0 <= x < grid.Length1 ==>
         Fits(packed[y, x], grid[y, x], lo, hi, levels)
  }

  /** q is one of the values 0 to levels and unpacks to the height or nearly so. */
  ghost predicate Fits(q: int, h: real, lo: real, hi: real, levels: int)
    requires lo < hi && levels > 0
  {
    StepPositive(levels as real, hi - lo);
    var step := levels as real / (hi - lo);
    0 <= q <= levels && -0.5 / step <= lo + q as real / step - h <= 0.5 / step
  }

  ghost predicate IsStep(step: real, lo: real, hi: real, levels: int) {
    lo < hi && levels > 0 && step == levels as real / (hi - lo)
  }

  lemma PackedFits(h: real, lo: real, hi: real, levels: int, step: real)
    requires lo <= h <= hi && lo < hi && levels > 0 && IsStep(step, lo, hi, levels)
    ensures Fits(Packed(h, lo, step), h, lo, hi, levels)
  {
    PackAccuracy(h, lo, hi, levels, step);
  }

  method PackGrid(grid: array2<real>, lo: real, ghost hi: real, step: real, ghost levels: int)
    returns (packed: array2<int>)
    requires lo < hi && levels > 0 && IsStep(step, lo, hi, levels) && Between(grid, lo, hi)
    ensures fresh(packed) && Packs(packed, grid, lo, hi, levels)
  {
    hide IsStep;
    hide Fits;
    hide Packed;
    packed := new int[grid.Length0, grid.Length1];
    for y := 0 to grid.Length0
      invariant forall i, j :: 0 <= i < y && 0 <= j < grid.Length1 ==> Fits(packed[i, j], grid[i, j], lo, hi, levels)
    {
      for x := 0 to grid.Length1
        invariant forall i, j :: 0 <= i < y && 0 <= j < grid.Length1 ==> Fits(packed[i, j], grid[i, j], lo, hi, levels)
        invariant forall j :: 0 <= j < x ==> Fits(packed[y, j], grid[y, j], lo, hi, levels)
      {
        PackedFits(grid[y, x], lo, hi, levels, step);
        packed[y, x] := Packed(grid[y, x], lo, step);
      }
    }
  }
}
