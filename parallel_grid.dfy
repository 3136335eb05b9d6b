// parallelnewgrid.py: a 5 x 5 x 5 grid of search-box centers, docked three
// times each; every center gives one result row, in grid order.

module ParallelGrid {
  import opened Seqs
  import opened Docking

  /** `np.linspace(start, end, n)` in exact arithmetic: `n` evenly spaced values
      from `start` to `end`, both included. */
  function Linspace(start: real, end: real, n: nat): (r: seq<real>)
    ensures |r| == n
  {
    if n <= 1 then seq(n, i => start)
    else seq(n, i requires 0 <= i < n => start + (i as real) * ((end - start) / ((n - 1) as real)))
  }

  /** The axis starts at `start` and, with two points or more, ends exactly at
      `end`; consecutive values are one step apart. */
  lemma LinspaceEnds(start: real, end: real, n: nat)
    ensures n > 0 ==> Linspace(start, end, n)[0] == start
    ensures n > 1 ==> Linspace(start, end, n)[n - 1] == end
    ensures n > 1 ==> forall i :: 0 <= i < n - 1 ==>
              Linspace(start, end, n)[i + 1] - Linspace(start, end, n)[i] == (end - start) / ((n - 1) as real)
  {
    if n > 1 {
      var step := (end - start) / ((n - 1) as real);
      assert ((n - 1) as real) * step == end - start;
      forall i | 0 <= i < n - 1
        ensures Linspace(start, end, n)[i + 1] - Linspace(start, end, n)[i] == step
      {
        assert ((i + 1) as real) * step == (i as real) * step + step;
      }
    }
  }

  /** The centers with first coordinate `x` and second `y`, one per `z`. */
  function Line(x: real, y: real, zs: seq<real>): (r: seq<Center>)
    ensures |r| == |zs|
  {
    seq(|zs|, k requires 0 <= k < |zs| => Center(x, y, zs[k]))
  }

  /** The centers with first coordinate `x`: `y` in the outer position, `z` in
      the inner one. */
  function Plane(x: real, ys: seq<real>, zs: seq<real>): (r: seq<Center>)
    ensures |r| == |ys| * |zs|
  {
    if ys == [] then []
    else
      var rest := Plane(x, ys[1..], zs);
      assert |ys| * |zs| == |zs| + (|ys| - 1) * |zs|;
      Line(x, ys[0], zs) + rest
  }

  /** `[(x, y, z) for x in xs for y in ys for z in zs]` */
  function GridCenters(xs: seq<real>, ys: seq<real>, zs: seq<real>): (r: seq<Center>)
    ensures |r| == |xs| * (|ys| * |zs|)
  {
    if xs == [] then []
    else
      var rest := GridCenters(xs[1..], ys, zs);
      var p := |ys| * |zs|;
      assert |xs| * p == p + (|xs| - 1) * p;
      Plane(xs[0], ys, zs) + rest
  }

  lemma {:induction false} PlaneAt(x: real, ys: seq<real>, zs: seq<real>, j: nat, k: nat)
    requires j < |ys| && k < |zs|
    ensures Blocks(j, |zs|) + k < |Plane(x, ys, zs)|
    ensures Plane(x, ys, zs)[Blocks(j, |zs|) + k] == Center(x, ys[j], zs[k])
  {
    var line, rest := Line(x, ys[0], zs), Plane(x, ys[1..], zs);
    assert Plane(x, ys, zs) == line + rest;
    if j > 0 {
      PlaneAt(x, ys[1..], zs, j - 1, k);
    }
  }

  /** `i` blocks of `p`, counted one block at a time. */
  function Blocks(i: nat, p: nat): (n: nat)
    ensures n == i * p
  {
    if i == 0 then 0 else p + Blocks(i - 1, p)
  }

  /** Plane `i` of the grid is the `i`-th block of `|ys| * |zs|` centers. */
  lemma {:induction false} GridPlaneAt(xs: seq<real>, ys: seq<real>, zs: seq<real>, i: nat, q: nat)
    requires i < |xs| && q < |Plane(xs[i], ys, zs)|
    ensures Blocks(i, |ys| * |zs|) + q < |GridCenters(xs, ys, zs)|
    ensures GridCenters(xs, ys, zs)[Blocks(i, |ys| * |zs|) + q] == Plane(xs[i], ys, zs)[q]
  {
    var plane, rest := Plane(xs[0], ys, zs), GridCenters(xs[1..], ys, zs);
    assert GridCenters(xs, ys, zs) == plane + rest;
    if i > 0 {
      GridPlaneAt(xs[1..], ys, zs, i - 1, q);
    }
  }

  /** x varies slowest and z fastest: position `i * |ys| * |zs| + j * |zs| + k`
      holds `(xs[i], ys[j], zs[k])`. */
  lemma GridAt(xs: seq<real>, ys: seq<real>, zs: seq<real>, i: nat, j: nat, k: nat)
    requires i < |xs| && j < |ys| && k < |zs|
    ensures i * |ys| * |zs| + j * |zs| + k < |GridCenters(xs, ys, zs)|
    ensures GridCenters(xs, ys, zs)[i * |ys| * |zs| + j * |zs| + k] == Center(xs[i], ys[j], zs[k])
  {
    PlaneAt(xs[i], ys, zs, j, k);
    GridPlaneAt(xs, ys, zs, i, Blocks(j, |zs|) + k);
    assert Blocks(i, |ys| * |zs|) == i * |ys| * |zs| by { Associate(i, |ys|, |zs|); }
  }

  lemma Associate(a: nat, b: nat, c: nat)
    ensures a * b * c == a * (b * c)
  {
  }

  /** Every center of a plane takes its coordinates from `x` and the axes. */
  lemma {:induction false} PlaneCoordinates(x: real, ys: seq<real>, zs: seq<real>, n: nat)
    requires n < |Plane(x, ys, zs)|
    ensures var c := Plane(x, ys, zs)[n]; c.x == x && c.y in ys && c.z in zs
  {
    var line := Line(x, ys[0], zs);
    assert Plane(x, ys, zs) == line + Plane(x, ys[1..], zs);
    if n >= |line| {
      PlaneCoordinates(x, ys[1..], zs, n - |line|);
    }
  }

  /** Every center of the grid takes its coordinates from the axes. */
  lemma {:induction false} GridCoordinates(xs: seq<real>, ys: seq<real>, zs: seq<real>, n: nat)
    requires n < |GridCenters(xs, ys, zs)|
    ensures var c := GridCenters(xs, ys, zs)[n]; c.x in xs && c.y in ys && c.z in zs
  {
    var plane := Plane(xs[0], ys, zs);
    assert GridCenters(xs, ys, zs) == plane + GridCenters(xs[1..], ys, zs);
    if n < |plane| {
      PlaneCoordinates(xs[0], ys, zs, n);
    } else {
      GridCoordinates(xs[1..], ys, zs, n - |plane|);
    }
  }

  /** A center is in the grid exactly when each coordinate comes from its axis:
      every combination appears. */
  lemma GridMembers(xs: seq<real>, ys: seq<real>, zs: seq<real>, c: Center)
    ensures c in GridCenters(xs, ys, zs) <==> c.x in xs && c.y in ys && c.z in zs
  {
    var grid := GridCenters(xs, ys, zs);
    if c in grid {
      var n :| 0 <= n < |grid| && grid[n] == c;
      GridCoordinates(xs, ys, zs, n);
    }
    if c.x in xs && c.y in ys && c.z in zs {
      var i :| 0 <= i < |xs| && xs[i] == c.x;
      var j :| 0 <= j < |ys| && ys[j] == c.y;
      var k :| 0 <= k < |zs| && zs[k] == c.z;
      GridHas(xs, ys, zs, i, j, k);
    }
  }

  lemma GridHas(xs: seq<real>, ys: seq<real>, zs: seq<real>, i: nat, j: nat, k: nat)
    requires i < |xs| && j < |ys| && k < |zs|
    ensures Center(xs[i], ys[j], zs[k]) in GridCenters(xs, ys, zs)
  {
    PlaneAt(xs[i], ys, zs, j, k);
    GridPlaneAt(xs, ys, zs, i, Blocks(j, |zs|) + k);
  }

  /** The three axes of the search grid, five points each. */
  const AxisPoints: nat := 5
  const XAxis: seq<real> := Linspace(60.36, 79.24, AxisPoints)
  const YAxis: seq<real> := Linspace(-37.89, -14.18, AxisPoints)
  const ZAxis: seq<real> := Linspace(-71.77, -52.21, AxisPoints)

  /** `grid_centers` */
  function SearchGrid(): seq<Center>
  {
    GridCenters(XAxis, YAxis, ZAxis)
  }

  /** The search grid has 125 centers, from the low corner of the box to the
      high one. */
  lemma SearchGridShape()
    ensures |SearchGrid()| == 125
    ensures SearchGrid()[0] == Center(60.36, -37.89, -71.77)
    ensures SearchGrid()[124] == Center(79.24, -14.18, -52.21)
  {
    LinspaceEnds(60.36, 79.24, AxisPoints);
    LinspaceEnds(-37.89, -14.18, AxisPoints);
    LinspaceEnds(-71.77, -52.21, AxisPoints);
    GridAt(XAxis, YAxis, ZAxis, 0, 0, 0);
    GridAt(XAxis, YAxis, ZAxis, 4, 4, 4);
  }

  /** `range(3)`: each center is docked three times. */
  const GridRepeats: nat := 3

  /** `dock_grid_point`'s result row. */
  function GridRow(timestamp: string, center: Center, affinities: seq<real>): (row: seq<Cell>)
    ensures |row| == 5 && row[0] == Literal(timestamp) && row[1] == CenterCell(center)
    ensures row[2..] == [Literal(NoPose), Literal(NotAvailable), Literal(NotAvailable)] <==> affinities == []
    ensures affinities != [] ==>
              row[2] == MeanOf(affinities) && row[3] == StdOf(affinities) && row[4] == Listed(affinities)
  {
    if affinities != [] then
      [Literal(timestamp), CenterCell(center), MeanOf(affinities), StdOf(affinities), Listed(affinities)]
    else
      [Literal(timestamp), CenterCell(center), Literal(NoPose), Literal(NotAvailable), Literal(NotAvailable)]
  }

  /** `dock_grid_point`: three repeats, each writing its own file and recording
      its top affinity when its energy table is non-empty, then the row.
      `tables` stands for the engine's energy tables, `timestamp` for the clock. */
  method DockGridPoint(show: real -> string, center: Center, timestamp: string, tables: seq<EnergyTable>)
    returns (row: seq<Cell>)
    requires |tables| == GridRepeats
    ensures row == GridRow(timestamp, center, Affinities(tables))
    ensures |Affinities(tables)| <= GridRepeats
  {
    var affinities, written := DockRepeats(show, center, tables);
    row := GridRow(timestamp, center, affinities);
    AffinitiesPerRepeat(tables);
  }

  /** `list(pool.imap(dock_grid_point, grid_centers))`: `imap` hands the rows
      back in the order of the centers, so the parallel run gives what the
      sequential loop over the centers gives. Center `n` is docked with the
      energy tables `runs(n)` at the time `stamp(n)`. */
  method DockAll(show: real -> string, centers: seq<Center>,
                 stamp: nat -> string, runs: nat -> seq<EnergyTable>)
    returns (results: seq<seq<Cell>>)
    requires forall n :: 0 <= n < |centers| ==> |runs(n)| == GridRepeats
    ensures |results| == |centers|
    ensures forall n :: 0 <= n < |centers| ==>
              results[n] == GridRow(stamp(n), centers[n], Affinities(runs(n)))
  {
    results := [];
    for n := 0 to |centers|
      invariant |results| == n
      invariant forall m :: 0 <= m < n ==> results[m] == GridRow(stamp(m), centers[m], Affinities(runs(m)))
    {
      var row := DockGridPoint(show, centers[n], stamp(n), runs(n));
      results := results + [row];
    }
  }
}
