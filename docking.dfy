// What the docking scripts share: a search-box center, the energy table the
// docking engine reports after a run, the repeat loop that collects one
// affinity per run, the names of the pose files it writes, and the cells of a
// result row.

module Docking {
  import opened Seqs
  import opened Text

  /** A search-box center. */
  datatype Center = Center(x: real, y: real, z: real)

  predicate Rectangular(t: seq<seq<real>>)
  {
    forall i :: 0 <= i < |t| ==> |t[i]| == |t[0]|
  }

  /** The per-pose energy table the engine returns (a 2-D array: one row per
      pose, the affinity in column 0). */
  type EnergyTable = t: seq<seq<real>> | Rectangular(t)

  /** `energy.size > 0` */
  predicate HasEnergies(t: EnergyTable)
  {
    |t| > 0 && |t[0]| > 0
  }

  /** What one repeat contributes: `energy[0, 0]` when `energy.size > 0`. */
  function FirstEnergy(t: EnergyTable): Option<real>
  {
    if HasEnergies(t) then Some(t[0][0]) else None
  }

  /** The affinities collected by repeats whose energy tables are `tables`. */
  function Affinities(tables: seq<EnergyTable>): seq<real>
  {
    FilterMap(tables, FirstEnergy)
  }

  /** One affinity per repeat whose table is non-empty, none for the others:
      the affinities are the top-left entries of the non-empty tables, in repeat
      order, and there are none at all exactly when every table is empty. */
  lemma AffinitiesPerRepeat(tables: seq<EnergyTable>)
    ensures |Affinities(tables)| <= |tables|
    ensures Affinities(tables) == [] <==> forall k :: 0 <= k < |tables| ==> !HasEnergies(tables[k])
    ensures var ix := Chosen(tables, FirstEnergy);
      && |ix| == |Affinities(tables)|
      && StrictlyIncreasing(ix)
      && (forall a :: 0 <= a < |ix| ==>
            HasEnergies(tables[ix[a]]) && Affinities(tables)[a] == tables[ix[a]][0][0])
      && (forall k :: 0 <= k < |tables| ==> (k in ix <==> HasEnergies(tables[k])))
  {
    FilterMapPicks(tables, FirstEnergy);
    FilterMapEmpty(tables, FirstEnergy);
  }

  /** `ligand_docked_{x}_{y}_{z}`, with `show` standing for Python's `str` of a coordinate. */
  function CenterStem(show: real -> string, c: Center): string
  {
    "ligand_docked_" + show(c.x) + "_" + show(c.y) + "_" + show(c.z)
  }

  /** The file repeat `repeat` (counted from 0) writes its poses to. */
  function RepeatFileName(show: real -> string, c: Center, repeat: nat): string
  {
    CenterStem(show, c) + "_rep" + NatText(repeat + 1) + ".pdbqt"
  }

  /** Different repeats of one center write different files. */
  lemma RepeatFilesDistinct(show: real -> string, c: Center, a: nat, b: nat)
    requires a != b
    ensures RepeatFileName(show, c, a) != RepeatFileName(show, c, b)
  {
    NumberedNamesDiffer(CenterStem(show, c) + "_rep", ".pdbqt", a + 1, b + 1);
  }

  /** The repeat loop: repeat `k` docks, writes its poses to its own file and
      records the top affinity of `tables[k]` when that table is non-empty.
      The docking engine's calls are replaced by their results, `tables`. */
  method DockRepeats(show: real -> string, center: Center, tables: seq<EnergyTable>)
    returns (affinities: seq<real>, written: seq<string>)
    ensures affinities == Affinities(tables)
    ensures |written| == |tables|
    ensures forall k :: 0 <= k < |tables| ==> written[k] == RepeatFileName(show, center, k)
  {
    affinities, written := [], [];
    for repeat := 0 to |tables|
      invariant affinities == Affinities(tables[..repeat])
      invariant |written| == repeat
      invariant forall k :: 0 <= k < repeat ==> written[k] == RepeatFileName(show, center, k)
    {
      var outputFile := RepeatFileName(show, center, repeat);
      written := written + [outputFile];
      var energy := tables[repeat];
      if HasEnergies(energy) {
        affinities := affinities + [energy[0][0]];
      }
      assert tables[..repeat + 1][..repeat] == tables[..repeat];
    }
    assert tables[..|tables|] == tables;
  }

  /** A cell of a result row. Numbers are exact; Python's `np.mean`, `np.std`
      and two-decimal formatting are kept symbolic. */
  datatype Cell =
    | Literal(s: string)       // the timestamp, or a placeholder
    | CenterCell(c: Center)    // `str(center)`
    | MeanOf(xs: seq<real>)    // `np.mean(xs)`
    | StdOf(xs: seq<real>)     // `np.std(xs)`
    | Listed(xs: seq<real>)    // `', '.join(f"{x:.2f}" for x in xs)`
    | Fixed2(of: Cell)         // `f"{v:.2f}"` of a numeric cell

  const NoPose := "No Pose"
  const NotAvailable := "N/A"
}
