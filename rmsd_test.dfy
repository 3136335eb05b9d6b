// RMSDtest.py: the docked poses are cut out of the engine's PDBQT output at
// MODEL/ENDMDL lines, their heavy atoms are matched to the reference ligand's
// by nearest distance, one RMSD is recorded per usable pose, and everything
// goes into a result row.

module RmsdTest {
  import opened Seqs
  import opened Text
  import opened Docking
  import opened Pdbqt

  /** An atom of a parsed structure: its element symbol and coordinates. */
  datatype Atom = Atom(element: string, x: real, y: real, z: real)

  predicate IsHeavy(a: Atom) { a.element != "H" }

  /** `extract_heavy_atoms` */
  function HeavyAtoms(atoms: seq<Atom>): seq<Atom>
  {
    Filter(atoms, IsHeavy)
  }

  /** `extract_heavy_atoms` removes exactly the hydrogens and keeps the order of
      the rest: the k-th heavy atom is atom `ix[k]`, the `ix` increase, and an
      index is among them exactly when its atom is not a hydrogen. */
  lemma HeavyAtomsExact(atoms: seq<Atom>)
    ensures var heavy, ix := HeavyAtoms(atoms), Kept(atoms, IsHeavy);
      && |ix| == |heavy|
      && StrictlyIncreasing(ix)
      && (forall k :: 0 <= k < |ix| ==> heavy[k] == atoms[ix[k]] && heavy[k].element != "H")
      && (forall j :: 0 <= j < |atoms| ==> (j in ix <==> atoms[j].element != "H"))
  {
    FilterPicks(atoms, IsHeavy);
  }

  function SquaredDistance(a: Atom, b: Atom): real
  {
    (a.x - b.x) * (a.x - b.x) + (a.y - b.y) * (a.y - b.y) + (a.z - b.z) * (a.z - b.z)
  }

  /** `cdist(ref_coords, mob_coords)` without the square root, which does not
      change which entry of a row is smallest. */
  function DistanceMatrix(reference: seq<Atom>, mobile: seq<Atom>): (d: seq<seq<real>>)
    ensures |d| == |reference|
    ensures forall i :: 0 <= i < |d| ==> |d[i]| == |mobile|
  {
    seq(|reference|, i requires 0 <= i < |reference| =>
      seq(|mobile|, j requires 0 <= j < |mobile| => SquaredDistance(reference[i], mobile[j])))
  }

  /** `j` is the first index of a smallest entry of `row`. */
  predicate FirstLeast(row: seq<real>, j: int)
  {
    && 0 <= j < |row|
    && (forall j' :: 0 <= j' < |row| ==> row[j] <= row[j'])
    && (forall j' :: 0 <= j' < j ==> row[j'] > row[j])
  }

  /** `row.argmin()`: the first index of a smallest entry. */
  function ArgMin(row: seq<real>): (m: nat)
    requires |row| > 0
    ensures FirstLeast(row, m)
  {
    if |row| == 1 then 0
    else
      var m := ArgMin(row[..|row| - 1]);
      if row[|row| - 1] < row[m] then |row| - 1 else m
  }

  /** `match_atoms_by_proximity` over the distance matrix `dist`: one mobile atom
      per reference atom, the first one at the least distance from it. So the
      match always has as many atoms as the reference, and the length check
      after it never skips a pose. */
  function MatchByProximity(reference: seq<Atom>, mobile: seq<Atom>, dist: seq<seq<real>>): (matched: seq<Atom>)
    requires |mobile| > 0
    requires |dist| == |reference| && forall i :: 0 <= i < |dist| ==> |dist[i]| == |mobile|
    ensures |matched| == |reference|
    ensures forall i :: 0 <= i < |reference| ==>
              exists j :: FirstLeast(dist[i], j) && matched[i] == mobile[j]
  {
    var matched := seq(|reference|, i requires 0 <= i < |reference| => mobile[ArgMin(dist[i])]);
    assert forall i :: 0 <= i < |reference| ==>
      FirstLeast(dist[i], ArgMin(dist[i])) && matched[i] == mobile[ArgMin(dist[i])];
    matched
  }

  // ---------------------------------------------------------------------------
  // Cutting the poses out of the engine's output

  /** The lines the splitting loop buffers: neither MODEL nor ENDMDL. */
  predicate IsBody(line: string) { !IsModel(line) && !IsEndModel(line) }

  /** The atom lines of the pose closed by the ENDMDL line that follows `upTo`:
      the ATOM and HETATM lines after the last MODEL line of `upTo`, or after
      the start of the file when there is none. */
  function PoseAtomLines(upTo: seq<string>): seq<string>
  {
    Filter(upTo[LastModel(upTo) + 1..], IsAtom)
  }

  /** The structures `dock_single_point` builds from the output file's lines,
      one per ENDMDL line, parsed by `parse`. */
  function DockedStructures(lines: seq<string>, parse: seq<string> -> seq<Atom>): (docked: seq<seq<Atom>>)
  {
    var ends := Kept(lines, IsEndModel);
    seq(|ends|, k requires 0 <= k < |ends| => parse(PoseAtomLines(lines[..ends[k]])))
  }

  /** The splitting loop of `dock_single_point`. A MODEL line empties the
      buffer; an ENDMDL line turns the buffer's ATOM and HETATM lines into a
      structure (the buffer is left as it is); any other line is buffered.
      `parse` stands for `get_structure_from_atoms`. */
  method ReadDockedStructures(lines: seq<string>, parse: seq<string> -> seq<Atom>)
    returns (docked: seq<seq<Atom>>)
    ensures docked == DockedStructures(lines, parse)
  {
    docked := [];
    var poseLines: seq<string> := [];
    for i := 0 to |lines|
      invariant poseLines == Buffered(lines[..i])
      invariant docked == DockedStructures(lines[..i], parse)
    {
      var line := lines[i];
      BufferStep(lines, i);
      DockedStep(lines, i, parse);
      RecordKindsDisjoint(line);
      if IsModel(line) {
        poseLines := [];
      } else if IsEndModel(line) {
        var atomLines := Filter(poseLines, IsAtom);
        BufferedAtoms(lines[..i]);
        docked := docked + [parse(atomLines)];
      } else {
        poseLines := poseLines + [line];
      }
    }
    assert lines[..|lines|] == lines;
  }

  /** The buffer of the splitting loop after reading `upTo`: the lines after the
      last MODEL line that are neither MODEL nor ENDMDL. */
  function Buffered(upTo: seq<string>): seq<string>
  {
    Filter(upTo[LastModel(upTo) + 1..], IsBody)
  }

  /** How one more line changes the buffer. */
  lemma BufferStep(lines: seq<string>, i: nat)
    requires i < |lines|
    ensures Buffered(lines[..i + 1]) ==
      if IsModel(lines[i]) then []
      else if IsEndModel(lines[i]) then Buffered(lines[..i])
      else Buffered(lines[..i]) + [lines[i]]
  {
    var prev, next := lines[..i], lines[..i + 1];
    assert next[..i] == prev;
    if IsModel(lines[i]) {
      assert LastModel(next) == i;
      assert next[i + 1..] == [];
    } else {
      assert LastModel(next) == LastModel(prev);
      var start := LastModel(prev) + 1;
      var seg := prev[start..];
      assert next[start..] == seg + [lines[i]];
      FilterAppend(seg, [lines[i]], IsBody);
      assert Filter([lines[i]], IsBody) == if IsBody(lines[i]) then [lines[i]] else [] by {
        assert [lines[i]][..0] == [];
      }
    }
  }

  /** The ATOM and HETATM lines of the buffer are the pose's atom lines. */
  lemma BufferedAtoms(upTo: seq<string>)
    ensures Filter(Buffered(upTo), IsAtom) == PoseAtomLines(upTo)
  {
    forall l ensures IsAtom(l) ==> IsBody(l) { RecordKindsDisjoint(l); }
    FilterFilter(upTo[LastModel(upTo) + 1..], IsBody, IsAtom);
  }

  /** How one more line changes the structures read so far. */
  lemma DockedStep(lines: seq<string>, i: nat, parse: seq<string> -> seq<Atom>)
    requires i < |lines|
    ensures DockedStructures(lines[..i + 1], parse) == DockedStructures(lines[..i], parse)
              + (if IsEndModel(lines[i]) then [parse(PoseAtomLines(lines[..i]))] else [])
  {
    var next := lines[..i + 1];
    assert next[..i] == lines[..i];
    var ends, ends' := Kept(lines[..i], IsEndModel), Kept(next, IsEndModel);
    assert ends' == ends + (if IsEndModel(lines[i]) then [i] else []);
    forall k | 0 <= k < |ends| ensures next[..ends[k]] == lines[..i][..ends[k]] { }
  }

  /** One structure per ENDMDL line, in file order (the ENDMDL lines' indices
      increase and are all of them). */
  lemma OnePosePerEndModel(lines: seq<string>, parse: seq<string> -> seq<Atom>)
    ensures var ends := Kept(lines, IsEndModel);
      && |DockedStructures(lines, parse)| == |ends|
      && StrictlyIncreasing(ends)
      && (forall j :: 0 <= j < |lines| ==> (j in ends <==> IsEndModel(lines[j])))
  {
    FilterPicks(lines, IsEndModel);
  }

  /** A pose holds exactly the ATOM and HETATM lines after the last MODEL line,
      in order: never a MODEL or ENDMDL line. Its k-th line is the line
      `start + ix[k]` of the file, where the offsets `ix` increase and pick out
      exactly the atom lines. */
  lemma PoseAtomLinesExact(upTo: seq<string>)
    ensures var start, pose := LastModel(upTo) + 1, PoseAtomLines(upTo);
      && (forall k :: 0 <= k < |pose| ==> IsAtom(pose[k]) && !IsModel(pose[k]) && !IsEndModel(pose[k]))
      && (forall j :: start <= j < |upTo| && IsAtom(upTo[j]) ==> upTo[j] in pose)
      && (forall l :: l in pose ==> l in upTo[start..])
    ensures var start, pose := LastModel(upTo) + 1, PoseAtomLines(upTo);
      var ix := Kept(upTo[start..], IsAtom);
      && |ix| == |pose| && StrictlyIncreasing(ix)
      && (forall k :: 0 <= k < |ix| ==> start + ix[k] < |upTo| && pose[k] == upTo[start + ix[k]])
      && (forall j :: start <= j < |upTo| ==> (j - start in ix <==> IsAtom(upTo[j])))
  {
    var start := LastModel(upTo) + 1;
    var seg := upTo[start..];
    var pose := Filter(seg, IsAtom);
    FilterMembers(seg, IsAtom);
    FilterPicks(seg, IsAtom);
    var ix := Kept(seg, IsAtom);
    forall k | 0 <= k < |ix| ensures start + ix[k] < |upTo| && pose[k] == upTo[start + ix[k]] {
      assert seg[ix[k]] == upTo[start + ix[k]];
    }
    forall j | start <= j < |upTo| ensures (j - start in ix <==> IsAtom(upTo[j])) {
      assert seg[j - start] == upTo[j];
    }
    forall k | 0 <= k < |pose| ensures !IsModel(pose[k]) && !IsEndModel(pose[k]) {
      RecordKindsDisjoint(pose[k]);
    }
    forall j | start <= j < |upTo| && IsAtom(upTo[j]) ensures upTo[j] in pose {
      assert upTo[j] == seg[j - start];
    }
  }

  /** Only a MODEL line empties the buffer: when no MODEL line comes between two
      ENDMDL lines, the second pose repeats the first pose's atom lines and adds
      the ones in between. */
  lemma PoseCarriesOver(lines: seq<string>, e1: nat, e2: nat)
    requires e1 < e2 <= |lines|
    requires IsEndModel(lines[e1])
    requires forall j :: e1 <= j < e2 ==> !IsModel(lines[j])
    ensures PoseAtomLines(lines[..e2]) == PoseAtomLines(lines[..e1]) + Filter(lines[e1 + 1..e2], IsAtom)
  {
    LastModelSkips(lines, e1, e2);
    var start := LastModel(lines[..e1]) + 1;
    assert lines[..e2][start..] == lines[start..e1] + [lines[e1]] + lines[e1 + 1..e2];
    assert lines[..e1][start..] == lines[start..e1];
    FilterAppend(lines[start..e1] + [lines[e1]], lines[e1 + 1..e2], IsAtom);
    FilterAppend(lines[start..e1], [lines[e1]], IsAtom);
    RecordKindsDisjoint(lines[e1]);
    assert Filter([lines[e1]], IsAtom) == [] by {
      assert [lines[e1]][..0] == [];
    }
  }

  // ---------------------------------------------------------------------------
  // RMSD per pose

  /** What `calculate_rmsd_with_superimposer` records for one pose: nothing when
      the reference or the pose has no heavy atom, otherwise the RMSD `rms`
      reports after matching. `rms` stands for the Superimposer. */
  function PoseRmsd(refAtoms: seq<Atom>, pose: seq<Atom>, rms: (seq<Atom>, seq<Atom>) -> real): Option<real>
  {
    var mobileAtoms := HeavyAtoms(pose);
    if |refAtoms| == 0 || |mobileAtoms| == 0 then None
    else
      var matched := MatchByProximity(refAtoms, mobileAtoms, DistanceMatrix(refAtoms, mobileAtoms));
      if |matched| != |refAtoms| then None
      else Some(rms(refAtoms, matched))
  }

  function RmsdOf(refAtoms: seq<Atom>, rms: (seq<Atom>, seq<Atom>) -> real): seq<Atom> -> Option<real>
  {
    pose => PoseRmsd(refAtoms, pose, rms)
  }

  /** The RMSDs `calculate_rmsd_with_superimposer` returns. */
  function SuperimposedRmsds(reference: seq<Atom>, docked: seq<seq<Atom>>,
                             rms: (seq<Atom>, seq<Atom>) -> real): seq<real>
  {
    FilterMap(docked, RmsdOf(HeavyAtoms(reference), rms))
  }

  /** `calculate_rmsd_with_superimposer` */
  method CalculateRmsdWithSuperimposer(reference: seq<Atom>, docked: seq<seq<Atom>>,
                                       rms: (seq<Atom>, seq<Atom>) -> real)
    returns (rmsds: seq<real>)
    ensures rmsds == SuperimposedRmsds(reference, docked, rms)
  {
    var refAtoms := HeavyAtoms(reference);
    rmsds := [];
    for k := 0 to |docked|
      invariant rmsds == FilterMap(docked[..k], RmsdOf(refAtoms, rms))
    {
      assert docked[..k + 1][..k] == docked[..k];
      var mobileAtoms := HeavyAtoms(docked[k]);
      if |refAtoms| == 0 || |mobileAtoms| == 0 {
        continue;
      }
      var matched := MatchByProximity(refAtoms, mobileAtoms, DistanceMatrix(refAtoms, mobileAtoms));
      if |matched| != |refAtoms| {
        continue;
      }
      rmsds := rmsds + [rms(refAtoms, matched)];
    }
    assert docked[..|docked|] == docked;
  }

  /** At most one RMSD per pose, in pose order: the k-th RMSD belongs to pose
      `ix[k]`, the `ix` increase, and a pose is among them exactly when both the
      reference and the pose have heavy atoms. */
  lemma SuperimposedRmsdsSpec(reference: seq<Atom>, docked: seq<seq<Atom>>,
                              rms: (seq<Atom>, seq<Atom>) -> real)
    ensures var rs, refAtoms := SuperimposedRmsds(reference, docked, rms), HeavyAtoms(reference);
      var ix := Chosen(docked, RmsdOf(refAtoms, rms));
      && |rs| == |ix| <= |docked|
      && StrictlyIncreasing(ix)
      && (forall k :: 0 <= k < |ix| ==> PoseRmsd(refAtoms, docked[ix[k]], rms) == Some(rs[k]))
      && (forall j :: 0 <= j < |docked| ==> (j in ix <==> refAtoms != [] && HeavyAtoms(docked[j]) != []))
  {
    var refAtoms := HeavyAtoms(reference);
    FilterMapPicks(docked, RmsdOf(refAtoms, rms));
  }

  // ---------------------------------------------------------------------------
  // The single-point run

  /** `energies[:, 0].tolist() if energies.size > 0 else []` */
  function EnergyColumn(t: EnergyTable): (affinities: seq<real>)
    ensures affinities == [] <==> !HasEnergies(t)
    ensures HasEnergies(t) ==> |affinities| == |t| && forall i :: 0 <= i < |t| ==> affinities[i] == t[i][0]
  {
    if HasEnergies(t) then seq(|t|, i requires 0 <= i < |t| => t[i][0]) else []
  }

  /** `dock_single_point`'s result row. Its affinity columns and its RMSD
      column fall back to placeholders independently of each other. */
  function TestRow(timestamp: string, center: Center, affinities: seq<real>, rmsds: seq<real>): (row: seq<Cell>)
    ensures |row| == 6 && row[0] == Literal(timestamp) && row[1] == CenterCell(center)
    ensures row[2] == Literal(NoPose) <==> affinities == []
    ensures row[3] == Literal(NotAvailable) <==> affinities == []
    ensures row[4] == Literal(NotAvailable) <==> affinities == []
    ensures row[5] == Literal(NotAvailable) <==> rmsds == []
    ensures affinities != [] ==>
              row[2] == Fixed2(MeanOf(affinities)) && row[3] == Fixed2(StdOf(affinities)) && row[4] == Listed(affinities)
    ensures rmsds != [] ==> row[5] == Listed(rmsds)
  {
    [Literal(timestamp), CenterCell(center),
     if affinities != [] then Fixed2(MeanOf(affinities)) else Literal(NoPose),
     if affinities != [] then Fixed2(StdOf(affinities)) else Literal(NotAvailable),
     if affinities != [] then Listed(affinities) else Literal(NotAvailable),
     if rmsds != [] then Listed(rmsds) else Literal(NotAvailable)]
  }

  /** `dock_single_point`: `written` stands for the lines the engine wrote to
      the output file, `energies` for its energy table, `reference` for the
      parsed reference ligand, and `timestamp` for the clock. */
  method DockSinglePoint(center: Center, timestamp: string, written: seq<string>, energies: EnergyTable,
                         reference: seq<Atom>, parse: seq<string> -> seq<Atom>,
                         rms: (seq<Atom>, seq<Atom>) -> real)
    returns (row: seq<Cell>)
    ensures row == TestRow(timestamp, center, EnergyColumn(energies),
                           SuperimposedRmsds(reference, DockedStructures(written, parse), rms))
  {
    var docked := ReadDockedStructures(written, parse);
    var affinities := EnergyColumn(energies);
    var rmsdValues := CalculateRmsdWithSuperimposer(reference, docked, rms);
    row := TestRow(timestamp, center, affinities, rmsdValues);
  }
}
