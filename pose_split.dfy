// other/pose.py: one docking repeat, whose output file is cut into one file
// per pose. Unlike the splitter of RMSDtest.py this one keeps the MODEL and
// ENDMDL lines and numbers the poses it writes.

module PoseSplit {
  import opened Seqs
  import opened Text
  import opened Docking
  import opened Pdbqt

  /** `range(1)`: one docking repeat. */
  const PoseRepeats: nat := 1

  /** A file written by the splitter: its name and the lines written to it. */
  datatype PoseFile = PoseFile(name: string, lines: seq<string>)

  /** `ligand_docked_{x}_{y}_{z}_pose{idx}.pdbqt` */
  function PoseFileName(show: real -> string, c: Center, idx: nat): string
  {
    CenterStem(show, c) + "_pose" + NatText(idx) + ".pdbqt"
  }

  /** Where the buffer starts after reading `upTo`: at the last MODEL line, or
      at the start of the file when there is none. */
  function PoseStart(upTo: seq<string>): (s: nat)
    ensures s <= |upTo|
    ensures s < |upTo| ==> s == 0 || IsModel(upTo[s])
  {
    var m := LastModel(upTo);
    if m < 0 then 0 else m
  }

  /** The buffer `pose_lines` after reading `upTo`: everything from the last
      MODEL line on (a MODEL line restarts it with itself; every other line,
      ENDMDL included, is appended). */
  function PoseText(upTo: seq<string>): seq<string>
  {
    upTo[PoseStart(upTo)..]
  }

  /** What the splitter writes for the output lines `lines`: one pose per
      ENDMDL line, the buffer just after that line. */
  function PosesWritten(lines: seq<string>): seq<seq<string>>
  {
    var ends := Kept(lines, IsEndModel);
    seq(|ends|, k requires 0 <= k < |ends| => PoseText(lines[..ends[k] + 1]))
  }

  /** The poses `poses` as files numbered from 1. */
  function Numbered(show: real -> string, c: Center, poses: seq<seq<string>>): seq<PoseFile>
  {
    seq(|poses|, k requires 0 <= k < |poses| => PoseFile(PoseFileName(show, c, k + 1), poses[k]))
  }

  /** The files the splitter writes for the output lines `lines`. */
  function PoseFiles(show: real -> string, c: Center, lines: seq<string>): seq<PoseFile>
  {
    Numbered(show, c, PosesWritten(lines))
  }

  /** The splitting loop of `dock_single_point` (with `open`/`writelines`
      replaced by the list of files written). */
  method SplitPoses(show: real -> string, center: Center, lines: seq<string>)
    returns (files: seq<PoseFile>)
    ensures files == PoseFiles(show, center, lines)
  {
    files := [];
    var poseIdx: nat := 1;
    var poseLines: seq<string> := [];
    ghost var poses: seq<seq<string>> := [];
    for i := 0 to |lines|
      invariant poses == PosesWritten(lines[..i])
      invariant files == Numbered(show, center, poses)
      invariant poseIdx == |poses| + 1
      invariant poseLines == PoseText(lines[..i])
    {
      var line := lines[i];
      PoseTextStep(lines, i);
      PosesWrittenStep(lines, i);
      RecordKindsDisjoint(line);
      if IsModel(line) {
        poseLines := [line];
      } else if IsEndModel(line) {
        poseLines := poseLines + [line];
        var poseFile := PoseFileName(show, center, poseIdx);
        NumberedAppend(show, center, poses, poseLines);
        files := files + [PoseFile(poseFile, poseLines)];
        poses := poses + [poseLines];
        poseIdx := poseIdx + 1;
      } else {
        poseLines := poseLines + [line];
      }
    }
    assert lines[..|lines|] == lines;
  }

  /** How one more line changes the buffer. */
  lemma PoseTextStep(lines: seq<string>, i: nat)
    requires i < |lines|
    ensures PoseText(lines[..i + 1]) ==
      if IsModel(lines[i]) then [lines[i]] else PoseText(lines[..i]) + [lines[i]]
  {
    var next := lines[..i + 1];
    assert next[..i] == lines[..i];
  }

  /** How one more line changes the poses written so far. */
  lemma PosesWrittenStep(lines: seq<string>, i: nat)
    requires i < |lines|
    ensures PosesWritten(lines[..i + 1]) == PosesWritten(lines[..i])
      + (if IsEndModel(lines[i]) then [PoseText(lines[..i + 1])] else [])
  {
    var prev, next := lines[..i], lines[..i + 1];
    assert next[..i] == prev;
    var ends, ends' := Kept(prev, IsEndModel), Kept(next, IsEndModel);
    assert ends' == ends + (if IsEndModel(lines[i]) then [i] else []);
    var before, after := PosesWritten(prev), PosesWritten(next);
    forall k | 0 <= k < |ends| ensures after[k] == before[k] {
      assert next[..ends[k] + 1] == prev[..ends[k] + 1];
    }
    if IsEndModel(lines[i]) {
      assert next[..i + 1] == next;
      assert after == before + [PoseText(next)];
    } else {
      assert after == before;
    }
  }

  lemma NumberedAppend(show: real -> string, c: Center, poses: seq<seq<string>>, pose: seq<string>)
    ensures Numbered(show, c, poses + [pose]) ==
            Numbered(show, c, poses) + [PoseFile(PoseFileName(show, c, |poses| + 1), pose)]
  {
  }

  /** One file per ENDMDL line, in file order, named pose1, pose2, ... without
      gaps, so no two files share a name. */
  lemma PoseFilesNumbered(show: real -> string, c: Center, lines: seq<string>)
    ensures var files, ends := PoseFiles(show, c, lines), Kept(lines, IsEndModel);
      && |files| == |ends|
      && StrictlyIncreasing(ends)
      && (forall j :: 0 <= j < |lines| ==> (j in ends <==> IsEndModel(lines[j])))
      && (forall k :: 0 <= k < |files| ==> files[k].name == PoseFileName(show, c, k + 1))
      && (forall a, b :: 0 <= a < b < |files| ==> files[a].name != files[b].name)
  {
    FilterPicks(lines, IsEndModel);
    var files := PoseFiles(show, c, lines);
    assert |files| == |Kept(lines, IsEndModel)|;
    forall k | 0 <= k < |files| ensures files[k].name == PoseFileName(show, c, k + 1) { }
    forall a, b | 0 <= a < b < |files| ensures files[a].name != files[b].name {
      NumberedNamesDiffer(CenterStem(show, c) + "_pose", ".pdbqt", a + 1, b + 1);
    }
  }

  /** Each written pose is the stretch of the output from `PoseStart` to its
      ENDMDL line, so it ends with that line, and nothing after the last
      ENDMDL line is ever written. */
  lemma PoseFileSpan(show: real -> string, c: Center, lines: seq<string>, k: nat)
    requires k < |PoseFiles(show, c, lines)|
    ensures var e := Kept(lines, IsEndModel)[k];
      var pose := PoseFiles(show, c, lines)[k].lines;
      && e < |lines| && IsEndModel(lines[e])
      && PoseStart(lines[..e]) <= e
      && pose == lines[PoseStart(lines[..e])..e + 1]
      && pose[|pose| - 1] == lines[e]
  {
    var e := Kept(lines, IsEndModel)[k];
    assert PoseFiles(show, c, lines)[k].lines == PoseText(lines[..e + 1]);
    ClosedPose(lines, e);
  }

  /** The buffer written at the ENDMDL line `e`. */
  lemma ClosedPose(lines: seq<string>, e: nat)
    requires e < |lines| && IsEndModel(lines[e])
    ensures PoseStart(lines[..e]) <= e
    ensures PoseText(lines[..e + 1]) == lines[PoseStart(lines[..e])..e + 1]
  {
    assert lines[..e + 1][..e] == lines[..e];
    RecordKindsDisjoint(lines[e]);
  }

  /** Where a pose starts: after a MODEL line it starts with the last MODEL
      line before its ENDMDL line `e` and holds no other; with no MODEL line
      before `e` it starts at the top of the file. */
  lemma PoseStartsAtModel(lines: seq<string>, e: nat)
    requires e < |lines| && IsEndModel(lines[e])
    ensures var s := PoseStart(lines[..e]);
      && (forall j :: s < j <= e ==> !IsModel(lines[j]))
      && ((exists j :: 0 <= j < e && IsModel(lines[j])) ==> IsModel(lines[s]))
      && ((forall j :: 0 <= j < e ==> !IsModel(lines[j])) ==> s == 0)
  {
    RecordKindsDisjoint(lines[e]);
    var s := PoseStart(lines[..e]);
    forall j | s < j <= e ensures !IsModel(lines[j]) {
      if j < e { assert lines[j] == lines[..e][j]; }
    }
    if exists j :: 0 <= j < e && IsModel(lines[j]) {
      var j :| 0 <= j < e && IsModel(lines[j]);
      assert lines[..e][j] == lines[j];
      assert lines[s] == lines[..e][s];
    }
  }

  /** Only a MODEL line resets the buffer: when no MODEL line comes between two
      ENDMDL lines, the second pose file holds the first one's lines, its
      ENDMDL line included, and then the lines up to its own ENDMDL. */
  lemma PoseFileCarriesOver(lines: seq<string>, e1: nat, e2: nat)
    requires e1 < e2 < |lines|
    requires IsEndModel(lines[e1])
    requires forall j :: e1 < j < e2 ==> !IsModel(lines[j])
    requires IsEndModel(lines[e2])
    ensures PoseText(lines[..e2 + 1]) == PoseText(lines[..e1 + 1]) + lines[e1 + 1..e2 + 1]
  {
    RecordKindsDisjoint(lines[e2]);
    LastModelSkips(lines, e1 + 1, e2 + 1);
    var s := PoseStart(lines[..e1 + 1]);
    assert PoseStart(lines[..e2 + 1]) == s;
    assert PoseText(lines[..e2 + 1]) == lines[s..e2 + 1];
    assert PoseText(lines[..e1 + 1]) == lines[s..e1 + 1];
    SliceSplit(lines, s, e1 + 1, e2 + 1);
  }

  /** Lines after the last ENDMDL line change nothing that is written. */
  lemma TrailingLinesUnwritten(show: real -> string, c: Center, lines: seq<string>, tail: seq<string>)
    requires forall j :: 0 <= j < |tail| ==> !IsEndModel(tail[j])
    ensures PoseFiles(show, c, lines + tail) == PoseFiles(show, c, lines)
  {
    var all := lines + tail;
    KeptAppendNone(lines, tail, IsEndModel);
    var ends := Kept(lines, IsEndModel);
    var before, after := PosesWritten(lines), PosesWritten(all);
    forall k | 0 <= k < |ends| ensures after[k] == before[k] {
      assert all[..ends[k] + 1] == lines[..ends[k] + 1];
    }
    assert after == before;
  }

  /** `dock_single_point`: the single repeat docks, the file it writes is split
      into pose files, and its top affinity is recorded when its energy table
      is non-empty. `output` stands for the lines the engine writes to a file,
      `tables` for the energy table of each repeat. The function returns
      nothing; the files it writes and the affinities it collects are returned
      here. */
  method DockSinglePoint(show: real -> string, center: Center,
                         tables: seq<EnergyTable>, output: string -> seq<string>)
    returns (affinities: seq<real>, files: seq<PoseFile>)
    requires |tables| == PoseRepeats
    ensures affinities == Affinities(tables)
    ensures |affinities| <= 1
    ensures files == PoseFiles(show, center, output(RepeatFileName(show, center, 0)))
  {
    affinities, files := [], [];
    for repeat := 0 to |tables|
      invariant affinities == Affinities(tables[..repeat])
      invariant files == if repeat == 0 then [] else PoseFiles(show, center, output(RepeatFileName(show, center, 0)))
    {
      var combinedOutputFile := RepeatFileName(show, center, repeat);
      files := SplitPoses(show, center, output(combinedOutputFile));
      var energy := tables[repeat];
      if HasEnergies(energy) {
        affinities := affinities + [energy[0][0]];
      }
      assert tables[..repeat + 1][..repeat] == tables[..repeat];
    }
    assert tables[..|tables|] == tables;
    AffinitiesPerRepeat(tables);
  }
}
