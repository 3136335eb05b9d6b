// RMSDalright.py: RMSD values parsed from the standard output of obrms, and
// the single-point docking run that turns a repeat's affinities and those
// RMSDs into a result row.

module RmsdAlright {
  import opened Seqs
  import opened Text
  import opened Docking

  /** `n_poses`: only this many lines of obrms output are read. */
  const PoseLimit: nat := 10
  /** RMSDs at or above this are discarded as unreasonable. */
  const RmsdCeiling: real := 50.0
  /** `range(1)`: the single-point run docks once. */
  const SinglePointRepeats: nat := 1

  /** The obrms call: it either fails (a non-zero exit, or the tool is missing),
      or completes with this standard output. */
  datatype ObrmsRun = Failed | Completed(stdout: string)

  /** `result.stdout.strip().split("\n")` */
  function OutputLines(stdout: string): seq<string>
  {
    Split(Strip(stdout), '\n')
  }

  /** `s[:n]` */
  function Take<T>(s: seq<T>, n: nat): (r: seq<T>)
    ensures |r| == if n <= |s| then n else |s|
    ensures r == s[..|r|]
  {
    if n <= |s| then s[..n] else s
  }

  /** The last whitespace-separated token of a line that has one. */
  function LastWord(line: string): string
    requires !AllSpace(line)
  {
    var parts := Words(line);
    parts[|parts| - 1]
  }

  /** `parts[-1]` is the whole run of non-whitespace that ends the line: it
      starts after whitespace or at the start of the line, and only whitespace
      follows it. */
  lemma LastWordMaximal(line: string) returns (i: nat)
    requires !AllSpace(line)
    ensures var w := LastWord(line);
      && i + |w| <= |line| && w == line[i..i + |w|] && w != []
      && (forall t :: i <= t < i + |w| ==> !IsSpace(line[t]))
      && (i == 0 || IsSpace(line[i - 1]))
      && (forall t :: i + |w| <= t < |line| ==> IsSpace(line[t]))
  {
    var w := LastWord(line);
    var j;
    i, j := WordSpan(line, |Words(line)| - 1);
    assert j == i + |w|;
    forall t | i <= t < i + |w| ensures !IsSpace(line[t]) {
      assert line[t] == w[t - i];
    }
  }

  /** What one line of output contributes: `float(parts[-1])` when the line has
      a last token that passes `replace('.', '', 1).isdigit()`, nothing otherwise. */
  function LineRmsd(line: string): Option<real>
  {
    if !AllSpace(line) && IsUnsignedDecimal(LastWord(line)) then Some(UnsignedValue(LastWord(line)))
    else None
  }

  /** A line contributes exactly when its last token is an unsigned decimal
      literal; blank lines, signed numbers and tokens with two dots contribute
      nothing, and what is contributed is not negative. */
  lemma LineRmsdRules(line: string)
    ensures LineRmsd(line).Some? <==> !AllSpace(line) && DecimalForm(LastWord(line))
    ensures AllSpace(line) ==> LineRmsd(line) == None
    ensures !AllSpace(line) && LastWord(line)[0] in {'+', '-'} ==> LineRmsd(line) == None
    ensures !AllSpace(line) ==>
              forall i, j :: 0 <= i < j < |LastWord(line)| && LastWord(line)[i] == '.' && LastWord(line)[j] == '.'
                ==> LineRmsd(line) == None
    ensures LineRmsd(line).Some? ==> LineRmsd(line).value >= 0.0
  {
    if !AllSpace(line) {
      UnsignedDecimalShape(LastWord(line));
      DecimalRejects(LastWord(line));
    }
  }

  predicate Reasonable(r: real) { r < RmsdCeiling }

  /** The RMSDs `calculate_rmsd` returns for one obrms run. */
  function ObrmsRmsds(run: ObrmsRun, nPoses: nat): seq<real>
  {
    match run
    case Failed => []
    case Completed(stdout) => Filter(FilterMap(Take(OutputLines(stdout), nPoses), LineRmsd), Reasonable)
  }

  /** `calculate_rmsd` after the obrms call: the parsing loop over the first
      `nPoses` lines, then the filter that drops values of 50 or more. On a failed
      call nothing has been appended yet and the exception handler returns []. */
  method CalculateRmsd(run: ObrmsRun, nPoses: nat) returns (rmsdValues: seq<real>)
    ensures rmsdValues == ObrmsRmsds(run, nPoses)
    ensures run.Failed? ==> rmsdValues == []
  {
    rmsdValues := [];
    match run {
      case Failed =>
      case Completed(stdout) =>
        var outputLines := Take(OutputLines(stdout), nPoses);
        for i := 0 to |outputLines|
          invariant rmsdValues == FilterMap(outputLines[..i], LineRmsd)
        {
          FilterMapStep(outputLines, i, LineRmsd);
          var parsed := LineRmsd(outputLines[i]);
          if parsed.Some? {
            rmsdValues := rmsdValues + [parsed.value];
          }
        }
        assert outputLines[..|outputLines|] == outputLines;
        rmsdValues := Filter(rmsdValues, Reasonable);
    }
  }

  /** For each returned RMSD, the index of the output line it was read from. */
  function RmsdOrigins(stdout: string, nPoses: nat): seq<nat>
  {
    ChosenKept(Take(OutputLines(stdout), nPoses), LineRmsd, Reasonable)
  }

  /** At most `nPoses` values come back, all below 50; a failed call gives none.
      Otherwise the k-th value is read from the line `RmsdOrigins[k]`, these
      lines come in file order among the first `nPoses`, and a line is one of
      them exactly when it contributes a value below 50. */
  lemma ObrmsRmsdsSpec(run: ObrmsRun, nPoses: nat)
    ensures |ObrmsRmsds(run, nPoses)| <= nPoses
    ensures forall k :: 0 <= k < |ObrmsRmsds(run, nPoses)| ==> ObrmsRmsds(run, nPoses)[k] < RmsdCeiling
    ensures run.Failed? ==> ObrmsRmsds(run, nPoses) == []
    ensures run.Completed? ==>
      var lines := Take(OutputLines(run.stdout), nPoses);
      var rs := ObrmsRmsds(run, nPoses);
      var o := RmsdOrigins(run.stdout, nPoses);
      && |o| == |rs|
      && StrictlyIncreasing(o)
      && (forall k :: 0 <= k < |o| ==> o[k] < |lines| && LineRmsd(lines[o[k]]) == Some(rs[k]))
      && (forall j :: 0 <= j < |lines| ==>
            (j in o <==> LineRmsd(lines[j]).Some? && LineRmsd(lines[j]).value < RmsdCeiling))
  {
    if run.Completed? {
      FilterMapThenFilter(Take(OutputLines(run.stdout), nPoses), LineRmsd, Reasonable);
    }
  }

  /** `dock_single_point`'s result row: the timestamp, the center, then the
      affinity statistics and the RMSDs, or placeholders. */
  function ResultRow(timestamp: string, center: Center, affinities: seq<real>, rmsds: seq<real>): (row: seq<Cell>)
    ensures |row| == 6 && row[0] == Literal(timestamp) && row[1] == CenterCell(center)
    ensures row[2] == Literal(NoPose) <==> affinities == []
    ensures affinities == [] ==>
              forall c :: 3 <= c < 6 ==> row[c] == Literal(NotAvailable)
    ensures affinities != [] ==>
              row[2] == MeanOf(affinities) && row[3] == StdOf(affinities) && row[4] == Listed(affinities)
    ensures affinities != [] ==> (row[5] == Literal(NotAvailable) <==> rmsds == [])
    ensures affinities != [] && rmsds != [] ==> row[5] == Listed(rmsds)
  {
    if affinities != [] then
      [Literal(timestamp), CenterCell(center), MeanOf(affinities), StdOf(affinities), Listed(affinities),
       if rmsds != [] then Listed(rmsds) else Literal(NotAvailable)]
    else
      [Literal(timestamp), CenterCell(center), Literal(NoPose), Literal(NotAvailable),
       Literal(NotAvailable), Literal(NotAvailable)]
  }

  /** `dock_single_point`: dock once, then compute RMSDs on the file the last
      repeat wrote. `tables` stands for the energy tables the engine reports,
      `obrms` for the outcome of running obrms on a pose file, `timestamp` for
      the clock. */
  method DockSinglePoint(show: real -> string, center: Center, timestamp: string,
                         tables: seq<EnergyTable>, obrms: string -> ObrmsRun)
    returns (row: seq<Cell>)
    requires |tables| == SinglePointRepeats
    ensures row == ResultRow(timestamp, center, Affinities(tables),
                             ObrmsRmsds(obrms(RepeatFileName(show, center, |tables| - 1)), PoseLimit))
    ensures row[4] == Literal(NotAvailable) || (row[4].Listed? && |row[4].xs| == 1)
  {
    var affinities, written := DockRepeats(show, center, tables);
    var outputFile := written[|written| - 1];
    var rmsdValues := CalculateRmsd(obrms(outputFile), PoseLimit);
    row := ResultRow(timestamp, center, affinities, rmsdValues);
  }
}
