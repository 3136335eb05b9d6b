# Docking glue: a verified model

The repository drives AutoDock Vina over a search box around a ligand site.
It docks a ligand at one center or at every center of a grid, and collects the
best affinity of each docking repeat. It measures how far the docked poses lie
from a reference ligand (RMSD), either through OpenBabel's `obrms` or by
matching heavy atoms itself, and writes one result row per center. This
project models the repository's own logic in that pipeline and proves what it
promises:

- **Docking** (`docking.dfy`): the repeat loop that keeps one affinity per
  repeat with a non-empty energy table, the names of the per-repeat output
  files, and the cells of a result row.
- **Text** and **Seqs** (`text.dfy`, `seqs.dfy`): the Python primitives the
  parsers rely on. These are ASCII `isdigit`/`isspace`, `startswith`,
  `strip`, `split("\n")`, `split()`, `replace('.', '', 1)`, `float` of a
  decimal literal and `str` of a number. `Seqs` also holds the comprehension
  `[x for x in s if p(x)]`, together with the positions it keeps.
- **Pdbqt** (`pdbqt.dfy`): MODEL, ENDMDL, ATOM and HETATM records, which the
  splitters recognise by line prefix only, and the last MODEL line seen.
- **RmsdAlright** (`rmsd_alright.dfy`, for `RMSDalright.py`): the obrms output
  parser (the first `n_poses` lines, last token an unsigned decimal, values
  below 50 kept), its failure path, and the single-point run with its row.
- **RmsdTest** (`rmsd_test.dfy`, for `RMSDtest.py`): the MODEL/ENDMDL
  splitter that keeps atom lines only, heavy-atom extraction, nearest-atom
  matching over a distance matrix, the per-pose RMSD loop with its skips, and
  the row.
- **PoseSplit** (`pose_split.dfy`, for `other/pose.py`): the splitter that
  writes numbered pose files, MODEL and ENDMDL lines included.
- **ParallelGrid** (`parallel_grid.dfy`, for `parallelnewgrid.py`): the evenly
  spaced axes and the 5 x 5 x 5 grid of centers in x-major order. It also
  covers the three-repeat docking of a center with its row, and the in-order
  collection of rows over the grid.
- **Rdock** (`rdock.dfy`, for `code/Rdock.py`): `re.findall(r'([-+]?\d*\.\d+)[\n$]', ...)`
  as a leftmost, non-overlapping scan, and the conversion of its tokens to numbers.

The docking engine, obrms, the PDB parser and the superimposer are foreign
code. Each appears as an input instead: the energy tables a run reports, the
outcome of an obrms call, the lines written to a file, or a function
parameter. The same holds for Python's `str` of a coordinate and for the clock.
Numbers are exact reals. `np.mean`, `np.std` and the two-decimal formatting
stay symbolic in the row cells.

`[\n$]` is a character class, so its `$` is a literal dollar sign and not the
end of the text. A number that ends the obrms output without a line feed after
it is therefore not read (`Rdock.LastNumberNeedsTerminator`).

## Model

| member | source | states |
|---|---|---|
| `Docking.AffinitiesPerRepeat` | RMSDalright.py:58-60 | One affinity per repeat whose energy table is non-empty, namely its top-left entry, in repeat order. None for an empty table. No affinities at all exactly when every table is empty. |
| `Docking.DockRepeats` | RMSDalright.py:51-60 | The repeat loop collects exactly those affinities. Repeat k writes its poses to `ligand_docked_{x}_{y}_{z}_rep{k+1}.pdbqt`. |
| `Docking.RepeatFilesDistinct` | RMSDalright.py:55 | Two different repeats of one center never write to the same file. |
| `Text.Strip` | RMSDalright.py:23 | What `strip()` leaves is no longer than the text and neither starts nor ends with whitespace. |
| `Text.StripSpan` | RMSDalright.py:23 | `strip()` removes whitespace from the two ends and nothing else. The result is the stretch of the text after some leading whitespace, and only whitespace follows it. |
| `Text.Split` | RMSDalright.py:23 | `split("\n")` gives at least one part, and no part holds a line feed. |
| `Text.JoinSplit` | RMSDalright.py:23 | Joining the lines again with line feeds gives the stripped text back. |
| `Text.Words` | RMSDalright.py:25 | `split()` gives non-empty, whitespace-free tokens, and no token at all exactly for a blank line. |
| `Text.WordSpan` | RMSDalright.py:25 | Each token of `split()` is a maximal run of non-whitespace: a stretch of the line with whitespace or the line's edge on both sides. Only whitespace follows the last token. |
| `Text.WordsKeepNonSpace` | RMSDalright.py:25 | The tokens of `split()`, side by side, are exactly the line's non-whitespace characters in order. |
| `Text.UnsignedDecimalShape` | RMSDalright.py:26 | `replace('.', '', 1).isdigit()` accepts exactly a non-empty digit run, or one '.' with digits around it (not both sides empty). |
| `Text.DecimalRejects` | RMSDalright.py:26 | A token that starts with '+' or '-', or that holds two '.', is rejected. |
| `Text.UnsignedValue` | RMSDalright.py:27 | `float` of an accepted token is never negative. |
| `Text.NatTextValue` | RMSDalright.py:55 | Reading back the digits that `str(n)` prints gives `n`, which makes numbered file names unique. |
| `RmsdAlright.Take` | RMSDalright.py:24 | `[:n_poses]` is the prefix of exactly `min(n_poses, len(lines))` lines. |
| `RmsdAlright.LastWordMaximal` | RMSDalright.py:25-26 | `parts[-1]` is the whole run of non-whitespace that ends the line: whitespace or the line's start comes before it, and only whitespace after it. |
| `RmsdAlright.LineRmsdRules` | RMSDalright.py:25-27 | A line contributes a value exactly when its last token is an unsigned decimal. Blank lines, signed numbers and tokens with two dots contribute nothing. A contributed value is not negative. |
| `RmsdAlright.CalculateRmsd` | RMSDalright.py:17-33 | The parse loop, followed by the `< 50` filter, computes `ObrmsRmsds`. When the obrms call fails, the result is `[]`. |
| `RmsdAlright.ObrmsRmsdsSpec` | RMSDalright.py:23-30 | At most `n_poses` values come back, all below 50. Each value comes from its own line, in line order. A line among the first `n_poses` gives a value exactly when it parses to a value below 50. A failed call gives nothing. |
| `RmsdAlright.ResultRow` | RMSDalright.py:67-77 | Six cells. With no affinity the row is `No Pose`, `N/A`, `N/A`, `N/A`, whatever the RMSDs. Otherwise it holds the mean, the std and the list, and the RMSD cell is `N/A` exactly when there are no RMSDs. |
| `RmsdAlright.DockSinglePoint` | RMSDalright.py:42-79 | The row is built from the affinities of the single repeat and from the RMSDs obrms gives for that repeat's file. The affinity list is `N/A` or has exactly one entry. |
| `Pdbqt.RecordKindsDisjoint` | RMSDtest.py:83-86 | No line is both MODEL and ENDMDL. An ATOM or HETATM line is neither. |
| `Pdbqt.LastModel` | RMSDtest.py:83-84 | The last MODEL line read so far, or none, and no MODEL line after it. |
| `Pdbqt.LastModelSkips` | RMSDtest.py:83-90 | Lines that are not MODEL lines do not move the last MODEL line. |
| `RmsdTest.HeavyAtomsExact` | RMSDtest.py:28-29 | `extract_heavy_atoms` drops exactly the atoms whose element is 'H' and keeps the others in order. |
| `RmsdTest.DistanceMatrix` | RMSDtest.py:32-35 | One row per reference atom and one column per mobile atom. |
| `RmsdTest.ArgMin` | RMSDtest.py:36 | `argmin` is an index of a smallest entry of the row, and the first such index. |
| `RmsdTest.MatchByProximity` | RMSDtest.py:31-39 | There is one matched atom per reference atom, the first mobile atom at the least distance from it. The match has as many atoms as the reference, so the check at line 54 never skips a pose. |
| `RmsdTest.ReadDockedStructures` | RMSDtest.py:79-90 | The splitting loop produces the structure of each ENDMDL line's pose, parsed from that pose's atom lines. |
| `RmsdTest.BufferStep` | RMSDtest.py:82-90 | A MODEL line empties the buffer. An ENDMDL line leaves it as it is. Any other line is appended. |
| `RmsdTest.BufferedAtoms` | RMSDtest.py:86 | The ATOM/HETATM lines of the buffer are the ATOM/HETATM lines after the last MODEL line. |
| `RmsdTest.OnePosePerEndModel` | RMSDtest.py:80-88 | Exactly one structure per ENDMDL line, in file order. |
| `RmsdTest.PoseAtomLinesExact` | RMSDtest.py:86 | A pose holds exactly the ATOM and HETATM lines after the last MODEL line, in order, and never a MODEL or ENDMDL line. |
| `RmsdTest.PoseCarriesOver` | RMSDtest.py:83-90 | Two ENDMDL lines with no MODEL between them: the second pose is the first pose's lines plus the atom lines in between. |
| `RmsdTest.CalculateRmsdWithSuperimposer` | RMSDtest.py:41-62 | The pose loop, with its two skips, computes `SuperimposedRmsds`. |
| `RmsdTest.SuperimposedRmsdsSpec` | RMSDtest.py:45-60 | At most one RMSD per pose, in pose order. A pose gets one exactly when both the reference and the pose have heavy atoms. |
| `RmsdTest.EnergyColumn` | RMSDtest.py:92-93 | The affinities are column 0 of the energy table, or empty exactly when the table is empty. |
| `RmsdTest.TestRow` | RMSDtest.py:97-103 | Six cells. The mean, std and list cells fall back to `No Pose`/`N/A`/`N/A` exactly when there are no affinities. The RMSD cell is `N/A` exactly when there are no RMSDs, independently of the affinities. |
| `RmsdTest.DockSinglePoint` | RMSDtest.py:64-105 | The row is built from the energy table's column 0 and from the RMSDs of the structures split out of the output file. |
| `PoseSplit.PoseStart` | other/pose.py:23-24 | The buffer starts at the last MODEL line, or at the top of the file when there is none. |
| `PoseSplit.SplitPoses` | other/pose.py:19-32 | The splitting loop, with `pose_idx`, writes exactly `PoseFiles`. |
| `PoseSplit.PoseTextStep` | other/pose.py:22-32 | A MODEL line restarts the buffer with itself. Every other line, ENDMDL included, is appended. |
| `PoseSplit.PosesWrittenStep` | other/pose.py:25-30 | A file is written at an ENDMDL line and at no other line. |
| `PoseSplit.PoseFilesNumbered` | other/pose.py:20-30 | One file per ENDMDL line, in file order, named `..._pose1.pdbqt`, `..._pose2.pdbqt`, ... with no gaps, so no two files share a name. |
| `PoseSplit.PoseFileSpan` | other/pose.py:25-29 | Each file holds the stretch of output from the buffer's start up to its own ENDMDL line, and ends with that line. |
| `PoseSplit.PoseStartsAtModel` | other/pose.py:23-24 | A pose after a MODEL line starts with the last such line and holds no other MODEL line. With no MODEL line before it, the pose starts at the top of the file. |
| `PoseSplit.PoseFileCarriesOver` | other/pose.py:23-32 | Two ENDMDL lines with no MODEL between them: the second file repeats the first file's lines, its ENDMDL included, then adds the lines up to its own ENDMDL. |
| `PoseSplit.TrailingLinesUnwritten` | other/pose.py:25-32 | Lines after the last ENDMDL line change nothing that is written. |
| `PoseSplit.DockSinglePoint` | other/pose.py:11-36 | The single repeat's file is split into `PoseFiles`. At most one affinity is recorded. |
| `ParallelGrid.Linspace` | parallelnewgrid.py:9-10 | `num_points` values. |
| `ParallelGrid.LinspaceEnds` | parallelnewgrid.py:9-10 | The first value is `start`. With two points or more the last is exactly `end`, and consecutive values are one step apart. |
| `ParallelGrid.GridCenters` | parallelnewgrid.py:50 | The product has \|x\|·\|y\|·\|z\| centers. |
| `ParallelGrid.GridAt` | parallelnewgrid.py:50 | x is outermost and z innermost: index i·\|y\|·\|z\| + j·\|z\| + k holds (x[i], y[j], z[k]). |
| `ParallelGrid.GridCoordinates` | parallelnewgrid.py:50 | Every center takes its coordinates from the three axes. |
| `ParallelGrid.GridMembers` | parallelnewgrid.py:50 | A center is in the grid exactly when each coordinate is on its axis, so every combination appears. |
| `ParallelGrid.SearchGridShape` | parallelnewgrid.py:45-50 | The search grid has 125 centers, from (60.36, -37.89, -71.77) to (79.24, -14.18, -52.21). |
| `ParallelGrid.GridRow` | parallelnewgrid.py:34-40 | Five cells. The placeholders `No Pose`, `N/A`, `N/A` appear exactly when no affinity was recorded. |
| `ParallelGrid.DockGridPoint` | parallelnewgrid.py:13-42 | The row is built from the three repeats' affinities, and at most three are recorded. |
| `ParallelGrid.DockAll` | parallelnewgrid.py:61-62 | One row per center, in the order of the centers (`imap` keeps input order). |
| `Rdock.DigitRun` | code/Rdock.py:53 | `\d*` is greedy: the run stops only at a non-digit or at the end of the text. |
| `Rdock.DigitRunDigits` | code/Rdock.py:53 | Everything the run passes over is a digit. |
| `Rdock.MatchAtExact` | code/Rdock.py:53 | The pattern matches at p with its group ending at e exactly when the text between has the shape `[-+]?\d*\.\d+` and the next character is a line feed or a '$'. |
| `Rdock.FindAll` | code/Rdock.py:53 | Each reported match lies after the scan start and ends before the end of the text. Matches are in increasing order and do not overlap. |
| `Rdock.FindAllMatch` | code/Rdock.py:53 | Each reported match really is one: the pattern matches at its start, with its group ending at its end. |
| `Rdock.FindAllLeftmost` | code/Rdock.py:53 | Leftmost and complete: every position where the pattern matches starts a reported match or lies inside one. |
| `Rdock.TokensShape` | code/Rdock.py:53 | Every token is an optional sign, digits, '.', then at least one digit, and is followed by '\n' or '$'. So a number without a point is never read. |
| `Rdock.SignIncluded` | code/Rdock.py:53 | A '+' or '-' right before a token's digits is part of the token. |
| `Rdock.LastNumberNeedsTerminator` | code/Rdock.py:53 | A number that ends the output with nothing after it is missed. The same number followed by a line feed is read, sign included. |
| `Rdock.TokenValue` | code/Rdock.py:54 | `float` of a token is negative only when the token carries a minus sign. |
| `Rdock.ReportRmsdsSigns` | code/Rdock.py:53-54 | One value per token, in output order. A negative value comes only from a token with '-'. |

## Left out

- The docking engine (receptor and ligand setup, maps, docking, pose writing, energies) is foreign native code. Its energy tables and the lines it writes are inputs.
- The `obabel` conversions and the `obrms` run (`subprocess`), temporary files, `os.remove` and all file reads and writes are I/O. The obrms outcome is a `Failed`/`Completed(stdout)` input.
- `RmsdAlright.CalculateRmsd`: does not model the `os.remove` calls after the `try`, which raise when obabel made no file.
- `RmsdAlright.CalculateRmsd`: does not model an exception from `float` after values were appended. On ASCII text `float` accepts every token the decimal test accepts.
- `RmsdAlright.CalculateRmsd`: the loop body names the per-line parse `LineRmsd` (split, last token, decimal test, `float`) instead of spelling it out inline.
- `RmsdAlright.Take`: a negative `n_poses`, for which Python's slice counts from the end, is not modelled. The callers pass 10.
- The PDB parser (`get_structure_from_atoms`, `load_structure_from_file`) and `Superimposer.rms` are foreign code. They are the function parameters `parse` and `rms`, and a parse error on an empty pose is not modelled.
- `RmsdTest.DistanceMatrix`: holds squared distances. `cdist`'s square root is monotone, so it does not change which entry of a row is smallest.
- `ParallelGrid.Linspace`: does not model `round(v, 2)` or floating-point rounding. Values are exact reals, so the endpoints are exact.
- Floating point in general: `np.mean`, `np.std` and the `:.2f` formatting are symbolic cells, and the `< 50` test is on exact reals.
- Python's Unicode-aware `isdigit` and `isspace` (RMSDalright.py) and the `\d` class of the `re.findall` pattern in `code/Rdock.py`, which with `float` accepts every Unicode decimal digit, are modelled on ASCII digits and whitespace only.
- `str` of a coordinate in file names is the parameter `show`, and the timestamps from `datetime.now()` are inputs.
- `multiprocessing.Pool`, `tqdm` and the printing are concurrency and user interface. `DockAll` models only the order `imap` keeps.
- The results writer at parallelnewgrid.py:66-77 does not parse (an unexpected indent at line 67, and `results` is undefined at line 70), so it is not modelled. Neither are the text and CSV writers of the other scripts.
- `other/pose.py` returns nothing. `PoseSplit.DockSinglePoint` returns the affinities it collects and the pose files it writes.
- `RMSDtest.py` names its output file `ligand_docked_{x}_{y}_{z}.pdbqt`. That name is not modelled because the split reads the written lines directly.
- The `AutoDockVina` class of `code/Rdock.py` is not modelled beyond the `findall` extraction and conversion in `report`.
