// PDBQT records as the pose splitters recognise them: by the start of the
// line only (`line.startswith(...)`), not by the fixed columns of the wwPDB
// coordinate section.

module Pdbqt {
  import opened Text

  /** A MODEL record opens a pose. */
  predicate IsModel(line: string) { StartsWith(line, "MODEL") }

  /** An ENDMDL record closes a pose. */
  predicate IsEndModel(line: string) { StartsWith(line, "ENDMDL") }

  /** An ATOM or HETATM record holds one atom. */
  predicate IsAtom(line: string) { StartsWith(line, "ATOM") || StartsWith(line, "HETATM") }

  /** No line is two kinds of record: the kinds differ in their first letter. */
  lemma RecordKindsDisjoint(line: string)
    ensures !(IsModel(line) && IsEndModel(line))
    ensures IsAtom(line) ==> !IsModel(line) && !IsEndModel(line)
  {
    if IsModel(line) { assert line[0] == line[..5][0] == 'M'; }
    if IsEndModel(line) { assert line[0] == line[..6][0] == 'E'; }
    if StartsWith(line, "ATOM") { assert line[0] == line[..4][0] == 'A'; }
    if StartsWith(line, "HETATM") { assert line[0] == line[..6][0] == 'H'; }
  }

  /** The index of the last MODEL line of `lines`, or -1 when there is none. */
  function LastModel(lines: seq<string>): (m: int)
    ensures -1 <= m < |lines|
    ensures m >= 0 ==> IsModel(lines[m])
    ensures forall j :: m < j < |lines| ==> !IsModel(lines[j])
  {
    if lines == [] then -1
    else if IsModel(lines[|lines| - 1]) then |lines| - 1
    else LastModel(lines[..|lines| - 1])
  }

  /** Lines without a MODEL record do not move the last MODEL line. */
  lemma {:induction false} LastModelSkips(lines: seq<string>, lo: nat, hi: nat)
    requires lo <= hi <= |lines|
    requires forall j :: lo <= j < hi ==> !IsModel(lines[j])
    ensures LastModel(lines[..hi]) == LastModel(lines[..lo])
    decreases hi
  {
    if lo < hi {
      LastModelSkips(lines, lo, hi - 1);
      assert lines[..hi][..hi - 1] == lines[..hi - 1];
    }
  }
}
