// code/Rdock.py, `AutoDockVina.report`: the RMSDs are pulled out of obrms's
// output with `re.findall(r'([-+]?\d*\.\d+)[\n$]', stdout)` and converted
// with `float`. The pattern is specified here by the shape of what it matches,
// and `findall` by a left-to-right scan for non-overlapping matches.

module Rdock {
  import opened Seqs
  import opened Text

  predicate IsSign(c: char) { c == '+' || c == '-' }

  /** `[\n$]`: a line feed or a literal dollar sign. */
  predicate IsTerminator(c: char) { c == '\n' || c == '$' }

  /** Every character of `s` from `i` up to `j` is a decimal digit. */
  predicate DigitsIn(s: string, i: nat, j: nat)
    requires i <= j <= |s|
  {
    forall k :: i <= k < j ==> IsDigit(s[k])
  }

  /** `s[p..e]` has the shape `[-+]?\d*\.\d+`: an optional sign, digits, a
      point, at least one digit. */
  predicate MatchShape(s: string, p: nat, e: nat)
    requires p < e <= |s|
  {
    var q := if IsSign(s[p]) then p + 1 else p;
    exists d :: q <= d < e - 1 && s[d] == '.' && DigitsIn(s, q, d) && DigitsIn(s, d + 1, e)
  }

  /** A token of the shape `[-+]?\d*\.\d+`. */
  predicate TokenShape(t: string)
  {
    t != [] && MatchShape(t, 0, |t|)
  }

  /** The end of the run of digits of `s` that starts at `i`: `\d*` is greedy
      and stops only at a non-digit or at the end of the text. */
  function DigitRun(s: string, i: nat): (j: nat)
    requires i <= |s|
    ensures i <= j <= |s|
    ensures j == |s| || !IsDigit(s[j])
    decreases |s| - i
  {
    if i < |s| && IsDigit(s[i]) then DigitRun(s, i + 1) else i
  }

  /** What `DigitRun` passes over is digits. */
  lemma {:induction false} DigitRunDigits(s: string, i: nat)
    requires i <= |s|
    ensures DigitsIn(s, i, DigitRun(s, i))
    decreases |s| - i
  {
    if i < |s| && IsDigit(s[i]) {
      DigitRunDigits(s, i + 1);
    }
  }

  /** A run of digits followed by a non-digit is the run `DigitRun` finds. */
  lemma {:induction false} DigitRunExact(s: string, i: nat, j: nat)
    requires i <= j <= |s| && DigitsIn(s, i, j)
    requires j == |s| || !IsDigit(s[j])
    ensures DigitRun(s, i) == j
    decreases j - i
  {
    if i < j {
      DigitRunExact(s, i + 1, j);
    }
  }

  /** Trying the pattern at position `p`: the end of the group when it matches
      there (the terminator sits at that index), nothing otherwise. Every
      quantifier of the pattern is greedy and what follows it cannot start with
      what it repeats, so backtracking never finds another match. */
  function MatchAt(s: string, p: nat): (r: Option<nat>)
    requires p <= |s|
  {
    var q := if p < |s| && IsSign(s[p]) then p + 1 else p;
    var d := DigitRun(s, q);
    if d < |s| && s[d] == '.' then
      var f := DigitRun(s, d + 1);
      if d + 1 < f < |s| && IsTerminator(s[f]) then Some(f) else None
    else None
  }

  /** The pattern matches at `p` with its group ending at `e` exactly when
      `s[p..e]` has the shape of a signed decimal with a point and `s[e]` is
      a line feed or a dollar sign. */
  lemma MatchAtExact(s: string, p: nat, e: nat)
    requires p <= |s|
    ensures MatchAt(s, p) == Some(e) <==> p < e < |s| && MatchShape(s, p, e) && IsTerminator(s[e])
  {
    if MatchAt(s, p) == Some(e) {
      MatchAtSound(s, p);
    }
    if p < e < |s| && MatchShape(s, p, e) && IsTerminator(s[e]) {
      MatchAtComplete(s, p, e);
    }
  }

  lemma MatchAtSound(s: string, p: nat)
    requires p <= |s| && MatchAt(s, p).Some?
    ensures var e := MatchAt(s, p).value;
      p < e < |s| && MatchShape(s, p, e) && IsTerminator(s[e])
  {
    var q := if p < |s| && IsSign(s[p]) then p + 1 else p;
    var d := DigitRun(s, q);
    DigitRunDigits(s, q);
    DigitRunDigits(s, d + 1);
    assert s[d] == '.';
  }

  lemma MatchAtComplete(s: string, p: nat, e: nat)
    requires p < e < |s| && MatchShape(s, p, e) && IsTerminator(s[e])
    ensures MatchAt(s, p) == Some(e)
  {
    var q := if IsSign(s[p]) then p + 1 else p;
    var d :| q <= d < e - 1 && s[d] == '.' && DigitsIn(s, q, d) && DigitsIn(s, d + 1, e);
    assert !IsDigit(s[d]) && !IsDigit(s[e]);
    DigitRunExact(s, q, d);
    DigitRunExact(s, d + 1, e);
    assert (if p < |s| && IsSign(s[p]) then p + 1 else p) == q;
  }

  /** One match: the group is `s[start..end]`, and the terminator at `end`
      is consumed with it. */
  datatype Span = Span(start: nat, end: nat)

  /** `re.findall` from position `pos`: the leftmost match at or after `pos`,
      then the scan resumes after its terminator. */
  function FindAll(s: string, pos: nat): (r: seq<Span>)
    requires pos <= |s|
    ensures forall k :: 0 <= k < |r| ==> pos <= r[k].start < r[k].end < |s|
    ensures forall a, b :: 0 <= a < b < |r| ==> r[a].end < r[b].start
    decreases |s| - pos
  {
    if pos == |s| then []
    else
      match MatchAt(s, pos)
      case Some(f) => [Span(pos, f)] + FindAll(s, f + 1)
      case None => FindAll(s, pos + 1)
  }

  /** Each reported match really is one: the pattern matches at its start
      with its group ending at its end. */
  lemma {:induction false} FindAllMatch(s: string, pos: nat, k: nat)
    requires pos <= |s| && k < |FindAll(s, pos)|
    ensures MatchAt(s, FindAll(s, pos)[k].start) == Some(FindAll(s, pos)[k].end)
    decreases |s| - pos
  {
    var m := MatchAt(s, pos);
    if m.Some? {
      var rest := FindAll(s, m.value + 1);
      assert FindAll(s, pos) == [Span(pos, m.value)] + rest;
      if k > 0 {
        FindAllMatch(s, m.value + 1, k - 1);
        assert FindAll(s, pos)[k] == rest[k - 1];
      }
    } else {
      assert FindAll(s, pos) == FindAll(s, pos + 1);
      FindAllMatch(s, pos + 1, k);
    }
  }

  /** Leftmost and complete: every position where the pattern matches is the
      start of a match `findall` reports or lies inside one, terminator
      included; `k` is that match. */
  lemma {:induction false} FindAllLeftmost(s: string, pos: nat, p: nat) returns (k: nat)
    requires pos <= p < |s| && MatchAt(s, p).Some?
    ensures k < |FindAll(s, pos)| && FindAll(s, pos)[k].start <= p <= FindAll(s, pos)[k].end
    decreases |s| - pos
  {
    var m := MatchAt(s, pos);
    if m.Some? {
      var f := m.value;
      var rest := FindAll(s, f + 1);
      assert FindAll(s, pos) == [Span(pos, f)] + rest;
      if p <= f {
        k := 0;
      } else {
        var k' := FindAllLeftmost(s, f + 1, p);
        k := k' + 1;
        assert FindAll(s, pos)[k] == rest[k'];
      }
    } else {
      assert p != pos;
      assert FindAll(s, pos) == FindAll(s, pos + 1);
      k := FindAllLeftmost(s, pos + 1, p);
    }
  }

  /** The RMSD texts `findall` returns: the groups of its matches. */
  function Tokens(s: string): seq<string>
  {
    var spans := FindAll(s, 0);
    seq(|spans|, k requires 0 <= k < |spans| => s[spans[k].start..spans[k].end])
  }

  /** The shape seen in place is the shape of the cut-out token. */
  lemma ShapeSlice(s: string, p: nat, e: nat)
    requires p < e <= |s| && MatchShape(s, p, e)
    ensures TokenShape(s[p..e]) && '.' in s[p..e]
  {
    var t := s[p..e];
    var q := if IsSign(s[p]) then p + 1 else p;
    var d :| q <= d < e - 1 && s[d] == '.' && DigitsIn(s, q, d) && DigitsIn(s, d + 1, e);
    assert t[d - p] == '.';
    assert DigitsIn(t, q - p, d - p) by {
      forall k | q - p <= k < d - p ensures IsDigit(t[k]) { assert t[k] == s[p + k]; }
    }
    assert DigitsIn(t, d - p + 1, |t|) by {
      forall k | d - p + 1 <= k < |t| ensures IsDigit(t[k]) { assert t[k] == s[p + k]; }
    }
  }

  /** Every token is a signed decimal with a point, followed in the output by
      a line feed or a dollar sign; so a number without a point is never
      read, nor one that ends the output with nothing after it. */
  lemma TokensShape(s: string)
    ensures forall k :: 0 <= k < |Tokens(s)| ==> TokenShape(Tokens(s)[k]) && '.' in Tokens(s)[k]
    ensures forall k :: 0 <= k < |FindAll(s, 0)| ==>
              FindAll(s, 0)[k].end < |s| && IsTerminator(s[FindAll(s, 0)[k].end])
  {
    var spans := FindAll(s, 0);
    forall k | 0 <= k < |spans|
      ensures TokenShape(Tokens(s)[k]) && '.' in Tokens(s)[k] && IsTerminator(s[spans[k].end])
    {
      FindAllMatch(s, 0, k);
      MatchAtSound(s, spans[k].start);
      ShapeSlice(s, spans[k].start, spans[k].end);
    }
  }

  /** A '+' or '-' right before a token's digits belongs to the token. */
  lemma SignIncluded(s: string)
    ensures forall k :: 0 <= k < |FindAll(s, 0)| ==>
              var start := FindAll(s, 0)[k].start;
              !IsSign(s[start]) && start > 0 ==> !IsSign(s[start - 1])
  {
    var spans := FindAll(s, 0);
    forall k | 0 <= k < |spans| && !IsSign(s[spans[k].start]) && spans[k].start > 0
      ensures !IsSign(s[spans[k].start - 1])
    {
      SignBeforeUnsigned(s, spans, k);
    }
  }

  lemma SignBeforeUnsigned(s: string, spans: seq<Span>, k: nat)
    requires spans == FindAll(s, 0) && k < |spans|
    requires !IsSign(s[spans[k].start]) && spans[k].start > 0
    ensures !IsSign(s[spans[k].start - 1])
  {
    var start, end := spans[k].start, spans[k].end;
    if IsSign(s[start - 1]) {
      FindAllMatch(s, 0, k);
      MatchAtSound(s, start);
      SignedToken(s, start - 1, end);
      var a, b := SpanBefore(s, k, start - 1);
      MatchEnd(s, a, b);
    }
  }

  /** A match found before the `k`-th reported one lies inside an earlier
      reported match `Span(a, b)`, which ends before the `k`-th starts. */
  lemma SpanBefore(s: string, k: nat, p: nat) returns (a: nat, b: nat)
    requires k < |FindAll(s, 0)| && p < FindAll(s, 0)[k].start && MatchAt(s, p).Some?
    ensures a <= p <= b < FindAll(s, 0)[k].start && MatchAt(s, a) == Some(b)
  {
    var spans := FindAll(s, 0);
    var j := FindAllLeftmost(s, 0, p);
    a, b := spans[j].start, spans[j].end;
    FindAllMatch(s, 0, j);
    assert j < k;
    assert b < spans[k].start;
  }

  /** A match is followed by its terminator. */
  lemma MatchEnd(s: string, p: nat, e: nat)
    requires p <= |s| && MatchAt(s, p) == Some(e)
    ensures e < |s| && IsTerminator(s[e])
  {
  }

  /** A sign in front of an unsigned token gives a match that starts at the sign. */
  lemma SignedToken(s: string, p: nat, e: nat)
    requires p + 1 < e < |s| && IsSign(s[p]) && !IsSign(s[p + 1])
    requires MatchShape(s, p + 1, e) && IsTerminator(s[e])
    ensures MatchAt(s, p) == Some(e)
  {
    var d :| p + 1 <= d < e - 1 && s[d] == '.' && DigitsIn(s, p + 1, d) && DigitsIn(s, d + 1, e);
    assert MatchShape(s, p, e);
    MatchAtComplete(s, p, e);
  }

  /** `float` of a token: its sign applied to the value of the unsigned part. */
  function TokenValue(t: string): (v: real)
    requires TokenShape(t)
    ensures t[0] == '-' ==> v <= 0.0
    ensures t[0] != '-' ==> v >= 0.0
  {
    var q := if IsSign(t[0]) then 1 else 0;
    var neg, u := t[0] == '-', t[q..];
    assert IsUnsignedDecimal(u) by {
      var d :| q <= d < |t| - 1 && t[d] == '.' && DigitsIn(t, q, d) && DigitsIn(t, d + 1, |t|);
      assert u[d - q] == '.';
      var whole, frac := u[..d - q], u[d - q + 1..];
      assert AllDigits(whole) by {
        forall k | 0 <= k < |whole| ensures IsDigit(whole[k]) { assert whole[k] == t[q + k]; }
      }
      assert AllDigits(frac) by {
        forall k | 0 <= k < |frac| ensures IsDigit(frac[k]) { assert frac[k] == t[d + 1 + k]; }
      }
      UnsignedDecimalShape(u);
    }
    if neg then -UnsignedValue(u) else UnsignedValue(u)
  }

  /** `np.array([float(rmsd) for rmsd in rmsds])` after the `findall`. */
  function ReportRmsds(stdout: string): (values: seq<real>)
  {
    var tokens := Tokens(stdout);
    TokensShape(stdout);
    seq(|tokens|, k requires 0 <= k < |tokens| => TokenValue(tokens[k]))
  }

  /** One value per token, in output order; a value is negative only when its
      token carries a minus sign. */
  lemma ReportRmsdsSigns(stdout: string)
    ensures |ReportRmsds(stdout)| == |Tokens(stdout)|
    ensures forall k :: 0 <= k < |ReportRmsds(stdout)| ==>
              (ReportRmsds(stdout)[k] < 0.0 ==> Tokens(stdout)[k][0] == '-')
  {
    TokensShape(stdout);
  }

  /** A number that ends the output with no line feed after it is missed; one
      followed by a line feed is read, with its sign. */
  lemma LastNumberNeedsTerminator()
    ensures Tokens("0.75") == []
    ensures Tokens("-0.75\n") == ["-0.75"]
  {
    var a, b := "0.75", "-0.75\n";
    assert MatchAt(a, 0) == None by { assert DigitRun(a, 2) == 4; }
    assert MatchAt(a, 1) == None;
    assert MatchAt(a, 2) == None;
    assert MatchAt(a, 3) == None;
    assert FindAll(a, 0) == [];
    assert DigitRun(b, 1) == 2;
    assert DigitRun(b, 3) == 5;
    assert MatchAt(b, 0) == Some(5);
    assert FindAll(b, 6) == [];
    assert FindAll(b, 0) == [Span(0, 5)];
    assert b[0..5] == "-0.75";
    assert Tokens(b) == [b[0..5]];
  }
}
