// Python string primitives the parsers rely on, restricted to ASCII:
// `isdigit`, `isspace`, `startswith`, `strip`, `split("\n")`, `split()`,
// `replace('.', '', 1)`, `float` of a decimal literal, and `str` of a
// non-negative int.

module Text {
  import opened Seqs

  predicate IsDigit(c: char) { '0' <= c <= '9' }

  /** Python's `str.isspace` on ASCII: tab, line feed, vertical tab, form feed,
      carriage return, the four separators 0x1C-0x1F, and space. */
  predicate IsSpace(c: char) { 9 <= c as int <= 13 || 28 <= c as int <= 32 }

  predicate NonSpace(c: char) { !IsSpace(c) }

  predicate AllDigits(s: string) { forall i :: 0 <= i < |s| ==> IsDigit(s[i]) }

  predicate AllSpace(s: string) { forall i :: 0 <= i < |s| ==> IsSpace(s[i]) }

  /** `s.startswith(prefix)` */
  predicate StartsWith(s: string, prefix: string)
  {
    |prefix| <= |s| && s[..|prefix|] == prefix
  }

  /** The index of the first `c` in `s`, or `|s|` when there is none. */
  function IndexOf(s: string, c: char): (i: nat)
    ensures i <= |s|
    ensures i < |s| ==> s[i] == c
    ensures forall j :: 0 <= j < i ==> s[j] != c
  {
    if s == [] then 0
    else if s[0] == c then 0
    else 1 + IndexOf(s[1..], c)
  }

  // ---------------------------------------------------------------------------
  // strip()

  function LStrip(s: string): (r: string)
    ensures |r| <= |s| && r == s[|s| - |r|..]
    ensures forall i :: 0 <= i < |s| - |r| ==> IsSpace(s[i])
    ensures r == [] || !IsSpace(r[0])
  {
    if s != [] && IsSpace(s[0]) then LStrip(s[1..]) else s
  }

  function RStrip(s: string): (r: string)
    ensures |r| <= |s| && r == s[..|r|]
    ensures forall i :: |r| <= i < |s| ==> IsSpace(s[i])
    ensures r == [] || !IsSpace(r[|r| - 1])
  {
    if s != [] && IsSpace(s[|s| - 1]) then RStrip(s[..|s| - 1]) else s
  }

  /** `s.strip()`: neither end of the result is whitespace. */
  function Strip(s: string): (r: string)
    ensures |r| <= |s|
    ensures r == [] || (!IsSpace(r[0]) && !IsSpace(r[|r| - 1]))
  {
    RStrip(LStrip(s))
  }

  /** `strip()` removes whitespace from the two ends of `s` and nothing else:
      the result is the stretch of `s` after `lead` whitespace characters, and
      only whitespace follows it. */
  lemma StripSpan(s: string) returns (lead: nat)
    ensures lead + |Strip(s)| <= |s|
    ensures Strip(s) == s[lead..lead + |Strip(s)|]
    ensures forall i :: 0 <= i < lead ==> IsSpace(s[i])
    ensures forall i :: lead + |Strip(s)| <= i < |s| ==> IsSpace(s[i])
  {
    var left := LStrip(s);
    lead := |s| - |left|;
    var r := RStrip(left);
    assert Strip(s) == r;
    assert left == s[lead..] && r == left[..|r|];
    assert left[..|r|] == s[lead..lead + |r|];
    forall i | lead + |r| <= i < |s| ensures IsSpace(s[i]) {
      assert s[i] == left[i - lead];
    }
  }

  // ---------------------------------------------------------------------------
  // split(sep) and its inverse join

  /** `s.split(sep)` for a one-character separator. */
  function Split(s: string, sep: char): (parts: seq<string>)
    ensures |parts| >= 1
    ensures forall k :: 0 <= k < |parts| ==> sep !in parts[k]
    decreases |s|
  {
    var i := IndexOf(s, sep);
    if i == |s| then [s] else [s[..i]] + Split(s[i + 1..], sep)
  }

  /** `sep.join(parts)` */
  function Join(parts: seq<string>, sep: char): string
  {
    if parts == [] then ""
    else if |parts| == 1 then parts[0]
    else parts[0] + [sep] + Join(parts[1..], sep)
  }

  /** Splitting and joining again on the same separator gives the text back. */
  lemma {:induction false} JoinSplit(s: string, sep: char)
    ensures Join(Split(s, sep), sep) == s
    decreases |s|
  {
    var i := IndexOf(s, sep);
    if i < |s| {
      var rest := Split(s[i + 1..], sep);
      JoinSplit(s[i + 1..], sep);
      assert Split(s, sep) == [s[..i]] + rest;
      JoinCons(s[..i], rest, sep);
      SplitAround(s, i);
    }
  }

  lemma JoinCons(first: string, rest: seq<string>, sep: char)
    requires |rest| >= 1
    ensures Join([first] + rest, sep) == first + [sep] + Join(rest, sep)
  {
    assert ([first] + rest)[1..] == rest;
  }

  /** A text is what comes before position `i`, the character there, and what
      comes after. */
  lemma SplitAround(s: string, i: nat)
    requires i < |s|
    ensures s == s[..i] + [s[i]] + s[i + 1..]
  {
  }

  // ---------------------------------------------------------------------------
  // split() with no argument: the maximal runs of non-whitespace

  /** The length of the run of non-whitespace at the front of `s`. */
  function WordLength(s: string): (n: nat)
    ensures n <= |s|
    ensures forall j :: 0 <= j < n ==> !IsSpace(s[j])
    ensures n == |s| || IsSpace(s[n])
  {
    if s == [] || IsSpace(s[0]) then 0 else 1 + WordLength(s[1..])
  }

  /** `s.split()` */
  function Words(s: string): (ws: seq<string>)
    ensures forall k :: 0 <= k < |ws| ==> ws[k] != [] && forall j :: 0 <= j < |ws[k]| ==> !IsSpace(ws[k][j])
    ensures ws == [] <==> AllSpace(s)
    decreases |s|
  {
    if s == [] then []
    else if IsSpace(s[0]) then Words(s[1..])
    else
      var n := WordLength(s);
      [s[..n]] + Words(s[n..])
  }

  function Concat(ws: seq<string>): string
  {
    if ws == [] then "" else ws[0] + Concat(ws[1..])
  }

  /** The words of `s`, put side by side, are exactly the non-whitespace
      characters of `s`, in order: `split()` loses nothing but whitespace. */
  lemma {:induction false} WordsKeepNonSpace(s: string)
    ensures Concat(Words(s)) == Filter(s, NonSpace)
    decreases |s|
  {
    if s != [] {
      var n := if IsSpace(s[0]) then 1 else WordLength(s);
      var head, rest := s[..n], s[n..];
      assert s == head + rest;
      WordsKeepNonSpace(rest);
      FilterAppend(head, rest, NonSpace);
      if IsSpace(s[0]) {
        FilterNone(head, NonSpace);
        assert Words(s) == Words(rest);
      } else {
        FilterAll(head, NonSpace);
        assert Words(s) == [head] + Words(rest);
        assert Concat(Words(s)) == head + Concat(Words(rest));
      }
    }
  }

  /** Each word is a maximal run of non-whitespace: the stretch `s[i..j]` with
      whitespace or the edge of the text on both sides. Only whitespace follows
      the last word. */
  lemma {:induction false} WordSpan(s: string, k: nat) returns (i: nat, j: nat)
    requires k < |Words(s)|
    ensures i < j <= |s| && Words(s)[k] == s[i..j]
    ensures i == 0 || IsSpace(s[i - 1])
    ensures j == |s| || IsSpace(s[j])
    ensures k == |Words(s)| - 1 ==> forall t :: j <= t < |s| ==> IsSpace(s[t])
    decreases |s|, 1
  {
    if IsSpace(s[0]) {
      i, j := WordSpanAfterSpace(s, k);
    } else {
      i, j := WordSpanAfterWord(s, k);
    }
  }

  /** `WordSpan` when the text starts with whitespace. */
  lemma {:induction false} WordSpanAfterSpace(s: string, k: nat) returns (i: nat, j: nat)
    requires s != [] && IsSpace(s[0]) && k < |Words(s)|
    ensures i < j <= |s| && Words(s)[k] == s[i..j]
    ensures i == 0 || IsSpace(s[i - 1])
    ensures j == |s| || IsSpace(s[j])
    ensures k == |Words(s)| - 1 ==> forall t :: j <= t < |s| ==> IsSpace(s[t])
    decreases |s|, 0
  {
    var rest := s[1..];
    assert Words(s) == Words(rest);
    var i', j' := WordSpan(rest, k);
    i, j := i' + 1, j' + 1;
    assert s[i..j] == rest[i'..j'];
    if k == |Words(s)| - 1 {
      forall t | j <= t < |s| ensures IsSpace(s[t]) {
        assert s[t] == rest[t - 1];
      }
    }
  }

  /** `WordSpan` when the text starts with a word. */
  lemma {:induction false} WordSpanAfterWord(s: string, k: nat) returns (i: nat, j: nat)
    requires s != [] && !IsSpace(s[0]) && k < |Words(s)|
    ensures i < j <= |s| && Words(s)[k] == s[i..j]
    ensures i == 0 || IsSpace(s[i - 1])
    ensures j == |s| || IsSpace(s[j])
    ensures k == |Words(s)| - 1 ==> forall t :: j <= t < |s| ==> IsSpace(s[t])
    decreases |s|, 0
  {
    var n := WordLength(s);
    var rest := s[n..];
    var ws := Words(rest);
    assert Words(s) == [s[..n]] + ws;
    if k == 0 {
      i, j := 0, n;
      if ws == [] {
        forall t | n <= t < |s| ensures IsSpace(s[t]) {
          assert s[t] == rest[t - n];
        }
      }
    } else {
      var i', j' := WordSpan(rest, k - 1);
      assert i' != 0 by {
        assert ws[k - 1][0] == rest[i'];
        assert rest[0] == s[n];
      }
      i, j := i' + n, j' + n;
      assert s[i..j] == rest[i'..j'];
      assert s[i - 1] == rest[i' - 1];
      if k == |Words(s)| - 1 {
        forall t | j <= t < |s| ensures IsSpace(s[t]) {
          assert s[t] == rest[t - n];
        }
      }
    }
  }

  // ---------------------------------------------------------------------------
  // Numbers

  function DigitValue(c: char): nat
    requires IsDigit(c)
  {
    c as int - '0' as int
  }

  /** The value of a run of decimal digits (0 for the empty run). */
  function DigitsValue(d: string): nat
    requires AllDigits(d)
  {
    if d == [] then 0 else DigitsValue(d[..|d| - 1]) * 10 + DigitValue(d[|d| - 1])
  }

  function Pow10(k: nat): (p: nat)
    ensures p > 0
  {
    if k == 0 then 1 else 10 * Pow10(k - 1)
  }

  function DigitChar(n: nat): (c: char)
    requires n < 10
    ensures IsDigit(c) && DigitValue(c) == n
  {
    ('0' as int + n) as char
  }

  /** `str(n)` for a non-negative int. */
  function NatText(n: nat): (r: string)
    ensures r != [] && AllDigits(r)
  {
    if n < 10 then [DigitChar(n)] else NatText(n / 10) + [DigitChar(n % 10)]
  }

  /** Reading back the digits `str(n)` prints gives `n`. */
  lemma {:induction false} NatTextValue(n: nat)
    ensures DigitsValue(NatText(n)) == n
  {
    if n >= 10 {
      NatTextValue(n / 10);
      var t := NatText(n);
      assert t[..|t| - 1] == NatText(n / 10);
    }
  }

  /** Two names that differ only in a number printed between the same prefix and
      suffix are different names. */
  lemma NumberedNamesDiffer(prefix: string, suffix: string, a: nat, b: nat)
    requires a != b
    ensures prefix + NatText(a) + suffix != prefix + NatText(b) + suffix
  {
    if prefix + NatText(a) + suffix == prefix + NatText(b) + suffix {
      var na, nb := NatText(a), NatText(b);
      var x, y := prefix + na + suffix, prefix + nb + suffix;
      assert |na| == |nb|;
      assert na == x[|prefix|..|prefix| + |na|];
      assert nb == y[|prefix|..|prefix| + |nb|];
      NatTextValue(a);
      NatTextValue(b);
      assert false;
    }
  }

  // ---------------------------------------------------------------------------
  // `t.replace('.', '', 1).isdigit()` and `float(t)`

  /** `s.replace(c, '', 1)`: `s` without its first `c`. */
  function RemoveFirst(s: string, c: char): (r: string)
  {
    var i := IndexOf(s, c);
    if i == |s| then s else s[..i] + s[i + 1..]
  }

  /** `t.replace('.', '', 1).isdigit()` on ASCII text (`isdigit` is false on ""). */
  predicate IsUnsignedDecimal(t: string)
  {
    var u := RemoveFirst(t, '.');
    u != [] && AllDigits(u)
  }

  /** A non-empty run of digits, or a single '.' with a run of digits on either
      side of it, the two runs not both empty. */
  predicate DecimalForm(t: string)
  {
    || (t != [] && AllDigits(t))
    || (|t| > 1 && exists i :: 0 <= i < |t| && t[i] == '.' && AllDigits(t[..i]) && AllDigits(t[i + 1..]))
  }

  /** The test accepts exactly the unsigned decimal literals. */
  lemma UnsignedDecimalShape(t: string)
    ensures IsUnsignedDecimal(t) <==> DecimalForm(t)
  {
    if IsUnsignedDecimal(t) {
      AcceptedIsDecimal(t);
    }
    if DecimalForm(t) {
      DecimalIsAccepted(t);
    }
  }

  lemma AcceptedIsDecimal(t: string)
    requires IsUnsignedDecimal(t)
    ensures DecimalForm(t)
  {
    var i := IndexOf(t, '.');
    if i < |t| {
      var u := t[..i] + t[i + 1..];
      assert RemoveFirst(t, '.') == u;
      var whole, frac := t[..i], t[i + 1..];
      forall j | 0 <= j < |whole| ensures IsDigit(whole[j]) {
        assert whole[j] == u[j];
      }
      forall j | 0 <= j < |frac| ensures IsDigit(frac[j]) {
        assert frac[j] == u[i + j];
      }
      assert |t| > 1 && t[i] == '.' && AllDigits(whole) && AllDigits(frac);
    } else {
      assert RemoveFirst(t, '.') == t;
    }
  }

  lemma DecimalIsAccepted(t: string)
    requires DecimalForm(t)
    ensures IsUnsignedDecimal(t)
  {
    if t != [] && AllDigits(t) {
      assert forall k :: 0 <= k < |t| ==> t[k] != '.';
      assert IndexOf(t, '.') == |t|;
    } else {
      var k :| 0 <= k < |t| && t[k] == '.' && AllDigits(t[..k]) && AllDigits(t[k + 1..]);
      DotIndex(t, k);
      var whole, frac := t[..k], t[k + 1..];
      var u := whole + frac;
      assert RemoveFirst(t, '.') == u;
      forall j | 0 <= j < |u| ensures IsDigit(u[j]) {
        if j < k { assert u[j] == whole[j]; } else { assert u[j] == frac[j - k]; }
      }
    }
  }

  /** A signed number, and a number with a second '.', fail the test. */
  lemma DecimalRejects(t: string)
    ensures t != [] && (t[0] == '+' || t[0] == '-') ==> !IsUnsignedDecimal(t)
    ensures forall i, j :: 0 <= i < j < |t| && t[i] == '.' && t[j] == '.' ==> !IsUnsignedDecimal(t)
  {
    var k := IndexOf(t, '.');
    var u := RemoveFirst(t, '.');
    if t != [] && (t[0] == '+' || t[0] == '-') {
      assert u[0] == t[0];
    }
    forall i, j | 0 <= i < j < |t| && t[i] == '.' && t[j] == '.' ensures !IsUnsignedDecimal(t) {
      assert k <= i;
      assert u == t[..k] + t[k + 1..];
      assert u[j - 1] == t[j];
    }
  }

  /** A '.' preceded only by digits is the first '.'. */
  lemma DotIndex(t: string, k: nat)
    requires k < |t| && t[k] == '.' && AllDigits(t[..k])
    ensures IndexOf(t, '.') == k
  {
  }

  /** `float(t)` of a literal the decimal test accepts, as an exact real. */
  function UnsignedValue(t: string): (v: real)
    requires IsUnsignedDecimal(t)
    ensures v >= 0.0
  {
    UnsignedDecimalShape(t);
    var i := IndexOf(t, '.');
    if i == |t| then DigitsValue(t) as real
    else
      assert AllDigits(t[..i]) && AllDigits(t[i + 1..]) by {
        var k :| 0 <= k < |t| && t[k] == '.' && AllDigits(t[..k]) && AllDigits(t[k + 1..]);
        DotIndex(t, k);
      }
      DigitsValue(t[..i]) as real + DigitsValue(t[i + 1..]) as real / Pow10(|t| - i - 1) as real
  }
}
