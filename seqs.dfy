// Generic sequence helpers: the list comprehension `[x for x in s if p(x)]`
// and its filter-and-convert variant, each with the indices it keeps.

module Seqs {

  datatype Option<T> = None | Some(value: T)

  /** The indices of a sequence, strictly increasing. */
  predicate StrictlyIncreasing(ix: seq<nat>)
  {
    forall a, b :: 0 <= a < b < |ix| ==> ix[a] < ix[b]
  }

  /** A slice is its two halves put together. */
  lemma SliceSplit<T>(s: seq<T>, a: nat, b: nat, c: nat)
    requires a <= b <= c <= |s|
    ensures s[a..c] == s[a..b] + s[b..c]
  {
    forall i | 0 <= i < c - a ensures s[a..c][i] == (s[a..b] + s[b..c])[i] {
      if i < b - a { assert (s[a..b] + s[b..c])[i] == s[a..b][i]; }
    }
  }

  /** `[x for x in s if p(x)]`: the elements of `s` that satisfy `p`, in order. */
  function Filter<T>(s: seq<T>, p: T -> bool): (r: seq<T>)
    ensures |r| <= |s|
    ensures forall i :: 0 <= i < |r| ==> p(r[i])
  {
    if s == [] then []
    else
      var init, last := s[..|s| - 1], s[|s| - 1];
      if p(last) then Filter(init, p) + [last] else Filter(init, p)
  }

  /** The positions in `s` of the elements `Filter` keeps. */
  function Kept<T>(s: seq<T>, p: T -> bool): (ix: seq<nat>)
    ensures forall k :: 0 <= k < |ix| ==> ix[k] < |s| && p(s[ix[k]])
  {
    if s == [] then []
    else Kept(s[..|s| - 1], p) + (if p(s[|s| - 1]) then [|s| - 1] else [])
  }

  /** `Filter` keeps exactly the elements that satisfy `p`, in their original order. */
  lemma {:induction false} FilterPicks<T>(s: seq<T>, p: T -> bool)
    ensures |Kept(s, p)| == |Filter(s, p)|
    ensures StrictlyIncreasing(Kept(s, p))
    ensures forall k :: 0 <= k < |Kept(s, p)| ==> Filter(s, p)[k] == s[Kept(s, p)[k]]
    ensures forall j :: 0 <= j < |s| ==> (j in Kept(s, p) <==> p(s[j]))
  {
    if s != [] {
      var n := |s| - 1;
      var init, last := s[..n], s[n];
      FilterPicks(init, p);
      var ki, fi := Kept(init, p), Filter(init, p);
      var ks, fs := Kept(s, p), Filter(s, p);
      assert ks == ki + (if p(last) then [n] else []);
      assert fs == fi + (if p(last) then [last] else []);
      forall a, b | 0 <= a < b < |ks| ensures ks[a] < ks[b] {
        assert ks[a] == ki[a];
        if b < |ki| { assert ks[b] == ki[b]; }
      }
      forall k | 0 <= k < |ks| ensures fs[k] == s[ks[k]] {
        if k < |ki| {
          assert fs[k] == fi[k] && ks[k] == ki[k];
          assert s[ki[k]] == init[ki[k]];
        }
      }
      forall j | 0 <= j < |s| ensures j in ks <==> p(s[j]) {
        if j < n {
          assert s[j] == init[j];
          assert j in ks <==> j in ki;
        }
      }
    }
  }

  /** `Filter` keeps every element that passes and invents none. */
  lemma FilterMembers<T>(s: seq<T>, p: T -> bool)
    ensures forall j :: 0 <= j < |s| && p(s[j]) ==> s[j] in Filter(s, p)
    ensures forall x :: x in Filter(s, p) ==> x in s
  {
    var r, ix := Filter(s, p), Kept(s, p);
    FilterPicks(s, p);
    forall j | 0 <= j < |s| && p(s[j]) ensures s[j] in r {
      assert j in ix;
      var k :| 0 <= k < |ix| && ix[k] == j;
      assert r[k] == s[j];
    }
    forall x | x in r ensures x in s {
      var k :| 0 <= k < |r| && r[k] == x;
      assert s[ix[k]] == x;
    }
  }

  lemma {:induction false} FilterAppend<T>(a: seq<T>, b: seq<T>, p: T -> bool)
    ensures Filter(a + b, p) == Filter(a, p) + Filter(b, p)
    decreases |b|
  {
    if b == [] {
      assert a + b == a;
    } else {
      var init := b[..|b| - 1];
      assert (a + b)[..|a + b| - 1] == a + init;
      FilterAppend(a, init, p);
    }
  }

  /** Appending elements none of which passes does not add a kept position. */
  lemma {:induction false} KeptAppendNone<T>(a: seq<T>, b: seq<T>, p: T -> bool)
    requires forall i :: 0 <= i < |b| ==> !p(b[i])
    ensures Kept(a + b, p) == Kept(a, p)
    decreases |b|
  {
    if b == [] {
      assert a + b == a;
    } else {
      assert (a + b)[..|a + b| - 1] == a + b[..|b| - 1];
      KeptAppendNone(a, b[..|b| - 1], p);
    }
  }

  /** Filtering with `p` after filtering with a weaker `q` is filtering with `p`. */
  lemma {:induction false} FilterFilter<T>(s: seq<T>, q: T -> bool, p: T -> bool)
    requires forall x :: p(x) ==> q(x)
    ensures Filter(Filter(s, q), p) == Filter(s, p)
  {
    if s != [] {
      var init, last := s[..|s| - 1], s[|s| - 1];
      FilterFilter(init, q, p);
      if q(last) {
        FilterAppend(Filter(init, q), [last], p);
      }
    }
  }

  /** Filtering a sequence none of whose elements passes gives the empty sequence. */
  lemma {:induction false} FilterNone<T>(s: seq<T>, p: T -> bool)
    requires forall i :: 0 <= i < |s| ==> !p(s[i])
    ensures Filter(s, p) == []
  {
    if s != [] {
      FilterNone(s[..|s| - 1], p);
    }
  }

  /** Filtering a sequence all of whose elements pass gives it back. */
  lemma {:induction false} FilterAll<T>(s: seq<T>, p: T -> bool)
    requires forall i :: 0 <= i < |s| ==> p(s[i])
    ensures Filter(s, p) == s
  {
    if s != [] {
      FilterAll(s[..|s| - 1], p);
    }
  }

  /** `[f(x).value for x in s if f(x) is not None]`: convert what converts, drop the rest. */
  function FilterMap<T, U>(s: seq<T>, f: T -> Option<U>): (r: seq<U>)
    ensures |r| <= |s|
  {
    if s == [] then []
    else
      match f(s[|s| - 1])
      case Some(v) => FilterMap(s[..|s| - 1], f) + [v]
      case None => FilterMap(s[..|s| - 1], f)
  }

  /** How one more element changes what `FilterMap` returns for a prefix. */
  lemma FilterMapStep<T, U>(s: seq<T>, i: nat, f: T -> Option<U>)
    requires i < |s|
    ensures FilterMap(s[..i + 1], f) ==
      FilterMap(s[..i], f) + (if f(s[i]).Some? then [f(s[i]).value] else [])
  {
    assert s[..i + 1][..i] == s[..i];
  }

  /** The positions in `s` of the elements `FilterMap` converts. */
  function Chosen<T, U>(s: seq<T>, f: T -> Option<U>): (ix: seq<nat>)
    ensures forall k :: 0 <= k < |ix| ==> ix[k] < |s|
  {
    if s == [] then []
    else Chosen(s[..|s| - 1], f) + (if f(s[|s| - 1]).Some? then [|s| - 1] else [])
  }

  /** `FilterMap` converts exactly the elements `f` accepts, in their original order. */
  lemma {:induction false} FilterMapPicks<T, U>(s: seq<T>, f: T -> Option<U>)
    ensures |Chosen(s, f)| == |FilterMap(s, f)|
    ensures StrictlyIncreasing(Chosen(s, f))
    ensures forall k :: 0 <= k < |Chosen(s, f)| ==>
              f(s[Chosen(s, f)[k]]) == Some(FilterMap(s, f)[k])
    ensures forall j :: 0 <= j < |s| ==> (j in Chosen(s, f) <==> f(s[j]).Some?)
  {
    if s != [] {
      var init := s[..|s| - 1];
      FilterMapPicks(init, f);
      forall j | 0 <= j < |init| ensures init[j] == s[j] { }
    }
  }

  /** `FilterMap` returns nothing exactly when `f` accepts no element. */
  lemma {:induction false} FilterMapEmpty<T, U>(s: seq<T>, f: T -> Option<U>)
    ensures FilterMap(s, f) == [] <==> forall j :: 0 <= j < |s| ==> f(s[j]).None?
  {
    FilterMapPicks(s, f);
    if FilterMap(s, f) == [] {
      forall j | 0 <= j < |s| ensures f(s[j]).None? {
        assert j !in Chosen(s, f);
      }
    } else {
      var j := Chosen(s, f)[0];
      assert f(s[j]).Some?;
    }
  }

  /** The positions in `s` of the elements that `f` converts to a value `p` accepts. */
  function ChosenKept<T, U>(s: seq<T>, f: T -> Option<U>, p: U -> bool): (o: seq<nat>)
    ensures |Chosen(s, f)| == |FilterMap(s, f)|
    ensures |o| == |Kept(FilterMap(s, f), p)|
    ensures forall k :: 0 <= k < |o| ==> o[k] == Chosen(s, f)[Kept(FilterMap(s, f), p)[k]]
  {
    var picked := Chosen(s, f);
    var kept := Kept(FilterMap(s, f), p);
    FilterMapPicks(s, f);
    seq(|kept|, k requires 0 <= k < |kept| => picked[kept[k]])
  }

  /** Converting and then filtering keeps exactly the elements whose converted
      value passes, in their original order. */
  lemma FilterMapThenFilter<T, U>(s: seq<T>, f: T -> Option<U>, p: U -> bool)
    ensures var r, o := Filter(FilterMap(s, f), p), ChosenKept(s, f, p);
      && |o| == |r|
      && StrictlyIncreasing(o)
      && (forall k :: 0 <= k < |o| ==> o[k] < |s| && f(s[o[k]]) == Some(r[k]))
      && (forall j :: 0 <= j < |s| ==> (j in o <==> f(s[j]).Some? && p(f(s[j]).value)))
  {
    var values := FilterMap(s, f);
    var picked := Chosen(s, f);
    var kept := Kept(values, p);
    var r, o := Filter(values, p), ChosenKept(s, f, p);
    FilterMapPicks(s, f);
    FilterPicks(values, p);
    assert |o| == |r|;
    assert StrictlyIncreasing(o) by {
      forall a, b | 0 <= a < b < |o| ensures o[a] < o[b] {
        assert kept[a] < kept[b];
      }
    }
    forall k | 0 <= k < |o| ensures o[k] < |s| && f(s[o[k]]) == Some(r[k]) {
      assert o[k] == picked[kept[k]];
    }
    forall j | 0 <= j < |s| ensures j in o <==> f(s[j]).Some? && p(f(s[j]).value) {
      ChosenKeptAt(s, f, p, j);
    }
  }

  lemma ChosenKeptAt<T, U>(s: seq<T>, f: T -> Option<U>, p: U -> bool, j: nat)
    requires j < |s|
    ensures j in ChosenKept(s, f, p) <==> f(s[j]).Some? && p(f(s[j]).value)
  {
    if f(s[j]).Some? && p(f(s[j]).value) {
      ChosenKeptHas(s, f, p, j);
    }
    if j in ChosenKept(s, f, p) {
      var o := ChosenKept(s, f, p);
      var b :| 0 <= b < |o| && o[b] == j;
      ChosenKeptPasses(s, f, p, b);
    }
  }

  lemma ChosenKeptHas<T, U>(s: seq<T>, f: T -> Option<U>, p: U -> bool, j: nat)
    requires j < |s| && f(s[j]).Some? && p(f(s[j]).value)
    ensures j in ChosenKept(s, f, p)
  {
    var values, picked := FilterMap(s, f), Chosen(s, f);
    var kept := Kept(values, p);
    FilterMapPicks(s, f);
    assert j in picked;
    var a :| 0 <= a < |picked| && picked[a] == j;
    assert values[a] == f(s[j]).value;
    FilterPicks(values, p);
    assert a in kept;
    var b :| 0 <= b < |kept| && kept[b] == a;
    assert ChosenKept(s, f, p)[b] == j;
  }

  lemma ChosenKeptPasses<T, U>(s: seq<T>, f: T -> Option<U>, p: U -> bool, b: nat)
    requires b < |ChosenKept(s, f, p)|
    ensures var j := ChosenKept(s, f, p)[b];
      j < |s| && f(s[j]).Some? && p(f(s[j]).value)
  {
    var values, picked := FilterMap(s, f), Chosen(s, f);
    var kept := Kept(values, p);
    var a := kept[b];
    assert ChosenKept(s, f, p)[b] == picked[a];
    FilterMapPicks(s, f);
    assert f(s[picked[a]]) == Some(values[a]);
  }
}
