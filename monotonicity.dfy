/**
 * `fix_monotonicity` (frontend/etl/transform_utils.py): repairs a cumulative
 * series so that it never decreases. Absent values (NaN) are first filled
 * forward, then backward; a left-to-right pass then raises every value that
 * falls below its (already repaired) predecessor to that predecessor.
 */
module Monotonicity {
  import opened Wrappers

  /** A pandas series of floats, NaN as `None`. */
  type Series = seq<Option<real>>

  predicate AllPresent(s: Series) {
    forall i :: 0 <= i < |s| ==> s[i].Some?
  }

  predicate AllAbsent(s: Series) {
    forall i :: 0 <= i < |s| ==> s[i].None?
  }

  /** Every value is present and none is below an earlier one. */
  predicate NonDecreasing(s: Series) {
    AllPresent(s) && forall i, j :: 0 <= i < j < |s| ==> s[i].value <= s[j].value
  }

  function Max(a: real, b: real): real {
    if a < b then b else a
  }

  // ----- fillna(method='ffill') and fillna(method='bfill') -----

  /** Forward fill with `carry` the last value seen before `s`. */
  function FillForwardFrom(carry: Option<real>, s: Series): (r: Series)
    ensures |r| == |s|
    decreases |s|
  {
    if s == [] then []
    else
      var c := if s[0].Some? then s[0] else carry;
      [c] + FillForwardFrom(c, s[1..])
  }

  /** `fillna(method='ffill')`: an absent value takes the last present value before it. */
  function ForwardFill(s: Series): (r: Series)
    ensures |r| == |s|
  {
    FillForwardFrom(None, s)
  }

  /** `fillna(method='bfill')`: an absent value takes the first present value after it. */
  function BackFill(s: Series): (r: Series)
    ensures |r| == |s|
  {
    if s == [] then []
    else
      var rest := BackFill(s[1..]);
      [if s[0].Some? || rest == [] then s[0] else rest[0]] + rest
  }

  // ----- The clamp loop -----

  /** One step of the loop: a present value below a present predecessor is raised to it. */
  function Step(prev: Option<real>, x: Option<real>): Option<real> {
    if prev.Some? && x.Some? && x.value < prev.value then prev else x
  }

  /** The loop at lines 148-152 applied to the whole of `f`, written prefix by prefix. */
  function Clamp(f: Series): (r: Series)
    ensures |r| == |f|
    decreases |f|
  {
    if |f| <= 1 then f
    else
      var p := Clamp(f[..|f| - 1]);
      p + [Step(p[|p| - 1], f[|f| - 1])]
  }

  /** What `fix_monotonicity` returns for `s`. */
  function Repaired(s: Series): (r: Series)
    ensures |r| == |s|
  {
    Clamp(BackFill(ForwardFill(s)))
  }

  /**
   * `fix_monotonicity`: the two fills are library calls on the series; the
   * loop then rewrites the copy in place, left to right.
   */
  method FixMonotonicity(series: Series) returns (out: Series)
    ensures out == Repaired(series)
  {
    var filled := BackFill(ForwardFill(series));
    var result := new Option<real>[|filled|](i requires 0 <= i < |filled| => filled[i]);
    var i := 1;
    while i < result.Length
      invariant result.Length == |filled|
      invariant 1 <= i <= result.Length || (result.Length == 0 && i == 1)
      invariant result.Length > 0 ==> result[..i] == Clamp(filled[..i])
      invariant result.Length > 0 ==> result[i..] == filled[i..]
    {
      assert filled[..i + 1][..i] == filled[..i];
      assert result[i] == filled[i] && result[i + 1..] == filled[i + 1..];
      if result[i].Some? && result[i - 1].Some? && result[i].value < result[i - 1].value {
        result[i] := result[i - 1];
      }
      assert result[..i + 1] == result[..i] + [result[i]];
      i := i + 1;
    }
    if result.Length > 0 {
      assert result[..] == result[..result.Length];
      assert filled == filled[..|filled|];
    }
    out := result[..];
  }

  // ----- The fills -----

  /** Forward fill from `carry`: a present value stays, and an absent one takes the last present value before it. */
  lemma {:induction false} FillForwardFromLast(carry: Option<real>, s: Series, i: int, j: int)
    requires 0 <= j <= i < |s| && s[j].Some?
    requires forall k :: j < k <= i ==> s[k].None?
    ensures FillForwardFrom(carry, s)[i] == s[j]
    decreases i
  {
    if j > 0 {
      var c := if s[0].Some? then s[0] else carry;
      FillForwardFromLast(c, s[1..], i - 1, j - 1);
    } else if i > 0 {
      FillForwardFromCarry(s[0], s[1..], i - 1);
    }
  }

  /** With nothing present in `s[..i + 1]`, forward fill gives the carry. */
  lemma {:induction false} FillForwardFromCarry(carry: Option<real>, s: Series, i: int)
    requires 0 <= i < |s|
    requires forall k :: 0 <= k <= i ==> s[k].None?
    ensures FillForwardFrom(carry, s)[i] == carry
    decreases i
  {
    if i > 0 {
      FillForwardFromCarry(carry, s[1..], i - 1);
    }
  }

  /** `ForwardFill(s)[i]` is the last present value at or before `i`. */
  lemma ForwardFillLast(s: Series, i: int, j: int)
    requires 0 <= j <= i < |s| && s[j].Some?
    requires forall k :: j < k <= i ==> s[k].None?
    ensures ForwardFill(s)[i] == s[j]
  {
    FillForwardFromLast(None, s, i, j);
  }

  /** `ForwardFill(s)[i]` is absent when nothing at or before `i` is present. */
  lemma ForwardFillNone(s: Series, i: int)
    requires 0 <= i < |s|
    requires forall k :: 0 <= k <= i ==> s[k].None?
    ensures ForwardFill(s)[i].None?
  {
    FillForwardFromCarry(None, s, i);
  }

  /** `BackFill(s)[i]` is the first present value at or after `i`. */
  lemma {:induction false} BackFillNext(s: Series, i: int, j: int)
    requires 0 <= i <= j < |s| && s[j].Some?
    requires forall k :: i <= k < j ==> s[k].None?
    ensures BackFill(s)[i] == s[j]
    decreases |s|
  {
    if i > 0 {
      BackFillNext(s[1..], i - 1, j - 1);
    } else if j > 0 {
      BackFillNext(s[1..], 0, j - 1);
    }
  }

  /** `BackFill(s)[i]` is absent when nothing at or after `i` is present. */
  lemma {:induction false} BackFillNone(s: Series, i: int)
    requires 0 <= i < |s|
    requires forall k :: i <= k < |s| ==> s[k].None?
    ensures BackFill(s)[i].None?
    decreases |s|
  {
    if i > 0 {
      BackFillNone(s[1..], i - 1);
    } else if |s| > 1 {
      BackFillNone(s[1..], 0);
    }
  }

  /** Both fills leave a series with every value present unchanged. */
  lemma FillsKeepPresent(s: Series)
    requires AllPresent(s)
    ensures ForwardFill(s) == s && BackFill(s) == s
  {
    forall i | 0 <= i < |s|
      ensures ForwardFill(s)[i] == s[i] && BackFill(s)[i] == s[i]
    {
      ForwardFillLast(s, i, i);
      BackFillNext(s, i, i);
    }
  }

  /** Both fills leave an all-absent series all-absent. */
  lemma FillsKeepAbsent(s: Series)
    requires AllAbsent(s)
    ensures ForwardFill(s) == s && BackFill(s) == s
  {
    forall i | 0 <= i < |s|
      ensures ForwardFill(s)[i] == s[i] && BackFill(s)[i] == s[i]
    {
      ForwardFillNone(s, i);
      BackFillNone(s, i);
    }
  }

  /** Once one value is present, forward then backward fill leaves no value absent. */
  lemma FilledAllPresent(s: Series, j0: int)
    requires 0 <= j0 < |s| && s[j0].Some?
    requires forall k :: 0 <= k < j0 ==> s[k].None?
    ensures AllPresent(BackFill(ForwardFill(s)))
  {
    var ff := ForwardFill(s);
    ForwardFillLast(s, j0, j0);
    forall i | 0 <= i < |s|
      ensures BackFill(ff)[i].Some?
    {
      if i < j0 {
        forall k | i <= k < j0
          ensures ff[k].None?
        {
          ForwardFillNone(s, k);
        }
        BackFillNext(ff, i, j0);
      } else {
        var j := LastPresentAtOrBefore(s, i, j0);
        ForwardFillLast(s, i, j);
        BackFillNext(ff, i, i);
      }
    }
  }

  /** The last present position in `s[..i + 1]`, given that `j0 <= i` is one. */
  function LastPresentAtOrBefore(s: Series, i: int, j0: int): (j: int)
    requires 0 <= j0 <= i < |s| && s[j0].Some?
    ensures j0 <= j <= i && s[j].Some?
    ensures forall k :: j < k <= i ==> s[k].None?
    decreases i - j0
  {
    if s[i].Some? then i
    else LastPresentAtOrBefore(s, i - 1, j0)
  }

  // ----- The clamp loop -----

  /** Clamping a prefix gives the prefix of the clamped series: the loop never looks ahead. */
  lemma {:induction false} ClampPrefix(f: Series, k: int)
    requires 0 <= k <= |f|
    ensures Clamp(f)[..k] == Clamp(f[..k])
    decreases |f|
  {
    if k < |f| && |f| > 1 {
      var g := f[..|f| - 1];
      ClampPrefix(g, k);
      assert g[..k] == f[..k];
      assert Clamp(f)[..k] == Clamp(g)[..k];
    } else if k == |f| {
      assert f[..k] == f;
    } else {
      assert |f| == 1 && k == 0;
    }
  }

  /** Position `i` of the output is one loop step from position `i - 1`. */
  lemma {:induction false} ClampAt(f: Series, i: int)
    requires 1 <= i < |f|
    ensures Clamp(f)[i] == Step(Clamp(f)[i - 1], f[i])
    decreases |f|
  {
    var n := |f| - 1;
    var p := Clamp(f[..n]);
    assert Clamp(f) == p + [Step(p[n - 1], f[n])];
    if i < n {
      ClampAt(f[..n], i);
      assert f[..n][i] == f[i];
    }
  }

  /**
   * On a series with every value present, the output is every value present,
   * starts at `f[0]` and then follows `out[i] = max(out[i-1], f[i])`.
   */
  lemma {:induction false} ClampRunningMax(f: Series)
    requires AllPresent(f)
    ensures AllPresent(Clamp(f))
    ensures |f| > 0 ==> Clamp(f)[0] == f[0]
    ensures forall i :: 1 <= i < |f| ==> Clamp(f)[i].value == Max(Clamp(f)[i - 1].value, f[i].value)
    decreases |f|
  {
    if |f| > 1 {
      var g := f[..|f| - 1];
      ClampRunningMax(g);
      var c := Clamp(f);
      assert c[..|f| - 1] == Clamp(g);
      forall i | 1 <= i < |f|
        ensures c[i].value == Max(c[i - 1].value, f[i].value)
      {
        ClampAt(f, i);
      }
    }
  }

  /** The output of the loop on a present series is non-decreasing. */
  lemma ClampNonDecreasing(f: Series)
    requires AllPresent(f)
    ensures NonDecreasing(Clamp(f))
  {
    var c := Clamp(f);
    ClampRunningMax(f);
    forall k | 1 <= k < |c|
      ensures c[k - 1].value <= c[k].value
    {
      assert c[k].value == Max(c[k - 1].value, f[k].value);
    }
    AdjacentNonDecreasing(c);
  }

  /** Non-decrease between neighbours is non-decrease. */
  lemma AdjacentNonDecreasing(c: Series)
    requires AllPresent(c)
    requires forall k :: 1 <= k < |c| ==> c[k - 1].value <= c[k].value
    ensures NonDecreasing(c)
  {
    forall i, j | 0 <= i < j < |c|
      ensures c[i].value <= c[j].value
    {
      ChainUp(c, i, j);
    }
  }

  /** Adjacent non-decrease gives non-decrease at any distance. */
  lemma {:induction false} ChainUp(c: Series, i: int, j: int)
    requires AllPresent(c) && 0 <= i <= j < |c|
    requires forall k :: 1 <= k < |c| ==> c[k - 1].value <= c[k].value
    ensures c[i].value <= c[j].value
    decreases j - i
  {
    if i < j {
      ChainUp(c, i, j - 1);
    }
  }

  /**
   * The output is the least non-decreasing series above the input: it is above
   * `f` everywhere, and below any non-decreasing series that is.
   */
  lemma ClampLeastMajorant(f: Series, g: Series)
    requires AllPresent(f) && NonDecreasing(g) && |g| == |f|
    requires forall i :: 0 <= i < |f| ==> f[i].value <= g[i].value
    ensures AllPresent(Clamp(f))
    ensures forall i :: 0 <= i < |f| ==> f[i].value <= Clamp(f)[i].value <= g[i].value
  {
    ClampRunningMax(f);
    var c := Clamp(f);
    forall i | 0 <= i < |f|
      ensures f[i].value <= c[i].value <= g[i].value
    {
      ClampBetween(f, g, c, i);
    }
  }

  lemma {:induction false} ClampBetween(f: Series, g: Series, c: Series, i: int)
    requires AllPresent(f) && NonDecreasing(g) && |g| == |f| && c == Clamp(f) && AllPresent(c)
    requires forall k :: 0 <= k < |f| ==> f[k].value <= g[k].value
    requires |f| > 0 ==> c[0] == f[0]
    requires forall k :: 1 <= k < |f| ==> c[k].value == Max(c[k - 1].value, f[k].value)
    requires 0 <= i < |f|
    ensures f[i].value <= c[i].value <= g[i].value
    decreases i
  {
    if i > 0 {
      ClampBetween(f, g, c, i - 1);
    }
  }

  /** A series that is already non-decreasing passes through the loop unchanged. */
  lemma ClampKeepsMonotone(f: Series)
    requires NonDecreasing(f)
    ensures Clamp(f) == f
  {
    ClampLeastMajorant(f, f);
    ClampRunningMax(f);
  }

  /** An all-absent series passes through the loop unchanged. */
  lemma {:induction false} ClampKeepsAbsent(f: Series)
    requires AllAbsent(f)
    ensures Clamp(f) == f
    decreases |f|
  {
    if |f| > 1 {
      ClampKeepsAbsent(f[..|f| - 1]);
      assert f == f[..|f| - 1] + [f[|f| - 1]];
    }
  }

  // ----- fix_monotonicity -----

  /** An all-absent series (including the empty one) comes back as it went in. */
  lemma RepairedAllAbsent(s: Series)
    requires AllAbsent(s)
    ensures Repaired(s) == s
  {
    FillsKeepAbsent(s);
    ClampKeepsAbsent(s);
  }

  /**
   * Once any value is present, every output value is present, the output is
   * non-decreasing, and it is the running maximum of the filled series.
   */
  lemma RepairedNonDecreasing(s: Series, j: int)
    requires 0 <= j < |s| && s[j].Some?
    ensures NonDecreasing(Repaired(s)) && AllPresent(BackFill(ForwardFill(s)))
    ensures forall i :: 1 <= i < |s| ==>
      Repaired(s)[i].value == Max(Repaired(s)[i - 1].value, BackFill(ForwardFill(s))[i].value)
  {
    var j0 := FirstPresent(s, j);
    FilledAllPresent(s, j0);
    ClampNonDecreasing(BackFill(ForwardFill(s)));
    ClampRunningMax(BackFill(ForwardFill(s)));
  }

  /** The first present position, given that `j` is one. */
  ghost function FirstPresent(s: Series, j: int): (j0: int)
    requires 0 <= j < |s| && s[j].Some?
    ensures 0 <= j0 <= j && s[j0].Some?
    ensures forall k :: 0 <= k < j0 ==> s[k].None?
  {
    if j == 0 || forall k :: 0 <= k < j ==> s[k].None? then j
    else
      var k :| 0 <= k < j && s[k].Some?;
      FirstPresent(s, k)
  }

  /** A series that is already non-decreasing is returned unchanged. */
  lemma MonotoneUnchanged(s: Series)
    requires NonDecreasing(s)
    ensures Repaired(s) == s
  {
    FillsKeepPresent(s);
    ClampKeepsMonotone(s);
  }

  /** Repairing a repaired series changes nothing. */
  lemma RepairedIdempotent(s: Series)
    ensures Repaired(Repaired(s)) == Repaired(s)
  {
    if j :| 0 <= j < |s| && s[j].Some? {
      RepairedNonDecreasing(s, j);
      MonotoneUnchanged(Repaired(s));
    } else {
      RepairedAllAbsent(s);
    }
  }

  // ----- Series from the test suite -----

  /** A dip is raised to the value before it: `[0, 10, 20, 15, 25]` becomes `[0, 10, 20, 20, 25]`. */
  lemma DipRaised(s: Series)
    requires s == [Some(0.0), Some(10.0), Some(20.0), Some(15.0), Some(25.0)]
    ensures Repaired(s) == [Some(0.0), Some(10.0), Some(20.0), Some(20.0), Some(25.0)]
  {
    FillsKeepPresent(s);
    ClampRunningMax(s);
    var c := Repaired(s);
    assert c[0].value == 0.0 && c[1].value == 10.0 && c[2].value == 20.0;
    assert c[3].value == 20.0 && c[4].value == 25.0;
  }

  /** A gap is filled from before it: `[0, 10, NaN, 30, 40]` becomes `[0, 10, 10, 30, 40]`. */
  lemma GapFilled(s: Series)
    requires s == [Some(0.0), Some(10.0), None, Some(30.0), Some(40.0)]
    ensures Repaired(s) == [Some(0.0), Some(10.0), Some(10.0), Some(30.0), Some(40.0)]
  {
    var ff := ForwardFill(s);
    ForwardFillLast(s, 0, 0);
    ForwardFillLast(s, 1, 1);
    ForwardFillLast(s, 2, 1);
    ForwardFillLast(s, 3, 3);
    ForwardFillLast(s, 4, 4);
    assert ff == [Some(0.0), Some(10.0), Some(10.0), Some(30.0), Some(40.0)];
    FillsKeepPresent(ff);
    ClampRunningMax(ff);
    var c := Repaired(s);
    assert c[0].value == 0.0 && c[1].value == 10.0 && c[2].value == 10.0;
    assert c[3].value == 30.0 && c[4].value == 40.0;
  }
}
