/**
 * The algorithm of `get_iso3_code` (frontend/etl/transform_utils.py) over any
 * alias table. It resolves a free-text
 * country label to a three-letter code by three passes over the ordered alias
 * table `ISO3_COUNTRY_MAPPING`: exact match on the stripped, lower-cased label,
 * then substring containment in either direction, then a fixed list of US
 * spellings. The first alias in table order that qualifies wins.
 */
module IdentityResolver {
  import opened Wrappers
  import opened Text

  /** The spellings the last pass maps to `"USA"`. */
  const UsVariants: seq<string> := ["united states", "usa", "us", "united states of america"]

  /** `str(label).strip().lower()`, applied to the label and to every alias. */
  function Normalize(s: string): string {
    Lower(Strip(s))
  }

  /** Alias `i` of `t`, normalized, equals the normalized label `n`. */
  predicate ExactAt(t: seq<(string, string)>, n: string, i: int)
    requires 0 <= i < |t|
  {
    Normalize(t[i].0) == n
  }

  /** Alias `i` of `t`, normalized, is a substring of `n` or contains `n`. */
  predicate PartialAt(t: seq<(string, string)>, n: string, i: int)
    requires 0 <= i < |t|
  {
    Overlaps(n, Normalize(t[i].0))
  }

  /** `key in n or n in key`. */
  predicate Overlaps(n: string, key: string) {
    Contains(n, key) || Contains(key, n)
  }

  /** The first position at or after `from` whose alias equals `n`, or `|t|`. */
  function FirstExact(t: seq<(string, string)>, n: string, from: nat): (i: nat)
    requires from <= |t|
    ensures from <= i <= |t|
    ensures forall j :: from <= j < i ==> !ExactAt(t, n, j)
    ensures i < |t| ==> ExactAt(t, n, i)
    decreases |t| - from
  {
    if from == |t| then from
    else if ExactAt(t, n, from) then from
    else FirstExact(t, n, from + 1)
  }

  /** The first position at or after `from` whose alias is in `n` or contains `n`, or `|t|`. */
  function FirstPartial(t: seq<(string, string)>, n: string, from: nat): (i: nat)
    requires from <= |t|
    ensures from <= i <= |t|
    ensures forall j :: from <= j < i ==> !PartialAt(t, n, j)
    ensures i < |t| ==> PartialAt(t, n, i)
    decreases |t| - from
  {
    if from == |t| then from
    else if PartialAt(t, n, from) then from
    else FirstPartial(t, n, from + 1)
  }

  /** `c` is the code of some alias in `t`. */
  ghost predicate IsCodeIn(t: seq<(string, string)>, c: string) {
    exists i :: 0 <= i < |t| && t[i].1 == c
  }

  /**
   * The body of `get_iso3_code` over an alias table `t`: `None` (NaN) gives
   * `None`; otherwise the exact pass, the partial pass and the US spellings,
   * in that order. A code it returns other than the fallback is one of `t`'s.
   */
  function Resolve(t: seq<(string, string)>, raw: Option<string>): (r: Option<string>)
    ensures raw.None? ==> r.None?
    ensures r.Some? ==> IsCodeIn(t, r.value) || r.value == "USA"
  {
    if raw.None? then None
    else
      var n := Normalize(raw.value);
      var e := FirstExact(t, n, 0);
      if e < |t| then Some(t[e].1)
      else
        var p := FirstPartial(t, n, 0);
        if p < |t| then Some(t[p].1)
        else if n in UsVariants then Some("USA")
        else None
  }

  // ----- The passes, over any table -----

  /** An exact match at `i` with none before it decides the result. */
  lemma ExactMatchWins(t: seq<(string, string)>, s: string, i: int)
    requires 0 <= i < |t| && ExactAt(t, Normalize(s), i)
    requires forall j :: 0 <= j < i ==> !ExactAt(t, Normalize(s), j)
    ensures Resolve(t, Some(s)) == Some(t[i].1)
  {
    var e := FirstExact(t, Normalize(s), 0);
    assert !(e < i) && !(e > i);
  }

  /** With no exact match anywhere, the first partial match decides the result. */
  lemma PartialMatchWins(t: seq<(string, string)>, s: string, i: int)
    requires forall j :: 0 <= j < |t| ==> !ExactAt(t, Normalize(s), j)
    requires 0 <= i < |t| && PartialAt(t, Normalize(s), i)
    requires forall j :: 0 <= j < i ==> !PartialAt(t, Normalize(s), j)
    ensures Resolve(t, Some(s)) == Some(t[i].1)
  {
    var p := FirstPartial(t, Normalize(s), 0);
    assert !(p < i) && !(p > i);
  }

  /** An exact match is also a partial match: every string contains itself. */
  lemma ExactIsPartial(t: seq<(string, string)>, n: string, i: int)
    requires 0 <= i < |t| && ExactAt(t, n, i)
    ensures PartialAt(t, n, i)
  {
    ContainsSelfAndEmpty(n);
  }

  /** A label is left unresolved exactly when it overlaps no alias and is not a US spelling. */
  lemma NotResolvedIff(t: seq<(string, string)>, s: string)
    ensures Resolve(t, Some(s)).None? <==>
      (forall j :: 0 <= j < |t| ==> !PartialAt(t, Normalize(s), j)) && Normalize(s) !in UsVariants
  {
    var n := Normalize(s);
    var e := FirstExact(t, n, 0);
    if e < |t| {
      ExactIsPartial(t, n, e);
    }
  }

  // ----- Properties of alias tables -----

  /** Every alias is non-empty and starts with a non-space character. */
  predicate NonBlank(t: seq<(string, string)>) {
    forall i :: 0 <= i < |t| ==> t[i].0 != [] && !IsSpace(t[i].0[0])
  }

  lemma NonBlankAppend(a: seq<(string, string)>, b: seq<(string, string)>)
    requires NonBlank(a) && NonBlank(b)
    ensures NonBlank(a + b)
  {
    forall i | 0 <= i < |a + b|
      ensures (a + b)[i].0 != [] && !IsSpace((a + b)[i].0[0])
    {
      if i >= |a| {
        assert (a + b)[i] == b[i - |a|];
      }
    }
  }

  /** A string that starts with a non-space character normalizes to a non-empty string. */
  lemma NormalizeNonBlank(s: string)
    requires s != [] && !IsSpace(s[0])
    ensures Normalize(s) != []
  {
    assert TrimStart(s) == s;
    TrimEndSpec(s);
  }

  /** An alias without surrounding whitespace normalizes to its lower-case form. */
  lemma NormalizeTrimmed(s: string)
    requires s != [] && !IsSpace(s[0]) && !IsSpace(s[|s| - 1])
    ensures Normalize(s) == Lower(s)
  {
    assert TrimStart(s) == s;
    assert TrimEnd(s) == s;
  }

  // ----- What the label's normalization ignores -----

  /** Two labels that agree up to ASCII case resolve alike. */
  lemma CaseInsensitive(t: seq<(string, string)>, a: string, b: string)
    requires Lower(a) == Lower(b)
    ensures Resolve(t, Some(a)) == Resolve(t, Some(b))
  {
    StripLower(a);
    StripLower(b);
    assert Normalize(a) == Normalize(b);
  }

  /** Whitespace around a label does not change how it resolves. */
  lemma PaddingInsensitive(t: seq<(string, string)>, pre: string, s: string, post: string)
    requires AllSpace(pre) && AllSpace(post)
    ensures Resolve(t, Some(pre + s + post)) == Resolve(t, Some(s))
  {
    StripPadded(pre, s, post);
    assert Normalize(pre + s + post) == Normalize(s);
  }
}
