/**
 * Per-iso3 transforms of one value column, as pandas performs them with
 * `df.loc[df["iso3"] == code, col] = g(df.loc[df["iso3"] == code, col])` or
 * `df.groupby("iso3")[col].transform(g)`: the rows of each code, taken in
 * table order, form a series; `g` rewrites that series; each result goes back
 * to the rows it came from.
 */
module Groups {
  import opened Wrappers
  import opened Monotonicity

  /** The key column of a table: the `key` of each row, in table order. */
  function KeyColumn<T>(rows: seq<T>, key: T -> string): (k: seq<string>)
    ensures |k| == |rows| && forall i :: 0 <= i < |rows| ==> k[i] == key(rows[i])
  {
    seq(|rows|, i requires 0 <= i < |rows| => key(rows[i]))
  }

  /** How many of the first `n` keys equal `c`: the position of row `n` within its group. */
  function Count(keys: seq<string>, c: string, n: nat): (r: nat)
    requires n <= |keys|
    ensures r <= n
  {
    if n == 0 then 0
    else Count(keys, c, n - 1) + (if keys[n - 1] == c then 1 else 0)
  }

  /** The values of the rows keyed `c`, in table order. */
  function Group(keys: seq<string>, vals: Series, c: string): (g: Series)
    requires |keys| == |vals|
    ensures |g| == Count(keys, c, |keys|)
  {
    if keys == [] then []
    else
      var n := |keys| - 1;
      CountPrefix(keys, c, n, n);
      Group(keys[..n], vals[..n], c) + (if keys[n] == c then [vals[n]] else [])
  }

  /** `g` keeps the length of every series. */
  ghost predicate LengthPreserving(g: Series -> Series) {
    forall s :: |g(s)| == |s|
  }

  /** Row `i` takes the value `g` gives its place within its own group. */
  function PerGroup(keys: seq<string>, vals: Series, g: Series -> Series): (r: Series)
    requires |keys| == |vals| && LengthPreserving(g)
    ensures |r| == |vals|
  {
    seq(|vals|, i requires 0 <= i < |vals| => GroupValueAt(keys, g(Group(keys, vals, keys[i])), i))
  }

  /** The entry of a group's series that belongs to row `i`. */
  function GroupValueAt(keys: seq<string>, s: Series, i: int): Option<real>
    requires 0 <= i < |keys| && |s| == Count(keys, keys[i], |keys|)
  {
    CountBelowTotal(keys, keys[i], i);
    s[Count(keys, keys[i], i)]
  }

  // ----- Counting -----

  lemma {:induction false} CountMonotone(keys: seq<string>, c: string, m: nat, n: nat)
    requires m <= n <= |keys|
    ensures Count(keys, c, m) <= Count(keys, c, n)
    decreases n - m
  {
    if m < n {
      CountMonotone(keys, c, m, n - 1);
    }
  }

  /** A row's position within its group is below the group's size. */
  lemma CountBelowTotal(keys: seq<string>, c: string, i: int)
    requires 0 <= i < |keys| && keys[i] == c
    ensures Count(keys, c, i) < Count(keys, c, |keys|)
  {
    CountMonotone(keys, c, i + 1, |keys|);
  }

  /** Counting over a prefix of the keys counts the same. */
  lemma {:induction false} CountPrefix(keys: seq<string>, c: string, n: nat, m: nat)
    requires m <= n <= |keys|
    ensures Count(keys[..n], c, m) == Count(keys, c, m)
  {
    if m > 0 {
      CountPrefix(keys, c, n, m - 1);
    }
  }

  // ----- Reading a group -----

  /** Row `i`'s value sits at its position within its group's series. */
  lemma {:induction false} GroupAt(keys: seq<string>, vals: Series, i: int)
    requires |keys| == |vals| && 0 <= i < |keys|
    ensures Count(keys, keys[i], i) < |Group(keys, vals, keys[i])|
    ensures Group(keys, vals, keys[i])[Count(keys, keys[i], i)] == vals[i]
    decreases |keys|
  {
    CountBelowTotal(keys, keys[i], i);
    var n := |keys| - 1;
    CountPrefix(keys, keys[i], n, i);
    if i < n {
      assert keys[..n][i] == keys[i];
      GroupAt(keys[..n], vals[..n], i);
      CountPrefix(keys, keys[i], n, n);
    } else {
      CountPrefix(keys, keys[i], n, n);
    }
  }

  /** Two rows of one group keep their order within the group's series. */
  lemma GroupOrder(keys: seq<string>, vals: Series, i: int, j: int)
    requires |keys| == |vals| && 0 <= i < j < |keys| && keys[i] == keys[j]
    ensures var g := Group(keys, vals, keys[i]);
      Count(keys, keys[i], i) < Count(keys, keys[i], j) < |g|
      && g[Count(keys, keys[i], i)] == vals[i] && g[Count(keys, keys[i], j)] == vals[j]
  {
    GroupAt(keys, vals, i);
    GroupAt(keys, vals, j);
    CountMonotone(keys, keys[i], i + 1, j);
  }

  /** Two columns that agree on the rows keyed `c` have the same group `c`. */
  lemma {:induction false} GroupAgree(keys: seq<string>, a: Series, b: Series, c: string)
    requires |keys| == |a| == |b|
    requires forall i :: 0 <= i < |keys| && keys[i] == c ==> a[i] == b[i]
    ensures Group(keys, a, c) == Group(keys, b, c)
  {
    if keys != [] {
      var n := |keys| - 1;
      GroupAgree(keys[..n], a[..n], b[..n], c);
    }
  }

  /**
   * A column whose row `i` holds entry `Count(keys, c, i)` of `s` for every row
   * keyed `c` has `s` as its group `c`.
   */
  lemma {:induction false} GroupOfSpread(keys: seq<string>, vals: Series, c: string, s: Series)
    requires |keys| == |vals| && |s| == Count(keys, c, |keys|)
    requires forall i :: 0 <= i < |keys| && keys[i] == c ==>
      Count(keys, c, i) < |s| && vals[i] == s[Count(keys, c, i)]
    ensures Group(keys, vals, c) == s
  {
    if keys != [] {
      var n := |keys| - 1;
      var k := keys[..n];
      CountPrefix(keys, c, n, n);
      var m := Count(keys, c, n);
      forall i | 0 <= i < n && k[i] == c
        ensures Count(k, c, i) < m && vals[..n][i] == s[..m][Count(k, c, i)]
      {
        CountPrefix(keys, c, n, i);
        CountBelowTotal(k, c, i);
      }
      GroupOfSpread(k, vals[..n], c, s[..m]);
      if keys[n] == c {
        assert s == s[..m] + [vals[n]];
      }
    }
  }

  // ----- What a per-group transform does -----

  /**
   * Each group of the result is `g` applied to that group of the input: a
   * per-group transform reads and writes one group at a time.
   */
  lemma PerGroupGroup(keys: seq<string>, vals: Series, g: Series -> Series, c: string)
    requires |keys| == |vals| && LengthPreserving(g)
    ensures Group(keys, PerGroup(keys, vals, g), c) == g(Group(keys, vals, c))
  {
    var r := PerGroup(keys, vals, g);
    forall i | 0 <= i < |keys| && keys[i] == c
      ensures Count(keys, c, i) < |g(Group(keys, vals, c))|
      ensures r[i] == g(Group(keys, vals, c))[Count(keys, c, i)]
    {
      CountBelowTotal(keys, c, i);
    }
    GroupOfSpread(keys, r, c, g(Group(keys, vals, c)));
  }

  /** A transform that leaves every series alone leaves the column alone. */
  lemma PerGroupIdentity(keys: seq<string>, vals: Series, g: Series -> Series)
    requires |keys| == |vals| && LengthPreserving(g)
    requires forall c :: g(Group(keys, vals, c)) == Group(keys, vals, c)
    ensures PerGroup(keys, vals, g) == vals
  {
    forall i | 0 <= i < |keys|
      ensures PerGroup(keys, vals, g)[i] == vals[i]
    {
      GroupAt(keys, vals, i);
    }
  }

  // ----- unique() -----

  predicate NoDuplicates(s: seq<string>) {
    forall i, j :: 0 <= i < j < |s| ==> s[i] != s[j]
  }

  /** `Series.unique()`: the distinct keys in order of first appearance. */
  function Unique(keys: seq<string>): (u: seq<string>)
    ensures NoDuplicates(u)
    ensures forall c :: c in u <==> c in keys
  {
    if keys == [] then []
    else
      var n := |keys| - 1;
      var u := Unique(keys[..n]);
      assert keys == keys[..n] + [keys[n]];
      if keys[n] in u then u else u + [keys[n]]
  }
}
