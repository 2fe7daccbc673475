/**
 * The parts of PHP's ordered arrays that the data-access helper relies on:
 * string-keyed arrays that keep insertion order, assignment to a key,
 * lookup, `implode` and the `empty()` test on strings.
 */
module PhpArray {

  datatype Option<T> = None | Some(value: T)

  /** True when no value occurs twice in `s`. */
  predicate Distinct<T(==)>(s: seq<T>)
  {
    forall i, j :: 0 <= i < j < |s| ==> s[i] != s[j]
  }

  /** The keys of an ordered array, in order. */
  function Keys<V>(m: seq<(string, V)>): (ks: seq<string>)
    ensures |ks| == |m|
    ensures forall i :: 0 <= i < |m| ==> ks[i] == m[i].0
  {
    seq(|m|, i requires 0 <= i < |m| => m[i].0)
  }

  /** A PHP array never holds a key twice. */
  predicate DistinctKeys<V>(m: seq<(string, V)>)
  {
    Distinct(Keys(m))
  }

  /** `$m[$k]`: the value stored under `k`, if any. */
  function Lookup<V>(m: seq<(string, V)>, k: string): (r: Option<V>)
    ensures r.None? <==> k !in Keys(m)
    ensures r.Some? ==> (k, r.value) in m
  {
    if m == [] then None
    else if m[0].0 == k then Some(m[0].1)
    else
      assert Keys(m) == [m[0].0] + Keys(m[1..]);
      Lookup(m[1..], k)
  }

  /** Lookup finds the first entry under a key. */
  lemma {:induction false} LookupFirst<V>(m: seq<(string, V)>, i: nat)
    requires i < |m|
    requires forall j :: 0 <= j < i ==> m[j].0 != m[i].0
    ensures Lookup(m, m[i].0) == Some(m[i].1)
  {
    if i > 0 {
      assert m[1..][i - 1] == m[i];
      LookupFirst(m[1..], i - 1);
    }
  }

  /** The position `IndexOf` finds for a key holds the entry `Lookup` returns. */
  lemma LookupIndexOf<V>(m: seq<(string, V)>, k: string)
    requires k in Keys(m)
    ensures var i := IndexOf(Keys(m), k); m[i].0 == k && Lookup(m, k) == Some(m[i].1)
  {
    var i := IndexOf(Keys(m), k);
    forall j | 0 <= j < i ensures m[j].0 != m[i].0 {
      assert Keys(m)[j] != k;
    }
    LookupFirst(m, i);
  }

  /** In an array without repeated keys, every entry is found by its key. */
  lemma LookupAt<V>(m: seq<(string, V)>, i: nat)
    requires DistinctKeys(m) && i < |m|
    ensures Lookup(m, m[i].0) == Some(m[i].1)
  {
    forall j | 0 <= j < i ensures m[j].0 != m[i].0 {
      assert Keys(m)[j] != Keys(m)[i];
    }
    LookupFirst(m, i);
  }

  /** The position of the first occurrence of `x` in `s`. */
  function IndexOf<T(==)>(s: seq<T>, x: T): (i: nat)
    requires x in s
    ensures i < |s| && s[i] == x
    ensures forall j :: 0 <= j < i ==> s[j] != x
  {
    if s[0] == x then 0 else 1 + IndexOf(s[1..], x)
  }

  /**
   * `$m[$k] = $v`: an existing key keeps its place and takes the new value,
   * a new key is appended at the end.
   */
  function Put<V>(m: seq<(string, V)>, k: string, v: V): (r: seq<(string, V)>)
    ensures k !in Keys(m) ==> r == m + [(k, v)] && Keys(r) == Keys(m) + [k]
    ensures k in Keys(m) ==> Keys(r) == Keys(m)
    ensures Lookup(r, k) == Some(v)
    ensures DistinctKeys(m) ==> DistinctKeys(r)
  {
    if k in Keys(m) then
      var i := IndexOf(Keys(m), k);
      var r := m[i := (k, v)];
      assert Keys(r) == Keys(m);
      LookupFirst(r, i);
      r
    else
      var r := m + [(k, v)];
      assert Keys(r) == Keys(m) + [k];
      LookupFirst(r, |m|);
      r
  }

  /** PHP's `implode(sep, pieces)`: the pieces with `sep` between neighbours. */
  function Implode(sep: string, pieces: seq<string>): string
  {
    if pieces == [] then ""
    else if |pieces| == 1 then pieces[0]
    else Implode(sep, pieces[..|pieces| - 1]) + sep + pieces[|pieces| - 1]
  }

  /** The first piece always opens the imploded string: there is no leading separator. */
  lemma {:induction false} ImplodeStartsWithFirst(sep: string, pieces: seq<string>)
    requires pieces != []
    ensures pieces[0] <= Implode(sep, pieces)
  {
    if |pieces| > 1 {
      var init := pieces[..|pieces| - 1];
      ImplodeStartsWithFirst(sep, init);
      assert init[0] == pieces[0];
    }
  }

  /** Appending one piece appends the separator and that piece. */
  lemma ImplodeSnoc(sep: string, pieces: seq<string>, last: string)
    requires pieces != []
    ensures Implode(sep, pieces + [last]) == Implode(sep, pieces) + sep + last
  {
    assert (pieces + [last])[..|pieces|] == pieces;
  }

  /** PHP's `empty()` on a string: true for the empty string and for "0". */
  predicate IsEmpty(s: string)
  {
    s == "" || s == "0"
  }
}
