/**
 * The values the data-access helper moves between callers and the store:
 * scalars, nested update payloads, flat records, and PHP's three-way
 * comparison (`<=>`) on them as the library sorts use it.
 */
module Values {

  import opened PhpArray

  /** A scalar attribute value. */
  datatype Scalar = Null | Bool(b: bool) | Int(i: int) | Str(s: string)

  /**
   * A caller payload for `update`: a leaf value or a PHP array of named
   * children in insertion order (list indices appear as their decimal strings).
   */
  datatype Tree = Leaf(value: Scalar) | Node(entries: seq<(string, Tree)>)

  /** One item as the store returns it: attribute names with scalar values. */
  type Record = seq<(string, Scalar)>

  /** A PHP array never repeats a key, at any depth of a payload. */
  ghost predicate WellFormedTree(t: Tree)
    decreases t
  {
    t.Node? ==>
      && DistinctKeys(t.entries)
      && forall i :: 0 <= i < |t.entries| ==> WellFormedTree(t.entries[i].1)
  }

  /** A well-formed payload: the top-level array and every nested one. */
  ghost predicate WellFormed(entries: seq<(string, Tree)>)
  {
    WellFormedTree(Node(entries))
  }

  /** Byte-wise string comparison (`strcmp`), normalised to -1, 0, 1. */
  function StringCmp(a: string, b: string): (c: int)
    ensures -1 <= c <= 1
  {
    if a == [] && b == [] then 0
    else if a == [] then -1
    else if b == [] then 1
    else if a[0] < b[0] then -1
    else if a[0] > b[0] then 1
    else StringCmp(a[1..], b[1..])
  }

  lemma {:induction false} StringCmpAntisymmetric(a: string, b: string)
    ensures StringCmp(a, b) == -StringCmp(b, a)
    ensures StringCmp(a, b) == 0 <==> a == b
  {
    if a != [] && b != [] && a[0] == b[0] {
      StringCmpAntisymmetric(a[1..], b[1..]);
      assert a == [a[0]] + a[1..] && b == [b[0]] + b[1..];
    }
  }

  lemma {:induction false} StringCmpTransitive(a: string, b: string, c: string)
    requires StringCmp(a, b) <= 0 && StringCmp(b, c) <= 0
    ensures StringCmp(a, c) <= 0
  {
    if a != [] && b != [] && c != [] && a[0] == b[0] == c[0] {
      StringCmpTransitive(a[1..], b[1..], c[1..]);
    }
  }

  /** The place of each kind of scalar in the cross-kind order. */
  function Rank(v: Scalar): int
  {
    match v
    case Null => 0
    case Bool(_) => 1
    case Int(_) => 2
    case Str(_) => 3
  }

  function IntCmp(x: int, y: int): int
  {
    if x < y then -1 else if x > y then 1 else 0
  }

  /**
   * `a <=> b` on scalars of the same kind, as PHP compares them (false before
   * true, integers numerically, non-numeric strings byte-wise); scalars of
   * different kinds are ordered by kind.
   */
  function ScalarCmp(a: Scalar, b: Scalar): (c: int)
    ensures -1 <= c <= 1
  {
    if Rank(a) != Rank(b) then IntCmp(Rank(a), Rank(b))
    else match (a, b)
      case (Bool(x), Bool(y)) => IntCmp(if x then 1 else 0, if y then 1 else 0)
      case (Int(x), Int(y)) => IntCmp(x, y)
      case (Str(x), Str(y)) => StringCmp(x, y)
      case _ => 0
  }

  lemma ScalarCmpAntisymmetric(a: Scalar, b: Scalar)
    ensures ScalarCmp(a, b) == -ScalarCmp(b, a)
    ensures ScalarCmp(a, b) == 0 <==> a == b
  {
    if a.Str? && b.Str? {
      StringCmpAntisymmetric(a.s, b.s);
    }
  }

  lemma ScalarCmpTransitive(a: Scalar, b: Scalar, c: Scalar)
    requires ScalarCmp(a, b) <= 0 && ScalarCmp(b, c) <= 0
    ensures ScalarCmp(a, c) <= 0
  {
    if a.Str? && b.Str? && c.Str? {
      StringCmpTransitive(a.s, b.s, c.s);
    }
  }

  /**
   * PHP's comparison of two arrays (`sort` with its default flags): the one
   * with fewer entries is smaller; otherwise `a`'s entries are walked in
   * order, each looked up by key in `b`, and the first difference decides.
   */
  function RecordCmp(a: Record, b: Record): int
  {
    if |a| < |b| then -1
    else if |a| > |b| then 1
    else EntriesCmp(a, b, 0)
  }

  /** The walk over `a` from position `i`; a key missing from `b` makes `a` the larger. */
  function EntriesCmp(a: Record, b: Record, i: nat): int
    decreases |a| - i
  {
    if i >= |a| then 0
    else match Lookup(b, a[i].0)
      case None => 1
      case Some(v) =>
        var c := ScalarCmp(a[i].1, v);
        if c != 0 then c else EntriesCmp(a, b, i + 1)
  }

  /** Lexicographic comparison of the values of two equally long records, from position `i`. */
  function ValuesCmp(a: Record, b: Record, i: nat): int
    requires |a| == |b|
    decreases |a| - i
  {
    if i >= |a| then 0
    else
      var c := ScalarCmp(a[i].1, b[i].1);
      if c != 0 then c else ValuesCmp(a, b, i + 1)
  }

  /**
   * For two records with the same attribute names in the same order, PHP's
   * array comparison is the lexicographic comparison of their values.
   */
  lemma {:induction false} EntriesCmpSameKeys(a: Record, b: Record, i: nat)
    requires Keys(a) == Keys(b) && DistinctKeys(b)
    ensures EntriesCmp(a, b, i) == ValuesCmp(a, b, i)
    decreases |a| - i
  {
    if i < |a| {
      LookupAt(b, i);
      assert a[i].0 == Keys(a)[i] == Keys(b)[i] == b[i].0;
      EntriesCmpSameKeys(a, b, i + 1);
    }
  }

  lemma {:induction false} ValuesCmpAntisymmetric(a: Record, b: Record, i: nat)
    requires |a| == |b|
    ensures ValuesCmp(a, b, i) == -ValuesCmp(b, a, i)
    ensures ValuesCmp(a, b, i) == 0 ==> forall j :: i <= j < |a| ==> a[j].1 == b[j].1
    decreases |a| - i
  {
    if i < |a| {
      ScalarCmpAntisymmetric(a[i].1, b[i].1);
      ValuesCmpAntisymmetric(a, b, i + 1);
    }
  }

  lemma {:induction false} ValuesCmpTransitive(a: Record, b: Record, c: Record, i: nat)
    requires |a| == |b| == |c|
    requires ValuesCmp(a, b, i) <= 0 && ValuesCmp(b, c, i) <= 0
    ensures ValuesCmp(a, c, i) <= 0
    decreases |a| - i
  {
    if i < |a| {
      var x, y, z := a[i].1, b[i].1, c[i].1;
      ScalarCmpAntisymmetric(x, y);
      ScalarCmpAntisymmetric(y, z);
      ScalarCmpAntisymmetric(x, z);
      ScalarCmpTransitive(x, y, z);
      if ScalarCmp(x, y) == 0 && ScalarCmp(y, z) == 0 {
        ValuesCmpTransitive(a, b, c, i + 1);
      } else if ScalarCmp(x, z) == 0 {
        // x == z, so x <= y <= x with one of them strict: impossible
        assert false;
      }
    }
  }
}
