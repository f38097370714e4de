/** The order of a column's labels in its snapshot: Go's string `<` when numeric
    sorting is off, and the `sort.Slice` comparator of the numeric mode otherwise
    (integer order when both labels parse, string order for that pair when not). */
module KeyOrder {
  import opened Strconv

  /** Go's `<` on strings: compare position by position, a proper prefix first. */
  predicate LexLess(x: string, y: string): (r: bool)
    ensures r ==> x != y
    ensures |x| < |y| && x == y[..|x|] ==> r
    decreases |x|
  {
    if |x| == 0 then |y| > 0
    else if |y| == 0 then false
    else if x[0] != y[0] then x[0] < y[0]
    else LexLess(x[1..], y[1..])
  }

  /** The comparator: numeric when both labels parse as `int`, else string order. */
  predicate Less(x: string, y: string, numeric: bool): (r: bool)
    ensures r ==> x != y
  {
    if numeric && Atoi(x).Some? && Atoi(y).Some? then Atoi(x).value < Atoi(y).value
    else LexLess(x, y)
  }

  /** At the first position where two strings differ, the smaller character
      decides. */
  lemma {:induction false} LexLessFirstDifference(x: string, y: string, i: nat)
    requires i < |x| && i < |y| && x[..i] == y[..i] && x[i] != y[i]
    ensures LexLess(x, y) <==> x[i] < y[i]
    decreases i
  {
    if i > 0 {
      assert x[0] == x[..i][0] == y[..i][0] == y[0];
      assert x[1..][..i - 1] == x[..i][1..] == y[..i][1..] == y[1..][..i - 1];
      LexLessFirstDifference(x[1..], y[1..], i - 1);
    }
  }

  lemma {:induction false} LexAsymmetric(x: string, y: string)
    ensures LexLess(x, y) ==> !LexLess(y, x)
    decreases |x|
  {
    if |x| > 0 && |y| > 0 && x[0] == y[0] {
      LexAsymmetric(x[1..], y[1..]);
    }
  }

  lemma {:induction false} LexTransitive(x: string, y: string, z: string)
    requires LexLess(x, y) && LexLess(y, z)
    ensures LexLess(x, z)
    decreases |x|
  {
    if |x| > 0 && x[0] == y[0] && y[0] == z[0] {
      LexTransitive(x[1..], y[1..], z[1..]);
    }
  }

  lemma {:induction false} LexTotal(x: string, y: string)
    ensures x == y || LexLess(x, y) || LexLess(y, x)
    decreases |x|
  {
    if |x| > 0 && |y| > 0 && x[0] == y[0] {
      LexTotal(x[1..], y[1..]);
      if x[1..] == y[1..] {
        assert x == [x[0]] + x[1..] && y == [y[0]] + y[1..];
      }
    }
  }

  /** Whether a pair is compared numerically does not depend on its order, so
      the comparator never says both `x < y` and `y < x`. */
  lemma LessAsymmetric(x: string, y: string, numeric: bool)
    ensures Less(x, y, numeric) ==> !Less(y, x, numeric)
  {
    LexAsymmetric(x, y);
  }

  /** The comparator of a mode as a function value, as `sort.Slice` receives it. */
  function Comparator(numeric: bool): (string, string) -> bool {
    (x: string, y: string) => Less(x, y, numeric)
  }

  /** No later element sorts strictly before an earlier one. */
  ghost predicate Sorted(s: seq<string>, numeric: bool) {
    SortedBy(s, Comparator(numeric))
  }

  /** "Not before" is transitive on `keys`: with asymmetry, the comparator is a
      strict weak order there, which is what a sort needs to produce `Sorted`. */
  ghost predicate WeakOrderOn(keys: set<string>, numeric: bool) {
    WeakOrderBy(keys, Comparator(numeric))
  }

  /** Any two distinct labels of `keys` are ordered one way or the other. */
  ghost predicate TotalOn(keys: set<string>, numeric: bool) {
    forall x, y :: x in keys && y in keys && x != y ==> Less(x, y, numeric) || Less(y, x, numeric)
  }

  /** No later element sorts strictly before an earlier one under `less`. */
  ghost predicate SortedBy(s: seq<string>, less: (string, string) -> bool) {
    forall p, q :: 0 <= p < q < |s| ==> !less(s[q], s[p])
  }

  /** "Not before" under `less` is transitive on `keys`. */
  ghost predicate WeakOrderBy(keys: set<string>, less: (string, string) -> bool) {
    forall x, y, z :: x in keys && y in keys && z in keys && !less(x, y) && !less(y, z) ==> !less(x, z)
  }

  ghost function Elems(s: seq<string>): set<string> {
    set x | x in s
  }

  /** A comparator that agrees with an integer ranking is a strict weak order. */
  lemma WeakOrderFromRank(keys: set<string>, numeric: bool, rank: string -> int)
    requires forall x, y :: x in keys && y in keys ==> (Less(x, y, numeric) <==> rank(x) < rank(y))
    ensures WeakOrderOn(keys, numeric)
  {
  }

  /** String order is a strict total order on every set of labels. */
  lemma LexicalModeIsStrictTotal(keys: set<string>)
    ensures WeakOrderOn(keys, false) && TotalOn(keys, false)
  {
    forall x, y | x in keys && y in keys && x != y
      ensures Less(x, y, false) || Less(y, x, false)
    {
      LexTotal(x, y);
    }
    forall x, y, z | x in keys && y in keys && z in keys && !Less(x, y, false) && !Less(y, z, false)
      ensures !Less(x, z, false)
    {
      LexTotal(x, y);
      LexTotal(y, z);
      if x != y && y != z {
        LexTransitive(z, y, x);
      }
      LexAsymmetric(z, x);
    }
  }

  /** When every label parses, the numeric mode orders by integer value
      (labels such as "1" and "01" tie). */
  lemma NumericModeWhenAllParse(keys: set<string>)
    requires forall x :: x in keys ==> Atoi(x).Some?
    ensures WeakOrderOn(keys, true)
    ensures forall x, y :: x in keys && y in keys ==> (Less(x, y, true) <==> Atoi(x).value < Atoi(y).value)
  {
    WeakOrderFromRank(keys, true, x => if Atoi(x).Some? then Atoi(x).value else 0);
  }

  /** Sorted in numeric mode over labels that all parse means ascending values. */
  lemma SortedNumericAscending(s: seq<string>)
    requires forall i :: 0 <= i < |s| ==> Atoi(s[i]).Some?
    requires Sorted(s, true)
    ensures forall p, q :: 0 <= p < q < |s| ==> Atoi(s[p]).value <= Atoi(s[q]).value
  {
    forall p, q | 0 <= p < q < |s|
      ensures Atoi(s[p]).value <= Atoi(s[q]).value
    {
      assert !Less(s[q], s[p], true);
    }
  }

  /** On mixed numeric and non-numeric labels the comparator has a cycle:
      "2" < "10" by value, "10" < "1a" and "1a" < "2" as strings. It is then no
      weak order, and a sort guarantees nothing but a permutation. */
  lemma MixedLabelsCycle()
    ensures Less("2", "10", true) && Less("10", "1a", true) && Less("1a", "2", true)
    ensures !WeakOrderOn({"2", "10", "1a"}, true)
  {
    assert Atoi("2") == Some(2);
    assert Atoi("10") == Some(10) by {
      assert "10"[..1] == "1";
    }
    assert Atoi("1a") == None by {
      assert !IsDigit("1a"[1]);
    }
    assert !Less("1a", "10", true) && !Less("10", "2", true) && Less("1a", "2", true);
  }

  /** Two sorted arrangements of the same labels coincide when the comparator
      orders every pair of distinct labels. */
  lemma {:induction false} SortedUnique(s: seq<string>, t: seq<string>, numeric: bool)
    requires multiset(s) == multiset(t)
    requires Sorted(s, numeric) && Sorted(t, numeric)
    requires TotalOn(Elems(s), numeric)
    ensures s == t
    decreases |s|
  {
    assert |s| == |multiset(s)| == |t|;
    if |s| > 0 {
      SortedHeadsAgree(s, t, numeric);
      TailMultiset(s);
      TailMultiset(t);
      assert Elems(s[1..]) <= Elems(s);
      SortedUnique(s[1..], t[1..], numeric);
      assert s == [s[0]] + s[1..] && t == [t[0]] + t[1..];
    }
  }

  /** Dropping the head removes one copy of it from the multiset. */
  lemma TailMultiset(s: seq<string>)
    requires |s| > 0
    ensures multiset(s[1..]) == multiset(s) - multiset{s[0]}
  {
    assert s == [s[0]] + s[1..];
  }

  /** The first label of a sorted arrangement is fixed by a total comparator. */
  lemma SortedHeadsAgree(s: seq<string>, t: seq<string>, numeric: bool)
    requires |s| > 0 && multiset(s) == multiset(t)
    requires Sorted(s, numeric) && Sorted(t, numeric)
    requires TotalOn(Elems(s), numeric)
    ensures |t| > 0 && s[0] == t[0]
  {
    assert s[0] in multiset(t) && t[0] in multiset(s);
    if s[0] != t[0] {
      assert false;
    }
  }


  /** Insertion sort by adjacent swaps, standing for `sort.Slice` and
      `sort.Strings`: the result is always a permutation, and it is `Sorted`
      whenever the comparator is a strict weak order on the labels. */
  method SortKeys(a: array<string>, numeric: bool)
    modifies a
    ensures multiset(a[..]) == old(multiset(a[..]))
    ensures WeakOrderOn(old(Elems(a[..])), numeric) ==> Sorted(a[..], numeric)
  {
    var less := Comparator(numeric);
    ghost var keys := Elems(a[..]);
    forall x, y ensures less(x, y) ==> !less(y, x) {
      LessAsymmetric(x, y, numeric);
    }
    var i := 0;
    while i < a.Length
      invariant 0 <= i <= a.Length
      invariant multiset(a[..]) == old(multiset(a[..]))
      invariant forall k :: 0 <= k < a.Length ==> a[k] in keys
      invariant WeakOrderBy(keys, less) ==> SortedBy(a[..i], less)
    {
      InsertDown(a, i, less, keys);
      i := i + 1;
    }
    assert a[..a.Length] == a[..];
  }

  /** One step of the insertion sort: move `a[i]` down past every label that
      `less` puts after it. */
  method InsertDown(a: array<string>, i: nat, less: (string, string) -> bool, ghost keys: set<string>)
    requires i < a.Length
    requires forall x, y :: less(x, y) ==> !less(y, x)
    requires forall k :: 0 <= k < a.Length ==> a[k] in keys
    requires WeakOrderBy(keys, less) ==> SortedBy(a[..i], less)
    modifies a
    ensures multiset(a[..]) == old(multiset(a[..]))
    ensures forall k :: 0 <= k < a.Length ==> a[k] in keys
    ensures WeakOrderBy(keys, less) ==> SortedBy(a[..i + 1], less)
  {
    ghost var weak := WeakOrderBy(keys, less);
    var j := i;
    while j > 0 && less(a[j], a[j - 1])
      invariant 0 <= j <= i
      invariant multiset(a[..]) == old(multiset(a[..]))
      invariant forall k :: 0 <= k < a.Length ==> a[k] in keys
      invariant weak ==> forall p, q :: 0 <= p < q <= i && q != j ==> !less(a[q], a[p])
      invariant forall q :: j < q <= i ==> !less(a[q], a[j])
    {
      Swap(a, j - 1, j);
      j := j - 1;
    }
    InsertedSorted(a[..], i, j, less, keys);
  }

  /** Once `s[j]` is not before its left neighbour, the prefix up to `i` is sorted. */
  lemma InsertedSorted(s: seq<string>, i: nat, j: nat, less: (string, string) -> bool, keys: set<string>)
    requires j <= i < |s|
    requires forall k :: 0 <= k < |s| ==> s[k] in keys
    requires WeakOrderBy(keys, less) ==> forall p, q :: 0 <= p < q <= i && q != j ==> !less(s[q], s[p])
    requires forall q :: j < q <= i ==> !less(s[q], s[j])
    requires j == 0 || !less(s[j], s[j - 1])
    ensures WeakOrderBy(keys, less) ==> SortedBy(s[..i + 1], less)
  {
    if WeakOrderBy(keys, less) && j > 0 {
      forall p | 0 <= p < j
        ensures !less(s[j], s[p])
      {
        if p < j - 1 {
          assert !less(s[j - 1], s[p]);
        }
      }
    }
  }

  /** Exchange two neighbouring labels. */
  method Swap(a: array<string>, i: nat, j: nat)
    requires i < j < a.Length
    modifies a
    ensures a[i] == old(a[j]) && a[j] == old(a[i])
    ensures forall k :: 0 <= k < a.Length && k != i && k != j ==> a[k] == old(a[k])
    ensures multiset(a[..]) == old(multiset(a[..]))
  {
    a[i], a[j] := a[j], a[i];
  }
}
