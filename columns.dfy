/** One column of the dashboard (Go's `item`): how often each label was seen,
    the log of recent raw values, and the sorted snapshot handed to the charts. */
module Columns {
  import opened Strconv
  import opened KeyOrder

  /** Length of the recent-value log a column starts with (`make([]string, 100)`),
      and how much of the old log survives each update (`d.input[:100]`). */
  const LogSize: nat := 100

  function Blank(n: nat): seq<string> {
    seq(n, _ => "")
  }

  /** The part of a column that the aggregator updates: the count map and the log. */
  datatype ColState = ColState(count: map<string, nat>, input: seq<string>)

  /** A fresh column: no counts, a log of `LogSize` empty strings. */
  function Initial(): (c: ColState)
    ensures c.count == map[] && WellFormed(c)
    ensures |c.input| == LogSize && forall i :: 0 <= i < LogSize ==> c.input[i] == ""
  {
    ColState(map[], Blank(LogSize))
  }

  /** The log has at least the `LogSize` entries that `d.input[:100]` slices. */
  ghost predicate WellFormed(c: ColState) {
    LogSize <= |c.input| <= LogSize + 1
  }

  /** `count[v] += 1` on a Go map, where a missing key reads as 0. */
  function Bump(m: map<string, nat>, v: string): (r: map<string, nat>)
    ensures r.Keys == m.Keys + {v}
    ensures r[v] == (if v in m then m[v] else 0) + 1
    ensures forall k :: k in m && k != v ==> r[k] == m[k]
  {
    m[v := if v in m then m[v] + 1 else 1]
  }

  /** What one counted value does to a column. */
  function Observed(c: ColState, v: string): (r: ColState)
    requires WellFormed(c)
    ensures WellFormed(r) && |r.input| == LogSize + 1
  {
    ColState(Bump(c.count, v), [v] + c.input[..LogSize])
  }

  /** The column after counting `vs` in order, starting from `c`. */
  function ObserveAll(c: ColState, vs: seq<string>): (r: ColState)
    requires WellFormed(c)
    ensures WellFormed(r)
    decreases |vs|
  {
    if vs == [] then c else Observed(ObserveAll(c, vs[..|vs| - 1]), vs[|vs| - 1])
  }

  /** Sum of all counts of a column. */
  ghost function Total(m: map<string, nat>): nat
    decreases |m.Keys|
  {
    if m == map[] then 0
    else
      var k :| k in m;
      assert (m - {k}).Keys == m.Keys - {k};
      m[k] + Total(m - {k})
  }

  /** `Total` may take any key first. */
  lemma {:induction false} TotalRemove(m: map<string, nat>, k: string)
    requires k in m
    ensures Total(m) == m[k] + Total(m - {k})
    decreases |m.Keys|
  {
    var j :| j in m && Total(m) == m[j] + Total(m - {j});
    if j != k {
      var rest := m - {j};
      assert rest.Keys == m.Keys - {j};
      TotalRemove(rest, k);
      assert (m - {k}).Keys == m.Keys - {k};
      TotalRemove(m - {k}, j);
      assert rest - {k} == (m - {k}) - {j};
    }
  }

  /** Counting one value raises the sum of the counts by exactly one. */
  lemma TotalBump(m: map<string, nat>, v: string)
    ensures Total(Bump(m, v)) == Total(m) + 1
  {
    var b := Bump(m, v);
    TotalRemove(b, v);
    if v in m {
      TotalRemove(m, v);
      assert b - {v} == m - {v};
    } else {
      assert b - {v} == m;
    }
  }

  /** `s` reversed: the most recent value first. */
  function Reversed(s: seq<string>): (r: seq<string>)
    ensures |r| == |s|
    ensures forall i :: 0 <= i < |s| ==> r[i] == s[|s| - 1 - i]
    decreases |s|
  {
    if s == [] then [] else [s[|s| - 1]] + Reversed(s[..|s| - 1])
  }

  /** The log after counting `vs` from a fresh column: the values newest first,
      padded with the initial empty strings, `LogSize + 1` long once anything
      was counted. */
  function Recent(vs: seq<string>): (r: seq<string>)
    ensures |r| == if vs == [] then LogSize else LogSize + 1
    ensures forall i :: 0 <= i < |r| ==> r[i] == if i < |vs| then vs[|vs| - 1 - i] else ""
  {
    if vs == [] then Blank(LogSize) else (Reversed(vs) + Blank(LogSize))[..LogSize + 1]
  }

  /** The log after counting `vs` from a fresh column holds the most recent
      values, newest first. */
  lemma {:induction false} HistoryLog(vs: seq<string>)
    ensures ObserveAll(Initial(), vs).input == Recent(vs)
    decreases |vs|
  {
    if vs != [] {
      var init := vs[..|vs| - 1];
      var v := vs[|vs| - 1];
      HistoryLog(init);
      var c := ObserveAll(Initial(), init);
      var r := Recent(vs);
      var r' := [v] + c.input[..LogSize];
      assert |r| == |r'|;
      forall i | 0 <= i < |r| ensures r[i] == r'[i] {
        if i > 0 {
          assert r'[i] == Recent(init)[i - 1];
        }
      }
    }
  }

  /** The labels of a column are the values it counted, each with the number of
      times it was counted. */
  lemma {:induction false} HistoryCounts(vs: seq<string>)
    ensures ObserveAll(Initial(), vs).count.Keys == Elems(vs)
    ensures forall x :: x in ObserveAll(Initial(), vs).count ==> ObserveAll(Initial(), vs).count[x] == multiset(vs)[x]
    decreases |vs|
  {
    if vs != [] {
      var init := vs[..|vs| - 1];
      var v := vs[|vs| - 1];
      HistoryCounts(init);
      assert vs == init + [v];
      assert multiset(vs) == multiset(init) + multiset{v};
      assert Elems(vs) == Elems(init) + {v};
    }
  }

  /** The counts of a column sum to the number of values it counted. */
  lemma {:induction false} HistoryTotal(vs: seq<string>)
    ensures Total(ObserveAll(Initial(), vs).count) == |vs|
    decreases |vs|
  {
    if vs != [] {
      var init := vs[..|vs| - 1];
      HistoryTotal(init);
      TotalBump(ObserveAll(Initial(), init).count, vs[|vs| - 1]);
    }
  }

  /** The whole history of one column: the count of each label is the number of
      times it was counted, the counts sum to the number of values counted, and
      the log holds the most recent values newest first. */
  lemma History(vs: seq<string>)
    ensures ObserveAll(Initial(), vs).input == Recent(vs)
    ensures ObserveAll(Initial(), vs).count.Keys == Elems(vs)
    ensures forall x :: x in ObserveAll(Initial(), vs).count ==> ObserveAll(Initial(), vs).count[x] == multiset(vs)[x]
    ensures Total(ObserveAll(Initial(), vs).count) == |vs|
  {
    HistoryLog(vs);
    HistoryCounts(vs);
    HistoryTotal(vs);
  }


  /** The snapshot of a count map: every label exactly once, the counts in the
      same order, and the labels sorted whenever the comparator allows it. */
  ghost predicate SnapshotOf(count: map<string, nat>, labels: seq<string>, values: seq<nat>, numeric: bool) {
    SnapshotLists(count, labels, values) && (WeakOrderOn(count.Keys, numeric) ==> Sorted(labels, numeric))
  }

  /** The order-free half of `SnapshotOf`. */
  ghost predicate SnapshotLists(count: map<string, nat>, labels: seq<string>, values: seq<nat>) {
    && multiset(labels) == multiset(count.Keys)
    && |values| == |labels|
    && (forall j :: 0 <= j < |labels| ==> labels[j] in count && values[j] == count[labels[j]])
  }

  /** A snapshot has no duplicate and misses no label. */
  lemma SnapshotIsPermutation(count: map<string, nat>, labels: seq<string>, values: seq<nat>, numeric: bool)
    requires SnapshotOf(count, labels, values, numeric)
    ensures |labels| == |count|
    ensures forall x :: x in count <==> x in labels
    ensures forall p, q :: 0 <= p < q < |labels| ==> labels[p] != labels[q]
  {
    assert |labels| == |multiset(labels)| == |multiset(count.Keys)| == |count.Keys| == |count|;
    forall x ensures x in count <==> x in labels {
      assert x in labels <==> x in multiset(labels);
    }
    forall p, q | 0 <= p < q < |labels|
      ensures labels[p] != labels[q]
    {
      RepeatCounts(labels, p, q);
    }
  }

  /** A value at two positions of a sequence occurs there at least twice. */
  lemma RepeatCounts(s: seq<string>, p: nat, q: nat)
    requires p < q < |s|
    ensures s[p] == s[q] ==> multiset(s)[s[p]] >= 2
  {
    assert s == s[..q] + s[q..];
    assert s[p] in s[..q] && s[q] in s[q..];
    assert multiset(s)[s[q]] == multiset(s[..q])[s[q]] + multiset(s[q..])[s[q]];
  }

  /** When the comparator is a strict total order on the labels, the snapshot is
      determined by the counts alone: taking it twice gives the same result. */
  lemma SnapshotUnique(count: map<string, nat>, labels1: seq<string>, values1: seq<nat>,
                       labels2: seq<string>, values2: seq<nat>, numeric: bool)
    requires SnapshotOf(count, labels1, values1, numeric)
    requires SnapshotOf(count, labels2, values2, numeric)
    requires WeakOrderOn(count.Keys, numeric) && TotalOn(count.Keys, numeric)
    ensures labels1 == labels2 && values1 == values2
  {
    SnapshotIsPermutation(count, labels1, values1, numeric);
    assert Elems(labels1) == count.Keys;
    SortedUnique(labels1, labels2, numeric);
  }

  /** Positions of "2", "9", "10" and "x" in the numeric order. */
  function ExampleRank(x: string): int {
    if x == "2" then 0 else if x == "9" then 1 else if x == "10" then 2 else 3
  }

  /** On "10", "2", "9", "x" the numeric-mode comparator agrees with `ExampleRank`. */
  lemma ExampleRanked()
    ensures forall x, y :: x in {"10", "2", "9", "x"} && y in {"10", "2", "9", "x"} ==>
      (Less(x, y, true) <==> ExampleRank(x) < ExampleRank(y))
  {
    assert Atoi("2") == Some(2);
    assert Atoi("9") == Some(9);
    assert Atoi("10") == Some(10) by {
      assert "10"[..1] == "1";
    }
    assert Atoi("x") == None;
    assert LexLess("10", "x") && LexLess("2", "x") && LexLess("9", "x");
    assert !LexLess("x", "10") && !LexLess("x", "2") && !LexLess("x", "9");
  }

  /** The labels "10", "2", "9", "x" in numeric mode come out as 2, 9, 10, x:
      the three numbers by value, and "x" after each of them as a string. */
  lemma NumericSnapshotExample(count: map<string, nat>, labels: seq<string>, values: seq<nat>)
    requires count.Keys == {"10", "2", "9", "x"}
    requires SnapshotOf(count, labels, values, true)
    ensures labels == ["2", "9", "10", "x"]
  {
    ExampleIsStrictTotal();
    ExampleMultiset();
    assert multiset(labels) == multiset(["2", "9", "10", "x"]);
    ExampleSortedLabels(labels);
  }

  /** The only numerically sorted arrangement of "10", "2", "9", "x". */
  lemma ExampleSortedLabels(labels: seq<string>)
    requires multiset(labels) == multiset(["2", "9", "10", "x"])
    requires Sorted(labels, true)
    ensures labels == ["2", "9", "10", "x"]
  {
    var expected := ["2", "9", "10", "x"];
    ExampleIsStrictTotal();
    forall x ensures x in labels <==> x in expected {
      assert x in labels <==> x in multiset(labels);
    }
    assert Elems(labels) == {"10", "2", "9", "x"};
    SortedUnique(labels, expected, true);
  }

  lemma ExampleMultiset()
    ensures multiset(["2", "9", "10", "x"]) == multiset({"10", "2", "9", "x"})
  {
  }

  lemma ExampleIsStrictTotal()
    ensures WeakOrderOn({"10", "2", "9", "x"}, true) && TotalOn({"10", "2", "9", "x"}, true)
    ensures Sorted(["2", "9", "10", "x"], true)
  {
    var keys := {"10", "2", "9", "x"};
    ExampleRanked();
    WeakOrderFromRank(keys, true, ExampleRank);
    var expected := ["2", "9", "10", "x"];
    forall p, q | 0 <= p < q < 4 ensures !Less(expected[q], expected[p], true) {
      assert ExampleRank(expected[p]) < ExampleRank(expected[q]);
    }
  }

  /** Collect the labels of `count` (Go's `for k := range d.count`, in no
      particular order), sort them, and read off their counts. */
  method Snapshot(count: map<string, nat>, numeric: bool) returns (labels: seq<string>, values: seq<nat>)
    ensures SnapshotOf(count, labels, values, numeric)
  {
    var keys := CollectKeys(count);
    assert Elems(keys[..]) == count.Keys by {
      forall x ensures x in keys[..] <==> x in multiset(count.Keys) {
        assert x in keys[..] <==> x in multiset(keys[..]);
      }
    }
    SortKeys(keys, numeric);
    labels := keys[..];
    forall x | x in labels ensures x in count {
      assert x in multiset(labels);
    }
    values := CountsOf(count, labels);
  }

  /** The keys of `count`, each once, in an array of their own. */
  method CollectKeys(count: map<string, nat>) returns (keys: array<string>)
    ensures fresh(keys)
    ensures multiset(keys[..]) == multiset(count.Keys)
  {
    keys := new string[|count.Keys|];
    var rest := count.Keys;
    var n := 0;
    while rest != {}
      invariant rest <= count.Keys
      invariant n + |rest| == keys.Length
      invariant multiset(keys[..n]) + multiset(rest) == multiset(count.Keys)
      decreases |rest|
    {
      var k :| k in rest;
      keys[n] := k;
      assert keys[..n + 1] == keys[..n] + [k];
      assert multiset(rest) == multiset(rest - {k}) + multiset{k};
      rest := rest - {k};
      n := n + 1;
    }
    assert keys[..] == keys[..n];
  }

  /** The count of each label, in the labels' order (the `values` slice). */
  method CountsOf(count: map<string, nat>, labels: seq<string>) returns (values: seq<nat>)
    requires forall x :: x in labels ==> x in count
    ensures |values| == |labels|
    ensures forall j :: 0 <= j < |labels| ==> values[j] == count[labels[j]]
  {
    values := [];
    var j := 0;
    while j < |labels|
      invariant 0 <= j <= |labels|
      invariant |values| == j
      invariant forall p :: 0 <= p < j ==> values[p] == count[labels[p]]
    {
      values := values + [count[labels[j]]];
      j := j + 1;
    }
  }

  /** Go's `item`, without its widgets. `labels` and `values` stand for the
      bar chart's `Labels` and `Data`, the snapshot of the latest update. */
  class Column {
    var count: map<string, nat>
    var input: seq<string>
    var labels: seq<string>
    var values: seq<nat>

    ghost function State(): ColState
      reads this
    {
      ColState(count, input)
    }

    /** The log is long enough to slice. What the snapshot holds is stated by
        `Observe`, which is what computes it. */
    ghost predicate Valid()
      reads this
    {
      WellFormed(State())
    }

    /** The charts show a snapshot of the counts. */
    ghost predicate Shows(numeric: bool)
      reads this
    {
      SnapshotOf(count, labels, values, numeric)
    }

    constructor ()
      ensures State() == Initial()
      ensures labels == [] && values == []
      ensures Valid()
    {
      count := map[];
      input := Blank(LogSize);
      labels := [];
      values := [];
    }

    /** The body of `update`'s loop for one column and one counted value. */
    method Observe(v: string, numeric: bool)
      requires Valid()
      modifies this
      ensures Valid() && Shows(numeric)
      ensures State() == Observed(old(State()), v)
    {
      count := Bump(count, v);
      input := [v] + input[..LogSize];
      labels, values := Snapshot(count, numeric);
    }
  }
}
