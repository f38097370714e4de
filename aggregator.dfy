/** Go's `app`: the columns fixed by the first line, the per-line update and the
    lines-per-second series. */
module Aggregator {
  import opened Strings
  import opened KeyOrder
  import opened Columns

  /** Where `update`'s loop, at field `i`, leaves the line: at its end, at a
      blank field when blanks are ignored (`return`, not `continue`), or at index
      `arity`, the first index with no column. */
  function StopFrom(fields: seq<string>, arity: nat, ignoreEmpty: bool, i: nat): (k: nat)
    requires i <= |fields| && i <= arity
    ensures i <= k <= |fields| && k <= arity
    ensures forall j :: i <= j < k ==> !(ignoreEmpty && fields[j] == "")
    ensures k == |fields| || k == arity || (ignoreEmpty && fields[k] == "")
    decreases |fields| - i
  {
    if i == |fields| || i == arity || (ignoreEmpty && fields[i] == "") then i
    else StopFrom(fields, arity, ignoreEmpty, i + 1)
  }

  /** The number of columns a line updates: the first stop point from field 0. */
  function Stop(fields: seq<string>, arity: nat, ignoreEmpty: bool): (k: nat)
    ensures k <= |fields| && k <= arity
    ensures forall j :: 0 <= j < k ==> !(ignoreEmpty && fields[j] == "")
    ensures k == |fields| || k == arity || (ignoreEmpty && fields[k] == "")
  {
    StopFrom(fields, arity, ignoreEmpty, 0)
  }

  /** The guard `len(a.data) < i` lets index `arity` through; the lookup there
      yields a nil `*item` and `d.count` panics. */
  predicate Crashes(fields: seq<string>, arity: nat, ignoreEmpty: bool): (r: bool)
    ensures r ==> arity < |fields| && Stop(fields, arity, ignoreEmpty) == arity
  {
    var k := Stop(fields, arity, ignoreEmpty);
    k == arity && k < |fields| && !(ignoreEmpty && fields[k] == "")
  }

  /** Column `k` is updated by a line exactly when the line has a field at `k`,
      the column exists, and no blank field up to `k` stopped the line. */
  lemma ReachedIff(fields: seq<string>, arity: nat, ignoreEmpty: bool, k: nat)
    ensures k < Stop(fields, arity, ignoreEmpty) <==>
      k < |fields| && k < arity && forall j :: 0 <= j <= k ==> !(ignoreEmpty && fields[j] == "")
  {
  }

  /** A line crashes exactly when it has more fields than there are columns and
      none of its first `arity + 1` fields is a blank that stops it first. */
  lemma CrashesIff(fields: seq<string>, arity: nat, ignoreEmpty: bool)
    ensures Crashes(fields, arity, ignoreEmpty) <==>
      arity < |fields| && forall j :: 0 <= j <= arity ==> !(ignoreEmpty && fields[j] == "")
  {
    var k := Stop(fields, arity, ignoreEmpty);
    if arity < |fields| && forall j :: 0 <= j <= arity ==> !(ignoreEmpty && fields[j] == "") {
      assert k == arity;
    }
  }

  /** A line with no more fields than columns never reaches the missing column. */
  lemma ShortLinesNeverCrash(fields: seq<string>, arity: nat, ignoreEmpty: bool)
    requires |fields| <= arity
    ensures !Crashes(fields, arity, ignoreEmpty)
  {
  }

  /** With three columns, the fields "1", "2", "3", "4" panic at the fourth
      field after counting the first three; with blanks ignored, "x", "", "y"
      count only the first field and "", "x", "" count nothing at all. */
  lemma ExampleLines()
    ensures Stop(["1", "2", "3", "4"], 3, false) == 3 && Crashes(["1", "2", "3", "4"], 3, false)
    ensures Stop(["x", "", "y"], 3, true) == 1 && !Crashes(["x", "", "y"], 3, true)
    ensures Stop(["", "x", ""], 3, true) == 0 && !Crashes(["", "x", ""], 3, true)
  {
  }

  /** What one line does to column `k` when its loop stops at `stop`: the
      column counts its field if the loop got past it, and is untouched otherwise. */
  function Counted(c: ColState, fields: seq<string>, k: int, stop: nat): (r: ColState)
    requires WellFormed(c) && stop <= |fields|
    ensures WellFormed(r)
    ensures 0 <= k < stop ==> r.count.Keys == c.count.Keys + {fields[k]} && r.input[0] == fields[k]
    ensures !(0 <= k < stop) ==> r == c
  {
    if 0 <= k < stop then Observed(c, fields[k]) else c
  }

  /** Column `k` after a run of lines, each already split into fields. */
  function ColumnAfter(lines: seq<seq<string>>, k: nat, arity: nat, ignoreEmpty: bool): (c: ColState)
    ensures WellFormed(c)
    decreases |lines|
  {
    if lines == [] then Initial()
    else
      var fields := lines[|lines| - 1];
      Counted(ColumnAfter(lines[..|lines| - 1], k, arity, ignoreEmpty), fields, k, Stop(fields, arity, ignoreEmpty))
  }

  /** The values that column `k` counted, oldest first. */
  function Received(lines: seq<seq<string>>, k: nat, arity: nat, ignoreEmpty: bool): seq<string>
    decreases |lines|
  {
    if lines == [] then []
    else
      var fields := lines[|lines| - 1];
      Received(lines[..|lines| - 1], k, arity, ignoreEmpty)
        + if k < Stop(fields, arity, ignoreEmpty) then [fields[k]] else []
  }

  /** Each column of a run is a fresh column that counted exactly the values it
      received, in order. */
  lemma {:induction false} ColumnHistory(lines: seq<seq<string>>, k: nat, arity: nat, ignoreEmpty: bool)
    ensures ColumnAfter(lines, k, arity, ignoreEmpty) == ObserveAll(Initial(), Received(lines, k, arity, ignoreEmpty))
    decreases |lines|
  {
    if lines != [] {
      var init := lines[..|lines| - 1];
      ColumnHistory(init, k, arity, ignoreEmpty);
      var vs := Received(init, k, arity, ignoreEmpty);
      var fields := lines[|lines| - 1];
      if k < Stop(fields, arity, ignoreEmpty) {
        assert Received(lines, k, arity, ignoreEmpty) == vs + [fields[k]];
        assert (vs + [fields[k]])[..|vs|] == vs;
      } else {
        assert Received(lines, k, arity, ignoreEmpty) == vs;
      }
    }
  }

  /** Per column, the counts sum to the number of lines that reached it, each
      label's count is how often it was received, and the log holds the received
      values newest first. */
  lemma ColumnTotals(lines: seq<seq<string>>, k: nat, arity: nat, ignoreEmpty: bool)
    ensures var c := ColumnAfter(lines, k, arity, ignoreEmpty);
      var vs := Received(lines, k, arity, ignoreEmpty);
      && Total(c.count) == |vs|
      && c.count.Keys == Elems(vs)
      && (forall x :: x in c.count ==> c.count[x] == multiset(vs)[x])
      && c.input == Recent(vs)
  {
    ColumnHistory(lines, k, arity, ignoreEmpty);
    History(Received(lines, k, arity, ignoreEmpty));
  }

  /** A column receives at most one value per line, and an index past the last
      column receives nothing. */
  lemma {:induction false} ReceivedOnlyReached(lines: seq<seq<string>>, k: nat, arity: nat, ignoreEmpty: bool)
    ensures |Received(lines, k, arity, ignoreEmpty)| <= |lines|
    ensures arity <= k ==> Received(lines, k, arity, ignoreEmpty) == []
    decreases |lines|
  {
    if lines != [] {
      ReceivedOnlyReached(lines[..|lines| - 1], k, arity, ignoreEmpty);
    }
  }

  /** The columns are numbered `0 .. |m| - 1`, are distinct objects and belong to `r`. */
  ghost predicate Numbered(m: map<int, Column>, r: set<Column>) {
    && (forall k :: k in m ==> m[k] in r)
    && (forall k :: k in m <==> 0 <= k < |m|)
    && (forall j, k :: j in m && k in m && j != k ==> m[j] != m[k])
  }

  /** Go's `app`, without its widgets. The flags are fixed at construction;
      `series` is the plot's `Data[0]`; `lines` counts lines since the last
      throughput sample. */
  class App {
    const delimiter: string
    const ignoreEmpty: bool
    const numericSort: bool
    /** One column per field of the first line; `setup` is the only writer. */
    const data: map<int, Column>
    /** The column objects. */
    ghost const Repr: set<Column>
    var lines: nat
    var series: seq<nat>
    /** Every line applied so far, split into fields. */
    ghost var history: seq<seq<string>>

    /** Each column is well formed and is column `k` after the run of `h`. */
    ghost predicate ColumnsAfter(h: seq<seq<string>>)
      reads Repr
    {
      && Numbered(data, Repr)
      && forall k :: k in data ==> data[k].Valid() && data[k].State() == ColumnAfter(h, k, |data|, ignoreEmpty)
    }

    /** Every column's charts show a snapshot of its counts. */
    ghost predicate ChartsShown()
      reads Repr
    {
      Numbered(data, Repr) && forall k :: k in data ==> data[k].Shows(numericSort)
    }

    ghost predicate Valid()
      reads this, Repr
    {
      |delimiter| > 0 && ColumnsAfter(history) && ChartsShown()
    }

    /** `setup`: one empty column per field of the first line, and the
        throughput series `[0, 0]`. */
    constructor Setup(head: string, delimiter: string, ignoreEmpty: bool, numericSort: bool)
      requires |delimiter| > 0
      ensures this.delimiter == delimiter && this.ignoreEmpty == ignoreEmpty && this.numericSort == numericSort
      ensures Valid() && fresh(Repr)
      ensures |data| == |Split(head, delimiter)|
      ensures forall k :: k in data ==> fresh(data[k]) && data[k].State() == Initial()
      ensures forall k :: k in data ==> data[k].labels == [] && data[k].values == []
      ensures lines == 0 && series == [0, 0] && history == []
    {
      this.delimiter := delimiter;
      this.ignoreEmpty := ignoreEmpty;
      this.numericSort := numericSort;
      var m: map<int, Column>;
      ghost var r: set<Column>;
      m, r := NewColumns(|Split(head, delimiter)|);
      data := m;
      Repr := r;
      lines := 0;
      series := [0, 0];
      history := [];
    }

    /** `traffic`: append the lines counted since the last sample, then restart
        the count. */
    method Traffic()
      requires Valid()
      modifies this
      ensures Valid()
      ensures series == old(series) + [old(lines)] && lines == 0
      ensures history == old(history)
    {
      series := series + [lines];
      lines := 0;
    }

    /** `update`: count the line, split it, and feed its fields to the columns.
        `crashed` reports the nil dereference of `Crashes`; the state is then
        the one at the moment of the panic. */
    method Update(line: string) returns (crashed: bool)
      requires Valid()
      modifies this, Repr
      ensures Valid()
      ensures lines == old(lines) + 1 && series == old(series)
      ensures history == old(history) + [Split(line, delimiter)]
      ensures crashed == Crashes(Split(line, delimiter), |data|, ignoreEmpty)
      ensures forall k :: k in data && Stop(Split(line, delimiter), |data|, ignoreEmpty) <= k ==>
        data[k].labels == old(data[k].labels) && data[k].values == old(data[k].values)
    {
      lines := lines + 1;
      var fields := Split(line, delimiter);
      crashed := Apply(fields, history);
      history := history + [fields];
    }

    /** The columns after `h` take one more line. */
    method Apply(fields: seq<string>, ghost h: seq<seq<string>>) returns (crashed: bool)
      requires ColumnsAfter(h) && ChartsShown()
      modifies Repr
      ensures ColumnsAfter(h + [fields]) && ChartsShown()
      ensures crashed == Crashes(fields, |data|, ignoreEmpty)
      ensures forall k :: k in data && Stop(fields, |data|, ignoreEmpty) <= k ==> data[k].labels == old(data[k].labels) && data[k].values == old(data[k].values)
    {
      crashed := Feed(fields, h);
      assert (h + [fields])[..|h|] == h;
    }

    /** Every column `k` is column `k` after `h`, then after the first `i`
        fields of one more line. */
    ghost predicate FedUpTo(h: seq<seq<string>>, fields: seq<string>, i: nat)
      reads Repr
    {
      && Numbered(data, Repr)
      && i <= |fields|
      && forall k :: k in data ==>
        data[k].Valid() && data[k].State() == Counted(ColumnAfter(h, k, |data|, ignoreEmpty), fields, k, i)
    }

    /** The body of `update`'s loop at field `i`, once the guards let it through:
        column `i` counts the field and rebuilds its charts, the others are untouched. */
    method Step(fields: seq<string>, ghost h: seq<seq<string>>, i: nat)
      requires i < |fields| && i in data && FedUpTo(h, fields, i) && ChartsShown()
      modifies data[i]
      ensures FedUpTo(h, fields, i + 1) && ChartsShown()
      ensures forall k :: k in data && k != i ==> data[k].labels == old(data[k].labels) && data[k].values == old(data[k].values)
    {
      var c := data[i];
      c.Observe(fields[i], numericSort);
      forall k | k in data
        ensures data[k].Valid() && data[k].State() == Counted(ColumnAfter(h, k, |data|, ignoreEmpty), fields, k, i + 1)
        ensures data[k].Shows(numericSort)
        ensures k != i ==> data[k].labels == old(data[k].labels) && data[k].values == old(data[k].values)
      {
        if k != i {
          assert data[k] != c;
        }
      }
    }

    /** The loop of `update` over the fields of one line: the columns before
        `Stop` count their field, the others are untouched. */
    method Feed(fields: seq<string>, ghost h: seq<seq<string>>) returns (crashed: bool)
      requires ColumnsAfter(h) && ChartsShown()
      modifies Repr
      ensures forall k :: k in data ==>
        data[k].Valid() && data[k].State() == Counted(ColumnAfter(h, k, |data|, ignoreEmpty), fields, k, Stop(fields, |data|, ignoreEmpty))
      ensures ChartsShown()
      ensures forall k :: k in data && Stop(fields, |data|, ignoreEmpty) <= k ==> data[k].labels == old(data[k].labels) && data[k].values == old(data[k].values)
      ensures crashed == Crashes(fields, |data|, ignoreEmpty)
    {
      ghost var stop := Stop(fields, |data|, ignoreEmpty);
      crashed := false;
      var i := 0;
      while i < |fields| && !(|data| < i)
        invariant i <= |fields| && i <= |data| && StopFrom(fields, |data|, ignoreEmpty, i) == stop
        invariant FedUpTo(h, fields, i) && ChartsShown()
        invariant forall k :: k in data && i <= k ==> data[k].labels == old(data[k].labels) && data[k].values == old(data[k].values)
        invariant !crashed
      {
        var v := fields[i];
        if v == "" && ignoreEmpty {
          break;
        }
        if i !in data {
          crashed := true;
          break;
        }
        assert i < |data| && StopFrom(fields, |data|, ignoreEmpty, i + 1) == stop;
        Step(fields, h, i);
        i := i + 1;
      }
      assert i == stop;
    }
  }

  /** The reading side of `main`, run in sequence: `setup` on the first line,
      then `update` on each later line, until a line panics. `n` lines were
      applied; `crashed` says whether the last of them panicked. */
  method Run(head: string, delimiter: string, ignoreEmpty: bool, numericSort: bool, rest: seq<string>)
    returns (a: App, n: nat, crashed: bool)
    requires |delimiter| > 0
    ensures fresh(a) && fresh(a.Repr) && a.Valid()
    ensures a.delimiter == delimiter && a.ignoreEmpty == ignoreEmpty && a.numericSort == numericSort
    ensures |a.data| == |Split(head, delimiter)|
    ensures n <= |rest| && a.lines == n && a.series == [0, 0]
    ensures |a.history| == n && forall j :: 0 <= j < n ==> a.history[j] == Split(rest[j], delimiter)
    ensures forall j :: 0 <= j < n - 1 ==> !Crashes(Split(rest[j], delimiter), |a.data|, ignoreEmpty)
    ensures crashed <==> 0 < n && Crashes(Split(rest[n - 1], delimiter), |a.data|, ignoreEmpty)
    ensures !crashed ==> n == |rest|
  {
    a := new App.Setup(head, delimiter, ignoreEmpty, numericSort);
    n, crashed := 0, false;
    while n < |rest| && !crashed
      invariant fresh(a) && fresh(a.Repr) && a.Valid()
      invariant n <= |rest| && a.lines == n && a.series == [0, 0]
      invariant |a.history| == n && forall j :: 0 <= j < n ==> a.history[j] == Split(rest[j], delimiter)
      invariant forall j :: 0 <= j < n - 1 ==> !Crashes(Split(rest[j], delimiter), |a.data|, ignoreEmpty)
      invariant crashed <==> 0 < n && Crashes(Split(rest[n - 1], delimiter), |a.data|, ignoreEmpty)
    {
      crashed := a.Update(rest[n]);
      n := n + 1;
    }
  }

  /** `n` fresh, distinct, empty columns numbered `0 .. n - 1`, and the set of them. */
  method NewColumns(n: nat) returns (m: map<int, Column>, ghost r: set<Column>)
    ensures Numbered(m, r) && |m| == n && fresh(r)
    ensures forall k :: k in m ==> fresh(m[k])
    ensures forall k :: k in m ==> m[k].Valid() && m[k].State() == Initial() && m[k].labels == [] && m[k].values == []
  {
    m, r := map[], {};
    var i := 0;
    while i < n
      invariant 0 <= i <= n
      invariant forall k :: k in m <==> 0 <= k < i
      invariant |m| == i
      invariant forall j, k :: j in m && k in m && j != k ==> m[j] != m[k]
      invariant forall k :: k in m ==> m[k] in r
      invariant fresh(r)
      invariant forall k :: k in m ==>
        m[k].count == map[] && m[k].input == Blank(LogSize) && m[k].labels == [] && m[k].values == []
    {
      var c := new Column();
      assert i !in m && c !in r;
      m, r := m[i := c], r + {c};
      i := i + 1;
    }
  }
}
