/** Go's `strings.Split` for a non-empty separator, and its inverse `strings.Join`.
    Both the header line and every later input line are cut into fields with it. */
module Strings {

  /** The separator occurs in `s` starting at position `j`. */
  predicate OccursAt(s: string, sep: string, j: nat) {
    j + |sep| <= |s| && s[j..j + |sep|] == sep
  }

  /** `s` contains the separator somewhere. */
  ghost predicate Contains(s: string, sep: string) {
    exists j: nat :: OccursAt(s, sep, j)
  }

  /** `strings.Index` on the suffix starting at `i`: the first occurrence at or
      after `i`, or -1 when there is none. */
  function IndexFrom(s: string, sep: string, i: nat): (k: int)
    requires |sep| > 0 && i <= |s|
    ensures k == -1 || (i <= k && OccursAt(s, sep, k))
    ensures k == -1 ==> forall j: nat :: i <= j ==> !OccursAt(s, sep, j)
    ensures k != -1 ==> forall j: nat :: i <= j < k ==> !OccursAt(s, sep, j)
    decreases |s| - i
  {
    if i + |sep| > |s| then -1
    else if s[i..i + |sep|] == sep then i
    else IndexFrom(s, sep, i + 1)
  }

  /** A prefix that ends before the first occurrence holds no occurrence. */
  lemma PrefixBeforeFirst(s: string, sep: string, k: nat)
    requires |sep| > 0 && k <= |s|
    requires forall j: nat :: j < k ==> !OccursAt(s, sep, j)
    ensures !Contains(s[..k], sep)
  {
    if Contains(s[..k], sep) {
      var j: nat :| OccursAt(s[..k], sep, j);
      assert s[..k][j..j + |sep|] == s[j..j + |sep|];
      assert OccursAt(s, sep, j);
    }
  }

  /** `strings.Split(s, sep)`: cut at each leftmost occurrence, scanning left to right. */
  function Split(s: string, sep: string): (fields: seq<string>)
    requires |sep| > 0
    ensures |fields| >= 1
    ensures forall f :: f in fields ==> !Contains(f, sep)
    decreases |s|
  {
    var k := IndexFrom(s, sep, 0);
    if k == -1 then [s]
    else
      PrefixBeforeFirst(s, sep, k);
      [s[..k]] + Split(s[k + |sep|..], sep)
  }

  /** `strings.Join(fields, sep)` for a non-empty list of fields. */
  function Join(fields: seq<string>, sep: string): string
    requires |fields| >= 1
    decreases |fields|
  {
    if |fields| == 1 then fields[0] else fields[0] + sep + Join(fields[1..], sep)
  }

  /** Splitting loses nothing: joining the fields back gives the line. */
  lemma {:induction false} JoinSplit(s: string, sep: string)
    requires |sep| > 0
    ensures Join(Split(s, sep), sep) == s
    decreases |s|
  {
    var k := IndexFrom(s, sep, 0);
    if k != -1 {
      var rest := s[k + |sep|..];
      var fields := Split(s, sep);
      assert fields == [s[..k]] + Split(rest, sep);
      assert fields[1..] == Split(rest, sep);
      assert Join(fields, sep) == s[..k] + sep + Join(Split(rest, sep), sep);
      JoinSplit(rest, sep);
      assert s == s[..k] + sep + rest;
    }
  }
}
