/**
 * `ORDER BY createdAt DESC`: the order in which the per-owner listings
 * return rows. Rows with equal timestamps keep their table order here; SQL
 * leaves their order open.
 */
module Sorting {
  import opened Schema

  /** Every row is at least as recent as every row after it. */
  ghost predicate NewestFirst(s: seq<Record>) {
    forall i, j :: 0 <= i < j < |s| ==> s[i].createdAt >= s[j].createdAt
  }

  /** Places `x` into an already newest-first sequence. */
  function Insert(x: Record, s: seq<Record>): (r: seq<Record>)
    requires NewestFirst(s)
    ensures NewestFirst(r)
    ensures multiset(r) == multiset(s) + multiset{x}
    ensures |r| == |s| + 1
    ensures r[0] == x || (s != [] && r[0] == s[0])
  {
    if s == [] then [x]
    else if x.createdAt >= s[0].createdAt then
      PrependNewest(x, s);
      [x] + s
    else
      var rest := Insert(x, s[1..]);
      assert s == [s[0]] + s[1..];
      PrependNewest(s[0], rest);
      [s[0]] + rest
  }

  /** A row at least as recent as the head of a newest-first sequence may go in front of it. */
  lemma PrependNewest(h: Record, t: seq<Record>)
    requires NewestFirst(t)
    requires t != [] ==> h.createdAt >= t[0].createdAt
    ensures NewestFirst([h] + t)
  {
  }

  /** The rows of `s`, most recent first. */
  function NewestFirstOrder(s: seq<Record>): (r: seq<Record>)
    ensures NewestFirst(r)
    ensures multiset(r) == multiset(s)
  {
    if s == [] then []
    else
      assert s == [s[0]] + s[1..];
      Insert(s[0], NewestFirstOrder(s[1..]))
  }
}
