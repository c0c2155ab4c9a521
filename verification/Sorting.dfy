/** Sorting lists of reals. */
module Sorting {
  predicate Ascending(values: seq<real>) {
    forall i, j :: 0 <= i <= j < |values| ==> values[i] <= values[j]
  }

  lemma ConsAscending(first: real, rest: seq<real>)
    requires Ascending(rest) && forall y :: y in rest ==> first <= y
    ensures Ascending([first] + rest)
  {
    assert forall i :: 0 <= i < |rest| ==> rest[i] in rest;
  }

  function Insert(x: real, ascending: seq<real>): (r: seq<real>)
    requires Ascending(ascending)
    ensures Ascending(r) && multiset(r) == multiset(ascending) + multiset{x}
    ensures forall y :: y in r <==> y == x || y in ascending
    decreases |ascending|
  {
    if ascending == [] || x <= ascending[0] then [x] + ascending
    else
      assert ascending == [ascending[0]] + ascending[1..];
      var rest := Insert(x, ascending[1..]);
      ConsAscending(ascending[0], rest);
      [ascending[0]] + rest
  }

  function Sorted(values: seq<real>): (r: seq<real>)
    ensures Ascending(r) && multiset(r) == multiset(values) && |r| == |values|
    decreases |values|
  {
    if values == [] then []
    else
      assert values == [values[0]] + values[1..];
      var r := Insert(values[0], Sorted(values[1..]));
      assert |r| == |multiset(r)|;
      r
  }
}
