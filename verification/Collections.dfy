/** Duplicate-free sequences and sets of elements, shared by the tables of the model. */
module Collections {
  ghost predicate Distinct<T>(s: seq<T>) {
    forall i, j :: 0 <= i < j < |s| ==> s[i] != s[j]
  }

  function Elements<T>(s: seq<T>): set<T> {
    set x | x in s
  }

  /** `len(set(ids)) == len(ids)` is exactly the absence of duplicates. */
  lemma {:induction false} SetSizeIffDistinct<T>(s: seq<T>)
    ensures |Elements(s)| <= |s|
    ensures |Elements(s)| == |s| <==> Distinct(s)
  {
    if s != [] {
      var last, rest := s[|s| - 1], s[..|s| - 1];
      SetSizeIffDistinct(rest);
      assert s == rest + [last];
      assert Elements(s) == Elements(rest) + {last};
      if last in rest {
        assert Elements(s) == Elements(rest);
        var i :| 0 <= i < |rest| && rest[i] == last;
        assert s[i] == s[|s| - 1];
      } else {
        assert |Elements(s)| == |Elements(rest)| + 1;
        if Distinct(rest) {
          assert Distinct(s);
        } else {
          var i, j :| 0 <= i < j < |rest| && rest[i] == rest[j];
          assert s[i] == s[j];
        }
      }
    }
  }

  /** How many of the first `n` indices satisfy the predicate. */
  ghost function CountIf(n: nat, p: int -> bool): nat {
    |set i | 0 <= i < n && p(i)|
  }

  lemma CountNext(n: nat, p: int -> bool)
    ensures CountIf(0, p) == 0
    ensures CountIf(n + 1, p) == CountIf(n, p) + if p(n) then 1 else 0
  {
    var before, after := set i | 0 <= i < n && p(i), set i | 0 <= i < n + 1 && p(i);
    assert (set i | 0 <= i < 0 && p(i)) == {};
    assert after == if p(n) then before + {n} else before;
  }

  lemma CountIs(n: nat, p: int -> bool, s: set<int>)
    requires forall i :: i in s <==> 0 <= i < n && p(i)
    ensures CountIf(n, p) == |s|
  {
    assert (set i | 0 <= i < n && p(i)) == s;
  }

  lemma CountSame(n: nat, p: int -> bool, q: int -> bool)
    requires forall i :: 0 <= i < n ==> p(i) == q(i)
    ensures CountIf(n, p) == CountIf(n, q)
  {
    assert (set i | 0 <= i < n && p(i)) == (set i | 0 <= i < n && q(i));
  }

  /** The sum of f(0), ..., f(n - 1). */
  function SumOver(n: nat, f: int -> int): int {
    if n == 0 then 0 else SumOver(n - 1, f) + f(n - 1)
  }

  lemma {:induction false} SumSame(n: nat, f: int -> int, g: int -> int)
    requires forall i :: 0 <= i < n ==> f(i) == g(i)
    ensures SumOver(n, f) == SumOver(n, g)
  {
    if n > 0 {
      SumSame(n - 1, f, g);
    }
  }

  lemma SubsetSize<T>(a: set<T>, b: set<T>)
    requires a <= b
    ensures |a| <= |b|
    decreases b
  {
    if a != {} {
      var x :| x in a;
      SubsetSize(a - {x}, b - {x});
    }
  }
}
