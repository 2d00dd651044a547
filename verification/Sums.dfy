// Finite sums of reals.
module Sums {

  // The sum of f over the indices listed.
  ghost function SumOver(order: seq<nat>, f: nat -> real): real {
    if |order| == 0 then 0.0 else SumOver(order[..|order| - 1], f) + f(order[|order| - 1])
  }

  function Iota(n: nat): (s: seq<nat>)
    ensures |s| == n && forall i :: 0 <= i < n ==> s[i] == i
  {
    seq(n, i => i)
  }

  ghost predicate Distinct(s: seq<nat>) { forall i, j :: 0 <= i < j < |s| ==> s[i] != s[j] }

  lemma SumSnoc(order: seq<nat>, i: nat, f: nat -> real)
    ensures SumOver(order + [i], f) == SumOver(order, f) + f(i)
  {
    assert (order + [i])[..|order|] == order;
  }

  lemma {:induction false} SumSame(order: seq<nat>, f: nat -> real, g: nat -> real)
    requires forall i :: i in order ==> f(i) == g(i)
    ensures SumOver(order, f) == SumOver(order, g)
  {
    if |order| > 0 {
      SumSame(order[..|order| - 1], f, g);
    }
  }

  lemma {:induction false} SumRemove(order: seq<nat>, k: nat, f: nat -> real)
    requires k < |order|
    ensures SumOver(order, f) == SumOver(order[..k] + order[k + 1..], f) + f(order[k])
    decreases |order|
  {
    var n := |order| - 1;
    if k == n {
      assert order[..k] + order[k + 1..] == order[..n];
    } else {
      SumRemove(order[..n], k, f);
      assert order[..n][..k] + order[..n][k + 1..] == order[..k] + order[k + 1..n];
      assert order[..k] + order[k + 1..] == (order[..k] + order[k + 1..n]) + [order[n]];
      SumSnoc(order[..k] + order[k + 1..n], order[n], f);
    }
  }

  // A sum over the places where f is not zero is the sum over all places.
  lemma {:induction false} SparseSum(order: seq<nat>, n: nat, f: nat -> real)
    requires Distinct(order) && (forall i :: i in order ==> i < n)
    requires forall i :: 0 <= i < n && i !in order ==> f(i) == 0.0
    ensures SumOver(order, f) == SumOver(Iota(n), f)
    decreases n
  {
    hide SumOver, Distinct;
    if n == 0 {
      NoMembers(order);
    } else {
      assert Iota(n) == Iota(n - 1) + [n - 1];
      SumSnoc(Iota(n - 1), n - 1, f);
      if n - 1 in order {
        var k :| 0 <= k < |order| && order[k] == n - 1;
        SumRemove(order, k, f);
        var rest := order[..k] + order[k + 1..];
        RestFacts(order, k);
        hide Iota;
        SparseSum(rest, n - 1, f);
      } else {
        SparseSum(order, n - 1, f);
      }
    }
  }

  lemma NoMembers(order: seq<nat>)
    requires forall i :: i !in order
    ensures order == []
  {
    if |order| > 0 {
      HeadIn(order);
    }
  }

  lemma HeadIn(order: seq<nat>)
    requires |order| > 0
    ensures order[0] in order
  {
  }

  lemma RestFacts(order: seq<nat>, k: nat)
    requires Distinct(order) && k < |order|
    ensures var rest := order[..k] + order[k + 1..];
            Distinct(rest) && forall i :: i in rest <==> i in order && i != order[k]
  {
    var rest := order[..k] + order[k + 1..];
    forall i | i in order && i != order[k]
      ensures i in rest
    {
      var j :| 0 <= j < |order| && order[j] == i;
      assert rest[if j < k then j else j - 1] == i;
    }
  }

  // The sum of a dense vector.
  ghost function Total(v: seq<real>): real { SumOver(Iota(|v|), Entry(v)) }

  ghost function Entry(v: seq<real>): nat -> real { (i: nat) => if i < |v| then v[i] else 0.0 }

  // Changing one entry changes the total by as much.
  lemma TotalWrite(v: seq<real>, j: nat, x: real)
    requires j < |v|
    ensures Total(v[j := x]) == Total(v) + x - v[j]
  {
    var o := Iota(|v|);
    SumRemove(o, j, Entry(v));
    SumRemove(o, j, Entry(v[j := x]));
    SumSame(o[..j] + o[j + 1..], Entry(v), Entry(v[j := x]));
  }

  lemma TotalZero(v: seq<real>)
    requires forall i :: 0 <= i < |v| ==> v[i] == 0.0
    ensures Total(v) == 0.0
  {
    SparseSum([], |v|, Entry(v));
  }

  // Totals are linear.
  lemma {:induction false} SumLinear(order: seq<nat>, f: nat -> real, g: nat -> real, h: nat -> real, a: real, c: real)
    requires forall i :: i in order ==> h(i) == a * f(i) + c * g(i)
    ensures SumOver(order, h) == a * SumOver(order, f) + c * SumOver(order, g)
  {
    if |order| > 0 {
      var n := |order| - 1;
      SumLinear(order[..n], f, g, h, a, c);
      assert h(order[n]) == a * f(order[n]) + c * g(order[n]);
    }
  }

  lemma {:induction false} SumNonNegative(order: seq<nat>, f: nat -> real)
    requires forall i :: i in order ==> f(i) >= 0.0
    ensures SumOver(order, f) >= 0.0
    ensures forall i :: i in order ==> SumOver(order, f) >= f(i)
  {
    if |order| > 0 {
      SumNonNegative(order[..|order| - 1], f);
      forall i | i in order
        ensures SumOver(order, f) >= f(i)
      {
        if i != order[|order| - 1] {
          assert i in order[..|order| - 1];
        }
      }
    }
  }
}
