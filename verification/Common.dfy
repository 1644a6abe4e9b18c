/** Small notions used throughout. */
module Common {

  datatype Option<T> = None | Some(value: T)

  function Min(a: int, b: int): (m: int) {
    if a < b then a else b
  }

  ghost predicate Distinct(s: seq<int>) {
    forall i, j :: 0 <= i < j < |s| ==> s[i] != s[j]
  }

  lemma {:induction false} SubsetSize<T>(a: set<T>, b: set<T>)
    requires a <= b
    ensures |a| <= |b|
    decreases |a|
  {
    if a != {} {
      var x :| x in a;
      SubsetSize(a - {x}, b - {x});
    }
  }

  /** The sum of the values of a map. */
  ghost function Sum(m: map<nat, nat>): (n: nat) {
    if m == map[] then 0
    else
      var k :| k in m;
      m[k] + Sum(m - {k})
  }

  lemma {:induction false} SumRemove(m: map<nat, nat>, k: nat)
    requires k in m
    ensures Sum(m) == m[k] + Sum(m - {k})
    decreases |m|
  {
    var p :| p in m && Sum(m) == m[p] + Sum(m - {p});
    if p != k {
      SumRemove(m - {p}, k);
      SumRemove(m - {k}, p);
      assert m - {p} - {k} == m - {k} - {p};
    }
  }

  lemma SumUpdate(m: map<nat, nat>, k: nat, n: nat)
    ensures Sum(m[k := n]) == n + Sum(m - {k})
  {
    SumRemove(m[k := n], k);
    assert m[k := n] - {k} == m - {k};
  }
}
