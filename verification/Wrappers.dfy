/** What a call leaves behind, and equality of collections of integers and numbers by their members. */
module Wrappers {
  datatype Option<+T> = None | Some(value: T)

  /** The first element with a property. */
  function First<T>(s: seq<T>, p: T -> bool): (r: Option<T>)
    ensures r.Some? ==> r.value in s && p(r.value)
    ensures r.None? ==> forall x :: x in s ==> !p(x)
  {
    if s == [] then None else if p(s[0]) then Some(s[0]) else First(s[1..], p)
  }

  lemma SameSet(m: set<int>, n: set<int>)
    requires forall t :: t in m <==> t in n
    ensures m == n
  {
    forall t: int | t in m ensures t in n {
    }
    forall t: int | t in n ensures t in m {
    }
    assert m <= n;
  }

  lemma SameMap<V>(m: map<int, V>, n: map<int, V>)
    requires forall t :: t in m <==> t in n
    requires forall t :: t in m ==> m[t] == n[t]
    ensures m == n
  {
    SameSet(m.Keys, n.Keys);
    forall t: int | t in m ensures t in n && m[t] == n[t] {
    }
  }
}
