/** Iteration order of the ordered collections: ascending keys, each once. */
module BTrees {
  import opened Orders

  ghost predicate StrictlySorted<T>(cmp: (T, T) -> Ordering, s: seq<T>) {
    forall i, j :: 0 <= i < j < |s| ==> cmp(s[i], s[j]) == Less
  }

  ghost predicate IsLeast<T>(cmp: (T, T) -> Ordering, m: T, s: set<T>) {
    m in s && forall x <- s :: x != m ==> cmp(m, x) == Less
  }

  lemma {:induction false} LeastExists<T(!new)>(cmp: (T, T) -> Ordering, s: set<T>)
    requires TotalOrder(cmp) && s != {}
    ensures exists m :: IsLeast(cmp, m, s)
    decreases s
  {
    var m :| m in s;
    var rest := s - {m};
    if rest == {} {
      assert s == {m} + rest;
      assert IsLeast(cmp, m, s);
    } else {
      LeastExists(cmp, rest);
      var n :| IsLeast(cmp, n, rest);
      assert IsLeast(cmp, if cmp(m, n) == Less then m else n, s);
    }
  }

  /** The keys of a B-tree over `s`, as its iterator yields them. */
  ghost function Ascending<T(!new)>(cmp: (T, T) -> Ordering, s: set<T>): (r: seq<T>)
    requires TotalOrder(cmp)
    ensures StrictlySorted(cmp, r)
    ensures forall x :: x in r <==> x in s
    decreases s
  {
    if s == {} then []
    else
      var m := Least(cmp, s);
      var rest := Ascending(cmp, s - {m});
      assert s == {m} + (s - {m});
      [m] + rest
  }

  ghost function Least<T(!new)>(cmp: (T, T) -> Ordering, s: set<T>): (m: T)
    requires TotalOrder(cmp) && s != {}
    ensures IsLeast(cmp, m, s)
  {
    LeastExists(cmp, s);
    var m :| IsLeast(cmp, m, s);
    m
  }

  lemma StringsAreOrdered()
    ensures TotalOrder(CmpString)
  {
    forall a, b ensures CmpString(a, b) == Equal <==> a == b { CmpStringLaws(a, b, a); }
    forall a, b ensures CmpString(b, a) == Flip(CmpString(a, b)) { CmpStringLaws(a, b, a); }
    forall a, b, c | CmpString(a, b) == Less && CmpString(b, c) == Less
      ensures CmpString(a, c) == Less
    { CmpStringLaws(a, b, c); }
  }
}
