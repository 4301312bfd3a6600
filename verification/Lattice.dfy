/** The algebra behind every merge: a join-semilattice, its induced order, and the value of an
    arbitrary tree of merges. */
module Lattice {

  /** The three laws the `Mergeable` contract promises. */
  ghost predicate Semilattice<S(!new)>(join: (S, S) -> S) {
    && (forall a, b :: Commutes(join, a, b))
    && (forall a, b, c :: Associates(join, a, b, c))
    && (forall a :: Idempotent(join, a))
  }

  predicate Commutes<S(==)>(join: (S, S) -> S, a: S, b: S) {
    join(a, b) == join(b, a)
  }

  predicate Associates<S(==)>(join: (S, S) -> S, a: S, b: S, c: S) {
    join(join(a, b), c) == join(a, join(b, c))
  }

  predicate Idempotent<S(==)>(join: (S, S) -> S, a: S) {
    join(a, a) == a
  }

  /** `a` adds nothing to `b`. */
  predicate Below<S(==)>(join: (S, S) -> S, a: S, b: S) {
    join(a, b) == b
  }

  ghost predicate Bounds<S(!new)>(join: (S, S) -> S, xs: set<S>, v: S) {
    forall x <- xs :: Below(join, x, v)
  }

  ghost predicate IsLub<S(!new)>(join: (S, S) -> S, xs: set<S>, u: S) {
    Bounds(join, xs, u) && forall v :: Bounds(join, xs, v) ==> Below(join, u, v)
  }

  lemma BelowTransitive<S(!new)>(join: (S, S) -> S, a: S, b: S, c: S)
    requires Semilattice(join)
    requires Below(join, a, b) && Below(join, b, c)
    ensures Below(join, a, c)
  {
    assert Associates(join, a, b, c);
  }

  /** Going up strictly never comes back. */
  lemma UpIsOneWay<S(!new)>(join: (S, S) -> S, a: S, b: S, c: S)
    requires Semilattice(join)
    requires Below(join, a, b) && Below(join, b, c) && b != c
    ensures Below(join, a, c) && a != c
  {
    BelowTransitive(join, a, b, c);
    assert Commutes(join, b, c);
  }

  /** Merging two states is their least upper bound under the induced order. */
  lemma MergeIsLub<S(!new)>(join: (S, S) -> S, a: S, b: S)
    requires Semilattice(join)
    ensures IsLub(join, {a, b}, join(a, b))
  {
    assert Associates(join, a, a, b) && Idempotent(join, a);
    assert Commutes(join, b, join(a, b)) && Associates(join, a, b, b) && Idempotent(join, b);
    forall v | Bounds(join, {a, b}, v)
      ensures Below(join, join(a, b), v)
    {
      assert Below(join, a, v) && Below(join, b, v);
      assert Associates(join, a, b, v);
    }
  }

  lemma LubUnique<S(!new)>(join: (S, S) -> S, xs: set<S>, u: S, v: S)
    requires Semilattice(join)
    requires IsLub(join, xs, u) && IsLub(join, xs, v)
    ensures u == v
  {
    assert Below(join, u, v) && Below(join, v, u);
    assert Commutes(join, u, v);
  }

  /** Leaving out states that others already cover changes no least upper bound. */
  lemma CoveredLub<S(!new)>(join: (S, S) -> S, xs: set<S>, ys: set<S>, u: S)
    requires Semilattice(join) && ys <= xs
    requires forall x <- xs :: exists y <- ys :: Below(join, x, y)
    ensures IsLub(join, xs, u) <==> IsLub(join, ys, u)
  {
    forall v ensures Bounds(join, xs, v) <==> Bounds(join, ys, v) {
      if Bounds(join, ys, v) {
        forall x <- xs ensures Below(join, x, v) {
          var y :| y in ys && Below(join, x, y);
          BelowTransitive(join, x, y, v);
        }
      }
    }
  }

  /** The order and grouping in which states meet, decided by the network. */
  datatype MergeTree<S> = Leaf(state: S) | Node(left: MergeTree<S>, right: MergeTree<S>)
  {
    ghost function Leaves(): set<S> {
      match this
      case Leaf(s) => {s}
      case Node(l, r) => l.Leaves() + r.Leaves()
    }

    function Eval(join: (S, S) -> S): S {
      match this
      case Leaf(s) => s
      case Node(l, r) => join(l.Eval(join), r.Eval(join))
    }
  }

  lemma {:induction false} TreeIsLub<S(!new)>(join: (S, S) -> S, t: MergeTree<S>)
    requires Semilattice(join)
    ensures IsLub(join, t.Leaves(), t.Eval(join))
  {
    match t
    case Leaf(s) =>
      assert Idempotent(join, s);
    case Node(l, r) =>
      TreeIsLub(join, l);
      TreeIsLub(join, r);
      var a, b := l.Eval(join), r.Eval(join);
      MergeIsLub(join, a, b);
      assert Below(join, a, join(a, b)) && Below(join, b, join(a, b));
      forall x <- t.Leaves()
        ensures Below(join, x, join(a, b))
      {
        BelowTransitive(join, x, if x in l.Leaves() then a else b, join(a, b));
      }
      forall v | Bounds(join, t.Leaves(), v)
        ensures Below(join, join(a, b), v)
      {
        assert Bounds(join, l.Leaves(), v) && Bounds(join, r.Leaves(), v);
        assert Bounds(join, {a, b}, v);
      }
  }

  /** Any two reconciliations of one set of states agree: whatever the shape, order or number of
      redeliveries. */
  lemma MergeTreesAgree<S(!new)>(join: (S, S) -> S, t: MergeTree<S>, u: MergeTree<S>)
    requires Semilattice(join)
    requires t.Leaves() == u.Leaves()
    ensures t.Eval(join) == u.Eval(join)
  {
    TreeIsLub(join, t);
    TreeIsLub(join, u);
    LubUnique(join, t.Leaves(), t.Eval(join), u.Eval(join));
  }
}
