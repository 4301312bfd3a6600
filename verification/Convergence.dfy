/** The merge laws, instantiated: every native type converges. */
module Convergence {
  import opened Lattice
  import opened Counters
  import opened LwwRegisters
  import opened OrSets

  ghost predicate Converges<S(!new)>(join: (S, S) -> S) {
    && (forall t: MergeTree<S>, u: MergeTree<S> {:trigger t.Leaves(), u.Leaves()} ::
          t.Leaves() == u.Leaves() ==> t.Eval(join) == u.Eval(join))
    && forall t: MergeTree<S> :: IsLub(join, t.Leaves(), t.Eval(join))
  }

  lemma SemilatticeConverges<S(!new)>(join: (S, S) -> S)
    requires Semilattice(join)
    ensures Converges(join)
  {
    forall t: MergeTree<S>, u: MergeTree<S> | t.Leaves() == u.Leaves() ensures t.Eval(join) == u.Eval(join) {
      MergeTreesAgree(join, t, u);
    }
    forall t: MergeTree<S> ensures IsLub(join, t.Leaves(), t.Eval(join)) { TreeIsLub(join, t); }
  }

  /** For each of the five types and any states at all, reachable or not, reconciling one set of
      states in any order, grouping and number of redeliveries yields their least upper bound. */
  lemma EveryNativeTypeConverges()
    ensures Converges(JoinG) && Converges(JoinPn) && Converges(JoinGSet) && Converges(JoinLww) && Converges(JoinOr)
  {
    GCounterIsLattice();
    SemilatticeConverges(JoinG);
    PnCounterIsLattice();
    SemilatticeConverges(JoinPn);
    GSetIsLattice();
    SemilatticeConverges(JoinGSet);
    LwwIsLattice();
    SemilatticeConverges(JoinLww);
    OrSetIsLattice();
    SemilatticeConverges(JoinOr);
  }
}
