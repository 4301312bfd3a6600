/** The grow-only counter, the positive-negative counter and the grow-only set. */
module Counters {
  import opened Orders
  import opened Clock
  import opened BTrees
  import opened Lattice

  function Clamp(n: nat): U64 {
    if n <= MAX_U64 then n else MAX_U64
  }

  /** `fold(0, saturating_add)` over the counts at `ks`. */
  function FoldSaturating(counts: map<string, U64>, ks: seq<string>, acc: U64): U64
    requires forall k <- ks :: k in counts
  {
    if ks == [] then acc else FoldSaturating(counts, ks[1..], SaturatingAdd(acc, counts[ks[0]]))
  }

  datatype GCounter = GCounter(counts: map<string, U64>)
  {
    /** An absent replica reads as zero. */
    function At(replica: string): U64 {
      if replica in counts then counts[replica] else 0
    }

    function Incremented(replica: string, amount: U64): GCounter {
      GCounter(counts[replica := SaturatingAdd(At(replica), amount)])
    }

    function Join(other: GCounter): GCounter {
      GCounter(map r | r in counts.Keys + other.counts.Keys :: Max(At(r), other.At(r)))
    }

    ghost function Value(): U64 {
      StringsAreOrdered();
      FoldSaturating(counts, Ascending(CmpString, counts.Keys), 0)
    }

    method Increment(replica: string, amount: U64) returns (c: GCounter)
      ensures c == Incremented(replica, amount)
      ensures forall r | r != replica :: c.At(r) == At(r)
      ensures At(replica) + amount < 0x1_0000_0000_0000_0000 ==> c.At(replica) == At(replica) + amount
      ensures At(replica) + amount >= 0x1_0000_0000_0000_0000 ==> c.At(replica) == 0xFFFF_FFFF_FFFF_FFFF
    {
      var copy := counts;
      if replica !in copy { copy := copy[replica := 0]; }
      copy := copy[replica := SaturatingAdd(copy[replica], amount)];
      c := GCounter(copy);
    }

    method Merge(other: GCounter) returns (c: GCounter)
      ensures c == Join(other)
      ensures c.counts.Keys == counts.Keys + other.counts.Keys
      ensures forall r :: c.At(r) == Max(At(r), other.At(r))
    {
      var copy := counts;
      var rest := other.counts.Keys;
      while rest != {}
        invariant rest <= other.counts.Keys
        invariant copy.Keys == counts.Keys + (other.counts.Keys - rest)
        invariant forall r <- copy.Keys :: copy[r] == if r in rest then At(r) else Max(At(r), other.At(r))
        decreases rest
      {
        var replica :| replica in rest;
        if replica !in copy { copy := copy[replica := 0]; }
        copy := copy[replica := Max(copy[replica], other.counts[replica])];
        rest := rest - {replica};
      }
      c := GCounter(copy);
    }
  }

  const EMPTY_GCOUNTER := GCounter(map[])

  function JoinG(a: GCounter, b: GCounter): GCounter { a.Join(b) }

  /** The merge, replica by replica. */
  ghost predicate IsJoinG(a: GCounter, b: GCounter, j: GCounter) {
    && j.counts.Keys == a.counts.Keys + b.counts.Keys
    && forall r :: j.At(r) == Max(a.At(r), b.At(r))
  }

  lemma JoinGIsJoin(a: GCounter, b: GCounter)
    ensures IsJoinG(a, b, a.Join(b))
  {
  }

  lemma SameG(x: GCounter, y: GCounter)
    requires x.counts.Keys == y.counts.Keys
    requires forall r :: x.At(r) == y.At(r)
    ensures x == y
  {
    forall r <- x.counts.Keys ensures x.counts[r] == y.counts[r] { assert x.At(r) == y.At(r); }
    assert x.counts == y.counts;
  }

  lemma JoinGAssociates(a: GCounter, b: GCounter, c: GCounter, ab: GCounter, bc: GCounter, l: GCounter, r: GCounter)
    requires IsJoinG(a, b, ab) && IsJoinG(b, c, bc) && IsJoinG(ab, c, l) && IsJoinG(a, bc, r)
    ensures l == r
  {
    assert l.counts.Keys == r.counts.Keys;
    forall k ensures l.At(k) == r.At(k) {
      assert ab.At(k) == Max(a.At(k), b.At(k)) && bc.At(k) == Max(b.At(k), c.At(k));
    }
    SameG(l, r);
  }

  lemma JoinGLaws(a: GCounter, b: GCounter, c: GCounter)
    ensures JoinG(a, b) == JoinG(b, a)
    ensures JoinG(JoinG(a, b), c) == JoinG(a, JoinG(b, c))
    ensures JoinG(a, a) == a
  {
    JoinGIsJoin(a, b);
    JoinGIsJoin(b, a);
    SameG(a.Join(b), b.Join(a));
    JoinGIsJoin(a, a);
    SameG(a.Join(a), a);
    JoinGIsJoin(b, c);
    JoinGIsJoin(a.Join(b), c);
    JoinGIsJoin(a, b.Join(c));
    JoinGAssociates(a, b, c, a.Join(b), b.Join(c), a.Join(b).Join(c), a.Join(b.Join(c)));
  }

  lemma GCounterIsLattice()
    ensures Semilattice(JoinG)
  {
    forall a, b ensures Commutes(JoinG, a, b) { JoinGLaws(a, b, a); }
    forall a, b, c ensures Associates(JoinG, a, b, c) { JoinGLaws(a, b, c); }
    forall a ensures Idempotent(JoinG, a) { JoinGLaws(a, a, a); }
  }

  datatype PnCounter = PnCounter(positive: GCounter, negative: GCounter)
  {
    function Incremented(replica: string, amount: U64): PnCounter {
      PnCounter(positive.Incremented(replica, amount), negative)
    }

    function Decremented(replica: string, amount: U64): PnCounter {
      PnCounter(positive, negative.Incremented(replica, amount))
    }

    function Join(other: PnCounter): PnCounter {
      PnCounter(positive.Join(other.positive), negative.Join(other.negative))
    }

    ghost function Value(): int {
      ClampI64(positive.Value() - negative.Value())
    }
  }

  const MIN_I64: int := -0x8000_0000_0000_0000
  const MAX_I64: int := 0x7FFF_FFFF_FFFF_FFFF

  function ClampI64(n: int): int {
    if n < MIN_I64 then MIN_I64 else if n > MAX_I64 then MAX_I64 else n
  }

  const EMPTY_PNCOUNTER := PnCounter(EMPTY_GCOUNTER, EMPTY_GCOUNTER)

  function JoinPn(a: PnCounter, b: PnCounter): PnCounter { a.Join(b) }

  lemma PnCounterIsLattice()
    ensures Semilattice(JoinPn)
  {
    forall a, b ensures Commutes(JoinPn, a, b) {
      JoinGLaws(a.positive, b.positive, a.positive);
      JoinGLaws(a.negative, b.negative, a.negative);
    }
    forall a, b, c ensures Associates(JoinPn, a, b, c) {
      JoinGLaws(a.positive, b.positive, c.positive);
      JoinGLaws(a.negative, b.negative, c.negative);
    }
    forall a ensures Idempotent(JoinPn, a) {
      JoinGLaws(a.positive, a.positive, a.positive);
      JoinGLaws(a.negative, a.negative, a.negative);
    }
  }

  datatype GSet = GSet(members: set<string>)
  {
    function Inserted(element: string): GSet { GSet(members + {element}) }

    function Join(other: GSet): GSet { GSet(members + other.members) }

    method Members() returns (r: seq<string>)
      ensures StrictlySorted(CmpString, r)
      ensures forall x :: x in r <==> x in members
    {
      StringsAreOrdered();
      r := [];
      var rest := members;
      while rest != {}
        invariant rest <= members
        invariant forall x :: x in r <==> x in members - rest
        invariant StrictlySorted(CmpString, r)
        invariant forall x <- r, y <- rest :: CmpString(x, y) == Less
        decreases rest
      {
        LeastExists(CmpString, rest);
        ghost var w :| IsLeast(CmpString, w, rest);
        assert w in rest && forall x <- rest :: x != w ==> CmpString(w, x) == Less;
        var m :| m in rest && forall x <- rest :: x != m ==> CmpString(m, x) == Less;
        r := r + [m];
        rest := rest - {m};
      }
    }
  }

  function JoinGSet(a: GSet, b: GSet): GSet { a.Join(b) }

  lemma GSetIsLattice()
    ensures Semilattice(JoinGSet)
  {
    forall a, b ensures Commutes(JoinGSet, a, b) {
      assert a.members + b.members == b.members + a.members;
    }
    forall a, b, c ensures Associates(JoinGSet, a, b, c) {
      assert (a.members + b.members) + c.members == a.members + (b.members + c.members);
    }
    forall a ensures Idempotent(JoinGSet, a) {
      assert a.members + a.members == a.members;
    }
  }

  /** What is in a set: what was inserted, and what was in either of two merged. */
  lemma MembersOfUpdates(s: GSet, t: GSet, element: string, x: string)
    ensures x in s.Inserted(element).members <==> x == element || x in s.members
    ensures x in s.Join(t).members <==> x in s.members || x in t.members
  {
  }

  lemma IncrementLands(c: GCounter, replica: string, amount: U64)
    ensures c.Join(c.Incremented(replica, amount)) == c.Incremented(replica, amount)
  {
    assert c.Join(c.Incremented(replica, amount)).counts == c.Incremented(replica, amount).counts;
  }

  /** Updates, saturating or not, go up: merging a state with an update computed from it yields the
      update. */
  lemma UpdatesAreInflationary(c: GCounter, p: PnCounter, s: GSet, replica: string, amount: U64, element: string)
    ensures Below(JoinG, c, c.Incremented(replica, amount))
    ensures Below(JoinPn, p, p.Incremented(replica, amount))
    ensures Below(JoinPn, p, p.Decremented(replica, amount))
    ensures Below(JoinGSet, s, s.Inserted(element))
  {
    IncrementLands(c, replica, amount);
    IncrementLands(p.positive, replica, amount);
    IncrementLands(p.negative, replica, amount);
    JoinGLaws(p.positive, p.positive, p.positive);
    JoinGLaws(p.negative, p.negative, p.negative);
  }
}
