/** The last-write-wins register: a maximum under a total order on `(stamp, value)`. */
module LwwRegisters {
  import opened Orders
  import opened Clock
  import opened CrdtValues
  import opened Lattice
  import opened ValueOrder
  import opened Wrappers

  datatype Lww = Lww(stamp: Dot, value: Option<Value>)
  {
    function Written(replica: string, v: Value): Lww {
      Lww(NextAfter(stamp.counter, replica), Some(v))
    }

    function Join(other: Lww): Lww {
      if CmpLww(other, this) == Greater then other else this
    }
  }

  const EMPTY_LWW := Lww(ZERO_DOT, None)

  /** An absent value orders before every present one. */
  function CmpOption(a: Option<Value>, b: Option<Value>): Ordering {
    match (a, b)
    case (None, None) => Equal
    case (None, Some(_)) => Less
    case (Some(_), None) => Greater
    case (Some(x), Some(y)) => Cmp(x, y)
  }

  function CmpLww(a: Lww, b: Lww): Ordering {
    Then(CmpDot(a.stamp, b.stamp), CmpOption(a.value, b.value))
  }

  lemma CmpLwwLaws(a: Lww, b: Lww, c: Lww)
    ensures CmpLww(a, b) == Equal <==> a == b
    ensures CmpLww(b, a) == Flip(CmpLww(a, b))
    ensures CmpLww(a, b) == Less && CmpLww(b, c) == Less ==> CmpLww(a, c) == Less
  {
    CmpDotLaws(a.stamp, b.stamp, c.stamp);
    CmpDotLaws(b.stamp, c.stamp, a.stamp);
    if a.value.Some? && b.value.Some? {
      CmpLaws(a.value.value, b.value.value, if c.value.Some? then c.value.value else b.value.value);
    }
  }

  /** The earlier counter; between equal ones the lesser id; and for one stamp no value, or the lesser one. */
  ghost predicate Older(a: Lww, b: Lww) {
    || a.stamp.counter < b.stamp.counter
    || (a.stamp.counter == b.stamp.counter &&
         (|| StringPrecedes(a.stamp.replica, b.stamp.replica)
          || (a.stamp.replica == b.stamp.replica && b.value.Some? &&
               (a.value.None? || Precedes(a.value.value, b.value.value)))))
  }

  /** A merge keeps whichever register is not the older one. */
  lemma MergeKeepsTheNewer(a: Lww, b: Lww)
    ensures a.Join(b) == if Older(a, b) then b else a
    ensures a != b ==> (Older(a, b) <==> !Older(b, a))
  {
    CmpLwwLaws(a, b, a);
    CmpStringIsPrecedes(a.stamp.replica, b.stamp.replica);
    CmpStringIsPrecedes(b.stamp.replica, a.stamp.replica);
    CmpStringLaws(a.stamp.replica, b.stamp.replica, a.stamp.replica);
    if a.value.Some? && b.value.Some? { CmpIsPrecedes(a.value.value, b.value.value); }
  }

  function JoinLww(a: Lww, b: Lww): Lww { a.Join(b) }

  /** Holds for every pair of states, reachable or not, because the stored value itself takes part
      in the order. */
  lemma LwwIsLattice()
    ensures Semilattice(JoinLww)
  {
    forall a, b ensures Commutes(JoinLww, a, b) { CmpLwwLaws(a, b, a); }
    forall a, b, c ensures Associates(JoinLww, a, b, c) {
      CmpLwwLaws(a, b, c);
      CmpLwwLaws(b, c, a);
      CmpLwwLaws(c, a, b);
      CmpLwwLaws(c, b, a);
      CmpLwwLaws(b, a, c);
      CmpLwwLaws(a, c, b);
    }
    forall a ensures Idempotent(JoinLww, a) { CmpLwwLaws(a, a, a); }
  }

  /** The induced order is the comparison order. */
  lemma BelowIsOrder(a: Lww, b: Lww)
    ensures Below(JoinLww, a, b) <==> CmpLww(a, b) != Greater
  {
    CmpLwwLaws(a, b, a);
  }

  /** A write goes up exactly when the counter can still tick, or the writer's id (then the value)
      settles the tie at the ceiling. */
  lemma WriteIsInflationaryIff(s: Lww, replica: string, v: Value)
    ensures Below(JoinLww, s, s.Written(replica, v)) <==>
      || s.stamp.counter < 0xFFFF_FFFF_FFFF_FFFF
      || StringPrecedes(s.stamp.replica, replica)
      || (s.stamp.replica == replica && (s.value.None? || !Precedes(v, s.value.value)))
  {
    CmpStringIsPrecedes(s.stamp.replica, replica);
    if s.value.Some? { CmpIsPrecedes(s.value.value, v); }
    BelowIsOrder(s, s.Written(replica, v));
    CmpStringLaws(s.stamp.replica, replica, replica);
  }

  /** At the ceiling a write can lose to the very state it was computed from. */
  lemma WriteCanBeLostAtCeiling()
    ensures var s := Lww(Dot(MAX_U64, "B"), Some(Unit));
      && s.Written("A", Bool(true)).Join(s) == s
      && s.Join(s.Written("A", Bool(true))) == s
  {
    var s := Lww(Dot(MAX_U64, "B"), Some(Unit));
    assert CmpString("A", "B") == Less by {
      assert "A"[0] as int < "B"[0] as int;
    }
    CmpStringLaws("A", "B", "B");
    assert CmpString("B", "A") == Greater;
  }
}
