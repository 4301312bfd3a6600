/** The causal timestamp, over a bounded and saturating `u64`. */
module Clock {
  import opened Orders

  const MAX_U64: nat := 0xFFFF_FFFF_FFFF_FFFF

  type U64 = n: nat | n <= MAX_U64

  function SaturatingAdd(a: U64, b: nat): U64 {
    if a + b <= MAX_U64 then a + b else MAX_U64
  }

  function Max(a: nat, b: nat): nat {
    if a < b then b else a
  }

  datatype Dot = Dot(counter: U64, replica: string)

  const ZERO_DOT := Dot(0, "")

  /** Counter first, then replica id. */
  function CmpDot(a: Dot, b: Dot): Ordering {
    Then(CmpInt(a.counter, b.counter), CmpString(a.replica, b.replica))
  }

  lemma CmpDotLaws(a: Dot, b: Dot, c: Dot)
    ensures CmpDot(a, b) == Equal <==> a == b
    ensures CmpDot(b, a) == Flip(CmpDot(a, b))
    ensures CmpDot(a, b) == Less && CmpDot(b, c) == Less ==> CmpDot(a, c) == Less
  {
    CmpStringLaws(a.replica, b.replica, c.replica);
  }

  function NextAfter(seen: U64, replica: string): Dot {
    Dot(SaturatingAdd(seen, 1), replica)
  }

  /** A stamp passes every dot at or below `seen`, whatever the replica ids, exactly while the
      counter has room to tick. */
  lemma NextAfterPasses(seen: U64, replica: string)
    ensures (forall d: Dot :: d.counter <= seen ==> CmpDot(d, NextAfter(seen, replica)) == Less)
       <==> seen < 0xFFFF_FFFF_FFFF_FFFF
  {
    if seen == MAX_U64 {
      var d := Dot(MAX_U64, replica);
      CmpDotLaws(d, d, d);
    }
  }
}
