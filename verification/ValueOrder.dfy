/** What the comparison of stored data is: for every two values, at any depth, which one comes first. */
module ValueOrder {
  import opened Orders
  import opened CrdtValues
  import F = FloatOrder

  /** By kind, in the order the kinds are written; within a kind numbers by value, floats by totalOrder,
      everything else by its first difference, a map's entries by key and then by value. */
  ghost predicate Precedes(a: Value, b: Value)
    decreases a, 0
  {
    match a
    case Unit => !b.Unit?
    case Bool(x) => if b.Bool? then !x && b.b else !b.Unit?
    case Int(x) => if b.Int? then x < b.i else !b.Unit? && !b.Bool?
    case Float(x) =>
      if b.Float? then F.Precedes(F.BINARY64, x, b.bits) else b.F32? || b.Str? || b.Bytes? || b.List? || b.Map?
    case F32(x) => if b.F32? then F.Precedes(F.BINARY32, x, b.bits32) else b.Str? || b.Bytes? || b.List? || b.Map?
    case Str(x) => if b.Str? then StringPrecedes(x, b.s) else b.Bytes? || b.List? || b.Map?
    case Bytes(x) => if b.Bytes? then BytesPrecede(x, b.data) else b.List? || b.Map?
    case List(x) => if b.List? then ItemsPrecede(x, b.items) else b.Map?
    case Map(x) => b.Map? && EntriesPrecede(x, b.entries)
  }

  ghost predicate ItemsPrecede(a: seq<Value>, b: seq<Value>)
    decreases a
  {
    exists k {:trigger a[..k]} ::
      && 0 <= k <= |a| && k <= |b| && a[..k] == b[..k]
      && if k < |a| then k < |b| && Precedes(a[k], b[k]) else k < |b|
  }

  ghost predicate EntriesPrecede(a: seq<Entry>, b: seq<Entry>)
    decreases a
  {
    exists k {:trigger a[..k]} ::
      && 0 <= k <= |a| && k <= |b| && a[..k] == b[..k]
      && if k < |a| then k < |b| && EntryPrecedes(a[k], b[k]) else k < |b|
  }

  ghost predicate EntryPrecedes(a: Entry, b: Entry)
    decreases a
  {
    StringPrecedes(a.key, b.key) || (a.key == b.key && Precedes(a.value, b.value))
  }

  /** The main result: that is what the comparison computes, on arbitrarily nested data. */
  lemma {:induction false} CmpIsPrecedes(a: Value, b: Value)
    ensures Cmp(a, b) == Less <==> Precedes(a, b)
    ensures Cmp(a, b) == Equal <==> a == b
    ensures Cmp(a, b) == Greater <==> Precedes(b, a)
    decreases a, 1
  {
    CmpLaws(a, b, a);
    LessIsPrecedes(a, b);
    LessIsPrecedes(b, a);
  }

  /** Every signed 64-bit integer is a value, and every 64-bit and 32-bit pattern is a float. */
  lemma NumbersCompare(x: int, y: int, p: int, q: int, s: int, t: int)
    requires -0x8000_0000_0000_0000 <= x <= 0x7FFF_FFFF_FFFF_FFFF && -0x8000_0000_0000_0000 <= y <= 0x7FFF_FFFF_FFFF_FFFF
    requires 0 <= p < 0x1_0000_0000_0000_0000 && 0 <= q < 0x1_0000_0000_0000_0000
    requires 0 <= s < 0x1_0000_0000 && 0 <= t < 0x1_0000_0000
    ensures Cmp(Int(x), Int(y)) == Less <==> x < y
    ensures Cmp(Float(p), Float(q)) == Less <==> F.Precedes(F.Format(0x10_0000_0000_0000, 0x800), p, q)
    ensures Cmp(F32(s), F32(t)) == Less <==> F.Precedes(F.Format(0x80_0000, 0x100), s, t)
  {
    LessIsPrecedes(Int(x), Int(y));
    F.FloatsCompareByTotalOrder(p, q, s, t);
  }

  lemma {:induction false} LessIsPrecedes(a: Value, b: Value)
    ensures Cmp(a, b) == Less <==> Precedes(a, b)
    decreases a, 0
  {
    match a
    case Float(x) => if b.Float? { F.FloatsCompareByTotalOrder(x, b.bits, 0, 0); }
    case F32(x) => if b.F32? { F.FloatsCompareByTotalOrder(0, 0, x, b.bits32); }
    case Str(x) => if b.Str? { CmpStringIsPrecedes(x, b.s); }
    case Bytes(x) => if b.Bytes? { CmpBytesIsPrecede(x, b.data); }
    case List(x) => if b.List? { ItemsLess(x, b.items); }
    case Map(x) => if b.Map? { EntriesLess(x, b.entries); }
    case _ =>
  }

  lemma {:induction false} ItemsLess(a: seq<Value>, b: seq<Value>)
    ensures CmpList(a, b) == Less <==> ItemsPrecede(a, b)
    decreases a, 0
  {
    assert ItemsPrecede(a, b) <==> Lexicographic(Precedes, a, b);
    if a == [] || b == [] {
      LexicographicEnds(Precedes, a, b);
    } else {
      LexicographicHead(Precedes, a, b);
      LessIsPrecedes(a[0], b[0]);
      CmpLaws(a[0], b[0], a[0]);
      ItemsLess(a[1..], b[1..]);
      assert ItemsPrecede(a[1..], b[1..]) <==> Lexicographic(Precedes, a[1..], b[1..]);
    }
  }

  lemma {:induction false} EntriesLess(a: seq<Entry>, b: seq<Entry>)
    ensures CmpEntries(a, b) == Less <==> EntriesPrecede(a, b)
    decreases a, 0
  {
    assert EntriesPrecede(a, b) <==> Lexicographic(EntryPrecedes, a, b);
    if a == [] || b == [] {
      LexicographicEnds(EntryPrecedes, a, b);
    } else {
      LexicographicHead(EntryPrecedes, a, b);
      CmpStringIsPrecedes(a[0].key, b[0].key);
      CmpStringLaws(a[0].key, b[0].key, a[0].key);
      LessIsPrecedes(a[0].value, b[0].value);
      CmpLaws(a[0].value, b[0].value, a[0].value);
      EntriesLess(a[1..], b[1..]);
      assert EntriesPrecede(a[1..], b[1..]) <==> Lexicographic(EntryPrecedes, a[1..], b[1..]);
    }
  }
}
