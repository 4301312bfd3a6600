/** The data a value-carrying CRDT stores, with the total order that merges break ties by. */
module CrdtValues {
  import opened Orders

  const TWO_63: int := 0x8000_0000_0000_0000
  const TWO_64: int := 0x1_0000_0000_0000_0000
  const TWO_31: int := 0x8000_0000
  const TWO_32: int := 0x1_0000_0000

  type I64 = n: int | -TWO_63 <= n < TWO_63
  type Bits64 = n: nat | n < TWO_64
  type Bits32 = n: nat | n < TWO_32

  datatype Entry = Entry(key: string, value: Value)

  /** Floats are their bit patterns. A map is its entries in iteration order: ascending keys, in any value
      a `BTreeMap` can hold. */
  datatype Value =
    | Unit
    | Bool(b: bool)
    | Int(i: I64)
    | Float(bits: Bits64)
    | F32(bits32: Bits32)
    | Str(s: string)
    | Bytes(data: seq<Byte>)
    | List(items: seq<Value>)
    | Map(entries: seq<Entry>)

  function Rank(v: Value): nat {
    match v
    case Unit => 0
    case Bool(_) => 1
    case Int(_) => 2
    case Float(_) => 3
    case F32(_) => 4
    case Str(_) => 5
    case Bytes(_) => 6
    case List(_) => 7
    case Map(_) => 8
  }

  /** The signed integer `total_cmp` compares: a set sign bit inverts all the bits below it. */
  function TotalKey(bits: nat, half: int): int
    requires bits < 2 * half
  {
    if bits < half then bits else -1 - (bits - half)
  }

  function Cmp(a: Value, b: Value): Ordering
    decreases a, 0
  {
    match (a, b)
    case (Unit, Unit) => Equal
    case (Bool(x), Bool(y)) => CmpInt(if x then 1 else 0, if y then 1 else 0)
    case (Int(x), Int(y)) => CmpInt(x, y)
    case (Float(x), Float(y)) => CmpInt(TotalKey(x, TWO_63), TotalKey(y, TWO_63))
    case (F32(x), F32(y)) => CmpInt(TotalKey(x, TWO_31), TotalKey(y, TWO_31))
    case (Str(x), Str(y)) => CmpString(x, y)
    case (Bytes(x), Bytes(y)) => CmpBytes(x, y)
    case (List(x), List(y)) => CmpList(x, y)
    case (Map(x), Map(y)) => CmpEntries(x, y)
    case _ => CmpInt(Rank(a), Rank(b))
  }

  function CmpList(a: seq<Value>, b: seq<Value>): Ordering
    decreases a, 0
  {
    if a == [] then (if b == [] then Equal else Less)
    else if b == [] then Greater
    else Then(Cmp(a[0], b[0]), CmpList(a[1..], b[1..]))
  }

  /** Entries compare as `(key, value)` pairs, in iteration order. */
  function CmpEntries(a: seq<Entry>, b: seq<Entry>): Ordering
    decreases a, 0
  {
    if a == [] then (if b == [] then Equal else Less)
    else if b == [] then Greater
    else Then(Then(CmpString(a[0].key, b[0].key), Cmp(a[0].value, b[0].value)), CmpEntries(a[1..], b[1..]))
  }

  lemma {:induction false} CmpLaws(a: Value, b: Value, c: Value)
    ensures Cmp(a, b) == Equal <==> a == b
    ensures Cmp(b, a) == Flip(Cmp(a, b))
    ensures Cmp(a, b) == Less && Cmp(b, c) != Greater ==> Cmp(a, c) == Less
    decreases a, 0
  {
    if Rank(a) == Rank(b) {
      match a
      case Str(x) => CmpStringLaws(x, b.s, if c.Str? then c.s else x);
      case Bytes(x) => CmpBytesLaws(x, b.data, if c.Bytes? then c.data else x);
      case List(x) => CmpListLaws(x, b.items, if c.List? then c.items else []);
      case Map(x) => CmpEntriesLaws(x, b.entries, if c.Map? then c.entries else []);
      case _ =>
    }
  }

  lemma {:induction false} CmpListLaws(a: seq<Value>, b: seq<Value>, c: seq<Value>)
    ensures CmpList(a, b) == Equal <==> a == b
    ensures CmpList(b, a) == Flip(CmpList(a, b))
    ensures CmpList(a, b) == Less && CmpList(b, c) != Greater ==> CmpList(a, c) == Less
    decreases a, 0
  {
    if a != [] && b != [] {
      CmpLaws(a[0], b[0], if c == [] then b[0] else c[0]);
      CmpListLaws(a[1..], b[1..], if c == [] then [] else c[1..]);
      assert a == [a[0]] + a[1..] && b == [b[0]] + b[1..];
    }
  }

  lemma {:induction false} CmpEntriesLaws(a: seq<Entry>, b: seq<Entry>, c: seq<Entry>)
    ensures CmpEntries(a, b) == Equal <==> a == b
    ensures CmpEntries(b, a) == Flip(CmpEntries(a, b))
    ensures CmpEntries(a, b) == Less && CmpEntries(b, c) != Greater ==> CmpEntries(a, c) == Less
    decreases a, 0
  {
    if a != [] && b != [] {
      var z := if c == [] then b[0] else c[0];
      CmpStringLaws(a[0].key, b[0].key, z.key);
      CmpLaws(a[0].value, b[0].value, z.value);
      CmpEntriesLaws(a[1..], b[1..], if c == [] then [] else c[1..]);
      assert a == [a[0]] + a[1..] && b == [b[0]] + b[1..];
    }
  }

  /** The order is total on arbitrarily nested data and its equality is structural identity. */
  lemma CmpIsTotalOrder()
    ensures TotalOrder(Cmp)
  {
    forall a, b ensures Cmp(a, b) == Equal <==> a == b { CmpLaws(a, b, a); }
    forall a, b ensures Cmp(b, a) == Flip(Cmp(a, b)) { CmpLaws(a, b, a); }
    forall a, b, c | Cmp(a, b) == Less && Cmp(b, c) == Less ensures Cmp(a, c) == Less { CmpLaws(a, b, c); }
  }
}
