/** Three-way comparison, as every `Ord` of the repository answers it, and its lexicographic
    extension to sequences. */
module Orders {

  datatype Ordering = Less | Equal | Greater

  function Flip(o: Ordering): Ordering {
    match o
    case Less => Greater
    case Equal => Equal
    case Greater => Less
  }

  function CmpInt(a: int, b: int): Ordering {
    if a < b then Less else if a == b then Equal else Greater
  }

  /** The outer comparison decides; only on a tie is the inner one asked. */
  function Then(outer: Ordering, inner: Ordering): Ordering {
    if outer == Equal then inner else outer
  }

  /** What a lawful `Ord` with a consistent `Eq` promises. */
  ghost predicate TotalOrder<T(!new)>(cmp: (T, T) -> Ordering) {
    && (forall a, b :: cmp(a, b) == Equal <==> a == b)
    && (forall a, b :: cmp(b, a) == Flip(cmp(a, b)))
    && (forall a, b, c :: cmp(a, b) == Less && cmp(b, c) == Less ==> cmp(a, c) == Less)
  }

  /** Lexicographic comparison by an integer key; a proper prefix comes first. */
  function CmpSeq<T>(key: T -> int, a: seq<T>, b: seq<T>): Ordering {
    if a == [] then (if b == [] then Equal else Less)
    else if b == [] then Greater
    else Then(CmpInt(key(a[0]), key(b[0])), CmpSeq(key, a[1..], b[1..]))
  }

  ghost predicate Injective<T(!new)>(key: T -> int) {
    forall x, y :: key(x) == key(y) ==> x == y
  }

  lemma {:induction false} CmpSeqLaws<T(!new)>(key: T -> int, a: seq<T>, b: seq<T>, c: seq<T>)
    requires Injective(key)
    ensures CmpSeq(key, a, b) == Equal <==> a == b
    ensures CmpSeq(key, b, a) == Flip(CmpSeq(key, a, b))
    ensures CmpSeq(key, a, b) == Less && CmpSeq(key, b, c) != Greater ==> CmpSeq(key, a, c) == Less
    decreases |a|
  {
    if a != [] && b != [] {
      CmpSeqLaws(key, a[1..], b[1..], if c == [] then [] else c[1..]);
      assert a == [a[0]] + a[1..] && b == [b[0]] + b[1..];
    }
  }

  /** The lesser at the first difference, or a proper prefix. */
  ghost predicate Lexicographic<T(!new)>(less: (T, T) -> bool, a: seq<T>, b: seq<T>) {
    exists k {:trigger a[..k]} ::
      && 0 <= k <= |a| && k <= |b| && a[..k] == b[..k]
      && if k < |a| then k < |b| && less(a[k], b[k]) else k < |b|
  }

  lemma LexicographicHead<T(!new)>(less: (T, T) -> bool, a: seq<T>, b: seq<T>)
    requires a != [] && b != []
    ensures Lexicographic(less, a, b) <==>
      less(a[0], b[0]) || (a[0] == b[0] && Lexicographic(less, a[1..], b[1..]))
  {
    if Lexicographic(less, a, b) {
      var k :| 0 <= k <= |a| && k <= |b| && a[..k] == b[..k] && if k < |a| then k < |b| && less(a[k], b[k]) else k < |b|;
      if k > 0 {
        assert a[..k][0] == b[..k][0];
        assert a[1..][..k - 1] == a[..k][1..] && b[1..][..k - 1] == b[..k][1..];
      }
    }
    if less(a[0], b[0]) {
      assert a[..0] == b[..0];
    } else if a[0] == b[0] && Lexicographic(less, a[1..], b[1..]) {
      var c, d := a[1..], b[1..];
      var k :| 0 <= k <= |c| && k <= |d| && c[..k] == d[..k] && if k < |c| then k < |d| && less(c[k], d[k]) else k < |d|;
      assert a[..k + 1] == [a[0]] + c[..k] && b[..k + 1] == [b[0]] + d[..k];
    }
  }

  lemma LexicographicEnds<T(!new)>(less: (T, T) -> bool, a: seq<T>, b: seq<T>)
    requires a == [] || b == []
    ensures Lexicographic(less, a, b) <==> a == [] && b != []
  {
    assert a == [] ==> a[..0] == b[..0];
  }

  lemma {:induction false} CmpSeqIsLexicographic<T(!new)>(key: T -> int, less: (T, T) -> bool, a: seq<T>, b: seq<T>)
    requires Injective(key) && forall x, y :: less(x, y) <==> key(x) < key(y)
    ensures CmpSeq(key, a, b) == Less <==> Lexicographic(less, a, b)
    decreases |a|
  {
    if a == [] || b == [] {
      LexicographicEnds(less, a, b);
    } else {
      LexicographicHead(less, a, b);
      CmpSeqIsLexicographic(key, less, a[1..], b[1..]);
    }
  }

  /** A Rust `String` orders by its UTF-8 bytes, which is the order of its code points. */
  function CmpString(a: string, b: string): Ordering {
    CmpSeq((c: char) => c as int, a, b)
  }

  lemma CmpStringLaws(a: string, b: string, c: string)
    ensures CmpString(a, b) == Equal <==> a == b
    ensures CmpString(b, a) == Flip(CmpString(a, b))
    ensures CmpString(a, b) == Less && CmpString(b, c) != Greater ==> CmpString(a, c) == Less
  {
    CmpSeqLaws((c: char) => c as int, a, b, c);
  }

  /** Strings are compared by the code point at the first difference. */
  ghost predicate StringPrecedes(a: string, b: string) {
    Lexicographic((x: char, y: char) => x < y, a, b)
  }

  lemma CmpStringIsPrecedes(a: string, b: string)
    ensures CmpString(a, b) == Less <==> StringPrecedes(a, b)
  {
    CmpSeqIsLexicographic((c: char) => c as int, (x: char, y: char) => x < y, a, b);
  }

  newtype Byte = x: int | 0 <= x < 256

  function CmpBytes(a: seq<Byte>, b: seq<Byte>): Ordering {
    CmpSeq((x: Byte) => x as int, a, b)
  }

  lemma CmpBytesLaws(a: seq<Byte>, b: seq<Byte>, c: seq<Byte>)
    ensures CmpBytes(a, b) == Equal <==> a == b
    ensures CmpBytes(b, a) == Flip(CmpBytes(a, b))
    ensures CmpBytes(a, b) == Less && CmpBytes(b, c) != Greater ==> CmpBytes(a, c) == Less
  {
    CmpSeqLaws((x: Byte) => x as int, a, b, c);
  }

  ghost predicate BytesPrecede(a: seq<Byte>, b: seq<Byte>) {
    Lexicographic((x: Byte, y: Byte) => x < y, a, b)
  }

  lemma CmpBytesIsPrecede(a: seq<Byte>, b: seq<Byte>)
    ensures CmpBytes(a, b) == Less <==> BytesPrecede(a, b)
  {
    CmpSeqIsLexicographic((x: Byte) => x as int, (x: Byte, y: Byte) => x < y, a, b);
  }
}
