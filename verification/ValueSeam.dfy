/** The seam between the language's values and the data a replicated value may hold. */
module ValueSeam {
  import opened Orders
  import C = CrdtValues

  datatype Pair = Pair(key: string, value: Native)

  /** A language value as the native boundary projects it. The last five are no data, and carry the name of
      what they are; a result handed back is built from the others. */
  datatype Native =
    | Unit
    | Bool(b: bool)
    | Int(i: C.I64)
    | Float(bits: C.Bits64)
    | F32(bits32: C.Bits32)
    | Str(s: string)
    | Bytes(data: seq<Byte>)
    | List(items: seq<Native>)
    | Map(pairs: seq<Pair>)
    | Variant(enumName: string)
    | Instance(className: string)
    | Extern(typeIdentity: string)
    | Object(typeName: string)
    | Opaque(opaqueName: string)

  /** A stored value, or the name of the type that no peer could be sent. */
  datatype Result<+T> = Ok(value: T) | Unstorable(name: string)

  /** `BTreeMap::insert`: in key order, replacing the value of a key already there. */
  function Put(s: seq<C.Entry>, key: string, value: C.Value): seq<C.Entry> {
    if s == [] then [C.Entry(key, value)]
    else match CmpString(key, s[0].key)
      case Less => [C.Entry(key, value)] + s
      case Equal => [C.Entry(key, value)] + s[1..]
      case Greater => [s[0]] + Put(s[1..], key, value)
  }

  function FromNative(v: Native): Result<C.Value>
    decreases v, 1
  {
    match v
    case Unit => Ok(C.Unit)
    case Bool(b) => Ok(C.Bool(b))
    case Int(i) => Ok(C.Int(i))
    case Float(x) => Ok(C.Float(x))
    case F32(x) => Ok(C.F32(x))
    case Str(s) => Ok(C.Str(s))
    case Bytes(d) => Ok(C.Bytes(d))
    case List(items) =>
      (match FromItems(items) case Ok(s) => Ok(C.List(s)) case Unstorable(n) => Unstorable(n))
    case Map(pairs) =>
      (match FromPairs(pairs) case Ok(s) => Ok(C.Map(s)) case Unstorable(n) => Unstorable(n))
    case Variant(n) => Unstorable(n)
    case Instance(n) => Unstorable(n)
    case Extern(n) => Unstorable(n)
    case Object(n) => Unstorable(n)
    case Opaque(n) => Unstorable(n)
  }

  /** Items in order, stopping at the first that is refused. */
  function FromItems(items: seq<Native>): (r: Result<seq<C.Value>>)
    decreases items, 0
  {
    if items == [] then Ok([])
    else
      var n := |items| - 1;
      match FromItems(items[..n])
      case Unstorable(name) => Unstorable(name)
      case Ok(s) =>
        match FromNative(items[n])
        case Unstorable(name) => Unstorable(name)
        case Ok(v) => Ok(s + [v])
  }

  function FromPairs(pairs: seq<Pair>): Result<seq<C.Entry>>
    decreases pairs, 0
  {
    if pairs == [] then Ok([])
    else
      var n := |pairs| - 1;
      match FromPairs(pairs[..n])
      case Unstorable(name) => Unstorable(name)
      case Ok(s) =>
        match FromNative(pairs[n].value)
        case Unstorable(name) => Unstorable(name)
        case Ok(v) => Ok(Put(s, pairs[n].key, v))
  }

  method Read(v: Native) returns (r: Result<C.Value>)
    ensures r == FromNative(v)
    decreases v
  {
    match v
    case Unit => return Ok(C.Unit);
    case Bool(b) => return Ok(C.Bool(b));
    case Int(i) => return Ok(C.Int(i));
    case Float(x) => return Ok(C.Float(x));
    case F32(x) => return Ok(C.F32(x));
    case Str(s) => return Ok(C.Str(s));
    case Bytes(d) => return Ok(C.Bytes(d));
    case List(items) =>
      var s := [];
      for k := 0 to |items|
        invariant FromItems(items[..k]) == Ok(s)
      {
        var x := Read(items[k]);
        assert items[..k + 1][..k] == items[..k];
        if x.Unstorable? {
          RefusalOfItems(items, k + 1);
          return x;
        }
        s := s + [x.value];
      }
      assert items[..|items|] == items;
      return Ok(C.List(s));
    case Map(pairs) =>
      var m := [];
      for k := 0 to |pairs|
        invariant FromPairs(pairs[..k]) == Ok(m)
      {
        var x := Read(pairs[k].value);
        assert pairs[..k + 1][..k] == pairs[..k];
        if x.Unstorable? {
          RefusalOfPairs(pairs, k + 1);
          return x;
        }
        m := Put(m, pairs[k].key, x.value);
      }
      assert pairs[..|pairs|] == pairs;
      return Ok(C.Map(m));
    case Variant(n) => return Unstorable(n);
    case Instance(n) => return Unstorable(n);
    case Extern(n) => return Unstorable(n);
    case Object(n) => return Unstorable(n);
    case Opaque(n) => return Unstorable(n);
  }

  lemma {:induction false} RefusalOfItems(items: seq<Native>, k: nat)
    requires k <= |items| && FromItems(items[..k]).Unstorable?
    ensures FromItems(items) == Unstorable(FromItems(items[..k]).name)
    decreases |items|
  {
    assert items[..|items|] == items;
    if k < |items| {
      var n := |items| - 1;
      assert items[..n][..k] == items[..k];
      RefusalOfItems(items[..n], k);
    }
  }

  lemma {:induction false} RefusalOfPairs(pairs: seq<Pair>, k: nat)
    requires k <= |pairs| && FromPairs(pairs[..k]).Unstorable?
    ensures FromPairs(pairs) == Unstorable(FromPairs(pairs[..k]).name)
    decreases |pairs|
  {
    assert pairs[..|pairs|] == pairs;
    if k < |pairs| {
      var n := |pairs| - 1;
      assert pairs[..n][..k] == pairs[..k];
      RefusalOfPairs(pairs[..n], k);
    }
  }

  function ToOut(v: C.Value): Native {
    match v
    case Unit => Unit
    case Bool(b) => Bool(b)
    case Int(i) => Int(i)
    case Float(x) => Float(x)
    case F32(x) => F32(x)
    case Str(s) => Str(s)
    case Bytes(d) => Bytes(d)
    case List(items) => List(seq(|items|, i requires 0 <= i < |items| => ToOut(items[i])))
    case Map(entries) =>
      Map(seq(|entries|, i requires 0 <= i < |entries| => Pair(entries[i].key, ToOut(entries[i].value))))
  }

  /** The stored value and the language's value are one and the same, kind by kind and item by item. */
  ghost predicate Alike(c: C.Value, v: Native)
    decreases c
  {
    match c
    case Unit => v == Unit
    case Bool(b) => v == Bool(b)
    case Int(i) => v == Int(i)
    case Float(x) => v == Float(x)
    case F32(x) => v == F32(x)
    case Str(s) => v == Str(s)
    case Bytes(d) => v == Bytes(d)
    case List(items) =>
      v.List? && |v.items| == |items| && forall i | 0 <= i < |items| :: Alike(items[i], v.items[i])
    case Map(entries) =>
      && v.Map? && |v.pairs| == |entries|
      && forall i | 0 <= i < |entries| ::
           v.pairs[i].key == entries[i].key && Alike(entries[i].value, v.pairs[i].value)
  }

  /** What is handed out is what is stored. */
  lemma {:induction false} OutIsAlike(c: C.Value)
    ensures Alike(c, ToOut(c))
    decreases c
  {
    match c
    case List(items) => forall i | 0 <= i < |items| ensures Alike(items[i], ToOut(items[i])) { OutIsAlike(items[i]); }
    case Map(entries) =>
      forall i | 0 <= i < |entries| ensures Alike(entries[i].value, ToOut(entries[i].value)) {
        OutIsAlike(entries[i].value);
      }
    case _ =>
  }

  /** Every value at any depth that is no data, in reading order. */
  function Refusals(v: Native): seq<string>
    decreases v, 1
  {
    match v
    case List(items) => ItemRefusals(items)
    case Map(pairs) => PairRefusals(pairs)
    case Variant(n) => [n]
    case Instance(n) => [n]
    case Extern(n) => [n]
    case Object(n) => [n]
    case Opaque(n) => [n]
    case _ => []
  }

  function ItemRefusals(items: seq<Native>): seq<string>
    decreases items, 0
  {
    if items == [] then [] else ItemRefusals(items[..|items| - 1]) + Refusals(items[|items| - 1])
  }

  function PairRefusals(pairs: seq<Pair>): seq<string>
    decreases pairs, 0
  {
    if pairs == [] then [] else PairRefusals(pairs[..|pairs| - 1]) + Refusals(pairs[|pairs| - 1].value)
  }

  ghost predicate FirstRefusal<T>(r: Result<T>, names: seq<string>) {
    match r
    case Ok(_) => names == []
    case Unstorable(n) => names != [] && n == names[0]
  }

  /** A value is stored exactly when nothing in it, at any depth, is refused; otherwise the error names the
      first thing that is. */
  lemma {:induction false} StoredIffAllData(v: Native)
    ensures FirstRefusal(FromNative(v), Refusals(v))
    decreases v, 1
  {
    match v
    case List(items) => ItemsStoredIffAllData(items);
    case Map(pairs) => PairsStoredIffAllData(pairs);
    case _ =>
  }

  lemma {:induction false} ItemsStoredIffAllData(items: seq<Native>)
    ensures FirstRefusal(FromItems(items), ItemRefusals(items))
    decreases items, 0
  {
    if items != [] {
      ItemsStoredIffAllData(items[..|items| - 1]);
      StoredIffAllData(items[|items| - 1]);
    }
  }

  lemma {:induction false} PairsStoredIffAllData(pairs: seq<Pair>)
    ensures FirstRefusal(FromPairs(pairs), PairRefusals(pairs))
    decreases pairs, 0
  {
    if pairs != [] {
      PairsStoredIffAllData(pairs[..|pairs| - 1]);
      StoredIffAllData(pairs[|pairs| - 1].value);
    }
  }

  ghost predicate KeysAscend(s: seq<C.Entry>) {
    forall i, j | 0 <= i < j < |s| :: CmpString(s[i].key, s[j].key) == Less
  }

  /** Every map in it is a map: ascending keys, each once. */
  ghost predicate Canonical(v: C.Value) {
    match v
    case List(items) => forall i | 0 <= i < |items| :: Canonical(items[i])
    case Map(entries) => KeysAscend(entries) && forall i | 0 <= i < |entries| :: Canonical(entries[i].value)
    case _ => true
  }

  /** The keys above `key`. */
  lemma AboveHead(s: seq<C.Entry>, key: string)
    requires KeysAscend(s) && s != [] && CmpString(key, s[0].key) != Greater
    ensures forall i | 0 < i < |s| :: CmpString(key, s[i].key) == Less && s[i].key != key
  {
    forall i | 0 < i < |s| ensures CmpString(key, s[i].key) == Less && s[i].key != key {
      CmpStringLaws(key, s[0].key, s[i].key);
      CmpStringLaws(key, s[i].key, key);
    }
  }

  lemma {:induction false} PutMembers(s: seq<C.Entry>, key: string, value: C.Value)
    requires KeysAscend(s)
    ensures forall e :: e in Put(s, key, value) <==> e == C.Entry(key, value) || (e in s && e.key != key)
    decreases |s|
  {
    if s != [] {
      assert s == [s[0]] + s[1..];
      CmpStringLaws(key, s[0].key, key);
      if CmpString(key, s[0].key) == Greater {
        PutMembers(s[1..], key, value);
      } else {
        AboveHead(s, key);
      }
    }
  }

  lemma {:induction false} PutAscends(s: seq<C.Entry>, key: string, value: C.Value)
    requires KeysAscend(s)
    ensures KeysAscend(Put(s, key, value))
    decreases |s|
  {
    if s != [] {
      CmpStringLaws(key, s[0].key, key);
      if CmpString(key, s[0].key) == Greater {
        PutAscends(s[1..], key, value);
        PutMembers(s[1..], key, value);
        var rest := Put(s[1..], key, value);
        forall i | 0 <= i < |rest| ensures CmpString(s[0].key, rest[i].key) == Less {
          assert rest[i] in rest;
        }
      } else {
        AboveHead(s, key);
      }
    }
  }

  ghost predicate PairsAscend(s: seq<Pair>) {
    forall i, j | 0 <= i < j < |s| :: CmpString(s[i].key, s[j].key) == Less
  }

  /** `w` is `v` as a peer would see it: lists alike item by item; a map's keys ascend, each once, and each
      holds what its last occurrence in `v` holds. */
  ghost predicate Denotes(v: Native, w: Native)
    decreases v
  {
    match v
    case List(items) =>
      w.List? && |w.items| == |items| && forall i | 0 <= i < |items| :: Denotes(items[i], w.items[i])
    case Map(pairs) =>
      && w.Map?
      && PairsAscend(w.pairs)
      && (forall i | 0 <= i < |pairs| :: HasKey(w.pairs, pairs[i].key))
      && (forall j | 0 <= j < |w.pairs| :: Carries(pairs, w.pairs[j].key, w.pairs[j].value))
    case _ => Refusals(v) == [] && w == v
  }

  ghost predicate HasKey(s: seq<Pair>, key: string) {
    exists i | 0 <= i < |s| :: s[i].key == key
  }

  ghost predicate Carries(pairs: seq<Pair>, key: string, w: Native)
    decreases pairs
  {
    exists i | 0 <= i < |pairs| :: Latest(pairs, i, key) && Denotes(pairs[i].value, w)
  }

  ghost predicate Latest(pairs: seq<Pair>, i: nat, key: string)
    requires i < |pairs|
  {
    pairs[i].key == key && forall j | i < j < |pairs| :: pairs[j].key != key
  }

  /** An entry holds what the last of its key's pairs holds. */
  ghost predicate Sourced(pairs: seq<Pair>, e: C.Entry) {
    Canonical(e.value) && Carries(pairs, e.key, ToOut(e.value))
  }

  ghost predicate HasEntry(s: seq<C.Entry>, key: string) {
    exists e <- s :: e.key == key
  }

  ghost predicate Holds(pairs: seq<Pair>, s: seq<C.Entry>) {
    && KeysAscend(s)
    && (forall i | 0 <= i < |pairs| :: HasEntry(s, pairs[i].key))
    && (forall e <- s :: Sourced(pairs, e))
  }

  /** What is stored is the input itself, with every map sorted and later duplicate keys winning. */
  lemma {:induction false} StoredDenotes(v: Native)
    requires FromNative(v).Ok?
    ensures Canonical(FromNative(v).value) && Denotes(v, ToOut(FromNative(v).value))
    decreases v, 1
  {
    match v
    case List(items) => ItemsDenote(items);
    case Map(pairs) =>
      PairsDenote(pairs);
      MapDenotes(pairs, FromPairs(pairs).value);
    case _ =>
  }

  lemma {:induction false} ItemsDenote(items: seq<Native>)
    requires FromItems(items).Ok?
    ensures
      var s := FromItems(items).value;
      |s| == |items| && forall i | 0 <= i < |s| :: Canonical(s[i]) && Denotes(items[i], ToOut(s[i]))
    decreases items, 0
  {
    if items != [] {
      ItemsDenote(items[..|items| - 1]);
      StoredDenotes(items[|items| - 1]);
    }
  }

  lemma {:induction false} PairsDenote(pairs: seq<Pair>)
    requires FromPairs(pairs).Ok?
    ensures Holds(pairs, FromPairs(pairs).value)
    decreases pairs, 0
  {
    if pairs != [] {
      var n := |pairs| - 1;
      PairsDenote(pairs[..n]);
      StoredDenotes(pairs[n].value);
      PutHolds(pairs[..n], FromPairs(pairs[..n]).value, pairs[n], FromNative(pairs[n].value).value);
      assert pairs == pairs[..n] + [pairs[n]];
    }
  }

  lemma PutHolds(pairs: seq<Pair>, s: seq<C.Entry>, p: Pair, v: C.Value)
    requires Holds(pairs, s) && Canonical(v) && Denotes(p.value, ToOut(v))
    ensures Holds(pairs + [p], Put(s, p.key, v))
  {
    var next, t, n := pairs + [p], Put(s, p.key, v), |pairs|;
    PutAscends(s, p.key, v);
    PutMembers(s, p.key, v);
    forall i | 0 <= i < |next| ensures HasEntry(t, next[i].key) {
      if next[i].key == p.key {
        assert C.Entry(p.key, v) in t;
      } else {
        assert HasEntry(s, pairs[i].key);
        var e :| e in s && e.key == pairs[i].key;
        assert e in t;
      }
    }
    forall e <- t ensures Sourced(next, e) {
      if e == C.Entry(p.key, v) {
        assert next[n] == p && Latest(next, n, e.key);
      } else {
        assert Sourced(pairs, e);
        var i :| 0 <= i < |pairs| && Latest(pairs, i, e.key) && Denotes(pairs[i].value, ToOut(e.value));
        assert next[i] == pairs[i] && Latest(next, i, e.key);
      }
    }
  }

  lemma MapDenotes(pairs: seq<Pair>, s: seq<C.Entry>)
    requires Holds(pairs, s)
    ensures Canonical(C.Map(s)) && Denotes(Map(pairs), ToOut(C.Map(s)))
  {
    var w := ToOut(C.Map(s));
    forall j | 0 <= j < |s| ensures Canonical(s[j].value) {
      assert Sourced(pairs, s[j]);
    }
    forall i | 0 <= i < |pairs| ensures HasKey(w.pairs, pairs[i].key) {
      assert HasEntry(s, pairs[i].key);
      var j :| 0 <= j < |s| && s[j].key == pairs[i].key;
      assert w.pairs[j].key == pairs[i].key;
    }
    forall j | 0 <= j < |w.pairs| ensures Carries(pairs, w.pairs[j].key, w.pairs[j].value) {
      assert Sourced(pairs, s[j]);
    }
  }

  /** That fixes the result: no other value denotes the same input. */
  lemma {:induction false} DenotesOne(v: Native, w: Native, w': Native)
    requires Denotes(v, w) && Denotes(v, w')
    ensures w == w'
    decreases v
  {
    match v
    case List(items) =>
      forall i | 0 <= i < |items| ensures w.items[i] == w'.items[i] {
        DenotesOne(items[i], w.items[i], w'.items[i]);
      }
    case Map(pairs) =>
      forall j | 0 <= j < |w.pairs| ensures w.pairs[j] in w'.pairs { DenotedOnce(pairs, j, w.pairs, w'.pairs); }
      forall j | 0 <= j < |w'.pairs| ensures w'.pairs[j] in w.pairs { DenotedOnce(pairs, j, w'.pairs, w.pairs); }
      SortedOnce(w.pairs, w'.pairs);
    case _ =>
  }

  lemma {:induction false} DenotedOnce(pairs: seq<Pair>, j: nat, a: seq<Pair>, b: seq<Pair>)
    requires Denotes(Map(pairs), Map(a)) && Denotes(Map(pairs), Map(b)) && j < |a|
    ensures a[j] in b
    decreases pairs
  {
    assert Carries(pairs, a[j].key, a[j].value);
    var i :| 0 <= i < |pairs| && Latest(pairs, i, a[j].key) && Denotes(pairs[i].value, a[j].value);
    assert HasKey(b, pairs[i].key);
    var k :| 0 <= k < |b| && b[k].key == pairs[i].key;
    assert Carries(pairs, b[k].key, b[k].value);
    DenotesOne(pairs[i].value, a[j].value, b[k].value);
  }

  lemma {:induction false} SortedOnce(a: seq<Pair>, b: seq<Pair>)
    requires PairsAscend(a) && PairsAscend(b)
    requires forall j | 0 <= j < |a| :: a[j] in b
    requires forall j | 0 <= j < |b| :: b[j] in a
    ensures a == b
    decreases |a|
  {
    assert (a != [] ==> a[0] in b) && (b != [] ==> b[0] in a);
    if a != [] {
      HeadsAgree(a, b);
      RestIn(a, b);
      RestIn(b, a);
      SortedOnce(a[1..], b[1..]);
      assert a == [a[0]] + a[1..] && b == [b[0]] + b[1..];
    }
  }

  lemma HeadsAgree(a: seq<Pair>, b: seq<Pair>)
    requires PairsAscend(a) && PairsAscend(b) && a != [] && b != [] && a[0] in b && b[0] in a
    ensures a[0] == b[0]
  {
    var i :| 0 <= i < |a| && a[i] == b[0];
    var j :| 0 <= j < |b| && b[j] == a[0];
    CmpStringLaws(a[0].key, b[0].key, a[0].key);
    CmpStringLaws(a[0].key, a[0].key, a[0].key);
  }

  lemma RestIn(a: seq<Pair>, b: seq<Pair>)
    requires PairsAscend(a) && a != [] && b != [] && a[0] == b[0]
    requires forall j | 0 <= j < |a| :: a[j] in b
    ensures forall j | 0 <= j < |a[1..]| :: a[1..][j] in b[1..]
  {
    forall j | 0 < j < |a| ensures a[j] in b[1..] {
      CmpStringLaws(a[0].key, a[j].key, a[0].key);
      assert b == [b[0]] + b[1..];
    }
  }

  /** Every stored value, a map's keys ascending as it holds them, survives the way out and back. */
  lemma {:induction false} StoredSurvives(c: C.Value)
    requires Canonical(c)
    ensures FromNative(ToOut(c)) == Ok(c)
    decreases c, 1
  {
    match c
    case List(items) =>
      ItemsSurvive(items, |items|);
      assert items[..|items|] == items && ToOut(c).items[..|items|] == ToOut(c).items;
    case Map(entries) =>
      EntriesSurvive(entries, |entries|);
      assert entries[..|entries|] == entries && ToOut(c).pairs[..|entries|] == ToOut(c).pairs;
    case _ =>
  }

  lemma {:induction false} ItemsSurvive(items: seq<C.Value>, n: nat)
    requires n <= |items| && forall i | 0 <= i < |items| :: Canonical(items[i])
    ensures FromItems(ToOut(C.List(items)).items[..n]) == Ok(items[..n])
    decreases items, 0, n
  {
    if n > 0 {
      var out := ToOut(C.List(items)).items;
      ItemsSurvive(items, n - 1);
      StoredSurvives(items[n - 1]);
      assert out[..n][..n - 1] == out[..n - 1];
      assert items[..n] == items[..n - 1] + [items[n - 1]];
    }
  }

  lemma {:induction false} EntriesSurvive(entries: seq<C.Entry>, n: nat)
    requires n <= |entries| && KeysAscend(entries)
    requires forall i | 0 <= i < |entries| :: Canonical(entries[i].value)
    ensures FromPairs(ToOut(C.Map(entries)).pairs[..n]) == Ok(entries[..n])
    decreases entries, 0, n
  {
    if n > 0 {
      var out := ToOut(C.Map(entries)).pairs;
      EntriesSurvive(entries, n - 1);
      StoredSurvives(entries[n - 1].value);
      assert out[..n][..n - 1] == out[..n - 1];
      PutLast(entries[..n - 1], entries[n - 1]);
      assert entries[..n] == entries[..n - 1] + [entries[n - 1]];
    }
  }

  lemma {:induction false} PutLast(s: seq<C.Entry>, e: C.Entry)
    requires forall i | 0 <= i < |s| :: CmpString(s[i].key, e.key) == Less
    ensures Put(s, e.key, e.value) == s + [e]
    decreases |s|
  {
    if s != [] {
      CmpStringLaws(s[0].key, e.key, e.key);
      PutLast(s[1..], e);
      assert s == [s[0]] + s[1..];
    }
  }

  /** Storing what was read back stores the same, whatever came in first. */
  lemma StoringTwiceIsStoringOnce(v: Native)
    requires FromNative(v).Ok?
    ensures FromNative(ToOut(FromNative(v).value)) == FromNative(v)
  {
    StoredDenotes(v);
    StoredSurvives(FromNative(v).value);
  }
}
