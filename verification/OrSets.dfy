/** The observed-remove set: tagged insertions, tombstoned tags. */
module OrSets {
  import opened Orders
  import opened Clock
  import opened CrdtValues
  import opened BTrees
  import opened Lattice

  datatype OrSet = OrSet(adds: map<Value, set<Dot>>, removed: set<Dot>)
  {
    function TagsOf(element: Value): set<Dot> {
      if element in adds then adds[element] else {}
    }

    ghost predicate HasTag(t: Dot) {
      t in removed || exists e <- adds :: t in adds[e]
    }

    predicate Contains(element: Value) {
      exists t <- TagsOf(element) :: t !in removed
    }

    /** The highest logical time of any tag, tombstones included; zero when there is none. */
    ghost function HighestCounter(): (h: U64)
      ensures forall t :: HasTag(t) ==> t.counter <= h
      ensures h == 0 || exists t :: HasTag(t) && t.counter == h
    {
      HighestExists(this);
      var h :| IsHighest(this, h);
      h
    }

    ghost function NextTag(replica: string): Dot {
      NextAfter(HighestCounter(), replica)
    }

    ghost function Inserted(replica: string, element: Value): OrSet {
      OrSet(adds[element := TagsOf(element) + {NextTag(replica)}], removed)
    }

    function Removed(element: Value): OrSet {
      OrSet(adds, removed + TagsOf(element))
    }

    function Join(other: OrSet): OrSet {
      OrSet(map e | e in adds.Keys + other.adds.Keys :: TagsOf(e) + other.TagsOf(e), removed + other.removed)
    }
  }

  const EMPTY_ORSET := OrSet(map[], {})

  ghost predicate IsHighest(s: OrSet, h: U64) {
    && (forall t :: s.HasTag(t) ==> t.counter <= h)
    && (h == 0 || exists t :: s.HasTag(t) && t.counter == h)
  }

  lemma HighestExists(s: OrSet)
    ensures exists h :: IsHighest(s, h)
  {
    var all := s.removed + set e, t | e in s.adds && t in s.adds[e] :: t;
    assert forall t :: s.HasTag(t) <==> t in all;
    var h := MaxCounter(all);
    assert IsHighest(s, h);
  }

  ghost function MaxCounter(tags: set<Dot>): (h: U64)
    ensures forall t <- tags :: t.counter <= h
    ensures h == 0 || exists t <- tags :: t.counter == h
  {
    if tags == {} then 0
    else
      var t :| t in tags;
      Max(t.counter, MaxCounter(tags - {t}))
  }

  function JoinOr(a: OrSet, b: OrSet): OrSet { a.Join(b) }

  lemma SameOrSet(x: OrSet, y: OrSet)
    requires x.adds.Keys == y.adds.Keys && x.removed == y.removed
    requires forall e :: x.TagsOf(e) == y.TagsOf(e)
    ensures x == y
  {
    forall e <- x.adds.Keys ensures x.adds[e] == y.adds[e] {
      assert x.TagsOf(e) == y.TagsOf(e);
    }
    assert x.adds == y.adds;
  }

  /** The merge, element by element. */
  ghost predicate IsJoin(a: OrSet, b: OrSet, j: OrSet) {
    && j.adds.Keys == a.adds.Keys + b.adds.Keys
    && j.removed == a.removed + b.removed
    && forall e :: j.TagsOf(e) == a.TagsOf(e) + b.TagsOf(e)
  }

  lemma JoinIsJoin(a: OrSet, b: OrSet)
    ensures IsJoin(a, b, a.Join(b))
  {
  }

  lemma JoinOrAssociates(a: OrSet, b: OrSet, c: OrSet, ab: OrSet, bc: OrSet, l: OrSet, r: OrSet)
    requires IsJoin(a, b, ab) && IsJoin(b, c, bc) && IsJoin(ab, c, l) && IsJoin(a, bc, r)
    ensures l == r
  {
    forall e ensures l.TagsOf(e) == r.TagsOf(e) {
      assert ab.TagsOf(e) == a.TagsOf(e) + b.TagsOf(e) && bc.TagsOf(e) == b.TagsOf(e) + c.TagsOf(e);
    }
    SameOrSet(l, r);
  }

  lemma OrSetIsLattice()
    ensures Semilattice(JoinOr)
  {
    forall a, b ensures Commutes(JoinOr, a, b) {
      JoinIsJoin(a, b);
      JoinIsJoin(b, a);
      SameOrSet(a.Join(b), b.Join(a));
    }
    forall a, b, c ensures Associates(JoinOr, a, b, c) {
      var ab, bc := a.Join(b), b.Join(c);
      JoinIsJoin(a, b);
      JoinIsJoin(b, c);
      JoinIsJoin(ab, c);
      JoinIsJoin(a, bc);
      JoinOrAssociates(a, b, c, ab, bc, ab.Join(c), a.Join(bc));
    }
    forall a ensures Idempotent(JoinOr, a) {
      JoinIsJoin(a, a);
      SameOrSet(a.Join(a), a);
    }
  }

  lemma UpdatesAreInflationary(s: OrSet, replica: string, element: Value)
    ensures Below(JoinOr, s, s.Inserted(replica, element))
    ensures Below(JoinOr, s, s.Removed(element))
  {
    var i, r := s.Inserted(replica, element), s.Removed(element);
    JoinIsJoin(s, i);
    SameOrSet(s.Join(i), i);
    JoinIsJoin(s, r);
    SameOrSet(s.Join(r), r);
  }

  /** The tag an insertion mints is new to the state exactly when the counter can tick, or the
      replica has not itself stamped the ceiling there. */
  lemma NextTagIsNewIff(s: OrSet, replica: string)
    ensures !s.HasTag(s.NextTag(replica)) <==>
      s.HighestCounter() < MAX_U64 || !s.HasTag(Dot(MAX_U64, replica))
  {
  }

  /** Inserting makes the element a member exactly when its tag is not already tombstoned; below
      the ceiling it always does. */
  lemma InsertLandsIff(s: OrSet, replica: string, element: Value)
    ensures s.Inserted(replica, element).Contains(element) <==>
      || s.HighestCounter() < 0xFFFF_FFFF_FFFF_FFFF
      || Dot(0xFFFF_FFFF_FFFF_FFFF, replica) !in s.removed
      || s.Contains(element)
  {
    var t := s.NextTag(replica);
    var i := s.Inserted(replica, element);
    assert i.TagsOf(element) == s.TagsOf(element) + {t};
    if t in s.removed { assert s.HasTag(t); }
  }

  /** At the ceiling a re-add after a remove is swallowed: its tag is the tombstoned one. */
  lemma ReAddIsLostAtCeiling(element: Value)
    ensures var s := OrSet(map[element := {Dot(MAX_U64, "A")}], {});
      s.Contains(element) && !s.Removed(element).Inserted("A", element).Contains(element)
  {
    var t := Dot(MAX_U64, "A");
    var s := OrSet(map[element := {t}], {});
    assert t in s.TagsOf(element);
    var r := s.Removed(element);
    assert r.HasTag(t);
    InsertLandsIff(r, "A", element);
    assert r.TagsOf(element) == {t};
  }

  method Insert(s: OrSet, replica: string, element: Value) returns (r: OrSet)
    ensures r == s.Inserted(replica, element)
  {
    var highest := Highest(s);
    var tag := NextAfter(highest, replica);
    var adds := s.adds;
    if element !in adds { adds := adds[element := {}]; }
    adds := adds[element := adds[element] + {tag}];
    r := OrSet(adds, s.removed);
  }

  /** Scans the added tags, then the tombstones, keeping the maximum. */
  method Highest(s: OrSet) returns (h: U64)
    ensures h == s.HighestCounter()
  {
    h := 0;
    var all := s.removed + set e, t | e in s.adds && t in s.adds[e] :: t;
    assert forall t :: s.HasTag(t) <==> t in all;
    var rest := all;
    while rest != {}
      invariant rest <= all
      invariant forall t <- all - rest :: t.counter <= h
      invariant h == 0 || exists t <- all :: t.counter == h
      decreases rest
    {
      var t :| t in rest;
      if h < t.counter { h := t.counter; }
      rest := rest - {t};
    }
    assert IsHighest(s, h);
  }

  method Remove(s: OrSet, element: Value) returns (r: OrSet)
    ensures r == s.Removed(element)
    ensures !r.Contains(element)
    ensures forall e :: e !in s.adds || s.TagsOf(e) !! s.TagsOf(element) ==> r.Contains(e) == s.Contains(e)
  {
    var removed := s.removed;
    if element in s.adds { removed := removed + s.adds[element]; }
    r := OrSet(s.adds, removed);
    assert forall e :: r.TagsOf(e) == s.TagsOf(e);
  }

  method Merge(s: OrSet, other: OrSet) returns (r: OrSet)
    ensures r == s.Join(other)
  {
    var adds := s.adds;
    var rest := other.adds.Keys;
    while rest != {}
      invariant rest <= other.adds.Keys
      invariant adds.Keys == s.adds.Keys + (other.adds.Keys - rest)
      invariant forall e <- adds.Keys :: adds[e] == if e in rest then s.TagsOf(e) else s.TagsOf(e) + other.TagsOf(e)
      decreases rest
    {
      var element :| element in rest;
      if element !in adds { adds := adds[element := {}]; }
      adds := adds[element := adds[element] + other.adds[element]];
      rest := rest - {element};
    }
    r := OrSet(adds, s.removed + other.removed);
    assert r.adds == s.Join(other).adds;
  }

  /** The members in ascending order, each once: two equal states list identically. */
  method Members(s: OrSet) returns (r: seq<Value>)
    ensures StrictlySorted(Cmp, r)
    ensures forall e :: e in r <==> s.Contains(e)
  {
    CmpIsTotalOrder();
    r := [];
    var all := set e | e in s.adds && s.Contains(e);
    var rest := all;
    while rest != {}
      invariant rest <= all
      invariant forall e :: e in r <==> e in all - rest
      invariant StrictlySorted(Cmp, r)
      invariant forall x <- r, y <- rest :: Cmp(x, y) == Less
      decreases rest
    {
      LeastExists(Cmp, rest);
      ghost var w :| IsLeast(Cmp, w, rest);
      assert w in rest && forall x <- rest :: x != w ==> Cmp(w, x) == Less;
      var m :| m in rest && forall x <- rest :: x != m ==> Cmp(m, x) == Less;
      r := r + [m];
      rest := rest - {m};
    }
  }
}
