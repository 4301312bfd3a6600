/** Encrypted signals end to end: every member of a group has a cell beside its group object, and what it
    hands to the group are the states of that cell, in any order: a merge made from inside the wake of another
    publishes first. Members' bytes decode, so the states themselves stand for them. */
module EncryptedRuns {
  import opened EncryptedGroups
  import opened GroupBookkeeping
  import opened GroupBuffering
  import H = Handshake
  import opened Lattice
  import SyncRuns
  import opened Wrappers

  /** The value, the states taken and not yet handed to the group, the states the member was itself given,
      and how many decrypted payloads it has merged. */
  datatype Cell<S> = Cell(value: S, outbox: seq<S>, own: set<S>, read: nat)

  datatype World<S> = World(net: H.Net<S>, cells: map<Actor, Cell<S>>)

  datatype Act<S> =
    | Begin(b: Actor, listing: seq<Actor>, initial: S)
    | Apply(b: Actor, delta: S)
    | HandOver(b: Actor, k: nat)
    | Declare(b: Actor, m: Actor)
    | Deliver(b: Actor, a: Actor)
    | Merge(b: Actor)

  function WithoutAt<S>(s: seq<S>, k: nat): seq<S>
    requires k < |s|
  {
    s[..k] + s[k + 1..]
  }

  predicate Enabled<S>(c: H.Config, w: World<S>, act: Act<S>) {
    match act
    case Begin(b, listing, _) => H.Enabled(c, w.net, H.Open(b, listing))
    case Apply(b, _) => b in w.cells
    case HandOver(b, k) => b in w.cells && b in w.net && k < |w.cells[b].outbox|
    case Declare(b, m) => H.Enabled(c, w.net, H.Declare(b, m))
    case Deliver(b, a) => H.Enabled(c, w.net, H.Deliver(b, a))
    case Merge(b) => b in w.cells && b in w.net && w.cells[b].read < |w.net[b].decrypted|
  }

  function Next<S(==)>(c: H.Config, join: (S, S) -> S, w: World<S>, act: Act<S>): World<S>
    requires Enabled(c, w, act)
  {
    match act
    case Begin(b, listing, s) =>
      World(H.Next(c, w.net, H.Open(b, listing)), w.cells[b := Cell(s, [s], {s}, 0)])
    case Apply(b, d) =>
      var me := w.cells[b];
      var v := join(me.value, d);
      w.(cells := w.cells[b := me.(value := v, outbox := me.outbox + [v], own := me.own + {d})])
    case HandOver(b, k) =>
      var me := w.cells[b];
      World(H.Next(c, w.net, H.Hand(b, me.outbox[k])), w.cells[b := me.(outbox := WithoutAt(me.outbox, k))])
    case Declare(b, m) => w.(net := H.Next(c, w.net, H.Declare(b, m)))
    case Deliver(b, a) => w.(net := H.Next(c, w.net, H.Deliver(b, a)))
    case Merge(b) =>
      var me := w.cells[b];
      w.(cells := w.cells[b := me.(value := join(me.value, w.net[b].decrypted[me.read]), read := me.read + 1)])
  }

  function Run<S(==)>(c: H.Config, join: (S, S) -> S, acts: seq<Act<S>>): Option<World<S>> {
    if acts == [] then Some(World(map[], map[]))
    else
      var before := Run(c, join, acts[..|acts| - 1]);
      var act := acts[|acts| - 1];
      if before.Some? && Enabled(c, before.value, act) then Some(Next(c, join, before.value, act)) else None
  }

  // ---- The group underneath ----

  /** The move of the group that an act makes, if any. */
  function Moving<S>(c: H.Config, w: World<S>, act: Act<S>): seq<H.Move<S>>
    requires Enabled(c, w, act)
  {
    match act
    case Begin(b, listing, _) => [H.Open(b, listing)]
    case HandOver(b, k) => [H.Hand(b, w.cells[b].outbox[k])]
    case Declare(b, m) => [H.Declare(b, m)]
    case Deliver(b, a) => [H.Deliver(b, a)]
    case _ => []
  }

  function Moves<S(==)>(c: H.Config, join: (S, S) -> S, acts: seq<Act<S>>): seq<H.Move<S>>
    requires Run(c, join, acts).Some?
  {
    if acts == [] then []
    else
      var n := |acts| - 1;
      Moves(c, join, acts[..n]) + Moving(c, Run(c, join, acts[..n]).value, acts[n])
  }

  lemma ActMoves<S>(c: H.Config, join: (S, S) -> S, w: World<S>, act: Act<S>)
    requires Enabled(c, w, act)
    ensures var more := Moving(c, w, act);
      && (more != [] ==> H.Enabled(c, w.net, more[0]))
      && Next(c, join, w, act).net == if more == [] then w.net else H.Next(c, w.net, more[0])
  {
  }

  lemma MovesOn<S>(c: H.Config, moves: seq<H.Move<S>>, more: seq<H.Move<S>>)
    requires H.Run(c, moves).Some? && |more| <= 1
    requires more != [] ==> H.Enabled(c, H.Run(c, moves).value, more[0])
    ensures H.Run(c, moves + more) ==
      Some(if more == [] then H.Run(c, moves).value else H.Next(c, H.Run(c, moves).value, more[0]))
  {
    if more == [] {
      assert moves + more == moves;
    } else {
      assert (moves + more)[..|moves + more| - 1] == moves;
    }
  }

  /** A run of signals is a run of the group they share. */
  lemma {:induction false} RunIsGroupRun<S>(c: H.Config, join: (S, S) -> S, acts: seq<Act<S>>)
    requires Run(c, join, acts).Some?
    ensures H.Run(c, Moves(c, join, acts)) == Some(Run(c, join, acts).value.net)
    decreases |acts|
  {
    if acts != [] {
      var n := |acts| - 1;
      var before := Run(c, join, acts[..n]).value;
      RunIsGroupRun(c, join, acts[..n]);
      ActMoves(c, join, before, acts[n]);
      MovesOn(c, Moves(c, join, acts[..n]), Moving(c, before, acts[n]));
    }
  }

  // ---- What every run keeps ----

  /** The first `n` payloads. */
  ghost function Merged<S(!new)>(decrypted: seq<S>, n: nat): set<S>
    requires n <= |decrypted|
  {
    set x | x in decrypted[..n]
  }

  /** What a member has handed over and is about to: states its cell took. */
  ghost predicate GoodCell<S(!new)>(join: (S, S) -> S, cell: Cell<S>, handed: seq<S>, decrypted: seq<S>) {
    && cell.read <= |decrypted|
    && IsLub(join, cell.own + Merged(decrypted, cell.read), cell.value)
    && (forall y <- handed + cell.outbox :: Below(join, y, cell.value))
    && (forall x <- cell.own :: Covers(join, handed + cell.outbox, x))
  }

  /** Everything these members were given. */
  ghost function GivenTo<S(!new)>(cells: map<Actor, Cell<S>>, who: set<Actor>): set<S> {
    set b, x | b in cells && b in who && x in cells[b].own :: x
  }

  /** Every value is below whatever bounds all its member was given and all that `who` were. */
  ghost predicate Within<S(!new)>(join: (S, S) -> S, cells: map<Actor, Cell<S>>, who: set<Actor>) {
    forall v | Bounds(join, GivenTo(cells, who), v) ::
      forall b <- cells | Bounds(join, cells[b].own, v) :: Below(join, cells[b].value, v)
  }

  ghost function Welcomed<S>(net: H.Net<S>): set<Actor> {
    set b | b in net && net[b].t.g.welcomed
  }

  ghost predicate Inv<S(!new)>(join: (S, S) -> S, w: World<S>) {
    && w.cells.Keys == w.net.Keys
    && (forall b <- w.cells :: GoodCell(join, w.cells[b], w.net[b].t.handed, w.net[b].decrypted))
    && Within(join, w.cells, Welcomed(w.net))
  }

  lemma CreatedIsGood<S(!new)>(join: (S, S) -> S, s: S)
    requires Semilattice(join)
    ensures GoodCell(join, Cell(s, [s], {s}, 0), [], [])
  {
    assert Idempotent(join, s);
    assert {s} + Merged([], 0) == {s};
    assert [] + [s] == [s];
  }

  lemma AppliedIsGood<S(!new)>(join: (S, S) -> S, me: Cell<S>, handed: seq<S>, decrypted: seq<S>, d: S)
    requires Semilattice(join) && GoodCell(join, me, handed, decrypted)
    ensures var v := join(me.value, d);
      GoodCell(join, me.(value := v, outbox := me.outbox + [v], own := me.own + {d}), handed, decrypted)
  {
    var v := join(me.value, d);
    var post := me.(value := v, outbox := me.outbox + [v], own := me.own + {d});
    SyncRuns.AppliedIsLub(join, me.own, Merged(decrypted, me.read), me.value, d);
    MergeIsLub(join, me.value, d);
    assert Below(join, me.value, v) && Below(join, d, v) && Idempotent(join, v);
    var was, now := handed + me.outbox, handed + post.outbox;
    assert now == was + [v];
    forall y <- was ensures Below(join, y, v) { BelowTransitive(join, y, me.value, v); }
    forall x <- post.own ensures Covers(join, now, x) {
      if x in me.own {
        assert Covers(join, was, x);
        var y :| y in was && Below(join, x, y);
        assert y in now;
      } else {
        assert v in now;
      }
    }
  }

  lemma HandedOver<S>(handed: seq<S>, outbox: seq<S>, k: nat)
    requires k < |outbox|
    ensures forall x :: x in handed + [outbox[k]] + WithoutAt(outbox, k) <==> x in handed + outbox
  {
    assert outbox == outbox[..k] + [outbox[k]] + outbox[k + 1..];
  }

  lemma PublishedIsGood<S(!new)>(join: (S, S) -> S, me: Cell<S>, handed: seq<S>, decrypted: seq<S>, k: nat)
    requires GoodCell(join, me, handed, decrypted) && k < |me.outbox|
    ensures GoodCell(join, me.(outbox := WithoutAt(me.outbox, k)), handed + [me.outbox[k]], decrypted)
  {
    HandedOver(handed, me.outbox, k);
    forall x <- me.own ensures Covers(join, handed + [me.outbox[k]] + WithoutAt(me.outbox, k), x) {
      assert Covers(join, handed + me.outbox, x);
      var y :| y in handed + me.outbox && Below(join, x, y);
      assert y in handed + [me.outbox[k]] + WithoutAt(me.outbox, k);
    }
  }

  lemma DeliveredIsGood<S(!new)>(join: (S, S) -> S, me: Cell<S>, handed: seq<S>, decrypted: seq<S>, more: seq<S>)
    requires GoodCell(join, me, handed, decrypted)
    ensures GoodCell(join, me, handed, decrypted + more)
  {
    assert (decrypted + more)[..me.read] == decrypted[..me.read];
  }

  lemma MergedIsGood<S(!new)>(join: (S, S) -> S, me: Cell<S>, handed: seq<S>, decrypted: seq<S>)
    requires Semilattice(join) && GoodCell(join, me, handed, decrypted) && me.read < |decrypted|
    ensures GoodCell(join, me.(value := join(me.value, decrypted[me.read]), read := me.read + 1), handed, decrypted)
  {
    var d := decrypted[me.read];
    var seen := Merged(decrypted, me.read);
    SyncRuns.LubExtends(join, me.own + seen, me.value, d);
    assert decrypted[..me.read + 1] == decrypted[..me.read] + [d];
    assert me.own + Merged(decrypted, me.read + 1) == me.own + seen + {d};
    MergeIsLub(join, me.value, d);
    assert Below(join, me.value, join(me.value, d));
    forall y <- handed + me.outbox ensures Below(join, y, join(me.value, d)) {
      BelowTransitive(join, y, me.value, join(me.value, d));
    }
  }

  lemma MoreGiven<S(!new)>(join: (S, S) -> S, cells: map<Actor, Cell<S>>, who: set<Actor>, b: Actor, cell: Cell<S>,
                           more: set<Actor>, v: S)
    requires who <= more && (b in cells ==> cells[b].own <= cell.own)
    requires Bounds(join, GivenTo(cells[b := cell], more), v)
    ensures Bounds(join, GivenTo(cells, who), v)
  {
    var next := cells[b := cell];
    forall x <- GivenTo(cells, who) ensures Below(join, x, v) {
      var a :| a in cells && a in who && x in cells[a].own;
      assert a in next && x in next[a].own;
      assert x in GivenTo(next, more);
    }
  }

  /** One cell changes, more members are welcomed. */
  lemma CellStaysWithin<S(!new)>(join: (S, S) -> S, cells: map<Actor, Cell<S>>, who: set<Actor>, b: Actor,
                                 cell: Cell<S>, more: set<Actor>)
    requires Within(join, cells, who) && who <= more && (b in cells ==> cells[b].own <= cell.own)
    requires forall v | Bounds(join, GivenTo(cells, who), v) && Bounds(join, cell.own, v) :: Below(join, cell.value, v)
    ensures Within(join, cells[b := cell], more)
  {
    var next := cells[b := cell];
    forall v | Bounds(join, GivenTo(next, more), v)
      ensures forall a <- next | Bounds(join, next[a].own, v) :: Below(join, next[a].value, v)
    {
      MoreGiven(join, cells, who, b, cell, more, v);
    }
  }

  lemma JoinStaysBelow<S(!new)>(join: (S, S) -> S, a: S, b: S, v: S)
    requires Semilattice(join) && Below(join, a, v) && Below(join, b, v)
    ensures Below(join, join(a, b), v)
  {
    MergeIsLub(join, a, b);
    assert Bounds(join, {a, b}, v);
  }

  /** What a member decrypted, a welcomed one was given or took from others in its turn. */
  lemma DecryptedIsWithin<S(!new)>(join: (S, S) -> S, w: World<S>, b: Actor, d: S, v: S)
    requires Semilattice(join) && Inv(join, w) && GroupFacts(w.net) && b in w.net && d in w.net[b].decrypted
    requires Bounds(join, GivenTo(w.cells, Welcomed(w.net)), v)
    ensures Below(join, d, v)
  {
    assert H.Sourced(w.net, b, d);
    var a :| a in w.net && a != b && d in Apps(w.net[a].t.sent);
    assert d in Outgoing(w.net[a].t) && d in w.net[a].t.handed;
    assert a in w.cells && GoodCell(join, w.cells[a], w.net[a].t.handed, w.net[a].decrypted);
    assert d in w.net[a].t.handed + w.cells[a].outbox;
    assert a in Welcomed(w.net);
    forall x <- w.cells[a].own ensures Below(join, x, v) { assert x in GivenTo(w.cells, Welcomed(w.net)); }
    BelowTransitive(join, d, w.cells[a].value, v);
  }

  lemma CreateKeepsInv<S(!new)>(c: H.Config, join: (S, S) -> S, w: World<S>, b: Actor, listing: seq<Actor>, s: S)
    requires Semilattice(join) && Inv(join, w) && Enabled(c, w, Begin(b, listing, s))
    ensures Inv(join, Next(c, join, w, Begin(b, listing, s)))
  {
    var next := Next(c, join, w, Begin(b, listing, s));
    CreatedIsGood(join, s);
    CellStaysWithin(join, w.cells, Welcomed(w.net), b, Cell(s, [s], {s}, 0), Welcomed(next.net));
  }

  lemma ApplyKeepsInv<S(!new)>(c: H.Config, join: (S, S) -> S, w: World<S>, b: Actor, d: S)
    requires Semilattice(join) && Inv(join, w) && Enabled(c, w, Apply(b, d))
    ensures Inv(join, Next(c, join, w, Apply(b, d)))
  {
    var next, who := Next(c, join, w, Apply(b, d)), Welcomed(w.net);
    AppliedIsGood(join, w.cells[b], w.net[b].t.handed, w.net[b].decrypted, d);
    forall v | Bounds(join, GivenTo(w.cells, who), v) && Bounds(join, next.cells[b].own, v)
      ensures Below(join, next.cells[b].value, v)
    {
      assert d in next.cells[b].own;
      assert Bounds(join, w.cells[b].own, v);
      JoinStaysBelow(join, w.cells[b].value, d, v);
    }
    CellStaysWithin(join, w.cells, who, b, next.cells[b], who);
  }

  lemma PublishKeepsInv<S(!new)>(c: H.Config, join: (S, S) -> S, w: World<S>, b: Actor, k: nat)
    requires Inv(join, w) && Enabled(c, w, HandOver(b, k))
    ensures Inv(join, Next(c, join, w, HandOver(b, k)))
  {
    var next := Next(c, join, w, HandOver(b, k));
    PublishedIsGood(join, w.cells[b], w.net[b].t.handed, w.net[b].decrypted, k);
    CellStaysWithin(join, w.cells, Welcomed(w.net), b, next.cells[b], Welcomed(next.net));
  }

  lemma DeclareKeepsInv<S(!new)>(c: H.Config, join: (S, S) -> S, w: World<S>, b: Actor, m: Actor)
    requires Inv(join, w) && Enabled(c, w, Declare(b, m))
    ensures Inv(join, Next(c, join, w, Declare(b, m)))
  {
    var next := Next(c, join, w, Declare(b, m));
    assert w.cells == w.cells[b := w.cells[b]];
    CellStaysWithin(join, w.cells, Welcomed(w.net), b, w.cells[b], Welcomed(next.net));
  }

  lemma DeliverWelcomes<S>(c: H.Config, net: H.Net<S>, b: Actor, a: Actor)
    requires GroupFacts(net) && H.Enabled(c, net, H.Deliver(b, a))
    ensures Welcomed(net) <= Welcomed(H.Next(c, net, H.Deliver(b, a)))
  {
    CallOutgoing(net[b].t, Receive(Encoded(net[a].t.sent[net[b].Cursor(a)])));
  }

  lemma DeliverKeepsInv<S(!new)>(c: H.Config, join: (S, S) -> S, w: World<S>, b: Actor, a: Actor)
    requires Inv(join, w) && GroupFacts(w.net) && Enabled(c, w, Deliver(b, a))
    ensures Inv(join, Next(c, join, w, Deliver(b, a)))
  {
    var n, op := w.net[b], w.net[a].t.sent[w.net[b].Cursor(a)];
    DeliverWelcomes(c, w.net, b, a);
    SameHanded(c, w.net, H.Deliver(b, a));
    DeliveredIsGood(join, w.cells[b], n.t.handed, n.decrypted, H.Decrypts(n.t.g, op));
    assert w.cells == w.cells[b := w.cells[b]];
    CellStaysWithin(join, w.cells, Welcomed(w.net), b, w.cells[b], Welcomed(Next(c, join, w, Deliver(b, a)).net));
  }

  lemma MergeKeepsInv<S(!new)>(c: H.Config, join: (S, S) -> S, w: World<S>, b: Actor)
    requires Semilattice(join) && Inv(join, w) && GroupFacts(w.net) && Enabled(c, w, Merge(b))
    ensures Inv(join, Next(c, join, w, Merge(b)))
  {
    var next, who := Next(c, join, w, Merge(b)), Welcomed(w.net);
    MergedIsGood(join, w.cells[b], w.net[b].t.handed, w.net[b].decrypted);
    forall v | Bounds(join, GivenTo(w.cells, who), v) && Bounds(join, next.cells[b].own, v)
      ensures Below(join, next.cells[b].value, v)
    {
      DecryptedIsWithin(join, w, b, w.net[b].decrypted[w.cells[b].read], v);
      assert Bounds(join, w.cells[b].own, v);
      JoinStaysBelow(join, w.cells[b].value, w.net[b].decrypted[w.cells[b].read], v);
    }
    CellStaysWithin(join, w.cells, who, b, next.cells[b], who);
  }

  /** What the group keeps, as the cells need it. */
  ghost predicate GroupFacts<S>(net: H.Net<S>) {
    && H.AllSourced(net)
    && forall a <- net :: Waits(net[a].t)
  }

  lemma RunKeepsGroupFacts<S(!new)>(c: H.Config, join: (S, S) -> S, acts: seq<Act<S>>)
    requires Semilattice(join) && Run(c, join, acts).Some?
    ensures GroupFacts(Run(c, join, acts).value.net)
  {
    var net := Run(c, join, acts).value.net;
    RunIsGroupRun(c, join, acts);
    H.DecryptsOnlyBroadcasts(c, Moves(c, join, acts));
    forall a <- net ensures Waits(net[a].t) { H.RunCovers(c, Moves(c, join, acts), join, a); }
  }

  lemma {:induction false} RunKeepsInv<S(!new)>(c: H.Config, join: (S, S) -> S, acts: seq<Act<S>>)
    requires Semilattice(join) && Run(c, join, acts).Some?
    ensures Inv(join, Run(c, join, acts).value)
    decreases |acts|
  {
    if acts != [] {
      var n := |acts| - 1;
      RunKeepsInv(c, join, acts[..n]);
      RunKeepsGroupFacts(c, join, acts[..n]);
      var before := Run(c, join, acts[..n]).value;
      match acts[n]
      case Begin(b, listing, s) => CreateKeepsInv(c, join, before, b, listing, s);
      case Apply(b, d) => ApplyKeepsInv(c, join, before, b, d);
      case HandOver(b, k) => PublishKeepsInv(c, join, before, b, k);
      case Declare(b, m) => DeclareKeepsInv(c, join, before, b, m);
      case Deliver(b, a) => DeliverKeepsInv(c, join, before, b, a);
      case Merge(b) => MergeKeepsInv(c, join, before, b);
    }
  }

  // ---- Handing over ----

  /** Whatever anyone handed over before its welcome was above what waited. */
  ghost predicate AllGrow<S(!new)>(c: H.Config, join: (S, S) -> S, acts: seq<Act<S>>)
    requires Run(c, join, acts).Some?
  {
    RunIsGroupRun(c, join, acts);
    forall a: Actor :: H.HandsGrow(c, join, Moves(c, join, acts), a)
  }

  /** Every state is handed over in the order its cell took it. */
  predicate InOrder<S>(acts: seq<Act<S>>) {
    forall i | 0 <= i < |acts| :: acts[i].HandOver? ==> acts[i].k == 0
  }

  /** What was handed over, and what is to be, only grows. */
  ghost predicate InTurn<S(!new)>(join: (S, S) -> S, cell: Cell<S>, handed: seq<S>) {
    Increasing(join, handed + cell.outbox)
  }

  ghost predicate Ordered<S(!new)>(join: (S, S) -> S, w: World<S>) {
    forall b | b in w.cells && b in w.net :: InTurn(join, w.cells[b], w.net[b].t.handed)
  }

  lemma StepStaysOrdered<S(!new)>(c: H.Config, join: (S, S) -> S, w: World<S>, act: Act<S>)
    requires Semilattice(join) && Inv(join, w) && Ordered(join, w) && Enabled(c, w, act)
    requires act.HandOver? ==> act.k == 0
    ensures Ordered(join, Next(c, join, w, act))
  {
    match act
    case Begin(b, listing, s) => assert InTurn(join, Cell(s, [s], {s}, 0), []) by { assert [] + [s] == [s]; }
    case Apply(b, d) => AppliedStaysOrdered(join, w.cells[b], w.net[b].t.handed, w.net[b].decrypted, d);
    case HandOver(b, k) => HandedStaysOrdered(join, w.cells[b], w.net[b].t.handed);
    case Declare(b, m) => SameHanded(c, w.net, H.Declare(b, m));
    case Deliver(b, a) => SameHanded(c, w.net, H.Deliver(b, a));
    case Merge(b) =>
  }

  lemma SameHanded<S>(c: H.Config, net: H.Net<S>, move: H.Move<S>)
    requires H.Enabled(c, net, move) && (move.Declare? || move.Deliver?)
    ensures H.Next(c, net, move).Keys == net.Keys
    ensures forall b <- net :: H.Next(c, net, move)[b].t.handed == net[b].t.handed
  {
  }

  lemma HandedStaysOrdered<S(!new)>(join: (S, S) -> S, me: Cell<S>, handed: seq<S>)
    requires me.outbox != [] && InTurn(join, me, handed)
    ensures InTurn(join, me.(outbox := WithoutAt(me.outbox, 0)), handed + [me.outbox[0]])
  {
    assert handed + [me.outbox[0]] + WithoutAt(me.outbox, 0) == handed + me.outbox;
  }

  lemma AppliedStaysOrdered<S(!new)>(join: (S, S) -> S, me: Cell<S>, handed: seq<S>, decrypted: seq<S>, d: S)
    requires Semilattice(join) && GoodCell(join, me, handed, decrypted) && InTurn(join, me, handed)
    ensures var v := join(me.value, d);
      InTurn(join, me.(value := v, outbox := me.outbox + [v], own := me.own + {d}), handed)
  {
    var v := join(me.value, d);
    MergeIsLub(join, me.value, d);
    GrowsAtEnd(join, handed + me.outbox, me.value, v);
    assert handed + (me.outbox + [v]) == handed + me.outbox + [v];
  }

  lemma GrowsAtEnd<S(!new)>(join: (S, S) -> S, s: seq<S>, value: S, v: S)
    requires Semilattice(join) && Increasing(join, s)
    requires (forall y <- s :: Below(join, y, value)) && Below(join, value, v)
    ensures Increasing(join, s + [v])
  {
    forall y <- s ensures Below(join, y, v) { BelowTransitive(join, y, value, v); }
  }

  lemma {:induction false} InOrderGrows<S(!new)>(c: H.Config, join: (S, S) -> S, acts: seq<Act<S>>)
    requires Semilattice(join) && Run(c, join, acts).Some? && InOrder(acts)
    ensures AllGrow(c, join, acts) && Ordered(join, Run(c, join, acts).value)
    decreases |acts|
  {
    RunIsGroupRun(c, join, acts);
    if acts != [] {
      var n := |acts| - 1;
      var was, act := acts[..n], acts[n];
      var before := Run(c, join, was).value;
      RunIsGroupRun(c, join, was);
      InOrderGrows(c, join, was);
      RunKeepsInv(c, join, was);
      RunKeepsGroupFacts(c, join, was);
      StepStaysOrdered(c, join, before, act);
      var moves, more := Moves(c, join, was), Moving(c, before, act);
      if act.HandOver? {
        assert InTurn(join, before.cells[act.b], before.net[act.b].t.handed);
        FirstOutGrows(join, before.net[act.b].t, before.cells[act.b].outbox);
      }
      forall a: Actor ensures H.HandsGrow(c, join, moves + more, a) {
        assert H.HandsGrow(c, join, moves, a);
        if more == [] { assert moves + more == moves; }
        else { assert (moves + more)[..|moves + more| - 1] == moves; }
      }
    }
  }

  lemma FirstOutGrows<S(!new)>(join: (S, S) -> S, t: Trace<S>, outbox: seq<S>)
    requires Waits(t) && outbox != [] && Increasing(join, t.handed + outbox)
    ensures Grows(join, t, Publish(outbox[0]))
  {
    assert forall i | 0 <= i <= |t.handed| :: (t.handed + [outbox[0]])[i] == (t.handed + outbox)[i];
    GroupBuffering.InOrderGrows(join, t, outbox[0]);
  }

  // ---- The result ----

  /** The group is quiet, every state taken has been handed over, every payload merged. */
  predicate Quiescent<S>(w: World<S>) {
    && H.Quiescent(w.net)
    && forall b <- w.cells :: b in w.net && w.cells[b].outbox == [] && w.cells[b].read == |w.net[b].decrypted|
  }

  /** The members the leader declared. */
  function Insiders<S>(c: H.Config, w: World<S>): set<Actor> {
    H.Declared(c, w.net) * w.cells.Keys
  }

  /** Whatever an insider was given has reached every other. */
  lemma GivenReaches<S(!new)>(c: H.Config, join: (S, S) -> S, acts: seq<Act<S>>, a: Actor, b: Actor, x: S)
    requires Semilattice(join) && Run(c, join, acts).Some? && Quiescent(Run(c, join, acts).value)
    requires AllGrow(c, join, acts) && Inv(join, Run(c, join, acts).value)
    requires {a, b} <= Insiders(c, Run(c, join, acts).value) && x in Run(c, join, acts).value.cells[a].own
    ensures Below(join, x, Run(c, join, acts).value.cells[b].value)
  {
    var w := Run(c, join, acts).value;
    assert a in {a, b} && b in {a, b};
    var mine := w.cells[b].own + Merged(w.net[b].decrypted, w.cells[b].read);
    assert GoodCell(join, w.cells[b], w.net[b].t.handed, w.net[b].decrypted);
    if a == b {
      assert x in mine;
    } else {
      assert GoodCell(join, w.cells[a], w.net[a].t.handed, w.net[a].decrypted);
      assert w.net[a].t.handed + [] == w.net[a].t.handed;
      assert Covers(join, w.net[a].t.handed, x);
      var y :| y in w.net[a].t.handed && Below(join, x, y);
      RunIsGroupRun(c, join, acts);
      H.EveryStateArrives(c, Moves(c, join, acts), join, a, b, y);
      var z :| z in w.net[b].decrypted && Below(join, y, z);
      assert w.net[b].decrypted[..w.cells[b].read] == w.net[b].decrypted;
      assert z in mine;
      BelowTransitive(join, x, y, z);
      BelowTransitive(join, x, z, w.cells[b].value);
    }
  }

  lemma InsiderHoldsAll<S(!new)>(c: H.Config, join: (S, S) -> S, acts: seq<Act<S>>, b: Actor)
    requires Semilattice(join) && Run(c, join, acts).Some? && Quiescent(Run(c, join, acts).value)
    requires AllGrow(c, join, acts) && Inv(join, Run(c, join, acts).value)
    requires b in Insiders(c, Run(c, join, acts).value)
    ensures var w := Run(c, join, acts).value;
      IsLub(join, GivenTo(w.cells, Insiders(c, w)), w.cells[b].value)
  {
    var w := Run(c, join, acts).value;
    var given := GivenTo(w.cells, Insiders(c, w));
    InsidersAreWelcomed(c, join, acts);
    assert Bounds(join, given, w.cells[b].value) by {
      GivenReachesAll(c, join, acts, b);
    }
    assert forall x <- w.cells[b].own :: x in given;
  }

  lemma InsidersAreWelcomed<S(!new)>(c: H.Config, join: (S, S) -> S, acts: seq<Act<S>>)
    requires Run(c, join, acts).Some? && Quiescent(Run(c, join, acts).value)
    requires Inv(join, Run(c, join, acts).value)
    ensures var w := Run(c, join, acts).value; Welcomed(w.net) == Insiders(c, w)
  {
    RunIsGroupRun(c, join, acts);
    H.HandshakeCompletes(c, Moves(c, join, acts));
  }

  lemma GivenReachesAll<S(!new)>(c: H.Config, join: (S, S) -> S, acts: seq<Act<S>>, b: Actor)
    requires Semilattice(join) && Run(c, join, acts).Some? && Quiescent(Run(c, join, acts).value)
    requires AllGrow(c, join, acts) && Inv(join, Run(c, join, acts).value)
    requires b in Insiders(c, Run(c, join, acts).value)
    ensures var w := Run(c, join, acts).value;
      Bounds(join, GivenTo(w.cells, Insiders(c, w)), w.cells[b].value)
  {
    var w := Run(c, join, acts).value;
    forall x <- GivenTo(w.cells, Insiders(c, w)) ensures Below(join, x, w.cells[b].value) {
      var a :| a in w.cells && a in Insiders(c, w) && x in w.cells[a].own;
      GivenReaches(c, join, acts, a, b, x);
    }
  }

  lemma OutsiderHoldsItsOwn<S(!new)>(c: H.Config, join: (S, S) -> S, acts: seq<Act<S>>, b: Actor)
    requires Run(c, join, acts).Some? && Quiescent(Run(c, join, acts).value)
    requires Inv(join, Run(c, join, acts).value)
    requires var w := Run(c, join, acts).value; b in w.cells && b !in Insiders(c, w)
    ensures var w := Run(c, join, acts).value; IsLub(join, w.cells[b].own, w.cells[b].value)
  {
    var w := Run(c, join, acts).value;
    RunIsGroupRun(c, join, acts);
    H.HandshakeCompletes(c, Moves(c, join, acts));
    assert GoodCell(join, w.cells[b], w.net[b].t.handed, w.net[b].decrypted);
    assert w.cells[b].own + Merged(w.net[b].decrypted, 0) == w.cells[b].own;
  }

  /** The main result: once a group of encrypted signals is quiet, and nothing was handed over a waiting state
      that was not above it, the value of every member the leader declared is the join of all that any of
      them was ever given: its initial state and its deltas, those given before the welcome and overwritten
      in the buffer included. So these values agree. Another member's value is the join of what it was
      itself given: nothing got in. */
  lemma QuietSignalsAgree<S(!new)>(c: H.Config, join: (S, S) -> S, acts: seq<Act<S>>)
    requires Semilattice(join) && Run(c, join, acts).Some? && Quiescent(Run(c, join, acts).value)
    requires AllGrow(c, join, acts)
    ensures var w := Run(c, join, acts).value; var insiders := Insiders(c, w);
      && (forall b <- insiders :: IsLub(join, GivenTo(w.cells, insiders), w.cells[b].value))
      && (forall a <- insiders, b <- insiders :: w.cells[a].value == w.cells[b].value)
      && (forall b <- w.cells | b !in insiders :: IsLub(join, w.cells[b].own, w.cells[b].value))
  {
    RunKeepsInv(c, join, acts);
    var w := Run(c, join, acts).value;
    var insiders := Insiders(c, w);
    forall b <- insiders ensures IsLub(join, GivenTo(w.cells, insiders), w.cells[b].value) {
      InsiderHoldsAll(c, join, acts, b);
    }
    forall a <- insiders, b <- insiders ensures w.cells[a].value == w.cells[b].value {
      LubUnique(join, GivenTo(w.cells, insiders), w.cells[a].value, w.cells[b].value);
    }
    forall b <- w.cells | b !in insiders ensures IsLub(join, w.cells[b].own, w.cells[b].value) {
      OutsiderHoldsItsOwn(c, join, acts, b);
    }
  }

  // ---- What the acts put in ----

  ghost predicate Gives<S(!new)>(acts: seq<Act<S>>, b: Actor, x: S) {
    Act<S>.Apply(b, x) in acts || exists act <- acts :: act.Begin? && act.b == b && act.initial == x
  }

  /** A member was given its initial state and the deltas applied to it, and nothing else. */
  lemma {:induction false} OwnIsGiven<S(!new)>(c: H.Config, join: (S, S) -> S, acts: seq<Act<S>>, b: Actor, x: S)
    requires Run(c, join, acts).Some?
    ensures (b in Run(c, join, acts).value.cells && x in Run(c, join, acts).value.cells[b].own) <==> Gives(acts, b, x)
    ensures Run(c, join, acts).value.cells.Keys == Run(c, join, acts).value.net.Keys
    decreases |acts|
  {
    if acts != [] {
      var n := |acts| - 1;
      OwnIsGiven(c, join, acts[..n], b, x);
      assert acts == acts[..n] + [acts[n]];
      assert Gives(acts, b, x) <==>
        Gives(acts[..n], b, x) || acts[n] == Apply(b, x) || (acts[n].Begin? && acts[n].b == b && acts[n].initial == x);
    }
  }
}
