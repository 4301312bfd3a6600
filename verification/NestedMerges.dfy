/** A merge made from inside the wake of another publishes first: before the welcome that loses its state, and
    the quiet group disagrees. */
module NestedMerges {
  import opened EncryptedGroups
  import opened EncryptedRuns
  import opened GroupBookkeeping
  import H = Handshake
  import opened Lattice
  import opened Wrappers

  function Max(a: nat, b: nat): nat {
    if a < b then b else a
  }

  lemma OneMoreAct<S>(c: H.Config, join: (S, S) -> S, acts: seq<Act<S>>, w: World<S>, act: Act<S>)
      returns (more: seq<Act<S>>, next: World<S>)
    requires Run(c, join, acts) == Some(w) && Enabled(c, w, act)
    ensures more == acts + [act] && next == Next(c, join, w, act) && Run(c, join, more) == Some(next)
  {
    more, next := acts + [act], Next(c, join, w, act);
    assert more[..|more| - 1] == acts;
  }

  /** The leader, having read `cursor` operations of member 1. */
  function Leader(known: set<Actor>, sent: seq<Op<nat>>, handed: seq<nat>, cursor: nat, decrypted: seq<nat>)
    : H.Member<nat>
  {
    var g := Group(0, true, Space({0} + known, [], false), [0, 1], true, {0} + known, known, None);
    H.Member(Trace(g, sent, handed), if cursor == 0 then map[] else map[1 := cursor], decrypted)
  }

  /** Member 1 before its welcome. */
  function Waiting(known: set<Actor>, held: seq<nat>, pending: Option<nat>, handed: seq<nat>, cursor: nat)
    : H.Member<nat>
  {
    var g := Group(1, false, Space({}, held, false), [0, 1], false, {}, known, pending);
    H.Member(Trace(g, [KeyBundle(1)], handed), if cursor == 0 then map[] else map[0 := cursor], [])
  }

  /** The leader's log once it has welcomed member 1. */
  const TOLD: seq<Op<nat>> := [KeyBundle(0), App(0, 0), AddAuth(0, 1), AddSpace(0, 1)]

  lemma LeaderTakesBundle()
    ensures H.Delivered(Leader({}, [KeyBundle(0), App(0, 0)], [0], 0, []), 1, KeyBundle(1))
         == Leader({1}, TOLD, [0], 1, [])
  {
    var g := Leader({}, [], [], 0, []).t.g;
    var events: seq<Event<nat>> := [Bundle(1)];
    assert Bundles(events) == {1} by { assert events[0] == Bundle(1); }
    var g1 := g.(known := {} + {1});
    assert [0, 1][1..] == [1] && Eligible(g1, [1][1..]) == [];
    assert Eligible(g1, [1]) == [1] && Eligible(g1, [0, 1]) == [1];
    assert WelcomeOps<nat>(0, [1]) == [AddAuth(0, 1), AddSpace(0, 1)] by { assert WelcomeOps<nat>(0, [1][1..]) == []; }
  }

  /** Member 1 once it has read `i` operations of the leader, the welcome not among them. */
  function Reader(i: nat): H.Member<nat> {
    Waiting(if i == 0 then {} else {0}, if i < 2 then [] else [0], Some(1), [0, 2, 1], i)
  }

  /** Member 1 after its welcome, which flushed what waited. */
  const FLUSHED: H.Member<nat> :=
    var g := Group(1, false, Space({1}, [], false), [0, 1], true, {}, {0}, None);
    H.Member(Trace(g, [KeyBundle(1), App(1, 1)], [0, 2, 1]), map[0 := 4], [0])

  lemma MemberReads()
    ensures H.Delivered(Reader(0), 0, TOLD[0]) == Reader(1)
    ensures H.Delivered(Reader(1), 0, TOLD[1]) == Reader(2)
    ensures H.Delivered(Reader(2), 0, TOLD[2]) == Reader(3)
    ensures H.Delivered(Reader(3), 0, TOLD[3]) == FLUSHED
  {
    var events: seq<Event<nat>> := [Bundle(0)];
    assert Bundles(events) == {0} by { assert events[0] == Bundle(0); }
    assert [] + [0] == [0];
    PayloadsOfApplications([0]);
  }

  lemma LeaderTakesState()
    ensures H.Delivered(Leader({1}, TOLD, [0], 1, []), 1, App(1, 1)) == Leader({1}, TOLD, [0], 2, [1])
  {
    var n := Leader({1}, TOLD, [0], 1, []);
    assert [0, 1][1..] == [1] && Eligible(n.t.g, [1][1..]) == [];
    assert Eligible(n.t.g, [1]) == [] && Eligible(n.t.g, [0, 1]) == [];
    var events: seq<Event<nat>> := [Application(1)];
    assert Bundles(events) == {};
    assert Payloads(events) == [1] by { assert Payloads(events[1..]) == []; }
    AddedSnoc(n.t.g, [], 0);
    assert {1} + {} == {1} && n.t.sent + ([] + []) == n.t.sent;
  }

  const C := H.Config(0, 0)

  /** The leader and member 1. */
  function Both(n0: H.Member<nat>, c0: Cell<nat>, n1: H.Member<nat>, c1: Cell<nat>): World<nat> {
    World(map[0 := n0, 1 := n1], map[0 := c0, 1 := c1])
  }

  lemma Opens() returns (acts: seq<Act<nat>>)
    ensures Run(C, Max, acts) == Some(Both(Leader({}, [KeyBundle(0)], [], 0, []), Cell(0, [0], {0}, 0),
                                           Waiting({}, [], None, [], 0), Cell(0, [0], {0}, 0)))
  {
    var w := World(map[], map[]);
    acts := [];
    acts, w := OneMoreAct(C, Max, acts, w, Begin(0, [0, 1], 0));
    assert {0} + {} == {0};
    assert Opened<nat>(0, [0, 1], 0).1 == [KeyBundle(0)] + [];
    assert w.net[0] == Leader({}, [KeyBundle(0)], [], 0, []);
    assert 0 in [0, 1] && !Smallest(1, [0, 1]);
    acts, w := OneMoreAct(C, Max, acts, w, Begin(1, [0, 1], 0));
    assert w.net[1] == Waiting({}, [], None, [], 0);
  }

  lemma Replaced<T>(x: T, y: T, z: T)
    ensures map[0 := x, 1 := y][0 := z] == map[0 := z, 1 := y]
    ensures map[0 := x, 1 := y][1 := z] == map[0 := x, 1 := z]
  {
  }

  lemma Hand0(n0: H.Member<nat>, c0: Cell<nat>, n1: H.Member<nat>, c1: Cell<nat>, k: nat, t: Trace<nat>)
    requires k < |c0.outbox| && t == Step(n0.t, Publish(c0.outbox[k]))
    ensures var w := Both(n0, c0, n1, c1);
      && Enabled(C, w, HandOver(0, k))
      && Next(C, Max, w, HandOver(0, k)) == Both(n0.(t := t), c0.(outbox := WithoutAt(c0.outbox, k)), n1, c1)
  {
    Replaced(n0, n1, n0.(t := t));
    Replaced(c0, c1, c0.(outbox := WithoutAt(c0.outbox, k)));
  }

  lemma Hand1(n0: H.Member<nat>, c0: Cell<nat>, n1: H.Member<nat>, c1: Cell<nat>, k: nat, t: Trace<nat>)
    requires k < |c1.outbox| && t == Step(n1.t, Publish(c1.outbox[k]))
    ensures var w := Both(n0, c0, n1, c1);
      && Enabled(C, w, HandOver(1, k))
      && Next(C, Max, w, HandOver(1, k)) == Both(n0, c0, n1.(t := t), c1.(outbox := WithoutAt(c1.outbox, k)))
  {
    Replaced(n0, n1, n1.(t := t));
    Replaced(c0, c1, c1.(outbox := WithoutAt(c1.outbox, k)));
  }

  lemma Deliver0(n0: H.Member<nat>, c0: Cell<nat>, n1: H.Member<nat>, c1: Cell<nat>, n: H.Member<nat>)
    requires n0.Cursor(1) < |n1.t.sent| && n == H.Delivered(n0, 1, n1.t.sent[n0.Cursor(1)])
    ensures var w := Both(n0, c0, n1, c1);
      Enabled(C, w, Deliver(0, 1)) && Next(C, Max, w, Deliver(0, 1)) == Both(n, c0, n1, c1)
  {
    Replaced(n0, n1, n);
  }

  lemma Deliver1(n0: H.Member<nat>, c0: Cell<nat>, n1: H.Member<nat>, c1: Cell<nat>, n: H.Member<nat>)
    requires n1.Cursor(0) < |n0.t.sent| && n == H.Delivered(n1, 0, n0.t.sent[n1.Cursor(0)])
    ensures var w := Both(n0, c0, n1, c1);
      Enabled(C, w, Deliver(1, 0)) && Next(C, Max, w, Deliver(1, 0)) == Both(n0, c0, n, c1)
  {
    Replaced(n0, n1, n);
  }

  /** Before anything is delivered: member 1 has handed over `handed`, and its cell is `c1`. */
  function Before(handed: seq<nat>, c1: Cell<nat>): World<nat> {
    var pending := if handed == [] then None else Some(handed[|handed| - 1]);
    Both(Leader({}, [KeyBundle(0)], [], 0, []), Cell(0, [0], {0}, 0), Waiting({}, [], pending, handed, 0), c1)
  }

  lemma AppliesOne(acts: seq<Act<nat>>, handed: seq<nat>, c1: Cell<nat>, d: nat) returns (more: seq<Act<nat>>)
    requires Run(C, Max, acts) == Some(Before(handed, c1)) && c1.value < d
    ensures Run(C, Max, more) == Some(Before(handed, Cell(d, c1.outbox + [d], c1.own + {d}, c1.read)))
  {
    var w := Before(handed, c1);
    Replaced(w.cells[0], c1, Cell(d, c1.outbox + [d], c1.own + {d}, c1.read));
    more, w := OneMoreAct(C, Max, acts, w, Apply(1, d));
  }

  lemma HandsOne(acts: seq<Act<nat>>, handed: seq<nat>, c1: Cell<nat>, k: nat) returns (more: seq<Act<nat>>)
    requires Run(C, Max, acts) == Some(Before(handed, c1)) && k < |c1.outbox|
    ensures Run(C, Max, more) ==
      Some(Before(handed + [c1.outbox[k]], c1.(outbox := WithoutAt(c1.outbox, k))))
  {
    var w := Before(handed, c1);
    var n1 := w.net[1];
    var t := Step(n1.t, Publish(c1.outbox[k]));
    assert n1.t.sent + [] == n1.t.sent;
    assert n1.(t := t) == Waiting({}, [], Some(c1.outbox[k]), handed + [c1.outbox[k]], 0);
    Hand1(w.net[0], w.cells[0], n1, c1, k, t);
    more, w := OneMoreAct(C, Max, acts, w, HandOver(1, k));
  }

  /** Member 1 announces its initial state; then of two nested merges the inner one publishes first. */
  lemma MergesNested() returns (acts: seq<Act<nat>>)
    ensures Run(C, Max, acts) == Some(Before([0, 2, 1], Cell(2, [], {0, 1, 2}, 0)))
  {
    acts := Opens();
    acts := HandsOne(acts, [], Cell(0, [0], {0}, 0), 0);
    assert [] + [0] == [0] && WithoutAt([0], 0) == [];
    acts := AppliesOne(acts, [0], Cell(0, [], {0}, 0), 1);
    assert [] + [1] == [1];
    acts := AppliesOne(acts, [0], Cell(1, [1], {0} + {1}, 0), 2);
    assert [1] + [2] == [1, 2] && {0} + {1} + {2} == {0, 1, 2};
    acts := HandsOne(acts, [0], Cell(2, [1, 2], {0, 1, 2}, 0), 1);
    assert [0] + [2] == [0, 2] && WithoutAt([1, 2], 1) == [1];
    acts := HandsOne(acts, [0, 2], Cell(2, [1], {0, 1, 2}, 0), 0);
    assert [0, 2] + [1] == [0, 2, 1] && WithoutAt([1], 0) == [];
  }

  lemma HandsOver() returns (acts: seq<Act<nat>>)
    ensures Run(C, Max, acts) == Some(Both(Leader({}, [KeyBundle(0), App(0, 0)], [0], 0, []), Cell(0, [], {0}, 0),
                                           Reader(0), Cell(2, [], {0, 1, 2}, 0)))
  {
    acts := MergesNested();
    var w := Before([0, 2, 1], Cell(2, [], {0, 1, 2}, 0));
    var n0, n1 := w.net[0], w.net[1];
    assert [] + [0] == [0] && [KeyBundle(0)] + [App(0, 0)] == [KeyBundle(0), App(0, 0)];
    var t := Trace(n0.t.g, [KeyBundle(0), App(0, 0)], [0]);
    assert Step(n0.t, Publish(0)) == t && WithoutAt([0], 0) == [] && n1 == Reader(0);
    Hand0(n0, w.cells[0], n1, w.cells[1], 0, t);
    acts, w := OneMoreAct(C, Max, acts, w, HandOver(0, 0));
  }

  lemma Reads(acts: seq<Act<nat>>, n0: H.Member<nat>, c0: Cell<nat>, n1: H.Member<nat>, c1: Cell<nat>,
              n: H.Member<nat>) returns (more: seq<Act<nat>>)
    requires Run(C, Max, acts) == Some(Both(n0, c0, n1, c1))
    requires n1.Cursor(0) < |n0.t.sent| && n == H.Delivered(n1, 0, n0.t.sent[n1.Cursor(0)])
    ensures Run(C, Max, more) == Some(Both(n0, c0, n, c1))
  {
    var w := Both(n0, c0, n1, c1);
    Deliver1(n0, c0, n1, c1, n);
    more, w := OneMoreAct(C, Max, acts, w, Deliver(1, 0));
  }

  lemma LeaderReads(acts: seq<Act<nat>>, n0: H.Member<nat>, c0: Cell<nat>, n1: H.Member<nat>, c1: Cell<nat>,
                    n: H.Member<nat>) returns (more: seq<Act<nat>>)
    requires Run(C, Max, acts) == Some(Both(n0, c0, n1, c1))
    requires n0.Cursor(1) < |n1.t.sent| && n == H.Delivered(n0, 1, n1.t.sent[n0.Cursor(1)])
    ensures Run(C, Max, more) == Some(Both(n, c0, n1, c1))
  {
    var w := Both(n0, c0, n1, c1);
    Deliver0(n0, c0, n1, c1, n);
    more, w := OneMoreAct(C, Max, acts, w, Deliver(0, 1));
  }

  lemma Delivers() returns (acts: seq<Act<nat>>)
    ensures Run(C, Max, acts) == Some(Both(Leader({1}, TOLD, [0], 2, [1]), Cell(0, [], {0}, 0),
                                           FLUSHED, Cell(2, [], {0, 1, 2}, 0)))
  {
    acts := HandsOver();
    var n0, c0 := Leader({}, [KeyBundle(0), App(0, 0)], [0], 0, []), Cell(0, [], {0}, 0);
    var n2, c1 := Leader({1}, TOLD, [0], 1, []), Cell(2, [], {0, 1, 2}, 0);
    LeaderTakesBundle();
    MemberReads();
    LeaderTakesState();
    acts := LeaderReads(acts, n0, c0, Reader(0), c1, n2);
    acts := Reads(acts, n2, c0, Reader(0), c1, Reader(1));
    acts := Reads(acts, n2, c0, Reader(1), c1, Reader(2));
    acts := Reads(acts, n2, c0, Reader(2), c1, Reader(3));
    acts := Reads(acts, n2, c0, Reader(3), c1, FLUSHED);
    acts := LeaderReads(acts, n2, c0, FLUSHED, c1, Leader({1}, TOLD, [0], 2, [1]));
  }

  lemma Merges() returns (acts: seq<Act<nat>>)
    ensures Run(C, Max, acts) == Some(Both(Leader({1}, TOLD, [0], 2, [1]), Cell(1, [], {0}, 1),
                                           FLUSHED, Cell(2, [], {0, 1, 2}, 1)))
  {
    acts := Delivers();
    var n0, c0 := Leader({1}, TOLD, [0], 2, [1]), Cell(0, [], {0}, 0);
    var n1, c1 := FLUSHED, Cell(2, [], {0, 1, 2}, 0);
    var w := Both(n0, c0, n1, c1);
    Replaced(c0, c1, Cell(1, [], {0}, 1));
    acts, w := OneMoreAct(C, Max, acts, w, Merge(0));
    assert w == Both(n0, Cell(1, [], {0}, 1), n1, c1);
    Replaced(Cell(1, [], {0}, 1), c1, c1.(read := 1));
    acts, w := OneMoreAct(C, Max, acts, w, Merge(1));
  }

  /** Before its welcome member 1 merges 1 and, from inside the wake of that, 2, which it so hands over first.
      When all is quiet it alone has the 2. */
  lemma ANestedMergeIsLost() returns (acts: seq<Act<nat>>)
    ensures Semilattice(Max) && Run(C, Max, acts).Some? && !AllGrow(C, Max, acts)
    ensures var w := Run(C, Max, acts).value;
      && Quiescent(w) && Insiders(C, w) == {0, 1}
      && w.cells[0].value == 1 && w.cells[1].value == 2 && 2 in w.cells[1].own
  {
    acts := Merges();
    var w := Run(C, Max, acts).value;
    assert Insiders(C, w) == {0, 1};
    if AllGrow(C, Max, acts) { QuietSignalsAgree(C, Max, acts); }
  }
}
