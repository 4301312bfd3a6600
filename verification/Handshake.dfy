/** The choreography of a whole group: members open the group, each with a listing of its own, in which one
    and the same member elects itself; members are declared later too; and operations reach each other
    member over one first-in-first-out queue per author, in any interleaving. */
module Handshake {
  import opened Lattice
  import opened EncryptedGroups
  import opened GroupBookkeeping
  import opened GroupBuffering
  import opened Wrappers

  /** A member: its group object, how far it has read each author's log, what it decrypted. */
  datatype Member<+D> = Member(t: Trace<D>, cursors: map<Actor, nat>, decrypted: seq<D>)
  {
    function Cursor(a: Actor): nat {
      if a in cursors then cursors[a] else 0
    }
  }

  type Net<+D> = map<Actor, Member<D>>

  datatype Move<+D> =
    | Open(b: Actor, listing: seq<Actor>)
    | Hand(b: Actor, data: D)
    | Declare(b: Actor, m: Actor)
    | Deliver(b: Actor, a: Actor)

  /** Who leads, and how many operations creating a space takes. */
  datatype Config = Config(leader: Actor, parts: nat)

  /** By their listings, the leader elects itself and the others do not. Listings of one shared set do that for
      its least member (`OneSetElectsOne`); the others' may be any. */
  predicate Enabled<D>(c: Config, net: Net<D>, move: Move<D>) {
    match move
    case Open(b, listing) =>
      b !in net && (Smallest(b, listing) <==> b == c.leader) && (b == c.leader ==> NoPeerTwice(b, listing))
    case Hand(b, _) => b in net
    case Declare(b, _) => b in net
    case Deliver(b, a) => b in net && a in net && a != b && net[b].Cursor(a) < |net[a].t.sent|
  }

  lemma OneSetElectsOne(b: Actor, listing: seq<Actor>, everyone: set<Actor>, leader: Actor)
    requires SetOf(listing) == everyone && leader in everyone && forall m <- everyone :: leader <= m
    ensures Smallest(b, listing) <==> b == leader
  {
    assert forall m :: m in listing <==> m in SetOf(listing);
  }

  function Decrypts<D(==)>(g: Group<D>, op: Op<D>): seq<D> {
    var out := Received(g, Encoded(op)).1;
    if out.Ok? then out.value.decrypted else []
  }

  function Delivered<D(==)>(n: Member<D>, a: Actor, op: Op<D>): Member<D> {
    Member(Step(n.t, Receive(Encoded(op))), n.cursors[a := n.Cursor(a) + 1], n.decrypted + Decrypts(n.t.g, op))
  }

  function Next<D(==)>(c: Config, net: Net<D>, move: Move<D>): Net<D>
    requires Enabled(c, net, move)
  {
    match move
    case Open(b, listing) => net[b := Member(Calls(b, listing, c.parts, []), map[], [])]
    case Hand(b, d) => net[b := net[b].(t := Step(net[b].t, Publish(d)))]
    case Declare(b, m) => net[b := net[b].(t := Step(net[b].t, AddMember(m)))]
    case Deliver(b, a) => net[b := Delivered(net[b], a, net[a].t.sent[net[b].Cursor(a)])]
  }

  function Run<D(==)>(c: Config, moves: seq<Move<D>>): Option<Net<D>> {
    if moves == [] then Some(map[])
    else
      var before := Run(c, moves[..|moves| - 1]);
      var move := moves[|moves| - 1];
      if before.Some? && Enabled(c, before.value, move) then Some(Next(c, before.value, move)) else None
  }

  // ---- One member ----

  predicate FromBundle<D>(op: Op<D>, b: Actor, leads: bool) {
    op.author == b && (op.App? || (leads && (op.Create? || op.AddAuth? || op.AddSpace?)))
  }

  ghost predicate GoodLog<D>(sent: seq<Op<D>>, b: Actor, leads: bool) {
    && |sent| > 0 && sent[0] == KeyBundle(b)
    && forall i | 1 <= i < |sent| :: FromBundle(sent[i], b, leads)
  }

  /** What holds of member `b` on its own. */
  ghost predicate GoodNode<D>(c: Config, b: Actor, n: Member<D>) {
    var g := n.t.g;
    && g.me == b && (g.creator <==> b == c.leader)
    && !g.space.revoked
    && GoodLog(n.t.sent, b, b == c.leader)
    && (g.welcomed <==> b in g.space.members)
    && (g.welcomed ==> g.pending.None? && g.space.held == [])
    && (b == c.leader ==> g.welcomed)
    && (!g.welcomed ==> Apps(n.t.sent) == [] && n.decrypted == [])
    && (b == c.leader ==> Booked(g) && b in g.added && b in g.members && NoPeerTwice(b, g.members))
  }

  /** Its log is as long as what it was handed and, for the leader, whom it welcomed. */
  ghost predicate Counted<D>(c: Config, b: Actor, t: Trace<D>) {
    && |t.sent| == |Apps(t.sent)| + 1 + (if b == c.leader then c.parts + 2 * |t.g.added - {b}| else 0)
    && |Outgoing(t)| <= |t.handed|
  }

  lemma OpenedIsGood<D>(c: Config, b: Actor, listing: seq<Actor>)
    requires Smallest(b, listing) <==> b == c.leader
    requires b == c.leader ==> NoPeerTwice(b, listing)
    ensures var n: Member<D> := Member(Calls(b, listing, c.parts, []), map[], []);
      GoodNode(c, b, n) && Counted(c, b, n.t)
  {
    var t := Calls<D>(b, listing, c.parts, []);
    NoApps(t.sent);
    assert b == c.leader ==> t.g.added - {b} == {};
  }

  lemma HandedIsGood<D>(c: Config, b: Actor, n: Member<D>, d: D)
    requires GoodNode(c, b, n) && Counted(c, b, n.t)
    ensures GoodNode(c, b, n.(t := Step(n.t, Publish(d)))) && Counted(c, b, Step(n.t, Publish(d)))
  {
    var t := Step(n.t, Publish(d));
    CallOutgoing(n.t, Publish(d));
    assert t.sent == if n.t.g.welcomed then n.t.sent + [App(b, d)] else n.t.sent by {
      assert n.t.sent + [] == n.t.sent;
    }
    AppsConcat(n.t.sent, [App(b, d)]);
    assert Apps([App(b, d)]) == [d] by { assert [App(b, d)][..0] == []; }
  }

  /** A view that was never removed takes any operation but a removal, and only grows. */
  lemma ProcessGrows<D>(s: Space<D>, me: Actor, op: Op<D>)
    requires !s.revoked && !op.RemoveSpace? && (op.Create? ==> op.author != me)
    requires me in s.members ==> s.held == []
    ensures Process(s, me, op).Ok?
    ensures var after := Process(s, me, op).value.0;
      && !after.revoked && s.members <= after.members
      && (me in after.members ==> after.held == [])
  {
  }

  /** How a member that does not lead takes an operation: nothing to welcome, perhaps a flush. */
  lemma FollowerReceives<D>(t: Trace<D>, op: Op<D>)
    requires !t.g.creator && Process(t.g.space, t.g.me, op).Ok?
    ensures var (space, events) := Process(t.g.space, t.g.me, op).value; var u := Step(t, Receive(Encoded(op)));
      && u.handed == t.handed && Decrypts(t.g, op) == Payloads(events)
      && u.g == t.g.(space := space, known := u.g.known, welcomed := t.g.welcomed || t.g.me in space.members,
                     pending := if !t.g.welcomed && t.g.me in space.members then None else t.g.pending)
      && u.sent == t.sent + if !t.g.welcomed && t.g.me in space.members && t.g.pending.Some?
                              then [App(t.g.me, t.g.pending.value)] else []
  {
    assert t.sent + [] == t.sent;
  }

  lemma AppendKeepsLog<D>(sent: seq<Op<D>>, more: seq<Op<D>>, b: Actor, leads: bool)
    requires GoodLog(sent, b, leads) && forall op <- more :: FromBundle(op, b, leads)
    ensures GoodLog(sent + more, b, leads)
  {
  }

  lemma FollowerIsGood<D>(c: Config, b: Actor, n: Member<D>, a: Actor, op: Op<D>)
    requires GoodNode(c, b, n) && b != c.leader && !op.RemoveSpace?
    requires op.Create? ==> op.author != b
    ensures GoodNode(c, b, Delivered(n, a, op))
  {
    ProcessGrows(n.t.g.space, b, op);
    FollowerReceives(n.t, op);
    var t := Delivered(n, a, op).t;
    if t.sent != n.t.sent {
      AppendKeepsLog(n.t.sent, [App(b, n.t.g.pending.value)], b, false);
    }
  }

  lemma FollowerIsCounted<D>(c: Config, b: Actor, n: Member<D>, a: Actor, op: Op<D>)
    requires GoodNode(c, b, n) && Counted(c, b, n.t) && b != c.leader && !op.RemoveSpace?
    requires op.Create? ==> op.author != b
    ensures Counted(c, b, Delivered(n, a, op).t)
  {
    ProcessGrows(n.t.g.space, b, op);
    FollowerReceives(n.t, op);
    CallOutgoing(n.t, Receive(Encoded(op)));
    var t := Delivered(n, a, op).t;
    if t.sent != n.t.sent {
      var flush := [App(b, n.t.g.pending.value)];
      AppsConcat(n.t.sent, flush);
      assert Apps(flush) == [n.t.g.pending.value] by { assert flush[..0] == []; }
    }
  }

  lemma {:induction false} WelcomeLength<D>(me: Actor, ms: seq<Actor>)
    ensures |WelcomeOps<D>(me, ms)| == 2 * |ms|
    ensures forall op <- WelcomeOps<D>(me, ms) :: op.author == me && (op.AddAuth? || op.AddSpace?)
    ensures forall m :: AddSpace(me, m) in WelcomeOps<D>(me, ms) <==> m in ms
    decreases |ms|
  {
    if ms != [] {
      WelcomeLength<D>(me, ms[1..]);
      assert ms == [ms[0]] + ms[1..];
    }
  }

  lemma {:induction false} DistinctSize(ms: seq<Actor>)
    requires NoDuplicates(ms)
    ensures |SetOf(ms)| == |ms|
    decreases |ms|
  {
    if ms != [] {
      DistinctSize(ms[1..]);
      assert ms == [ms[0]] + ms[1..];
      assert ms[0] !in ms[1..];
      assert SetOf(ms) == {ms[0]} + SetOf(ms[1..]);
    }
  }

  function Learned<D(==)>(g: Group<D>, op: Op<D>): Group<D>
    requires Process(g.space, g.me, op).Ok?
  {
    var (space, events) := Process(g.space, g.me, op).value;
    g.(space := space, known := g.known + Bundles(events))
  }

  /** What the leader's group may become before it welcomes whoever has become eligible. */
  ghost predicate Widens<D>(g: Group<D>, g1: Group<D>) {
    && g1 == g.(space := g1.space, members := g1.members, known := g1.known)
    && g.space.members <= g1.space.members && g1.space.held == [] && !g1.space.revoked
    && SetOf(g.members) <= SetOf(g1.members) && NoPeerTwice(g.me, g1.members)
    && g.known <= g1.known
  }

  function Round<D>(t: Trace<D>, g1: Group<D>): Trace<D> {
    var ms := Eligible(g1, g1.members);
    Trace(Added(g1, ms), t.sent + WelcomeOps(g1.me, ms), t.handed)
  }

  /** How the leader takes an operation, a round of welcomes included. */
  lemma LeaderReceives<D>(t: Trace<D>, op: Op<D>)
    requires t.g.creator && t.g.welcomed && Process(t.g.space, t.g.me, op).Ok?
    ensures Step(t, Receive(Encoded(op))) == Round(t, Learned(t.g, op))
    ensures Decrypts(t.g, op) == Payloads(Process(t.g.space, t.g.me, op).value.1)
    ensures Learned(t.g, op).known == t.g.known + (if op.KeyBundle? then {op.author} else {})
  {
    var g1 := Learned(t.g, op);
    var ops := WelcomeOps<D>(t.g.me, Eligible(g1, g1.members));
    assert ops + [] == ops;
    var events := Process(t.g.space, t.g.me, op).value.1;
    assert op.KeyBundle? ==> events[0] == Bundle(op.author);
    assert !op.KeyBundle? ==> forall e <- events :: e.Application?;
  }

  lemma LearnedWidens<D>(c: Config, n: Member<D>, op: Op<D>)
    requires GoodNode(c, c.leader, n) && !op.RemoveSpace? && (op.Create? ==> op.author != c.leader)
    ensures Process(n.t.g.space, c.leader, op).Ok? && Widens(n.t.g, Learned(n.t.g, op))
  {
    ProcessGrows(n.t.g.space, c.leader, op);
  }

  function Declaring<D>(g: Group<D>, m: Actor): Group<D> {
    if m in g.members then g else g.(members := g.members + [m])
  }

  lemma DeclaringWidens<D>(c: Config, n: Member<D>, m: Actor)
    requires GoodNode(c, c.leader, n)
    ensures Widens(n.t.g, Declaring(n.t.g, m)) && Step(n.t, AddMember(m)) == Round(n.t, Declaring(n.t.g, m))
  {
  }

  /** A round keeps the leader good and counted, and logs whom it adds. */
  lemma LeaderRound<D>(c: Config, n: Member<D>, g1: Group<D>, cursors: map<Actor, nat>, decrypted: seq<D>)
    requires GoodNode(c, c.leader, n) && Widens(n.t.g, g1)
    ensures GoodNode(c, c.leader, Member(Round(n.t, g1), cursors, decrypted))
    ensures AddsLogged(c, n.t) ==> AddsLogged(c, Round(n.t, g1))
    ensures Counted(c, c.leader, n.t) ==> Counted(c, c.leader, Round(n.t, g1))
  {
    var ms := Eligible(g1, g1.members);
    assert forall m <- n.t.g.members :: m in SetOf(n.t.g.members);
    assert forall m <- SetOf(n.t.g.members) :: m in SetOf(g1.members);
    WelcomeBooks(g1);
    WelcomeLength<D>(c.leader, ms);
    AppendKeepsLog(n.t.sent, WelcomeOps(c.leader, ms), c.leader, true);
    if Counted(c, c.leader, n.t) {
      NoApps(WelcomeOps<D>(c.leader, ms));
      AppsConcat(n.t.sent, WelcomeOps(c.leader, ms));
      WelcomesAreNew(g1);
    }
  }

  /** One round of welcomes adds as many peers as it lists. */
  lemma WelcomesAreNew<D>(g: Group<D>)
    requires NoPeerTwice(g.me, g.members)
    ensures var ms := Eligible(g, g.members); |(g.added + SetOf(ms)) - {g.me}| == |g.added - {g.me}| + |ms|
  {
    var ms := Eligible(g, g.members);
    EligibleMembers(g, g.members);
    DistinctSize(ms);
    assert (g.added + SetOf(ms)) - {g.me} == (g.added - {g.me}) + SetOf(ms);
    assert (g.added - {g.me}) !! SetOf(ms);
  }

  // ---- One member reading another's log ----

  function Log<D>(net: Net<D>, a: Actor): seq<Op<D>> {
    if a in net then net[a].t.sent else []
  }

  /** What `b` has made of the part of `a`'s log it has read. */
  ghost predicate Linked<D>(c: Config, b: Actor, n: Member<D>, a: Actor, log: seq<Op<D>>) {
    var g := n.t.g;
    && n.Cursor(a) <= |log|
    && (forall i | 0 <= i < n.Cursor(a) && log[i].App? :: log[i].data in n.decrypted || log[i].data in g.space.held)
    && (b == c.leader ==> (a in g.known <==> n.Cursor(a) > 0))
    && (a == c.leader ==> (b in g.space.members <==> AddSpace(a, b) in log[..n.Cursor(a)]))
  }

  lemma LinkedIsFramed<D>(c: Config, b: Actor, n: Member<D>, a: Actor, log: seq<Op<D>>, more: seq<Op<D>>)
    requires Linked(c, b, n, a, log) && log <= more
    ensures Linked(c, b, n, a, more)
  {
    assert more[..n.Cursor(a)] == log[..n.Cursor(a)];
  }

  /** The leader has added exactly the members its log welcomes. */
  ghost predicate AddsLogged<D>(c: Config, t: Trace<D>) {
    forall m | m != c.leader :: m in t.g.added <==> AddSpace(c.leader, m) in t.sent
  }

  ghost predicate AllLinked<D>(c: Config, net: Net<D>) {
    forall b <- net, a: Actor | a != b :: Linked(c, b, net[b], a, Log(net, a))
  }

  ghost predicate Inv<D>(c: Config, net: Net<D>) {
    && (forall b <- net :: GoodNode(c, b, net[b]) && Counted(c, b, net[b].t))
    && AllLinked(c, net)
    && (c.leader in net ==> AddsLogged(c, net[c.leader].t))
  }

  /** Only `b` changes, and its log only grows. */
  lemma InstallKeepsLinks<D>(c: Config, net: Net<D>, b: Actor, n: Member<D>)
    requires AllLinked(c, net) && Log(net, b) <= n.t.sent
    requires forall a: Actor | a != b :: Linked(c, b, n, a, Log(net, a))
    ensures AllLinked(c, net[b := n])
  {
    var next := net[b := n];
    forall x <- next, a: Actor | a != x ensures Linked(c, x, next[x], a, Log(next, a)) {
      assert Linked(c, x, next[x], a, Log(net, a));
      LinkedIsFramed(c, x, next[x], a, Log(net, a), Log(next, a));
    }
  }

  lemma OpenKeepsInv<D>(c: Config, net: Net<D>, b: Actor, listing: seq<Actor>)
    requires Inv(c, net) && Enabled(c, net, Open(b, listing))
    ensures Inv(c, Next(c, net, Open(b, listing)))
  {
    var n := Next(c, net, Open(b, listing))[b];
    OpenedIsGood<D>(c, b, listing);
    forall a: Actor | a != b ensures Linked(c, b, n, a, Log(net, a)) {
      if a == c.leader { assert b !in n.t.g.space.members; }
    }
    InstallKeepsLinks(c, net, b, n);
    OpenLogsNoAdds(c, net, b, listing);
  }

  lemma OpenLogsNoAdds<D>(c: Config, net: Net<D>, b: Actor, listing: seq<Actor>)
    requires Enabled(c, net, Open(b, listing))
    ensures b == c.leader ==> AddsLogged(c, Next(c, net, Open(b, listing))[b].t)
  {
    var t := Next(c, net, Open(b, listing))[b].t;
    assert forall op <- t.sent :: !op.AddSpace?;
    assert t.g.added <= {b};
  }

  lemma HandKeepsInv<D>(c: Config, net: Net<D>, b: Actor, d: D)
    requires Inv(c, net) && b in net
    ensures Inv(c, Next(c, net, Hand(b, d)))
  {
    var n := net[b].(t := Step(net[b].t, Publish(d)));
    HandedIsGood(c, b, net[b], d);
    assert net[b].t.sent <= n.t.sent;
    forall a: Actor | a != b ensures Linked(c, b, n, a, Log(net, a)) {
      assert Linked(c, b, net[b], a, Log(net, a));
      HandedStaysLinked(c, b, net[b], d, a, Log(net, a));
    }
    InstallKeepsLinks(c, net, b, n);
  }

  lemma HandedStaysLinked<D>(c: Config, b: Actor, n: Member<D>, d: D, a: Actor, log: seq<Op<D>>)
    requires Linked(c, b, n, a, log)
    ensures Linked(c, b, n.(t := Step(n.t, Publish(d))), a, log)
  {
  }

  lemma DeclaredIsGood<D>(c: Config, b: Actor, n: Member<D>, m: Actor)
    requires GoodNode(c, b, n) && Counted(c, b, n.t) && (b == c.leader ==> AddsLogged(c, n.t))
    ensures var t := Step(n.t, AddMember(m));
      && GoodNode(c, b, n.(t := t)) && Counted(c, b, t) && (b == c.leader ==> AddsLogged(c, t))
      && n.t.sent <= t.sent
  {
    if b == c.leader {
      DeclaringWidens(c, n, m);
      LeaderRound(c, n, Declaring(n.t.g, m), n.cursors, n.decrypted);
    } else {
      assert n.t.sent + [] == n.t.sent;
    }
  }

  lemma DeclaredStaysLinked<D>(c: Config, b: Actor, n: Member<D>, m: Actor, a: Actor, log: seq<Op<D>>)
    requires GoodNode(c, b, n) && Linked(c, b, n, a, log)
    ensures a != b ==> Linked(c, b, n.(t := Step(n.t, AddMember(m))), a, log)
  {
  }

  lemma DeclareKeepsInv<D>(c: Config, net: Net<D>, b: Actor, m: Actor)
    requires Inv(c, net) && b in net
    ensures Inv(c, Next(c, net, Declare(b, m)))
  {
    var n := net[b].(t := Step(net[b].t, AddMember(m)));
    DeclaredIsGood(c, b, net[b], m);
    forall a: Actor | a != b ensures Linked(c, b, n, a, Log(net, a)) {
      assert Linked(c, b, net[b], a, Log(net, a));
      DeclaredStaysLinked(c, b, net[b], m, a, Log(net, a));
    }
    InstallKeepsLinks(c, net, b, n);
  }

  /** An operation of a good log, as its reader needs it. */
  lemma LogEntry<D>(c: Config, a: Actor, log: seq<Op<D>>, i: nat)
    requires GoodLog(log, a, a == c.leader) && i < |log|
    ensures !log[i].RemoveSpace? && log[i].author == a
    ensures log[i].KeyBundle? <==> i == 0
    ensures log[i].AddSpace? ==> a == c.leader
  {
  }

  /** Nothing decrypted or held is lost by processing; ciphertext is one or the other. */
  lemma ProcessKeepsData<D>(s: Space<D>, me: Actor, op: Op<D>)
    requires Process(s, me, op).Ok?
    ensures var (after, events) := Process(s, me, op).value; var got := Payloads(events);
      && (forall d <- s.held :: d in after.held || d in got)
      && (op.App? ==> op.data in after.held || op.data in got)
      && (forall d | d in after.held || d in got :: d in s.held || (op.App? && d == op.data))
  {
    PayloadsOfApplications(s.held);
    if op.App? && me in s.members {
      assert [Application(op.data)][1..] == [];
    }
  }

  /** What reading one more operation of `a` does to the reader's group, leader or not. */
  lemma ReaderLearns<D>(c: Config, b: Actor, n: Member<D>, a: Actor, op: Op<D>)
    requires GoodNode(c, b, n) && a != b && op.author == a && !op.RemoveSpace?
    ensures var after := Delivered(n, a, op); var (space, events) := Process(n.t.g.space, b, op).value;
      && n.t.sent <= after.t.sent
      && after.decrypted == n.decrypted + Payloads(events)
      && after.t.g.space.held == space.held
      && (b == c.leader ==> after.t.g.known == n.t.g.known + (if op.KeyBundle? then {a} else {}))
      && (b != c.leader ==> after.t.g.space.members == space.members)
  {
    ProcessGrows(n.t.g.space, b, op);
    if b == c.leader {
      LeaderReceives(n.t, op);
    } else {
      FollowerReceives(n.t, op);
    }
  }

  lemma DeliverLinks<D>(c: Config, b: Actor, n: Member<D>, a: Actor, log: seq<Op<D>>)
    requires GoodNode(c, b, n) && a != b
    requires GoodLog(log, a, a == c.leader) && n.Cursor(a) < |log| && Linked(c, b, n, a, log)
    ensures Linked(c, b, Delivered(n, a, log[n.Cursor(a)]), a, log)
  {
    var k := n.Cursor(a);
    var op := log[k];
    LogEntry(c, a, log, k);
    ProcessGrows(n.t.g.space, b, op);
    ReaderLearns(c, b, n, a, op);
    ProcessKeepsData(n.t.g.space, b, op);
    assert log[..k + 1] == log[..k] + [op];
  }

  /** Reading `a` leaves what was made of `x`'s log. */
  lemma DeliverLinksOther<D>(c: Config, b: Actor, n: Member<D>, a: Actor, log: seq<Op<D>>, x: Actor,
                             other: seq<Op<D>>)
    requires GoodNode(c, b, n) && a != b && x != b && x != a
    requires GoodLog(log, a, a == c.leader) && n.Cursor(a) < |log| && Linked(c, b, n, x, other)
    ensures Linked(c, b, Delivered(n, a, log[n.Cursor(a)]), x, other)
  {
    var op := log[n.Cursor(a)];
    LogEntry(c, a, log, n.Cursor(a));
    ProcessGrows(n.t.g.space, b, op);
    ReaderLearns(c, b, n, a, op);
    ProcessKeepsData(n.t.g.space, b, op);
  }

  lemma DeliverKeepsNode<D>(c: Config, net: Net<D>, b: Actor, a: Actor)
    requires Inv(c, net) && Enabled(c, net, Deliver(b, a))
    ensures var n := Next(c, net, Deliver(b, a))[b]; GoodNode(c, b, n) && Counted(c, b, n.t)
    ensures b == c.leader ==> AddsLogged(c, Next(c, net, Deliver(b, a))[b].t)
  {
    var n := net[b];
    var op := net[a].t.sent[n.Cursor(a)];
    LogEntry(c, a, net[a].t.sent, n.Cursor(a));
    if b == c.leader {
      LearnedWidens(c, n, op);
      LeaderReceives(n.t, op);
      LeaderRound(c, n, Learned(n.t.g, op), Delivered(n, a, op).cursors, Delivered(n, a, op).decrypted);
    } else {
      FollowerIsGood(c, b, n, a, op);
      FollowerIsCounted(c, b, n, a, op);
    }
  }

  lemma DeliverKeepsInv<D>(c: Config, net: Net<D>, b: Actor, a: Actor)
    requires Inv(c, net) && Enabled(c, net, Deliver(b, a))
    ensures Inv(c, Next(c, net, Deliver(b, a)))
  {
    DeliverKeepsNode(c, net, b, a);
    DeliverKeepsLinks(c, net, b, a);
  }

  lemma DeliverLinksAll<D>(c: Config, net: Net<D>, b: Actor, a: Actor)
    requires AllLinked(c, net) && Enabled(c, net, Deliver(b, a))
    requires GoodNode(c, b, net[b]) && GoodNode(c, a, net[a])
    ensures var n := Delivered(net[b], a, net[a].t.sent[net[b].Cursor(a)]);
      && net[b].t.sent <= n.t.sent
      && forall y: Actor | y != b :: Linked(c, b, n, y, Log(net, y))
  {
    var log := net[a].t.sent;
    var k := net[b].Cursor(a);
    LogEntry(c, a, log, k);
    ReaderLearns(c, b, net[b], a, log[k]);
    var n := Delivered(net[b], a, log[k]);
    assert Linked(c, b, net[b], a, Log(net, a));
    forall y: Actor | y != b ensures Linked(c, b, n, y, Log(net, y)) {
      if y == a { DeliverLinks(c, b, net[b], a, log); }
      else { DeliverLinksOther(c, b, net[b], a, log, y, Log(net, y)); }
    }
  }

  lemma DeliverKeepsLinks<D>(c: Config, net: Net<D>, b: Actor, a: Actor)
    requires Inv(c, net) && Enabled(c, net, Deliver(b, a))
    ensures AllLinked(c, Next(c, net, Deliver(b, a)))
  {
    DeliverLinksAll(c, net, b, a);
    InstallKeepsLinks(c, net, b, Delivered(net[b], a, net[a].t.sent[net[b].Cursor(a)]));
  }

  lemma {:induction false} RunKeepsInv<D>(c: Config, moves: seq<Move<D>>)
    requires Run(c, moves).Some?
    ensures Inv(c, Run(c, moves).value)
    decreases |moves|
  {
    if moves != [] {
      RunKeepsInv(c, moves[..|moves| - 1]);
      var before := Run(c, moves[..|moves| - 1]).value;
      match moves[|moves| - 1]
      case Open(b, listing) => OpenKeepsInv(c, before, b, listing);
      case Hand(b, d) => HandKeepsInv(c, before, b, d);
      case Declare(b, m) => DeclareKeepsInv(c, before, b, m);
      case Deliver(b, a) => DeliverKeepsInv(c, before, b, a);
    }
  }

  // ---- The results ----

  /** Whom the leader has declared. */
  function Declared<D>(c: Config, net: Net<D>): set<Actor> {
    if c.leader in net then SetOf(net[c.leader].t.g.members) else {}
  }

  /** In every reachable state: one creator, the leader; nobody is welcomed without having read its welcome, nor
      has emitted or decrypted anything before; only declared members are welcomed; and logs are bounded by
      how many are declared and what their owners were handed. */
  lemma HandshakeIsSafe<D>(c: Config, moves: seq<Move<D>>, b: Actor)
    requires Run(c, moves).Some? && b in Run(c, moves).value
    ensures var net := Run(c, moves).value; var n := net[b]; var t := n.t;
      && (t.g.creator <==> b == c.leader)
      && (Apps(t.sent) != [] || n.decrypted != [] ==> t.g.welcomed)
      && (t.g.welcomed ==> t.g.pending.None? && b in Declared(c, net))
      && (b != c.leader ==> n.Cursor(c.leader) <= |Log(net, c.leader)|)
      && (b != c.leader ==> (t.g.welcomed <==> AddSpace(c.leader, b) in Log(net, c.leader)[..n.Cursor(c.leader)]))
      && |t.sent| <= |t.handed| + 1 + if b == c.leader then c.parts + 2 * |Declared(c, net) - {b}| else 0
  {
    RunKeepsInv(c, moves);
    var net := Run(c, moves).value;
    var n := net[b];
    if b == c.leader {
      assert n.t.g.added - {b} <= Declared(c, net) - {b};
      SubsetSize(n.t.g.added - {b}, Declared(c, net) - {b});
    } else {
      assert Linked(c, b, n, c.leader, Log(net, c.leader));
      if n.t.g.welcomed { WelcomedIsDeclared(c, net, b); }
    }
  }

  lemma WelcomedIsDeclared<D>(c: Config, net: Net<D>, b: Actor)
    requires Inv(c, net) && b in net && net[b].t.g.welcomed
    ensures b in Declared(c, net)
  {
    if b != c.leader {
      assert Linked(c, b, net[b], c.leader, Log(net, c.leader));
      assert AddSpace(c.leader, b) in Log(net, c.leader);
      assert b in net[c.leader].t.g.added;
    }
  }

  lemma {:induction false} SubsetSize(a: set<Actor>, b: set<Actor>)
    requires a <= b
    ensures |a| <= |b|
    decreases a
  {
    if a != {} {
      var x :| x in a;
      SubsetSize(a - {x}, b - {x});
    }
  }

  /** Every member has read every other member's log to the end. */
  predicate Quiescent<D>(net: Net<D>) {
    forall b <- net, a <- net :: a != b ==> net[b].Cursor(a) == |net[a].t.sent|
  }

  /** The main result: when the queues are empty the handshake is complete. Exactly those the leader declared,
      at its opening or later, are welcomed, and it has added exactly those of them that opened the group;
      they hold nothing back and have decrypted every plaintext any other member broadcast. The others
      have decrypted nothing and broadcast nothing. */
  lemma HandshakeCompletes<D>(c: Config, moves: seq<Move<D>>)
    requires Run(c, moves).Some? && Quiescent(Run(c, moves).value)
    ensures var net := Run(c, moves).value; var declared := Declared(c, net);
      && (forall b <- net :: net[b].t.g.welcomed <==> b in declared)
      && (c.leader in net ==> net[c.leader].t.g.added == declared * net.Keys)
      && (forall b <- net | b in declared :: net[b].t.g.pending.None? && net[b].t.g.space.held == [])
      && (forall b <- net, a <- net | a != b && b in declared ::
            forall d <- Apps(net[a].t.sent) :: d in net[b].decrypted)
      && (forall b <- net | b !in declared :: net[b].decrypted == [] && Apps(net[b].t.sent) == [])
  {
    RunKeepsInv(c, moves);
    var net := Run(c, moves).value;
    if c.leader in net { LeaderAddedAll(c, net); }
    forall b <- net ensures net[b].t.g.welcomed <==> b in Declared(c, net) {
      if b in Declared(c, net) { DeclaredIsWelcomed(c, net, b); }
      if net[b].t.g.welcomed { WelcomedIsDeclared(c, net, b); }
    }
    forall b <- net, a <- net | a != b && b in Declared(c, net)
      ensures forall d <- Apps(net[a].t.sent) :: d in net[b].decrypted
    {
      DeclaredDecrypts(c, net, b, a);
    }
  }

  lemma DeclaredDecrypts<D>(c: Config, net: Net<D>, b: Actor, a: Actor)
    requires Inv(c, net) && Quiescent(net) && b in net && a in net && a != b && b in Declared(c, net)
    ensures forall d <- Apps(net[a].t.sent) :: d in net[b].decrypted
  {
    DeclaredIsWelcomed(c, net, b);
    assert Linked(c, b, net[b], a, Log(net, a));
    AppsAreLogged(net[a].t.sent);
  }

  lemma {:induction false} AppsAreLogged<D>(sent: seq<Op<D>>)
    ensures forall d <- Apps(sent) :: exists i | 0 <= i < |sent| :: sent[i].App? && sent[i].data == d
    decreases |sent|
  {
    if sent != [] {
      var n := |sent| - 1;
      AppsAreLogged(sent[..n]);
      forall d <- Apps(sent) ensures exists i | 0 <= i < |sent| :: sent[i].App? && sent[i].data == d {
        if d in Apps(sent[..n]) {
          var i :| 0 <= i < n && sent[..n][i].App? && sent[..n][i].data == d;
          assert sent[i].App? && sent[i].data == d;
        } else {
          assert sent[n].App? && sent[n].data == d;
        }
      }
    }
  }

  lemma LeaderAddedAll<D>(c: Config, net: Net<D>)
    requires Inv(c, net) && Quiescent(net) && c.leader in net
    ensures net[c.leader].t.g.added == Declared(c, net) * net.Keys
  {
    var g := net[c.leader].t.g;
    forall m ensures m in g.added <==> m in Declared(c, net) && m in net {
      assert m in g.members <==> m in SetOf(g.members);
      if m != c.leader {
        assert Linked(c, c.leader, net[c.leader], m, Log(net, m));
        if m in net { assert GoodNode(c, m, net[m]); }
      }
    }
  }

  lemma DeclaredIsWelcomed<D>(c: Config, net: Net<D>, b: Actor)
    requires Inv(c, net) && Quiescent(net) && b in net && b in Declared(c, net)
    ensures net[b].t.g.welcomed
  {
    if b != c.leader {
      LeaderAddedAll(c, net);
      assert AddSpace(c.leader, b) in net[c.leader].t.sent;
      assert Linked(c, b, net[b], c.leader, Log(net, c.leader));
      assert net[c.leader].t.sent[..|net[c.leader].t.sent|] == net[c.leader].t.sent;
    }
  }

  /** Some other member broadcast this. */
  ghost predicate Sourced<D>(net: Net<D>, b: Actor, d: D) {
    exists a <- net :: a != b && d in Apps(net[a].t.sent)
  }

  /** It decrypted this, or holds it for later. */
  predicate Has<D(==)>(n: Member<D>, d: D) {
    d in n.decrypted || d in n.t.g.space.held
  }

  ghost predicate SourcedIn<D>(net: Net<D>, b: Actor, data: seq<D>) {
    forall d <- data :: Sourced(net, b, d)
  }

  ghost predicate AllSourced<D>(net: Net<D>) {
    forall b <- net :: SourcedIn(net, b, net[b].decrypted) && SourcedIn(net, b, net[b].t.g.space.held)
  }

  lemma SourcedGrows<D>(net: Net<D>, next: Net<D>, b: Actor, d: D)
    requires Sourced(net, b, d) && forall a <- net :: a in next && net[a].t.sent <= next[a].t.sent
    ensures Sourced(next, b, d)
  {
    var a :| a in net && a != b && d in Apps(net[a].t.sent);
    var n := |net[a].t.sent|;
    assert next[a].t.sent == net[a].t.sent + next[a].t.sent[n..];
    AppsConcat(net[a].t.sent, next[a].t.sent[n..]);
    assert d in Apps(next[a].t.sent);
  }

  lemma {:induction false} LoggedApps<D>(sent: seq<Op<D>>, i: nat)
    requires i < |sent| && sent[i].App?
    ensures sent[i].data in Apps(sent)
    decreases |sent|
  {
    if i < |sent| - 1 { LoggedApps(sent[..|sent| - 1], i); }
  }

  lemma DeliverSources<D>(c: Config, net: Net<D>, b: Actor, a: Actor, d: D)
    requires Inv(c, net) && AllSourced(net) && Enabled(c, net, Deliver(b, a))
    requires Has(Next(c, net, Deliver(b, a))[b], d)
    ensures Sourced(net, b, d)
  {
    var n, k := net[b], net[b].Cursor(a);
    var op := net[a].t.sent[k];
    LogEntry(c, a, net[a].t.sent, k);
    ProcessGrows(n.t.g.space, b, op);
    ReaderLearns(c, b, n, a, op);
    ProcessKeepsData(n.t.g.space, b, op);
    if op.App? { LoggedApps(net[a].t.sent, k); }
  }

  lemma SentGrows<D>(c: Config, net: Net<D>, move: Move<D>)
    requires Inv(c, net) && Enabled(c, net, move)
    ensures var next := Next(c, net, move); forall a <- net :: a in next && net[a].t.sent <= next[a].t.sent
  {
    match move
    case Open(_, _) =>
    case Hand(b, d) => assert net[b].t.sent <= Step(net[b].t, Publish(d)).sent;
    case Declare(b, m) => DeclaredIsGood(c, b, net[b], m);
    case Deliver(b, a) => DeliveredGrows(c, net, b, a);
  }

  lemma DeliveredGrows<D>(c: Config, net: Net<D>, b: Actor, a: Actor)
    requires Inv(c, net) && Enabled(c, net, Deliver(b, a))
    ensures net[b].t.sent <= Next(c, net, Deliver(b, a))[b].t.sent
  {
    var k := net[b].Cursor(a);
    LogEntry(c, a, net[a].t.sent, k);
    ReaderLearns(c, b, net[b], a, net[a].t.sent[k]);
  }

  /** Only a delivery brings payloads. */
  lemma OnlyDeliveryBrings<D>(c: Config, net: Net<D>, move: Move<D>, b: Actor, d: D)
    requires Enabled(c, net, move) && !(move.Deliver? && move.b == b)
    requires b in Next(c, net, move) && Has(Next(c, net, move)[b], d)
    ensures b in net && Has(net[b], d)
  {
  }

  lemma PayloadKeepsSource<D>(c: Config, net: Net<D>, move: Move<D>, b: Actor, d: D)
    requires Inv(c, net) && AllSourced(net) && Enabled(c, net, move)
    requires b in Next(c, net, move) && Has(Next(c, net, move)[b], d)
    ensures Sourced(Next(c, net, move), b, d)
  {
    SentGrows(c, net, move);
    if move.Deliver? && move.b == b {
      DeliverSources(c, net, b, move.a, d);
    } else {
      OnlyDeliveryBrings(c, net, move, b, d);
    }
    SourcedGrows(net, Next(c, net, move), b, d);
  }

  lemma MoveSources<D>(c: Config, net: Net<D>, move: Move<D>)
    requires Inv(c, net) && AllSourced(net) && Enabled(c, net, move)
    ensures AllSourced(Next(c, net, move))
  {
    var next := Next(c, net, move);
    forall b <- next ensures SourcedIn(next, b, next[b].decrypted) && SourcedIn(next, b, next[b].t.g.space.held) {
      forall d <- next[b].decrypted ensures Sourced(next, b, d) { PayloadKeepsSource(c, net, move, b, d); }
      forall d <- next[b].t.g.space.held ensures Sourced(next, b, d) { PayloadKeepsSource(c, net, move, b, d); }
    }
  }

  /** Nothing is decrypted, or held for later, that no other member broadcast. */
  lemma {:induction false} DecryptsOnlyBroadcasts<D>(c: Config, moves: seq<Move<D>>)
    requires Run(c, moves).Some?
    ensures AllSourced(Run(c, moves).value)
    decreases |moves|
  {
    if moves != [] {
      DecryptsOnlyBroadcasts(c, moves[..|moves| - 1]);
      RunKeepsInv(c, moves[..|moves| - 1]);
      MoveSources(c, Run(c, moves[..|moves| - 1]).value, moves[|moves| - 1]);
    }
  }

  /** Whatever `a` handed to the group over a waiting state was above it. */
  ghost predicate HandsGrow<D(!new)>(c: Config, join: (D, D) -> D, moves: seq<Move<D>>, a: Actor)
    requires Run(c, moves).Some?
    decreases |moves|
  {
    moves == [] ||
    var n := |moves| - 1;
    && HandsGrow(c, join, moves[..n], a)
    && (moves[n].Hand? && moves[n].b == a ==>
          Grows(join, Run(c, moves[..n]).value[a].t, Publish(moves[n].data)))
  }

  lemma {:induction false} RunCovers<D(!new)>(c: Config, moves: seq<Move<D>>, join: (D, D) -> D, a: Actor)
    requires Semilattice(join) && Run(c, moves).Some? && a in Run(c, moves).value
    ensures var t := Run(c, moves).value[a].t;
      Waits(t) && (HandsGrow(c, join, moves, a) ==> AllCovered(join, t))
    decreases |moves|
  {
    var n := |moves| - 1;
    var before, move := Run(c, moves[..n]).value, moves[n];
    if a in before {
      RunCovers(c, moves[..n], join, a);
      if !move.Open? && move.b == a { MoveCovers(c, before, move, join); }
    } else {
      CallsWait<D>(a, move.listing, c.parts, []);
    }
  }

  lemma MoveCovers<D(!new)>(c: Config, net: Net<D>, move: Move<D>, join: (D, D) -> D)
    requires Semilattice(join) && Enabled(c, net, move) && !move.Open? && Waits(net[move.b].t)
    ensures var t, u := net[move.b].t, Next(c, net, move)[move.b].t;
      && Waits(u)
      && (AllCovered(join, t) && (move.Hand? ==> Grows(join, t, Publish(move.data))) ==> AllCovered(join, u))
  {
    match move
    case Hand(b, d) => GrowingStaysCovered(join, net[b].t, Publish(d));
    case Declare(b, m) => GrowingStaysCovered(join, net[b].t, AddMember(m));
    case Deliver(b, a) =>
      GrowingStaysCovered(join, net[b].t, Receive(Encoded(net[a].t.sent[net[b].Cursor(a)])));
  }

  /** End to end: if what a declared member hands to the group over a waiting state is above it, then once the
      queues are empty every state it handed in is contained in one that each other declared member has
      decrypted, even if it was handed in before the welcome and overwritten in the buffer. */
  lemma EveryStateArrives<D(!new)>(c: Config, moves: seq<Move<D>>, join: (D, D) -> D, a: Actor, b: Actor, x: D)
    requires Semilattice(join) && Run(c, moves).Some? && Quiescent(Run(c, moves).value)
    requires var net := Run(c, moves).value;
      a != b && {a, b} <= Declared(c, net) * net.Keys && x in net[a].t.handed
    requires HandsGrow(c, join, moves, a)
    ensures exists y <- Run(c, moves).value[b].decrypted :: Below(join, x, y)
  {
    var net := Run(c, moves).value;
    assert a in {a, b} && b in {a, b};
    HandshakeCompletes(c, moves);
    RunCovers(c, moves, join, a);
    var t := net[a].t;
    assert Covers(join, Outgoing(t), x);
    assert Outgoing(t) == Apps(t.sent) + [] == Apps(t.sent);
    var y :| y in Outgoing(t) && Below(join, x, y);
    assert y in net[b].decrypted;
  }

  function Deliveries<D>(moves: seq<Move<D>>, b: Actor, a: Actor): nat {
    if moves == [] then 0
    else
      var last := moves[|moves| - 1];
      Deliveries(moves[..|moves| - 1], b, a) + if last.Deliver? && last.b == b && last.a == a then 1 else 0
  }

  lemma {:induction false} DeliveriesAreCursors<D>(c: Config, moves: seq<Move<D>>, b: Actor, a: Actor)
    requires Run(c, moves).Some?
    ensures Deliveries(moves, b, a) == if b in Run(c, moves).value then Run(c, moves).value[b].Cursor(a) else 0
    decreases |moves|
  {
    if moves != [] { DeliveriesAreCursors(c, moves[..|moves| - 1], b, a); }
  }

  /** Every operation is delivered to each member at most once, so no run delivers for ever: the
      deliveries from `a` to `b` never exceed `a`'s log, whose length is bounded. */
  lemma DeliveriesAreBounded<D>(c: Config, moves: seq<Move<D>>, b: Actor, a: Actor)
    requires Run(c, moves).Some? && a in Run(c, moves).value && a != b
    ensures var t := Run(c, moves).value[a].t;
      Deliveries(moves, b, a) <= |t.handed| + 1 +
        if a == c.leader then c.parts + 2 * |Declared(c, Run(c, moves).value) - {a}| else 0
  {
    RunKeepsInv(c, moves);
    DeliveriesAreCursors(c, moves, b, a);
    HandshakeIsSafe(c, moves, a);
    if b in Run(c, moves).value {
      assert Linked(c, b, Run(c, moves).value[b], a, Log(Run(c, moves).value, a));
    }
  }

  // ---- What the moves put in ----

  /** The leader's listing names `m`, or a later declaration of the leader does. */
  predicate Names<D>(c: Config, move: Move<D>, m: Actor) {
    match move
    case Open(b, listing) => b == c.leader && m in listing
    case Declare(b, x) => b == c.leader && x == m
    case _ => false
  }

  lemma {:induction false} DeclaredAreNamed<D>(c: Config, moves: seq<Move<D>>, m: Actor)
    requires Run(c, moves).Some?
    ensures m in Declared(c, Run(c, moves).value) <==> exists i | 0 <= i < |moves| :: Names(c, moves[i], m)
    decreases |moves|
  {
    if moves != [] {
      var n := |moves| - 1;
      DeclaredAreNamed(c, moves[..n], m);
      MoveDeclares(c, Run(c, moves[..n]).value, moves[n], m);
      assert forall i | 0 <= i < n :: moves[..n][i] == moves[i];
    }
  }

  lemma MoveDeclares<D>(c: Config, net: Net<D>, move: Move<D>, m: Actor)
    requires Enabled(c, net, move)
    ensures m in Declared(c, Next(c, net, move)) <==> m in Declared(c, net) || Names(c, move, m)
  {
    match move
    case Open(b, listing) => if b == c.leader { assert Calls<D>(b, listing, c.parts, []).g.members == listing; }
    case Hand(_, _) =>
    case Declare(b, x) => assert Step(net[b].t, AddMember(x)).g.members == Declaring(net[b].t.g, x).members;
    case Deliver(b, a) =>
      var call := Receive(Encoded(net[a].t.sent[net[b].Cursor(a)]));
      assert Step(net[b].t, call).g.members == net[b].t.g.members;
  }

  function HandedBy<D>(moves: seq<Move<D>>, b: Actor): seq<D> {
    if moves == [] then []
    else
      var n := |moves| - 1;
      HandedBy(moves[..n], b) + if moves[n].Hand? && moves[n].b == b then [moves[n].data] else []
  }

  /** A member was handed what the moves hand it, in order. */
  lemma {:induction false} HandedIsGiven<D>(c: Config, moves: seq<Move<D>>, b: Actor)
    requires Run(c, moves).Some?
    ensures HandedBy(moves, b) == if b in Run(c, moves).value then Run(c, moves).value[b].t.handed else []
    decreases |moves|
  {
    if moves != [] { HandedIsGiven(c, moves[..|moves| - 1], b); }
  }
}
