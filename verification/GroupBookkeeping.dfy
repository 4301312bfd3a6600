/** What one group object keeps over any sequence of calls. */
module GroupBookkeeping {
  import opened EncryptedGroups
  import opened Wrappers

  datatype Call<+D> = Publish(data: D) | Receive(wire: Wire<D>) | AddMember(m: Actor) | RemoveMember(m: Actor)

  /** The object, everything it has sent, and everything it was handed to publish. */
  datatype Trace<+D> = Trace(g: Group<D>, sent: seq<Op<D>>, handed: seq<D>)

  function Step<D(==)>(t: Trace<D>, call: Call<D>): Trace<D> {
    match call
    case Publish(d) => var (g, ops) := Published(t.g, d); Trace(g, t.sent + ops, t.handed + [d])
    case Receive(w) => var (g, out) := Received(t.g, w); Trace(g, t.sent + Sends(out), t.handed)
    case AddMember(m) => var (g, ops) := WithMember(t.g, m); t.(g := g, sent := t.sent + ops)
    case RemoveMember(m) => var (g, ops) := WithoutMember(t.g, m); t.(g := g, sent := t.sent + ops)
  }

  function Calls<D(==)>(me: Actor, members: seq<Actor>, parts: nat, calls: seq<Call<D>>): Trace<D> {
    if calls == [] then var (g, ops) := Opened(me, members, parts); Trace(g, ops, [])
    else Step(Calls(me, members, parts, calls[..|calls| - 1]), calls[|calls| - 1])
  }

  predicate NoDuplicates(ms: seq<Actor>) {
    forall i, j :: 0 <= i < j < |ms| ==> ms[i] != ms[j]
  }

  /** No one but `me` is listed twice. */
  predicate NoPeerTwice(me: Actor, ms: seq<Actor>) {
    forall i, j :: 0 <= i < j < |ms| ==> ms[i] != ms[j] || ms[i] == me
  }

  // ---- Lists ----

  lemma {:induction false} EligibleMembers<D>(g: Group<D>, ms: seq<Actor>)
    ensures forall m :: m in Eligible(g, ms) <==> m in ms && IsEligible(g, m)
    ensures NoPeerTwice(g.me, ms) ==> NoDuplicates(Eligible(g, ms))
    decreases |ms|
  {
    if ms != [] {
      EligibleMembers(g, ms[1..]);
      assert ms == [ms[0]] + ms[1..];
      if NoPeerTwice(g.me, ms) && IsEligible(g, ms[0]) {
        assert forall j | 0 < j < |ms| :: ms[j] != ms[0];
        assert ms[0] !in Eligible(g, ms[1..]);
      }
    }
  }

  lemma {:induction false} WithoutMembers(ms: seq<Actor>, m: Actor)
    ensures forall x :: x in Without(ms, m) <==> x in ms && x != m
    ensures forall me :: NoPeerTwice(me, ms) ==> NoPeerTwice(me, Without(ms, m))
    decreases |ms|
  {
    if ms != [] {
      WithoutMembers(ms[1..], m);
      assert ms == [ms[0]] + ms[1..];
      forall me | NoPeerTwice(me, ms) ensures NoPeerTwice(me, Without(ms, m)) {
        assert NoPeerTwice(me, ms[1..]);
        if ms[0] != me {
          assert forall j | 0 < j < |ms| :: ms[j] != ms[0];
          assert ms[0] !in Without(ms[1..], m);
        }
      }
    }
  }

  // ---- The creator's bookkeeping ----

  /** `added`, this node aside, is exactly the declared members whose key bundle is known. */
  ghost predicate Booked<D>(g: Group<D>) {
    g.creator ==> forall m | m != g.me :: m in g.added <==> m in g.members && m in g.known
  }

  lemma WelcomeBooks<D>(g: Group<D>)
    requires g.creator ==> forall m | m != g.me && m in g.added :: m in g.members && m in g.known
    ensures Booked(WelcomeEligible(g).0)
  {
    EligibleMembers(g, g.members);
  }

  lemma CallKeepsBooked<D>(t: Trace<D>, call: Call<D>)
    requires Booked(t.g)
    ensures Booked(Step(t, call).g)
  {
    match call
    case Publish(_) =>
    case Receive(w) =>
      if w.Encoded? && Process(t.g.space, t.g.me, w.op).Ok? {
        var (space, events) := Process(t.g.space, t.g.me, w.op).value;
        WelcomeBooks(t.g.(space := space, known := t.g.known + Bundles(events)));
      }
    case AddMember(m) =>
      WelcomeBooks(if m in t.g.members then t.g else t.g.(members := t.g.members + [m]));
    case RemoveMember(m) =>
      WithoutMembers(t.g.members, m);
  }

  // ---- Each peer is added once between removals ----

  /** The peers this node has added and not removed since, read off what it sent. */
  function Standing<D>(sent: seq<Op<D>>): set<Actor> {
    if sent == [] then {}
    else
      var before := Standing(sent[..|sent| - 1]);
      match sent[|sent| - 1]
      case AddSpace(_, m) => before + {m}
      case RemoveSpace(_, m) => before - {m}
      case _ => before
  }

  /** No peer is added while it stands. */
  predicate AddsOnce<D>(sent: seq<Op<D>>) {
    sent == [] ||
    (AddsOnce(sent[..|sent| - 1]) &&
     (sent[|sent| - 1].AddSpace? ==> sent[|sent| - 1].member !in Standing(sent[..|sent| - 1])))
  }

  lemma OneMoreStands<D>(sent: seq<Op<D>>, me: Actor, m: Actor)
    requires AddsOnce(sent) && m !in Standing(sent)
    ensures var two := sent + [AddAuth(me, m)] + [AddSpace(me, m)];
      Standing(two) == Standing(sent) + {m} && AddsOnce(two)
  {
    var first := sent + [AddAuth(me, m)];
    var two := first + [AddSpace(me, m)];
    assert first[..|sent|] == sent && two[..|first|] == first;
  }

  lemma TwoThenRest<T>(s: seq<T>, x: T, y: T, rest: seq<T>)
    ensures s + ([x, y] + rest) == s + [x] + [y] + rest
  {
  }

  lemma {:induction false} StandingWelcomed<D>(sent: seq<Op<D>>, me: Actor, ms: seq<Actor>)
    requires AddsOnce(sent) && NoDuplicates(ms) && forall m <- ms :: m !in Standing(sent)
    ensures Standing(sent + WelcomeOps(me, ms)) == Standing(sent) + SetOf(ms)
    ensures AddsOnce(sent + WelcomeOps(me, ms))
    decreases |ms|
  {
    if ms == [] {
      assert sent + WelcomeOps(me, ms) == sent;
    } else {
      var two := sent + [AddAuth(me, ms[0])] + [AddSpace(me, ms[0])];
      OneMoreStands(sent, me, ms[0]);
      TwoThenRest(sent, AddAuth(me, ms[0]), AddSpace(me, ms[0]), WelcomeOps(me, ms[1..]));
      forall m <- ms[1..] ensures m !in Standing(two) {
        var i :| 0 < i < |ms| && ms[i] == m;
      }
      StandingWelcomed(two, me, ms[1..]);
      assert SetOf(ms) == {ms[0]} + SetOf(ms[1..]) by { assert ms == [ms[0]] + ms[1..]; }
    }
  }

  lemma {:induction false} StandingIgnores<D>(sent: seq<Op<D>>, more: seq<Op<D>>)
    requires AddsOnce(sent) && forall op <- more :: !op.AddSpace? && !op.RemoveSpace?
    ensures Standing(sent + more) == Standing(sent) && AddsOnce(sent + more)
    decreases |more|
  {
    if more == [] {
      assert sent + more == sent;
    } else {
      var n := |more| - 1;
      StandingIgnores(sent, more[..n]);
      assert (sent + more)[..|sent + more| - 1] == sent + more[..n];
    }
  }

  ghost predicate SendsOnce<D>(t: Trace<D>) {
    && (t.g.creator ==> NoPeerTwice(t.g.me, t.g.members))
    && Booked(t.g)
    && AddsOnce(t.sent)
    && (if t.g.creator then Standing(t.sent) == t.g.added - {t.g.me} else Standing(t.sent) == {})
  }

  lemma WelcomeSendsOnce<D>(g: Group<D>, sent: seq<Op<D>>)
    requires (g.creator ==> NoPeerTwice(g.me, g.members)) && AddsOnce(sent)
    requires if g.creator then Standing(sent) == g.added - {g.me} else Standing(sent) == {}
    ensures var (after, ops) := WelcomeEligible(g);
      && AddsOnce(sent + ops)
      && (if g.creator then Standing(sent + ops) == after.added - {g.me} else Standing(sent + ops) == {})
  {
    if g.creator {
      EligibleMembers(g, g.members);
      var ms := Eligible(g, g.members);
      StandingWelcomed(sent, g.me, ms);
    } else {
      assert sent + [] == sent;
    }
  }

  lemma ReceiveSendsOnce<D>(t: Trace<D>, g1: Group<D>)
    requires (g1.creator ==> NoPeerTwice(g1.me, g1.members)) && AddsOnce(t.sent)
    requires if g1.creator then Standing(t.sent) == g1.added - {g1.me} else Standing(t.sent) == {}
    ensures var (g2, welcomes) := WelcomeEligible(g1); var (g3, flush) := Flushed(g2);
      && AddsOnce(t.sent + (welcomes + flush))
      && (if g3.creator then Standing(t.sent + (welcomes + flush)) == g3.added - {g3.me}
          else Standing(t.sent + (welcomes + flush)) == {})
  {
    WelcomeSendsOnce(g1, t.sent);
    var (g2, welcomes) := WelcomeEligible(g1);
    StandingIgnores(t.sent + welcomes, Flushed(g2).1);
    assert t.sent + (welcomes + Flushed(g2).1) == t.sent + welcomes + Flushed(g2).1;
  }

  lemma RemovalSendsOnce<D>(t: Trace<D>, m: Actor)
    requires SendsOnce(t)
    ensures var (g, ops) := WithoutMember(t.g, m);
      && AddsOnce(t.sent + ops)
      && (if g.creator then Standing(t.sent + ops) == g.added - {g.me} else Standing(t.sent + ops) == {})
  {
    var (g, ops) := WithoutMember(t.g, m);
    if ops != [] {
      StandingIgnores(t.sent, [RemoveAuth(t.g.me, m)]);
      var one := t.sent + [RemoveAuth(t.g.me, m)];
      assert t.sent + ops == one + [RemoveSpace(t.g.me, m)];
      assert (t.sent + ops)[..|one|] == one;
    } else {
      assert t.sent + ops == t.sent;
    }
  }

  lemma CallSendsOnce<D>(t: Trace<D>, call: Call<D>)
    requires SendsOnce(t)
    ensures SendsOnce(Step(t, call))
  {
    CallKeepsBooked(t, call);
    match call
    case Publish(d) =>
      StandingIgnores(t.sent, Published(t.g, d).1);
    case Receive(w) =>
      if w.Encoded? && Process(t.g.space, t.g.me, w.op).Ok? {
        var (space, events) := Process(t.g.space, t.g.me, w.op).value;
        ReceiveSendsOnce(t, t.g.(space := space, known := t.g.known + Bundles(events)));
      } else {
        assert t.sent + [] == t.sent;
      }
    case AddMember(m) =>
      WelcomeSendsOnce(if m in t.g.members then t.g else t.g.(members := t.g.members + [m]), t.sent);
    case RemoveMember(m) =>
      RemovalSendsOnce(t, m);
      WithoutMembers(t.g.members, m);
  }

  lemma {:induction false} CallsSendOnce<D>(me: Actor, members: seq<Actor>, parts: nat, calls: seq<Call<D>>)
    requires Smallest(me, members) ==> NoPeerTwice(me, members)
    ensures SendsOnce(Calls(me, members, parts, calls))
    decreases |calls|
  {
    if calls == [] {
      var (g, ops) := Opened<D>(me, members, parts);
      assert [] + ops == ops;
      StandingIgnores([], ops);
    } else {
      CallsSendOnce(me, members, parts, calls[..|calls| - 1]);
      CallSendsOnce(Calls(me, members, parts, calls[..|calls| - 1]), calls[|calls| - 1]);
    }
  }

  lemma {:induction false} CallsBook<D>(me: Actor, members: seq<Actor>, parts: nat, calls: seq<Call<D>>)
    ensures Booked(Calls(me, members, parts, calls).g)
    decreases |calls|
  {
    if calls != [] {
      CallsBook(me, members, parts, calls[..|calls| - 1]);
      CallKeepsBooked(Calls(me, members, parts, calls[..|calls| - 1]), calls[|calls| - 1]);
    }
  }

  /** After any calls, whatever the list, the creator has added exactly the declared members whose bundle
      it knows, whichever of the bundle and the declaration came first. */
  lemma CreatorBookkeeping<D>(me: Actor, members: seq<Actor>, parts: nat, calls: seq<Call<D>>)
    requires Smallest(me, members)
    ensures var g := Calls(me, members, parts, calls).g;
      g.creator && g.added - {me} == SetOf(g.members) * g.known - {me}
  {
    CallsBook(me, members, parts, calls);
    SameElection(me, members, parts, calls);
    var g := Calls(me, members, parts, calls).g;
    forall m ensures m in g.added - {me} <==> m in SetOf(g.members) * g.known - {me} {}
  }

  lemma {:induction false} SameElection<D>(me: Actor, members: seq<Actor>, parts: nat, calls: seq<Call<D>>)
    ensures var g := Calls(me, members, parts, calls).g; g.me == me && (g.creator <==> Smallest(me, members))
    decreases |calls|
  {
    if calls != [] { SameElection(me, members, parts, calls[..|calls| - 1]); }
  }

  lemma {:induction false} AddThenRemoved<D>(sent: seq<Op<D>>, i: nat, m: Actor)
    requires i < |sent| && sent[i].AddSpace? && sent[i].member == m
    requires m !in Standing(sent)
    ensures exists k | i < k < |sent| :: sent[k].RemoveSpace? && sent[k].member == m
    decreases |sent|
  {
    var n := |sent| - 1;
    if i < n && !(sent[n].RemoveSpace? && sent[n].member == m) {
      AddThenRemoved(sent[..n], i, m);
      var k :| i < k < n && sent[..n][k].RemoveSpace? && sent[..n][k].member == m;
      assert sent[k].RemoveSpace? && sent[k].member == m;
    }
  }

  lemma {:induction false} AddsOncePrefix<D>(sent: seq<Op<D>>, n: nat)
    requires n <= |sent| && AddsOnce(sent)
    ensures AddsOnce(sent[..n])
    decreases |sent|
  {
    if n == |sent| {
      assert sent[..n] == sent;
    } else {
      AddsOncePrefix(sent[..|sent| - 1], n);
      assert sent[..|sent| - 1][..n] == sent[..n];
    }
  }

  /** Two additions of one peer have a removal of it between them. */
  ghost predicate RemovalBetweenAdds<D>(sent: seq<Op<D>>) {
    forall i, j | 0 <= i < j < |sent| && sent[i].AddSpace? && sent[j].AddSpace? && sent[i].member == sent[j].member ::
      exists k | i < k < j :: sent[k].RemoveSpace? && sent[k].member == sent[i].member
  }

  lemma AddsOnceRemovesBetween<D>(sent: seq<Op<D>>)
    requires AddsOnce(sent)
    ensures RemovalBetweenAdds(sent)
  {
    forall i, j | 0 <= i < j < |sent| && sent[i].AddSpace? && sent[j].AddSpace? && sent[i].member == sent[j].member
      ensures exists k | i < k < j :: sent[k].RemoveSpace? && sent[k].member == sent[i].member
    {
      AddsOncePrefix(sent, j + 1);
      assert sent[..j + 1][..j] == sent[..j];
      AddThenRemoved(sent[..j], i, sent[i].member);
      var k :| i < k < j && sent[..j][k].RemoveSpace? && sent[..j][k].member == sent[i].member;
      assert sent[k].RemoveSpace? && sent[k].member == sent[i].member;
    }
  }

  /** With no assumption on the list, one round of welcomes adds an eligible peer as many times as
      the list declares it: once exactly when it is declared once. */
  lemma {:induction false} WelcomesPerDeclaration<D>(g: Group<D>, ms: seq<Actor>, m: Actor)
    ensures multiset(WelcomeOps<D>(g.me, Eligible(g, ms)))[AddSpace(g.me, m)]
      == if IsEligible(g, m) then multiset(ms)[m] else 0
    decreases |ms|
  {
    if ms == [] {
    } else {
      WelcomesPerDeclaration(g, ms[1..], m);
      assert ms == [ms[0]] + ms[1..];
      var rest := WelcomeOps<D>(g.me, Eligible(g, ms[1..]));
      if IsEligible(g, ms[0]) {
        assert Eligible(g, ms)[1..] == Eligible(g, ms[1..]);
        assert WelcomeOps<D>(g.me, Eligible(g, ms)) == [AddAuth(g.me, ms[0]), AddSpace(g.me, ms[0])] + rest;
      }
    }
  }

  lemma {:induction false} TwoPlaces<T>(s: seq<T>, x: T) returns (i: nat, j: nat)
    requires multiset(s)[x] >= 2
    ensures i < j < |s| && s[i] == s[j] == x
    decreases |s|
  {
    var n := |s| - 1;
    assert s == s[..n] + [s[n]];
    if s[n] == x {
      j := n;
      assert multiset(s[..n])[x] >= 1 && x in multiset(s[..n]);
      i :| 0 <= i < n && s[i] == x;
    } else {
      i, j := TwoPlaces(s[..n], x);
    }
  }

  lemma TwiceListed(ms: seq<Actor>, i: nat, j: nat)
    requires i < j < |ms| && ms[i] == ms[j]
    ensures multiset(ms)[ms[i]] >= 2
  {
    assert ms == ms[..j] + ms[j..];
    assert ms[i] in ms[..j] && ms[j] in ms[j..];
  }

  /** The creator's log after the bundle of `m` arrives first of all. */
  lemma FirstBundle<D>(me: Actor, members: seq<Actor>, parts: nat, m: Actor)
    requires Smallest(me, members) && m != me
    ensures var (g, ops) := Opened<D>(me, members, parts); var g1 := g.(known := {m});
      Calls(me, members, parts, [Receive(Encoded(KeyBundle(m)))]).sent == ops + WelcomeOps(me, Eligible(g1, members))
  {
    var (g, ops) := Opened<D>(me, members, parts);
    var call: Call<D> := Receive(Encoded(KeyBundle(m)));
    assert [call][..0] == [];
    var g1 := g.(known := {m});
    var events: seq<Event<D>> := [Bundle(m)];
    assert Bundles(events) == {m} by { assert events[0] == Bundle(m); }
    assert g.known + {m} == {m};
    assert Received(g, Encoded(KeyBundle(m))).1.value.toSend == WelcomeOps(me, Eligible(g1, members)) + [];
  }

  /** A creator whose list names a peer twice adds it that often on its bundle, with no removal at all. */
  lemma DuplicateIsWelcomedTwice<D>(me: Actor, members: seq<Actor>, parts: nat, m: Actor)
    requires Smallest(me, members) && m != me && multiset(members)[m] >= 2
    ensures var sent := Calls<D>(me, members, parts, [Receive(Encoded(KeyBundle(m)))]).sent;
      multiset(sent)[AddSpace(me, m)] == multiset(members)[m] && !RemovalBetweenAdds(sent)
  {
    var (g, ops) := Opened<D>(me, members, parts);
    var g1 := g.(known := {m});
    FirstBundle<D>(me, members, parts, m);
    OpeningAddsNobody<D>(me, members, parts);
    WelcomesPerDeclaration(g1, members, m);
    WelcomesAreControl<D>(me, Eligible(g1, members));
    AddedTwice(ops, WelcomeOps<D>(me, Eligible(g1, members)), me, m);
  }

  lemma OpeningAddsNobody<D>(me: Actor, members: seq<Actor>, parts: nat)
    ensures forall op <- Opened<D>(me, members, parts).1 :: op.KeyBundle? || op.Create?
  {
  }

  lemma AddedTwice<D>(ops: seq<Op<D>>, welcomes: seq<Op<D>>, me: Actor, m: Actor)
    requires forall op <- ops :: op.KeyBundle? || op.Create?
    requires forall op <- welcomes :: op.AddAuth? || op.AddSpace?
    requires multiset(welcomes)[AddSpace(me, m)] >= 2
    ensures multiset(ops + welcomes)[AddSpace(me, m)] == multiset(welcomes)[AddSpace(me, m)]
    ensures !RemovalBetweenAdds(ops + welcomes)
  {
    assert AddSpace(me, m) !in ops;
    assert multiset(ops + welcomes) == multiset(ops) + multiset(welcomes);
    var sent := ops + welcomes;
    var i, j := TwoPlaces(sent, AddSpace(me, m));
    assert sent[i].AddSpace? && sent[j].AddSpace? && sent[i].member == sent[j].member;
    assert forall k | i < k < j :: sent[k] in ops || sent[k] in welcomes;
  }

  /** Over all calls there is a removal between any two additions of one peer exactly when a group that is
      elected creator was opened with no other member listed twice. */
  lemma AddsOnceIff<D(!new)>(me: Actor, members: seq<Actor>, parts: nat)
    ensures (forall calls: seq<Call<D>> :: RemovalBetweenAdds(Calls(me, members, parts, calls).sent))
       <==> (Smallest(me, members) ==> NoPeerTwice(me, members))
  {
    if Smallest(me, members) ==> NoPeerTwice(me, members) {
      forall calls: seq<Call<D>> ensures RemovalBetweenAdds(Calls(me, members, parts, calls).sent) {
        CallsSendOnce(me, members, parts, calls);
        AddsOnceRemovesBetween(Calls(me, members, parts, calls).sent);
      }
    } else {
      var i, j :| 0 <= i < j < |members| && members[i] == members[j] && members[i] != me;
      TwiceListed(members, i, j);
      DuplicateIsWelcomedTwice<D>(me, members, parts, members[i]);
      var calls: seq<Call<D>> := [Receive(Encoded(KeyBundle(members[i])))];
      assert !RemovalBetweenAdds(Calls(me, members, parts, calls).sent);
    }
  }

  // ---- Latest-wins buffering ----

  /** The plaintexts broadcast. */
  function Apps<D>(sent: seq<Op<D>>): seq<D> {
    if sent == [] then []
    else
      var before := Apps(sent[..|sent| - 1]);
      if sent[|sent| - 1].App? then before + [sent[|sent| - 1].data] else before
  }

  lemma {:induction false} AppsConcat<D>(sent: seq<Op<D>>, more: seq<Op<D>>)
    ensures Apps(sent + more) == Apps(sent) + Apps(more)
    decreases |more|
  {
    if more == [] {
      assert sent + more == sent;
    } else {
      var n := |more| - 1;
      AppsConcat(sent, more[..n]);
      assert (sent + more)[..|sent + more| - 1] == sent + more[..n];
    }
  }

  lemma {:induction false} NoApps<D>(ops: seq<Op<D>>)
    requires forall op <- ops :: !op.App?
    ensures Apps(ops) == []
    decreases |ops|
  {
    if ops != [] { NoApps(ops[..|ops| - 1]); }
  }

  lemma {:induction false} WelcomesAreControl<D>(me: Actor, ms: seq<Actor>)
    ensures forall op <- WelcomeOps<D>(me, ms) :: op.AddAuth? || op.AddSpace?
    decreases |ms|
  {
    if ms != [] { WelcomesAreControl<D>(me, ms[1..]); }
  }

  /** What has left this node or waits to. */
  function Outgoing<D>(t: Trace<D>): seq<D> {
    Apps(t.sent) + if t.g.pending.Some? then [t.g.pending.value] else []
  }

  /** What each call adds to the outgoing plaintexts: nothing, or what it was handed; and a node that
      is welcomed holds nothing back. */
  lemma CallOutgoing<D>(t: Trace<D>, call: Call<D>)
    requires t.g.welcomed ==> t.g.pending.None?
    ensures var u := Step(t, call);
      && (u.g.welcomed ==> u.g.pending.None?)
      && (t.g.welcomed ==> u.g.welcomed)
      && (call.Publish? && t.g.welcomed ==> Outgoing(u) == Outgoing(t) + [call.data])
      && (call.Publish? && !t.g.welcomed ==> Outgoing(u) == Apps(t.sent) + [call.data])
      && (!call.Publish? ==> Outgoing(u) == Outgoing(t))
  {
    match call
    case Publish(d) =>
      AppsConcat(t.sent, Published(t.g, d).1);
      assert [App(t.g.me, d)][..0] == [];
      assert Apps([App(t.g.me, d)]) == [] + [d];
    case Receive(w) =>
      if w.Encoded? && Process(t.g.space, t.g.me, w.op).Ok? {
        var (space, events) := Process(t.g.space, t.g.me, w.op).value;
        ReceiveOutgoing(t, t.g.(space := space, known := t.g.known + Bundles(events)));
      } else {
        assert t.sent + [] == t.sent;
      }
    case AddMember(m) =>
      WelcomesAreControl<D>(t.g.me, Eligible(t.g.(members := t.g.members + [m]), t.g.members + [m]));
      WelcomesAreControl<D>(t.g.me, Eligible(t.g, t.g.members));
      NoApps(WithMember(t.g, m).1);
      AppsConcat(t.sent, WithMember(t.g, m).1);
    case RemoveMember(m) =>
      NoApps(WithoutMember(t.g, m).1);
      AppsConcat(t.sent, WithoutMember(t.g, m).1);
  }

  lemma ReceiveOutgoing<D>(t: Trace<D>, g1: Group<D>)
    requires g1.pending == t.g.pending && g1.welcomed == t.g.welcomed && g1.me == t.g.me
    requires t.g.welcomed ==> t.g.pending.None?
    ensures var (g2, welcomes) := WelcomeEligible(g1); var (g3, flush) := Flushed(g2);
      && (g3.welcomed ==> g3.pending.None?) && (t.g.welcomed ==> g3.welcomed)
      && Outgoing(Trace(g3, t.sent + (welcomes + flush), t.handed)) == Outgoing(t)
  {
    var (g2, welcomes) := WelcomeEligible(g1);
    var (g3, flush) := Flushed(g2);
    WelcomesAreControl<D>(g1.me, Eligible(g1, g1.members));
    NoApps(welcomes);
    AppsConcat(t.sent, welcomes + flush);
    AppsConcat(welcomes, flush);
    if flush != [] {
      assert flush == [App(g1.me, g1.pending.value)] && flush[..0] == [];
      assert Apps(flush) == [] + [g1.pending.value];
    }
  }

  /** What left or waits is what was handed in from `k` on: nothing twice, nothing out of order; and before
      the welcome nothing has left and only the last state waits. */
  ghost predicate IsTail<D>(t: Trace<D>, k: nat) {
    && k <= |t.handed| && Outgoing(t) == t.handed[k..]
    && (t.handed != [] ==> k < |t.handed|)
    && (!t.g.welcomed ==> Apps(t.sent) == [] && |t.handed| <= k + 1)
    && (t.g.welcomed ==> t.g.pending.None?)
  }

  lemma CallKeepsTail<D>(t: Trace<D>, call: Call<D>, k: nat) returns (k': nat)
    requires IsTail(t, k)
    ensures IsTail(Step(t, call), k')
    ensures t.g.welcomed && t.handed != [] ==> k' == k
  {
    CallOutgoing(t, call);
    var u := Step(t, call);
    k' := k;
    if call.Publish? {
      if !t.g.welcomed { k' := |t.handed|; }
      assert u.handed == t.handed + [call.data];
      assert u.handed[k'..] == t.handed[k'..] + [call.data];
      if !t.g.welcomed {
        assert u.sent == t.sent + [] == t.sent;
      }
    } else if !u.g.welcomed {
      WaitsUntilWelcomed(t, call);
    }
  }

  lemma WaitsUntilWelcomed<D>(t: Trace<D>, call: Call<D>)
    requires !call.Publish? && !Step(t, call).g.welcomed
    ensures Apps(Step(t, call).sent) == Apps(t.sent)
  {
    WelcomesAreControl<D>(t.g.me, Eligible(t.g, t.g.members));
    match call
    case Receive(w) =>
      if w.Encoded? && Process(t.g.space, t.g.me, w.op).Ok? {
        var (space, events) := Process(t.g.space, t.g.me, w.op).value;
        var g1 := t.g.(space := space, known := t.g.known + Bundles(events));
        WelcomesAreControl<D>(g1.me, Eligible(g1, g1.members));
        var ops := Sends(Received(t.g, w).1);
        assert ops == WelcomeEligible(g1).1 + [];
        NoApps(ops);
        AppsConcat(t.sent, ops);
      } else {
        assert t.sent + [] == t.sent;
      }
    case AddMember(m) =>
      WelcomesAreControl<D>(t.g.me, Eligible(t.g.(members := t.g.members + [m]), t.g.members + [m]));
      NoApps(WithMember(t.g, m).1);
      AppsConcat(t.sent, WithMember(t.g, m).1);
    case RemoveMember(m) =>
      NoApps(WithoutMember(t.g, m).1);
      AppsConcat(t.sent, WithoutMember(t.g, m).1);
  }

  /** Whatever the calls, what a group broadcasts or still holds is a tail of what it was handed, whole and
      in order: the welcome flushes one state, the last, once. */
  lemma {:induction false} OutgoingIsTail<D>(me: Actor, members: seq<Actor>, parts: nat, calls: seq<Call<D>>)
      returns (k: nat)
    ensures IsTail(Calls(me, members, parts, calls), k)
    decreases |calls|
  {
    if calls == [] {
      k := 0;
      NoApps(Opened<D>(me, members, parts).1);
    } else {
      k := OutgoingIsTail(me, members, parts, calls[..|calls| - 1]);
      k := CallKeepsTail(Calls(me, members, parts, calls[..|calls| - 1]), calls[|calls| - 1], k);
    }
  }
}
