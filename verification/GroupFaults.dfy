/** What failing library calls do to a group object: a welcome that fails half-way drops the operations it
    had built, but keeps the peers it had added on its books. */
module GroupFaults {
  import opened EncryptedGroups
  import opened GroupBookkeeping
  import opened Wrappers

  function Built<D>(o: Outcome<seq<Op<D>>>): seq<Op<D>> {
    if o.Ok? then o.value else []
  }

  /** One call, some of its library calls failing. */
  function StepUnder<D(==)>(t: Trace<D>, call: Call<D>, f: Faults): Trace<D> {
    match call
    case Publish(d) => var (g, out) := PublishedUnder(t.g, d, f); Trace(g, t.sent + Built(out), t.handed + [d])
    case Receive(w) => var (g, out) := ReceivedUnder(t.g, w, f); Trace(g, t.sent + Sends(out), t.handed)
    case AddMember(m) => var (g, out) := WithMemberUnder(t.g, m, f); t.(g := g, sent := t.sent + Built(out))
    case RemoveMember(m) => var (g, out) := WithoutMemberUnder(t.g, m, f); t.(g := g, sent := t.sent + Built(out))
  }

  function CallsUnder<D(==)>(t: Trace<D>, calls: seq<(Call<D>, Faults)>): Trace<D> {
    if calls == [] then t
    else
      var n := |calls| - 1;
      StepUnder(CallsUnder(t, calls[..n]), calls[n].0, calls[n].1)
  }

  ghost predicate Welcomes<D>(sent: seq<Op<D>>, m: Actor) {
    exists op <- sent :: op.AddSpace? && op.member == m
  }

  lemma {:induction false} WelcomesListed<D>(me: Actor, ms: seq<Actor>, m: Actor)
    ensures Welcomes(WelcomeOps<D>(me, ms), m) ==> m in ms
    ensures forall op <- WelcomeOps<D>(me, ms) :: op.AddAuth? || op.AddSpace?
    decreases |ms|
  {
    if ms != [] {
      WelcomesListed<D>(me, ms[1..], m);
      assert ms == [ms[0]] + ms[1..];
    }
  }

  lemma RoundSkips<D>(g: Group<D>, f: Faults, m: Actor)
    requires m in g.added
    ensures m in WelcomedUnder(g, f).0.added && !Welcomes(Built(WelcomedUnder(g, f).1), m)
  {
    EligibleMembers(g, g.members);
    WelcomesListed<D>(g.me, Eligible(g, g.members), m);
  }

  lemma StepSkips<D>(t: Trace<D>, call: Call<D>, f: Faults, m: Actor)
    requires m in t.g.added && call != RemoveMember(m)
    ensures m in StepUnder(t, call, f).g.added
    ensures Welcomes(StepUnder(t, call, f).sent, m) ==> Welcomes(t.sent, m)
  {
    match call
    case Publish(_) =>
    case Receive(w) =>
      if w.Encoded? && !f.process && Process(t.g.space, t.g.me, w.op).Ok? {
        var (space, events) := Process(t.g.space, t.g.me, w.op).value;
        RoundSkips(t.g.(space := space, known := t.g.known + Bundles(events)), f, m);
      }
    case AddMember(x) =>
      RoundSkips(if x in t.g.members then t.g else t.g.(members := t.g.members + [x]), f, m);
    case RemoveMember(_) =>
  }

  /** A peer on the books whose welcome was never sent is stranded: whatever the calls and whatever fails,
      none is ever sent until the peer is removed. */
  lemma {:induction false} StrandedUntilRemoved<D>(t: Trace<D>, calls: seq<(Call<D>, Faults)>, m: Actor)
    requires m in t.g.added && !Welcomes(t.sent, m)
    requires forall c <- calls :: c.0 != RemoveMember(m)
    ensures m in CallsUnder(t, calls).g.added && !Welcomes(CallsUnder(t, calls).sent, m)
    decreases |calls|
  {
    if calls != [] {
      var n := |calls| - 1;
      StrandedUntilRemoved(t, calls[..n], m);
      StepSkips(CallsUnder(t, calls[..n]), calls[n].0, calls[n].1, m);
    }
  }

  /** A welcome round strands exactly the peers it added before the addition that was refused; so a refused
      first addition strands nobody. Whom it puts on the books it puts into the space, and nobody else. */
  lemma RoundStrandsIff<D>(g: Group<D>, f: Faults, m: Actor)
    ensures var (after, out) := WelcomedUnder(g, f); var ms := Eligible(g, g.members);
      (m in after.added && m !in g.added && !Welcomes(Built(out), m))
      <==> (g.creator && f.add.Some? && f.add.value < |ms| && m in ms[..f.add.value])
    ensures var after := WelcomedUnder(g, f).0;
      m in after.space.members <==> m in g.space.members || (m in after.added && m !in g.added)
  {
    var ms := Eligible(g, g.members);
    EligibleMembers(g, g.members);
    AllWelcomed<D>(g.me, ms, m);
    if f.add.Some? && f.add.value < |ms| {
      assert forall x <- ms[..f.add.value] :: x in ms;
    }
  }

  lemma {:induction false} AllWelcomed<D>(me: Actor, ms: seq<Actor>, m: Actor)
    ensures m in ms ==> Welcomes(WelcomeOps<D>(me, ms), m)
    decreases |ms|
  {
    if ms != [] {
      AllWelcomed<D>(me, ms[1..], m);
      var ops := WelcomeOps<D>(me, ms);
      assert ops[1] == AddSpace(me, ms[0]) && ops[1] in ops;
      assert forall op <- WelcomeOps<D>(me, ms[1..]) :: op in ops;
    }
  }

  /** Two rounds strand peer 1: refused at first, it is added beside peer 2, which is refused in its turn. */
  lemma APeerIsStranded<D>(parts: nat)
    ensures
      var opening := Calls<D>(0, [0, 1, 2], parts, []);
      var calls := [(Receive(Encoded(KeyBundle(1))), FAULTLESS.(add := Some(0))),
                    (Receive(Encoded(KeyBundle(2))), FAULTLESS.(add := Some(1)))];
      var t := CallsUnder(opening, calls);
      t.sent == opening.sent && 1 in t.g.added && !Welcomes(t.sent, 1)
  {
    var t0 := Calls<D>(0, [0, 1, 2], parts, []);
    assert Smallest(0, [0, 1, 2]);
    OpeningAddsNobody<D>(0, [0, 1, 2], parts);
    var t1 := t0.(g := Added(t0.g.(known := {1}), []));
    SecondRoundStrands(t0, t1);
    var c1: (Call<D>, Faults) := (Receive(Encoded(KeyBundle(1))), FAULTLESS.(add := Some(0)));
    var c2: (Call<D>, Faults) := (Receive(Encoded(KeyBundle(2))), FAULTLESS.(add := Some(1)));
    assert [c1, c2][..1] == [c1] && [c1][..0] == [];
    assert CallsUnder(t0, [c1]) == StepUnder(CallsUnder(t0, []), c1.0, c1.1);
  }

  lemma SecondRoundStrands<D>(t0: Trace<D>, t1: Trace<D>)
    requires t0.g.creator && t0.g.me == 0 && t0.g.members == [0, 1, 2] && t0.g.added == {0} && t0.g.known == {}
    requires t1 == t0.(g := Added(t0.g.(known := {1}), []))
    ensures StepUnder(t0, Receive(Encoded(KeyBundle(1))), FAULTLESS.(add := Some(0))) == t1
    ensures var t2 := StepUnder(t1, Receive(Encoded(KeyBundle(2))), FAULTLESS.(add := Some(1)));
      t2.sent == t0.sent && 1 in t2.g.added
  {
    var first, second := t0.g.(known := {1}), t1.g.(known := {1} + {2});
    assert {} + {1} == {1} && t1.g.added == {0} by { assert {0} + SetOf([]) == {0}; }
    EligibleOfThree(first);
    EligibleOfThree(second);
    assert [1] + [2] == [1, 2] && [1, 2][1..] == [2];
    RefusedRound(t0, 1, 0, [1]);
    RefusedRound(t1, 2, 1, [1, 2]);
    assert [1, 2][..1] == [1];
  }

  lemma EligibleOfThree<D>(g: Group<D>)
    requires g.me == 0 && g.added == {0}
    ensures Eligible(g, [0, 1, 2]) == (if 1 in g.known then [1] else []) + (if 2 in g.known then [2] else [])
  {
    assert [0, 1, 2][1..] == [1, 2] && [1, 2][1..] == [2] && Eligible(g, [2][1..]) == [];
    assert Eligible(g, [2]) == if 2 in g.known then [2] else [];
    assert Eligible(g, [1, 2]) == (if 1 in g.known then [1] else []) + Eligible(g, [2]);
  }

  /** A bundle after which the eligible peers are `ms`, and the addition at place `k` is refused. */
  lemma RefusedRound<D>(t: Trace<D>, who: Actor, k: nat, ms: seq<Actor>)
    requires t.g.creator && Eligible(t.g.(known := t.g.known + {who}), t.g.members) == ms && k < |ms|
    ensures StepUnder(t, Receive(Encoded(KeyBundle(who))), FAULTLESS.(add := Some(k)))
      == t.(g := Added(t.g.(known := t.g.known + {who}), ms[..k]))
  {
    var events: seq<Event<D>> := [Bundle(who)];
    assert Bundles(events) == {who} by { assert events[0] == Bundle(who); }
    assert t.sent + [] == t.sent;
  }

  /** A peer listed twice whose second addition is refused is stranded by its own first one. */
  lemma ADuplicateIsStranded<D>(parts: nat)
    ensures
      var opening := Calls<D>(0, [0, 1, 1], parts, []);
      var t := CallsUnder(opening, [(Receive(Encoded(KeyBundle(1))), FAULTLESS.(add := Some(1)))]);
      t.sent == opening.sent && 1 in t.g.added && !Welcomes(t.sent, 1)
  {
    var t0 := Calls<D>(0, [0, 1, 1], parts, []);
    assert Smallest(0, [0, 1, 1]);
    OpeningAddsNobody<D>(0, [0, 1, 1], parts);
    EligibleTwice(t0.g.(known := {1}));
    assert {} + {1} == {1} && [1, 1][..1] == [1];
    RefusedRound(t0, 1, 1, [1, 1]);
    var c: (Call<D>, Faults) := (Receive(Encoded(KeyBundle(1))), FAULTLESS.(add := Some(1)));
    assert [c][..0] == [];
    assert CallsUnder(t0, [c]) == StepUnder(CallsUnder(t0, []), c.0, c.1);
  }

  lemma EligibleTwice<D>(g: Group<D>)
    requires g.me == 0 && g.known == {1} && g.added == {0}
    ensures Eligible(g, [0, 1, 1]) == [1, 1]
  {
    assert [0, 1, 1][1..] == [1, 1] && [1, 1][1..] == [1] && Eligible(g, [1][1..]) == [];
    assert Eligible(g, [1]) == [1];
    assert Eligible(g, [1, 1]) == [1] + Eligible(g, [1]);
  }

  // ---- When a reaction fails ----

  /** Application data that cannot be read is skipped, whatever the reason. */
  predicate Skips<D>(g: Group<D>, op: Op<D>, f: Faults) {
    op.App? && (f.process || (g.space.revoked && g.me !in g.space.members))
  }

  /** A reaction fails exactly on bytes that are no operation, on a control operation the library does not
      take, on a refused addition, on a failing membership query, asked only before the welcome, and on a
      failing encryption of what waited for it. A skipped operation leaves everything as it was, a failing
      query leaves the node waiting, and what is read is decrypted and kept even then. */
  lemma ReactionFailsIff<D>(g: Group<D>, op: Op<D>, f: Faults)
    ensures ReceivedUnder(g, Garbage, f) == (g, Err)
    ensures Skips(g, op, f) ==> ReceivedUnder(g, Encoded(op), f) == (g, Ok(Output([], [])))
    ensures f.process && !op.App? ==> ReceivedUnder(g, Encoded(op), f) == (g, Err)
    ensures !f.process && !Skips(g, op, f) ==>
      var (after, out) := ReceivedUnder(g, Encoded(op), f);
      var read := Received(g, Encoded(op));
      && Process(g.space, g.me, op).Ok? && read.1.Ok?
      && after.known == read.0.known
      && (out.Err? <==>
            || (g.creator && f.add.Some? && f.add.value < |Newly(g, op)|)
            || (!g.welcomed && f.ask)
            || (!g.welcomed && read.0.welcomed && g.pending.Some? && f.publish))
      && (out.Ok? ==> (after, out) == read)
      && (!g.welcomed && f.ask ==> !after.welcomed && after.pending == g.pending)
  {
    if !f.process && Process(g.space, g.me, op).Ok? {
      var (space, events) := Process(g.space, g.me, op).value;
      BundlesOf(g.space, g.me, op);
      var g1 := g.(space := space, known := g.known + Bundles(events));
      SameEligible(g1, g.(known := g1.known), g.members);
    }
  }

  lemma BundlesOf<D>(s: Space<D>, me: Actor, op: Op<D>)
    requires Process(s, me, op).Ok?
    ensures Bundles(Process(s, me, op).value.1) == if op.KeyBundle? then {op.author} else {}
  {
    var events := Process(s, me, op).value.1;
    if op.KeyBundle? { assert events[0] == Bundle(op.author); }
  }

  lemma {:induction false} SameEligible<D>(g: Group<D>, g': Group<D>, ms: seq<Actor>)
    requires g.me == g'.me && g.known == g'.known && g.added == g'.added
    ensures Eligible(g, ms) == Eligible(g', ms)
    decreases |ms|
  {
    if ms != [] { SameEligible(g, g', ms[1..]); }
  }

  /** Publishing fails exactly if the node is welcomed and cannot encrypt, adding a member if one addition of its
      round is refused, removing one if the creator's removal of another is refused. */
  lemma CallsFailIff<D>(g: Group<D>, d: D, m: Actor, f: Faults)
    ensures PublishedUnder(g, d, f).1.Err? <==> g.welcomed && f.publish
    ensures PublishedUnder(g, d, f).1.Err? ==> PublishedUnder(g, d, f).0 == g
    ensures WithMemberUnder(g, m, f).1.Err? <==>
      && g.creator && f.add.Some?
      && f.add.value < |Eligible(g, g.members)| + if m !in g.members && IsEligible(g, m) then 1 else 0
    ensures WithoutMemberUnder(g, m, f).1.Err? <==> g.creator && m != g.me && f.remove
  {
    if m !in g.members {
      EligibleSnoc(g, g.members, m);
      SameEligible(g, g.(members := g.members + [m]), g.members + [m]);
    }
  }

  lemma {:induction false} EligibleSnoc<D>(g: Group<D>, ms: seq<Actor>, m: Actor)
    ensures Eligible(g, ms + [m]) == Eligible(g, ms) + if IsEligible(g, m) then [m] else []
    decreases |ms|
  {
    if ms == [] {
      assert ([] + [m])[1..] == [];
    } else {
      EligibleSnoc(g, ms[1..], m);
      assert (ms + [m])[1..] == ms[1..] + [m];
    }
  }

  /** The peers a creator may add on reading `op`. */
  function Newly<D>(g: Group<D>, op: Op<D>): seq<Actor> {
    Eligible(g.(known := g.known + if op.KeyBundle? then {op.author} else {}), g.members)
  }

  // ---- What a log looks like ----

  /** An addition or removal is one operation on the authorisation and then one on the space. */
  ghost predicate PairedAt<D>(ops: seq<Op<D>>, i: nat)
    requires i < |ops|
  {
    match ops[i]
    case AddAuth(a, m) => i + 1 < |ops| && ops[i + 1] == AddSpace(a, m)
    case AddSpace(a, m) => i > 0 && ops[i - 1] == AddAuth(a, m)
    case RemoveAuth(a, m) => i + 1 < |ops| && ops[i + 1] == RemoveSpace(a, m)
    case RemoveSpace(a, m) => i > 0 && ops[i - 1] == RemoveAuth(a, m)
    case _ => true
  }

  ghost predicate Paired<D>(ops: seq<Op<D>>) {
    forall i: nat | i < |ops| :: PairedAt(ops, i)
  }

  /** What follows the opening: no bundle, no creation; additions and removals by the leader alone. */
  ghost predicate Follows<D>(me: Actor, leads: bool, ops: seq<Op<D>>) {
    Paired(ops) && forall op <- ops :: op.author == me && !op.KeyBundle? && !op.Create? && (op.App? || leads)
  }

  lemma FollowsOn<D>(me: Actor, leads: bool, ops: seq<Op<D>>, more: seq<Op<D>>)
    requires Follows(me, leads, ops) && Follows(me, leads, more)
    ensures Follows(me, leads, ops + more)
  {
    var all := ops + more;
    forall i: nat | i < |all| ensures PairedAt(all, i) {
      if i < |ops| { assert PairedAt(ops, i); } else { assert PairedAt(more, i - |ops|); }
    }
  }

  lemma {:induction false} WelcomesFollow<D>(me: Actor, ms: seq<Actor>)
    ensures Follows(me, true, WelcomeOps<D>(me, ms))
    decreases |ms|
  {
    if ms != [] {
      WelcomesFollow<D>(me, ms[1..]);
      var one: seq<Op<D>> := [AddAuth(me, ms[0]), AddSpace(me, ms[0])];
      assert Follows(me, true, one) by { assert PairedAt(one, 0) && PairedAt(one, 1); }
      FollowsOn(me, true, one, WelcomeOps<D>(me, ms[1..]));
    }
  }

  lemma RoundFollows<D>(g: Group<D>, f: Faults)
    ensures Follows(g.me, g.creator, Built(WelcomedUnder(g, f).1))
    ensures WelcomedUnder(g, f).0.me == g.me && WelcomedUnder(g, f).0.creator == g.creator
  {
    WelcomesFollow<D>(g.me, Eligible(g, g.members));
  }

  lemma ReactionFollows<D>(g: Group<D>, w: Wire<D>, f: Faults)
    ensures Follows(g.me, g.creator, Sends(ReceivedUnder(g, w, f).1))
    ensures ReceivedUnder(g, w, f).0.me == g.me && ReceivedUnder(g, w, f).0.creator == g.creator
  {
    if w.Encoded? && ProcessUnder(g.space, g.me, w.op, f).Ok? {
      var (space, events) := Process(g.space, g.me, w.op).value;
      var g1 := g.(space := space, known := g.known + Bundles(events));
      RoundFollows(g1, f);
      var (g2, welcomes) := WelcomedUnder(g1, f);
      if welcomes.Ok? {
        FollowsOn(g.me, g.creator, welcomes.value, Built(FlushedUnder(g2, f).1));
      }
    }
  }

  lemma StepFollows<D>(t: Trace<D>, call: Call<D>, f: Faults) returns (more: seq<Op<D>>)
    ensures StepUnder(t, call, f).sent == t.sent + more && Follows(t.g.me, t.g.creator, more)
    ensures StepUnder(t, call, f).g.me == t.g.me && StepUnder(t, call, f).g.creator == t.g.creator
  {
    assert t.sent + [] == t.sent;
    match call
    case Publish(d) => more := Built(PublishedUnder(t.g, d, f).1);
    case Receive(w) =>
      ReactionFollows(t.g, w, f);
      more := Sends(ReceivedUnder(t.g, w, f).1);
    case AddMember(m) =>
      var g := if m in t.g.members then t.g else t.g.(members := t.g.members + [m]);
      RoundFollows(g, f);
      more := Built(WelcomedUnder(g, f).1);
    case RemoveMember(m) =>
      more := Built(WithoutMemberUnder(t.g, m, f).1);
      assert more != [] ==> PairedAt(more, 0) && PairedAt(more, 1);
  }

  function Opening<D>(me: Actor, leads: bool, parts: nat): seq<Op<D>> {
    [KeyBundle(me)] + if leads then seq(parts, _ => Create(me)) else []
  }

  lemma OpensSo<D>(me: Actor, members: seq<Actor>, parts: nat)
    ensures var t := Calls<D>(me, members, parts, []);
      t.g.me == me && (t.g.creator <==> Smallest(me, members)) && t.sent == Opening(me, t.g.creator, parts)
  {
  }

  lemma Extends<T>(start: seq<T>, early: seq<T>, late: seq<T>)
    ensures start + early + late == start + (early + late)
  {
  }

  /** Over any calls and any failures, a log is the author's key bundle; at the elected one the creation; and
      then data, and at the elected one additions and removals, each whole. */
  lemma {:induction false} LogIsWellFormed<D>(me: Actor, members: seq<Actor>, parts: nat,
                                              calls: seq<(Call<D>, Faults)>) returns (more: seq<Op<D>>)
    ensures
      var t := CallsUnder(Calls(me, members, parts, []), calls);
      && t.g.me == me && (t.g.creator <==> Smallest(me, members))
      && t.sent == Opening(me, t.g.creator, parts) + more && Follows(me, t.g.creator, more)
    decreases |calls|
  {
    OpensSo<D>(me, members, parts);
    var t0 := Calls<D>(me, members, parts, []);
    more := [];
    if calls == [] {
      assert t0.sent + [] == t0.sent;
    } else {
      var n := |calls| - 1;
      var early := LogIsWellFormed(me, members, parts, calls[..n]);
      var t := CallsUnder(t0, calls[..n]);
      var late := StepFollows(t, calls[n].0, calls[n].1);
      FollowsOn(me, t.g.creator, early, late);
      Extends(Opening(me, t.g.creator, parts), early, late);
      more := early + late;
    }
  }
}
