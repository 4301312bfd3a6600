/** What removing a member does: to the lists of whoever calls it, to later welcomes, and to what the removed
    node can read. */
module GroupRemovals {
  import opened EncryptedGroups
  import opened GroupBookkeeping
  import opened GroupBuffering
  import opened GroupFaults
  import opened Wrappers

  // ---- The call ----

  /** `kept` is what `list` has besides `m`, in its order: the places `at` are all of those and ascend. */
  ghost predicate KeepsOthers(list: seq<Actor>, kept: seq<Actor>, m: Actor, at: seq<nat>) {
    && |at| == |kept|
    && (forall i, j | 0 <= i < j < |at| :: at[i] < at[j])
    && (forall i | 0 <= i < |at| :: at[i] < |list| && kept[i] == list[at[i]])
    && (forall k: nat | k < |list| :: k in at <==> list[k] != m)
  }

  lemma {:induction false} WithoutKeepsOthers(list: seq<Actor>, m: Actor) returns (at: seq<nat>)
    ensures KeepsOthers(list, Without(list, m), m, at)
    decreases |list|
  {
    at := [];
    if list != [] {
      var n := |list| - 1;
      at := WithoutKeepsOthers(list[..n], m);
      WithoutSnoc(list[..n], list[n], m);
      assert list == list[..n] + [list[n]];
      if list[n] != m { at := at + [n]; }
    }
  }

  lemma {:induction false} WithoutSnoc(list: seq<Actor>, x: Actor, m: Actor)
    ensures Without(list + [x], m) == if x == m then Without(list, m) else Without(list, m) + [x]
    decreases |list|
  {
    if list != [] {
      WithoutSnoc(list[1..], x, m);
      assert (list + [x])[1..] == list[1..] + [x];
    } else {
      assert [x][1..] == [];
    }
  }

  /** A removal drops the peer from all three books and nobody else from any, wherever it is called. At the
      creator, and there alone, it takes the peer out of the space and sends two operations that say so, if the
      library does not refuse; nothing else changes. */
  lemma RemovalForgets<D>(t: Trace<D>, m: Actor, f: Faults) returns (at: seq<nat>)
    ensures
      var u := StepUnder(t, RemoveMember(m), f);
      && KeepsOthers(t.g.members, u.g.members, m, at)
      && (forall x :: x in u.g.added <==> x in t.g.added && x != m)
      && (forall x :: x in u.g.known <==> x in t.g.known && x != m)
      && u == Trace(t.g.(members := u.g.members, added := u.g.added, known := u.g.known, space := u.g.space),
                    u.sent, t.handed)
      && (t.g.creator && m != t.g.me && !f.remove ==>
            && u.sent == t.sent + [RemoveAuth(t.g.me, m), RemoveSpace(t.g.me, m)]
            && u.g.space == t.g.space.(members := u.g.space.members)
            && forall x :: x in u.g.space.members <==> x in t.g.space.members && x != m)
      && (!t.g.creator || m == t.g.me || f.remove ==> u.sent == t.sent && u.g.space == t.g.space)
  {
    at := WithoutKeepsOthers(t.g.members, m);
    assert t.sent + [] == t.sent;
  }

  // ---- Welcomed again ----

  ghost predicate Forgotten<D>(g: Group<D>, m: Actor) {
    m !in g.members && m !in g.known && m !in g.added
  }

  lemma {:induction false} CallsAppend<D>(me: Actor, members: seq<Actor>, parts: nat, calls: seq<Call<D>>, call: Call<D>)
    ensures Calls(me, members, parts, calls + [call]) == Step(Calls(me, members, parts, calls), call)
  {
    assert (calls + [call])[..|calls + [call]| - 1] == calls;
  }

  /** Where peer `m` stands at a creator after the calls `more`, from when it was forgotten. */
  ghost predicate Stands<D>(base: Trace<D>, t: Trace<D>, m: Actor, more: seq<Call<D>>) {
    && t.g.creator && t.g.me == base.g.me && Booked(t.g)
    && (m in t.g.members <==> AddMember(m) in more)
    && (m in t.g.known <==> Receive(Encoded(KeyBundle(m))) in more)
    && base.sent <= t.sent
    && (AddSpace(base.g.me, m) in t.sent[|base.sent|..] <==> m in t.g.added)
  }

  /** What a call that is no removal does to the books about `m`, and what it sends. */
  lemma CallOnBooks<D>(t: Trace<D>, call: Call<D>, m: Actor)
    requires t.g.creator && m != t.g.me && call != RemoveMember(m) && Booked(t.g)
    ensures var u := Step(t, call);
      && u.g.creator && u.g.me == t.g.me && t.sent <= u.sent && Booked(u.g)
      && (m in u.g.members <==> m in t.g.members || call == AddMember(m))
      && (m in u.g.known <==> m in t.g.known || call == Receive(Encoded(KeyBundle(m))))
      && (m in t.g.added ==> m in u.g.added)
      && (AddSpace(t.g.me, m) in u.sent[|t.sent|..] <==> m in u.g.added && m !in t.g.added)
  {
    CallKeepsBooked(t, call);
    match call
    case Publish(d) =>
    case Receive(w) => ReceiveOnBooks(t, w, m);
    case AddMember(x) => RoundOnBooks(if x in t.g.members then t.g else t.g.(members := t.g.members + [x]), m);
    case RemoveMember(x) => WithoutMembers(t.g.members, x);
  }

  lemma RoundOnBooks<D>(g: Group<D>, m: Actor)
    requires g.creator && m != g.me
    ensures var (after, ops) := WelcomeEligible(g);
      && after.me == g.me && after.creator && after.members == g.members && after.known == g.known
      && (AddSpace(g.me, m) in ops <==> m in after.added && m !in g.added)
      && g.added <= after.added
  {
    EligibleMembers(g, g.members);
    WelcomeOpsName<D>(g.me, Eligible(g, g.members), m);
  }

  lemma {:induction false} WelcomeOpsName<D>(me: Actor, ms: seq<Actor>, m: Actor)
    ensures AddSpace(me, m) in WelcomeOps<D>(me, ms) <==> m in ms
    decreases |ms|
  {
    if ms != [] {
      WelcomeOpsName<D>(me, ms[1..], m);
      assert ms == [ms[0]] + ms[1..];
    }
  }

  lemma ReceiveOnBooks<D>(t: Trace<D>, w: Wire<D>, m: Actor)
    requires t.g.creator && m != t.g.me
    ensures var u := Step(t, Receive(w));
      && u.g.creator && u.g.me == t.g.me && t.sent <= u.sent && u.g.members == t.g.members
      && (m in u.g.known <==> m in t.g.known || w == Encoded(KeyBundle(m)))
      && (m in t.g.added ==> m in u.g.added)
      && (AddSpace(t.g.me, m) in u.sent[|t.sent|..] <==> m in u.g.added && m !in t.g.added)
  {
    if w.Encoded? && Process(t.g.space, t.g.me, w.op).Ok? {
      var (space, events) := Process(t.g.space, t.g.me, w.op).value;
      var g1 := t.g.(space := space, known := t.g.known + Bundles(events));
      BundlesOf(t.g.space, t.g.me, w.op);
      RoundOnBooks(g1, m);
      var (g2, welcomes) := WelcomeEligible(g1);
      var flush := Flushed(g2).1;
      assert Step(t, Receive(w)).sent[|t.sent|..] == welcomes + flush;
    }
  }

  lemma {:induction false} StandsAfter<D>(me: Actor, members: seq<Actor>, parts: nat, base: seq<Call<D>>, m: Actor,
                                          more: seq<Call<D>>)
    requires m != me && RemoveMember(m) !in more
    requires var t := Calls(me, members, parts, base); t.g.creator && t.g.me == me && Forgotten(t.g, m) && Booked(t.g)
    ensures Stands(Calls(me, members, parts, base), Calls(me, members, parts, base + more), m, more)
    decreases |more|
  {
    var t := Calls(me, members, parts, base);
    if more == [] {
      assert base + more == base;
      assert t.sent[|t.sent|..] == [];
    } else {
      var n := |more| - 1;
      var rest, call := more[..n], more[n];
      assert more == rest + [call];
      StandsAfter(me, members, parts, base, m, rest);
      assert base + more == base + rest + [call];
      CallsAppend(me, members, parts, base + rest, call);
      StandsStep(t, Calls(me, members, parts, base + rest), m, rest, call);
    }
  }

  lemma StandsStep<D>(base: Trace<D>, t: Trace<D>, m: Actor, more: seq<Call<D>>, call: Call<D>)
    requires Stands(base, t, m, more) && m != base.g.me && call != RemoveMember(m)
    ensures Stands(base, Step(t, call), m, more + [call])
  {
    CallOnBooks(t, call, m);
    var u := Step(t, call);
    assert u.sent[|base.sent|..] == t.sent[|base.sent|..] + u.sent[|t.sent|..];
  }

  /** The creator welcomes a removed peer again exactly if it is declared again and its bundle arrives again, in
      whichever order. */
  lemma WelcomedAgainIff<D>(me: Actor, members: seq<Actor>, parts: nat, before: seq<Call<D>>, m: Actor,
                            after: seq<Call<D>>)
    requires Smallest(me, members) && m != me && RemoveMember(m) !in after
    ensures
      var was := Calls(me, members, parts, before + [RemoveMember(m)]).sent;
      var now := Calls(me, members, parts, before + [RemoveMember(m)] + after).sent;
      && was <= now
      && (AddSpace(me, m) in now[|was|..]
          <==> AddMember(m) in after && Receive(Encoded(KeyBundle(m))) in after)
  {
    var base := before + [RemoveMember(m)];
    CallsAppend(me, members, parts, before, RemoveMember(m));
    var t := Calls(me, members, parts, before);
    SameElection(me, members, parts, base);
    CallsBook(me, members, parts, base);
    StepIsFaultless(t, RemoveMember(m));
    var at := RemovalForgets(t, m, FAULTLESS);
    assert Forgotten(Calls(me, members, parts, base).g, m) by { WithoutMembers(t.g.members, m); }
    StandsAfter(me, members, parts, base, m, after);
  }

  // ---- What a node can read ----

  /** The operation read adds `x` to the space. */
  predicate LetsIn<D>(call: Call<D>, x: Actor) {
    match call
    case Receive(Encoded(AddSpace(_, m))) => m == x
    case Receive(Encoded(Create(a))) => a == x
    case _ => false
  }

  /** The operation read removes `x` from it. */
  predicate PutsOut<D>(call: Call<D>, x: Actor) {
    call.Receive? && call.wire.Encoded? && call.wire.op.RemoveSpace? && call.wire.op.member == x
  }

  /** Whether the calls leave `x` in the space as this node sees it, unless it leads: the last operation read
      that says anything about `x` says so. */
  predicate Inside<D>(calls: seq<Call<D>>, x: Actor) {
    if calls == [] then false
    else
      var n := |calls| - 1;
      || LetsIn(calls[n], x)
      || (Inside(calls[..n], x) && !PutsOut(calls[n], x))
  }

  /** A removal of `me` was read, and no addition since. */
  predicate Outcast<D>(calls: seq<Call<D>>, me: Actor) {
    if calls == [] then false
    else
      var n := |calls| - 1;
      || PutsOut(calls[n], me)
      || (Outcast(calls[..n], me) && !(LetsIn(calls[n], me) && calls[n].wire.op.AddSpace?))
  }

  ghost predicate Sees<D>(t: Trace<D>, me: Actor, calls: seq<Call<D>>) {
    && t.g.me == me && !t.g.creator
    && (forall x :: x in t.g.space.members <==> Inside(calls, x))
    && (t.g.space.revoked <==> Outcast(calls, me))
  }

  lemma StepSees<D>(t: Trace<D>, me: Actor, calls: seq<Call<D>>, call: Call<D>)
    requires Sees(t, me, calls)
    ensures Sees(Step(t, call), me, calls + [call])
  {
    assert (calls + [call])[..|calls|] == calls;
  }

  lemma {:induction false} CallsSee<D>(me: Actor, members: seq<Actor>, parts: nat, calls: seq<Call<D>>)
    requires !Smallest(me, members)
    ensures Sees(Calls(me, members, parts, calls), me, calls)
    decreases |calls|
  {
    if calls != [] {
      var n := |calls| - 1;
      CallsSee(me, members, parts, calls[..n]);
      StepSees(Calls(me, members, parts, calls[..n]), me, calls[..n], calls[n]);
      assert calls == calls[..n] + [calls[n]];
    }
  }

  lemma InsiderReads<D>(g: Group<D>, a: Actor, d: D)
    requires g.me in g.space.members && !g.creator
    ensures var (after, out) := Received(g, Encoded(App(a, d)));
      out.Ok? && out.value.decrypted == [d] && after.space == g.space
  {
    var events: seq<Event<D>> := [Application(d)];
    assert Payloads(events) == [d] by { assert Payloads(events[1..]) == []; }
  }

  /** After any calls, a node that does not lead decrypts application data on arrival exactly if the last
      operation it read about itself let it in; it keeps the data for later exactly if it is not in and was not
      last put out; and if it was put out, it skips the data, without failing and for good. */
  lemma DecryptsIff<D>(me: Actor, members: seq<Actor>, parts: nat, calls: seq<Call<D>>, a: Actor, d: D)
    requires !Smallest(me, members)
    ensures
      var t := Calls(me, members, parts, calls);
      var (after, out) := Received(t.g, Encoded(App(a, d)));
      && out.Ok?
      && out.value.decrypted == (if Inside(calls, me) then [d] else [])
      && after.space.held == t.g.space.held + (if Inside(calls, me) || Outcast(calls, me) then [] else [d])
      && (Outcast(calls, me) && !Inside(calls, me) ==> after == t.g && out.value.toSend == [])
  {
    var t := Calls(me, members, parts, calls);
    CallsSee(me, members, parts, calls);
    assert Inside(calls, me) <==> me in t.g.space.members;
    assert t.g.space.held + [] == t.g.space.held;
    if Inside(calls, me) { InsiderReads(t.g, a, d); }
  }

  /** So once it has read its removal, it decrypts nothing until it reads an addition of itself. */
  lemma {:induction false} RemovedReadsNothing<D>(me: Actor, members: seq<Actor>, parts: nat, before: seq<Call<D>>,
                                                  from: Actor, after: seq<Call<D>>, a: Actor, d: D)
    requires !Smallest(me, members)
    requires forall c <- after :: !LetsIn(c, me)
    ensures
      var g := Calls(me, members, parts, before + [Receive(Encoded(RemoveSpace(from, me)))] + after).g;
      Received(g, Encoded(App(a, d))) == (g, Ok(Output([], [])))
  {
    var calls := before + [Receive(Encoded(RemoveSpace(from, me)))];
    assert calls[..|before|] == before;
    StaysOut(calls, me, after);
    DecryptsIff(me, members, parts, calls + after, a, d);
  }

  lemma {:induction false} StaysOut<D>(calls: seq<Call<D>>, me: Actor, after: seq<Call<D>>)
    requires Outcast(calls, me) && !Inside(calls, me)
    requires forall c <- after :: !LetsIn(c, me)
    ensures Outcast(calls + after, me) && !Inside(calls + after, me)
    decreases |after|
  {
    if after == [] {
      assert calls + after == calls;
    } else {
      var n := |after| - 1;
      StaysOut(calls, me, after[..n]);
      assert (calls + after)[..|calls + after| - 1] == calls + after[..n];
      assert after[n] in after;
    }
  }
}
