/** When a state handed to a group is lost: exactly when latest-wins buffering keeps what was handed in,
    whatever the calls and whatever fails in them. */
module GroupBuffering {
  import opened EncryptedGroups
  import opened GroupBookkeeping
  import opened GroupFaults
  import opened Lattice
  import opened Wrappers

  /** Nothing waits once welcomed, nothing has left before, and what leaves or waits was handed in. */
  ghost predicate Waits<D>(t: Trace<D>) {
    && (if t.g.welcomed then t.g.pending.None? else Apps(t.sent) == [])
    && forall x <- Outgoing(t) :: x in t.handed
  }

  /** The call welcomes the node, takes what waited, and fails to encrypt it. */
  predicate FlushFails<D(==)>(t: Trace<D>, call: Call<D>, f: Faults) {
    f.publish && t.g.pending.Some? && !t.g.welcomed && call.Receive? && StepUnder(t, call, f).g.welcomed
  }

  lemma OnlyControl<D>(sent: seq<Op<D>>, more: seq<Op<D>>)
    requires forall op <- more :: !op.App?
    ensures Apps(sent + more) == Apps(sent)
  {
    NoApps(more);
    AppsConcat(sent, more);
  }

  lemma RoundIsControl<D>(g: Group<D>, f: Faults)
    ensures forall op <- Built(WelcomedUnder(g, f).1) :: op.AddAuth? || op.AddSpace?
    ensures var after := WelcomedUnder(g, f).0;
      after.me == g.me && after.welcomed == g.welcomed && after.pending == g.pending
  {
    WelcomesAreControl<D>(g.me, Eligible(g, g.members));
  }

  /** What one call does to the outgoing states. */
  lemma StepOutgoing<D>(t: Trace<D>, call: Call<D>, f: Faults)
    requires Waits(t)
    ensures var u := StepUnder(t, call, f);
      && (if u.g.welcomed then u.g.pending.None? else Apps(u.sent) == [])
      && u.handed == (if call.Publish? then t.handed + [call.data] else t.handed)
      && Outgoing(u) ==
           if call.Publish? && !t.g.welcomed then [call.data]
           else if call.Publish? && !f.publish then Outgoing(t) + [call.data]
           else if FlushFails(t, call, f) then []
           else Outgoing(t)
  {
    match call
    case Publish(d) =>
      assert t.sent + [] == t.sent && Apps([App(t.g.me, d)][..0]) == [];
      assert Apps([App(t.g.me, d)]) == [d];
      AppsConcat(t.sent, [App(t.g.me, d)]);
    case Receive(w) =>
      if w.Encoded? && ProcessUnder(t.g.space, t.g.me, w.op, f).Ok? {
        var (space, events) := Process(t.g.space, t.g.me, w.op).value;
        ReactionOutgoing(t, w, f, t.g.(space := space, known := t.g.known + Bundles(events)));
      } else {
        assert t.sent + [] == t.sent;
      }
    case AddMember(m) =>
      var g := if m in t.g.members then t.g else t.g.(members := t.g.members + [m]);
      RoundIsControl(g, f);
      OnlyControl(t.sent, Built(WelcomedUnder(g, f).1));
    case RemoveMember(m) =>
      OnlyControl(t.sent, Built(WithoutMemberUnder(t.g, m, f).1));
  }

  lemma ReactionOutgoing<D>(t: Trace<D>, w: Wire<D>, f: Faults, g1: Group<D>)
    requires Waits(t) && w.Encoded? && ProcessUnder(t.g.space, t.g.me, w.op, f).Ok?
    requires var (space, events) := Process(t.g.space, t.g.me, w.op).value;
      g1 == t.g.(space := space, known := t.g.known + Bundles(events))
    ensures var u := StepUnder(t, Receive(w), f);
      && (if u.g.welcomed then u.g.pending.None? else Apps(u.sent) == [])
      && u.handed == t.handed
      && Outgoing(u) == if FlushFails(t, Receive(w), f) then [] else Outgoing(t)
  {
    var (g2, welcomes) := WelcomedUnder(g1, f);
    RoundIsControl(g1, f);
    assert t.sent + [] == t.sent;
    if welcomes.Ok? {
      assert Built(welcomes) == welcomes.value;
      FlushOutgoing(t, g2, f, welcomes.value);
    }
  }

  lemma FlushOutgoing<D>(t: Trace<D>, g2: Group<D>, f: Faults, welcomes: seq<Op<D>>)
    requires Waits(t) && g2.welcomed == t.g.welcomed && g2.pending == t.g.pending
    requires forall op <- welcomes :: !op.App?
    ensures var (g3, flush) := FlushedUnder(g2, f);
      var u := Trace(g3, if flush.Ok? then t.sent + (welcomes + flush.value) else t.sent, t.handed);
      && (if g3.welcomed then g3.pending.None? else Apps(u.sent) == [])
      && Outgoing(u) ==
           if f.publish && t.g.pending.Some? && !t.g.welcomed && g3.welcomed then [] else Outgoing(t)
  {
    var (g3, flush) := FlushedUnder(g2, f);
    if flush.Ok? {
      OnlyControl(t.sent, welcomes);
      assert t.sent + (welcomes + flush.value) == t.sent + welcomes + flush.value;
      if flush.value == [] {
        assert t.sent + welcomes + [] == t.sent + welcomes;
      } else {
        OneApp(g2.me, g2.pending.value);
        AppsConcat(t.sent + welcomes, flush.value);
      }
    }
  }

  lemma OneApp<D>(me: Actor, d: D)
    ensures Apps([App(me, d)]) == [d]
  {
    assert Apps([App(me, d)][..0]) == [];
  }

  lemma StepWaits<D>(t: Trace<D>, call: Call<D>, f: Faults)
    requires Waits(t)
    ensures Waits(StepUnder(t, call, f))
  {
    StepOutgoing(t, call, f);
  }

  ghost predicate Increasing<D(!new)>(join: (D, D) -> D, s: seq<D>) {
    forall i, j :: 0 <= i < j < |s| ==> Below(join, s[i], s[j])
  }

  ghost predicate Covers<D(!new)>(join: (D, D) -> D, s: seq<D>, x: D) {
    exists y <- s :: Below(join, x, y)
  }

  /** Every state handed in is contained in one that left or waits. */
  ghost predicate AllCovered<D(!new)>(join: (D, D) -> D, t: Trace<D>) {
    forall x <- t.handed :: Covers(join, Outgoing(t), x)
  }

  /** What a caller could check before the call: a publish over a waiting state is above it, a publish that
      fails hands in nothing new, and what waited is encrypted when the welcome comes. */
  ghost predicate Harmless<D(!new)>(join: (D, D) -> D, t: Trace<D>, call: Call<D>, f: Faults) {
    match call
    case Publish(d) =>
      if t.g.welcomed then f.publish ==> Covers(join, Outgoing(t), d)
      else t.g.pending.Some? ==> Below(join, t.g.pending.value, d)
    case _ => !FlushFails(t, call, f)
  }

  lemma StepCoversIff<D(!new)>(join: (D, D) -> D, t: Trace<D>, call: Call<D>, f: Faults)
    requires Semilattice(join) && Waits(t) && AllCovered(join, t)
    ensures AllCovered(join, StepUnder(t, call, f)) <==> Harmless(join, t, call, f)
  {
    var u := StepUnder(t, call, f);
    StepOutgoing(t, call, f);
    if call.Publish? {
      PublishCoversIff(join, t, call.data, f, u);
    } else if FlushFails(t, call, f) {
      assert t.g.pending.value in Outgoing(t);
    }
  }

  lemma PublishCoversIff<D(!new)>(join: (D, D) -> D, t: Trace<D>, d: D, f: Faults, u: Trace<D>)
    requires Semilattice(join) && Waits(t) && AllCovered(join, t) && u.handed == t.handed + [d]
    requires Outgoing(u) ==
      if !t.g.welcomed then [d] else if f.publish then Outgoing(t) else Outgoing(t) + [d]
    ensures AllCovered(join, u) <==> Harmless(join, t, Publish(d), f)
  {
    assert d in u.handed && Idempotent(join, d);
    if t.g.welcomed {
      assert forall x <- t.handed :: x in u.handed;
      if !f.publish {
        assert d in Outgoing(u);
        forall x <- t.handed ensures Covers(join, Outgoing(u), x) {
          var y :| y in Outgoing(t) && Below(join, x, y);
          assert y in Outgoing(u);
        }
      }
    } else {
      OverwriteCoversIff(join, t, d, u);
    }
  }

  lemma OverwriteCoversIff<D(!new)>(join: (D, D) -> D, t: Trace<D>, d: D, u: Trace<D>)
    requires Semilattice(join) && Waits(t) && AllCovered(join, t) && !t.g.welcomed
    requires u.handed == t.handed + [d] && Outgoing(u) == [d]
    ensures AllCovered(join, u) <==> (t.g.pending.Some? ==> Below(join, t.g.pending.value, d))
  {
    assert d in Outgoing(u) && Idempotent(join, d);
    forall x ensures Covers(join, Outgoing(u), x) <==> Below(join, x, d) {}
    if t.g.pending.Some? {
      var p := t.g.pending.value;
      assert p in Outgoing(t) && p in u.handed;
      if Below(join, p, d) {
        forall x <- t.handed ensures Below(join, x, d) {
          assert Covers(join, Outgoing(t), x);
          assert forall y <- Outgoing(t) :: y == p;
          BelowTransitive(join, x, p, d);
        }
      }
    } else {
      assert Outgoing(t) == [];
    }
  }

  lemma {:induction false} CallsWait<D>(me: Actor, members: seq<Actor>, parts: nat, calls: seq<(Call<D>, Faults)>)
    ensures Waits(CallsUnder(Calls(me, members, parts, []), calls))
    decreases |calls|
  {
    if calls == [] {
      NoApps(Opened<D>(me, members, parts).1);
    } else {
      var n := |calls| - 1;
      CallsWait(me, members, parts, calls[..n]);
      StepWaits(CallsUnder(Calls(me, members, parts, []), calls[..n]), calls[n].0, calls[n].1);
    }
  }

  /** The main result: over any calls, whatever fails in them, at no point is a state handed in missing from
      all that left or waits, if and only if every call was harmless. */
  lemma NothingHandedIsLostIff<D(!new)>(join: (D, D) -> D, me: Actor, members: seq<Actor>, parts: nat,
                                        calls: seq<(Call<D>, Faults)>)
    requires Semilattice(join)
    ensures var t0 := Calls<D>(me, members, parts, []);
      (forall n | 0 <= n <= |calls| :: AllCovered(join, CallsUnder(t0, calls[..n])))
      <==> (forall n | 0 <= n < |calls| :: Harmless(join, CallsUnder(t0, calls[..n]), calls[n].0, calls[n].1))
  {
    var t0 := Calls<D>(me, members, parts, []);
    if forall n | 0 <= n <= |calls| :: AllCovered(join, CallsUnder(t0, calls[..n])) {
      forall n | 0 <= n < |calls| ensures Harmless(join, CallsUnder(t0, calls[..n]), calls[n].0, calls[n].1) {
        assert AllCovered(join, CallsUnder(t0, calls[..n])) && AllCovered(join, CallsUnder(t0, calls[..n + 1]));
        PrefixCoversIff(join, me, members, parts, calls, n);
      }
    }
    if forall n | 0 <= n < |calls| :: Harmless(join, CallsUnder(t0, calls[..n]), calls[n].0, calls[n].1) {
      forall n | 0 <= n <= |calls| ensures AllCovered(join, CallsUnder(t0, calls[..n])) {
        HarmlessCovers(join, me, members, parts, calls, n);
      }
    }
  }

  lemma PrefixCoversIff<D(!new)>(join: (D, D) -> D, me: Actor, members: seq<Actor>, parts: nat,
                                 calls: seq<(Call<D>, Faults)>, n: nat)
    requires Semilattice(join) && n < |calls|
    requires AllCovered(join, CallsUnder(Calls(me, members, parts, []), calls[..n]))
    ensures var t0 := Calls<D>(me, members, parts, []);
      AllCovered(join, CallsUnder(t0, calls[..n + 1]))
      <==> Harmless(join, CallsUnder(t0, calls[..n]), calls[n].0, calls[n].1)
  {
    CallsWait(me, members, parts, calls[..n]);
    assert calls[..n + 1][..n] == calls[..n];
    StepCoversIff(join, CallsUnder(Calls(me, members, parts, []), calls[..n]), calls[n].0, calls[n].1);
  }

  lemma {:induction false} HarmlessCovers<D(!new)>(join: (D, D) -> D, me: Actor, members: seq<Actor>, parts: nat,
                                                   calls: seq<(Call<D>, Faults)>, n: nat)
    requires Semilattice(join) && n <= |calls|
    requires forall k | 0 <= k < |calls| ::
      Harmless(join, CallsUnder(Calls(me, members, parts, []), calls[..k]), calls[k].0, calls[k].1)
    ensures AllCovered(join, CallsUnder(Calls(me, members, parts, []), calls[..n]))
    decreases n
  {
    if n > 0 {
      HarmlessCovers(join, me, members, parts, calls, n - 1);
      PrefixCoversIff(join, me, members, parts, calls, n - 1);
    }
  }

  /** A member that handed in `x` and is welcomed, and then cannot encrypt, is left with neither. */
  lemma AFailedFlushLosesAState<D(!new)>(join: (D, D) -> D, parts: nat, x: D)
    ensures
      var calls := [(Publish(x), FAULTLESS), (Receive(Encoded(AddSpace(0, 1))), FAULTLESS.(publish := true))];
      var t := CallsUnder(Calls(1, [0, 1], parts, []), calls);
      t.g.welcomed && x in t.handed && Outgoing(t) == []
  {
    var c1: (Call<D>, Faults) := (Publish(x), FAULTLESS);
    var c2: (Call<D>, Faults) := (Receive(Encoded(AddSpace(0, 1))), FAULTLESS.(publish := true));
    var t0 := Calls<D>(1, [0, 1], parts, []);
    assert t0.g == Group(1, false, Space({}, [], false), [0, 1], false, {}, {}, None) by { assert 0 in [0, 1]; }
    CallsWait<D>(1, [0, 1], parts, []);
    StepWaits(t0, c1.0, c1.1);
    TwoCalls(t0, c1, c2);
    var t1 := StepUnder(t0, c1.0, c1.1);
    assert t1.handed == t0.handed + [x];
    FailedFlush(t1, x);
  }

  lemma TwoCalls<D>(t: Trace<D>, c1: (Call<D>, Faults), c2: (Call<D>, Faults))
    ensures CallsUnder(t, [c1, c2]) == StepUnder(StepUnder(t, c1.0, c1.1), c2.0, c2.1)
  {
    assert [c1, c2][..1] == [c1] && [c1][..0] == [];
    assert CallsUnder(t, [c1]) == StepUnder(CallsUnder(t, []), c1.0, c1.1);
  }

  lemma FailedFlush<D>(t: Trace<D>, x: D)
    requires Waits(t) && t.g == Group(1, false, Space({}, [], false), [0, 1], false, {}, {}, Some(x)) && x in t.handed
    ensures var u := StepUnder(t, Receive(Encoded(AddSpace(0, 1))), FAULTLESS.(publish := true));
      u.g.welcomed && x in u.handed && Outgoing(u) == []
  {
    var call: Call<D> := Receive(Encoded(AddSpace(0, 1)));
    StepOutgoing(t, call, FAULTLESS.(publish := true));
    assert FlushFails(t, call, FAULTLESS.(publish := true));
  }

  // ---- Without failing calls ----

  function Faultless<D>(calls: seq<Call<D>>): seq<(Call<D>, Faults)> {
    seq(|calls|, i requires 0 <= i < |calls| => (calls[i], FAULTLESS))
  }

  lemma {:induction false} CallsAreFaultless<D>(me: Actor, members: seq<Actor>, parts: nat, calls: seq<Call<D>>)
    ensures CallsUnder(Calls(me, members, parts, []), Faultless(calls)) == Calls(me, members, parts, calls)
    decreases |calls|
  {
    if calls != [] {
      var n := |calls| - 1;
      CallsAreFaultless(me, members, parts, calls[..n]);
      assert Faultless(calls)[..n] == Faultless(calls[..n]);
      StepIsFaultless(Calls(me, members, parts, calls[..n]), calls[n]);
    }
  }

  lemma StepIsFaultless<D>(t: Trace<D>, call: Call<D>)
    ensures StepUnder(t, call, FAULTLESS) == Step(t, call)
  {
  }

  /** A publish over a waiting state is above it. */
  ghost predicate Grows<D(!new)>(join: (D, D) -> D, t: Trace<D>, call: Call<D>) {
    call.Publish? && !t.g.welcomed && t.g.pending.Some? ==> Below(join, t.g.pending.value, call.data)
  }

  /** So with no call failing: latest-wins buffering is safe, at every point of any calls, if and only if
      every publish over a waiting state is above it. */
  lemma LatestWinsIsSafeIff<D(!new)>(join: (D, D) -> D, me: Actor, members: seq<Actor>, parts: nat,
                                     calls: seq<Call<D>>)
    requires Semilattice(join)
    ensures
      (forall n | 0 <= n <= |calls| :: AllCovered(join, Calls(me, members, parts, calls[..n])))
      <==> (forall n | 0 <= n < |calls| :: Grows(join, Calls(me, members, parts, calls[..n]), calls[n]))
  {
    var t0, under := Calls<D>(me, members, parts, []), Faultless(calls);
    NothingHandedIsLostIff(join, me, members, parts, under);
    forall n | 0 <= n <= |calls|
      ensures CallsUnder(t0, under[..n]) == Calls(me, members, parts, calls[..n])
    {
      CallsAreFaultless(me, members, parts, calls[..n]);
      assert under[..n] == Faultless(calls[..n]);
    }
    forall n | 0 <= n < |calls|
      ensures Harmless(join, CallsUnder(t0, under[..n]), under[n].0, under[n].1)
         <==> Grows(join, Calls(me, members, parts, calls[..n]), calls[n])
    {
    }
  }

  lemma GrowingStaysCovered<D(!new)>(join: (D, D) -> D, t: Trace<D>, call: Call<D>)
    requires Semilattice(join) && Waits(t)
    ensures Waits(Step(t, call))
    ensures AllCovered(join, t) && Grows(join, t, call) ==> AllCovered(join, Step(t, call))
  {
    StepIsFaultless(t, call);
    StepWaits(t, call, FAULTLESS);
    if AllCovered(join, t) { StepCoversIff(join, t, call, FAULTLESS); }
  }

  /** What a cell hands over in the order it took it only grows. */
  lemma InOrderGrows<D(!new)>(join: (D, D) -> D, t: Trace<D>, d: D)
    requires Waits(t) && Increasing(join, t.handed + [d])
    ensures Grows(join, t, Publish(d))
  {
    if t.g.pending.Some? {
      assert t.g.pending.value in Outgoing(t);
      var i :| 0 <= i < |t.handed| && t.handed[i] == t.g.pending.value;
      assert (t.handed + [d])[i] == t.g.pending.value && (t.handed + [d])[|t.handed|] == d;
    }
  }

  /** If so, the states broadcast and the one still waiting have the same join as all those handed in;
      nothing waits once the node is welcomed. */
  lemma BufferingLosesNothing<D(!new)>(join: (D, D) -> D, me: Actor, members: seq<Actor>, parts: nat,
                                       calls: seq<Call<D>>, u: D)
    requires Semilattice(join)
    requires forall n | 0 <= n < |calls| :: Grows(join, Calls(me, members, parts, calls[..n]), calls[n])
    ensures var t := Calls(me, members, parts, calls);
      && (t.g.welcomed ==> t.g.pending.None?)
      && (IsLub(join, ToSet(t.handed), u) <==> IsLub(join, ToSet(Outgoing(t)), u))
  {
    LatestWinsIsSafeIff(join, me, members, parts, calls);
    CallsAreFaultless(me, members, parts, calls);
    CallsWait(me, members, parts, Faultless(calls));
    assert calls[..|calls|] == calls;
    OutgoingCovers(join, Calls(me, members, parts, calls), u);
  }

  lemma OutgoingCovers<D(!new)>(join: (D, D) -> D, t: Trace<D>, u: D)
    requires Semilattice(join) && Waits(t) && AllCovered(join, t)
    ensures IsLub(join, ToSet(t.handed), u) <==> IsLub(join, ToSet(Outgoing(t)), u)
  {
    forall x <- ToSet(t.handed) ensures exists y <- ToSet(Outgoing(t)) :: Below(join, x, y) {
      assert Covers(join, Outgoing(t), x);
      var y :| y in Outgoing(t) && Below(join, x, y);
      assert y in ToSet(Outgoing(t));
    }
    CoveredLub(join, ToSet(t.handed), ToSet(Outgoing(t)), u);
  }

  /** States that do not grow can be lost: of two handed in before the welcome, the first is contained in
      what leaves exactly when it is below the second. */
  lemma OverwrittenSurvivesIff<D(!new)>(join: (D, D) -> D, parts: nat, x: D, y: D)
    ensures var t := Calls(1, [0, 1], parts, [Publish(x), Publish(y)]);
      Covers(join, Outgoing(t), x) <==> Below(join, x, y)
  {
    var calls := [Publish(x), Publish(y)];
    var g0, opening := Group(1, false, Space({}, [], false), [0, 1], false, {}, {}, None), [KeyBundle(1)];
    assert 0 in [0, 1];
    assert Calls(1, [0, 1], parts, []) == Trace(g0, opening, []);
    assert calls[..1] == [Publish(x)] && calls[..1][..0] == [];
    assert opening + [] == opening && [] + [x] == [x] && [x] + [y] == [x, y];
    assert Calls(1, [0, 1], parts, calls[..1]) == Trace(g0.(pending := Some(x)), opening, [x]);
    var t := Calls(1, [0, 1], parts, calls);
    assert t == Trace(g0.(pending := Some(y)), opening, [x, y]);
    NoApps(opening);
    assert Outgoing(t) == [] + [y];
    assert y in Outgoing(t);
  }

  ghost function ToSet<D(!new)>(s: seq<D>): set<D> {
    set x | x in s
  }
}
