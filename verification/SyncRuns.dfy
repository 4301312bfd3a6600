/** Every interleaving of handles on one topic: `Merge` is split into its two effects, so another
    handle may run between applying a delta and publishing it, and messages from outside, decodable
    or not, may enter the log at any time. */
module SyncRuns {
  import opened Lattice
  import opened CrdtValues
  import opened OrSets
  import opened SyncedSignals
  import opened Wrappers

  /** A handle: its cell, its subscription's place in the log, the states applied and not yet
      published, and the states it was itself given (the initial one and every delta). */
  datatype Handle<S, B> = Handle(cell: S, cursor: nat, outbox: seq<B>, own: set<S>)

  datatype Net<S, B> = Net(handles: seq<Handle<S, B>>, log: seq<B>)

  datatype Step<S, B> =
    | Create(initial: S)
    | Apply(h: nat, delta: S)
    | Publish(h: nat, k: nat)
    | Poll(h: nat)
    | Foreign(bytes: B)

  ghost predicate Enabled<S, B>(net: Net<S, B>, step: Step<S, B>) {
    match step
    case Create(_) => true
    case Apply(h, _) => h < |net.handles|
    case Publish(h, k) => h < |net.handles| && k < |net.handles[h].outbox|
    case Poll(h) => h < |net.handles| && net.handles[h].cursor < |net.log|
    case Foreign(_) => true
  }

  ghost function Next<S, B>(c: Codec<S, B>, net: Net<S, B>, step: Step<S, B>): Net<S, B>
    requires Enabled(net, step)
  {
    match step
    case Create(initial) =>
      Net(net.handles + [Handle(initial, 0, [], {initial})], net.log + [c.encode(initial)])
    case Apply(h, delta) =>
      net.(handles := net.handles[h := Applied(c, net.handles[h], delta)])
    case Publish(h, k) =>
      var me := net.handles[h];
      Net(net.handles[h := me.(outbox := me.outbox[..k] + me.outbox[k + 1..])], net.log + [me.outbox[k]])
    case Poll(h) =>
      var me := net.handles[h];
      net.(handles := net.handles[h :=
        me.(cell := AbsorbBytes(c, me.cell, net.log[me.cursor]), cursor := me.cursor + 1)])
    case Foreign(bytes) =>
      net.(log := net.log + [bytes])
  }

  ghost function Run<S, B>(c: Codec<S, B>, steps: seq<Step<S, B>>): Option<Net<S, B>> {
    if steps == [] then Some(Net([], []))
    else
      var before := Run(c, steps[..|steps| - 1]);
      var step := steps[|steps| - 1];
      if before.Some? && Enabled(before.value, step) then Some(Next(c, before.value, step)) else None
  }

  /** The states the messages carry; undecodable ones carry none. */
  ghost function Decoded<S(!new), B>(c: Codec<S, B>, msgs: seq<B>): set<S> {
    set i | 0 <= i < |msgs| && c.decode(msgs[i]).Some? :: c.decode(msgs[i]).value
  }

  /** Some message here already carries at least `x`. */
  ghost predicate Carried<S(!new), B>(c: Codec<S, B>, msgs: seq<B>, x: S) {
    exists y <- Decoded(c, msgs) :: Below(c.join, x, y)
  }

  ghost predicate GoodHandle<S(!new), B>(c: Codec<S, B>, log: seq<B>, h: Handle<S, B>) {
    && h.cursor <= |log|
    && IsLub(c.join, h.own + Decoded(c, log[..h.cursor]), h.cell)
    && forall x <- h.own :: Carried(c, log + h.outbox, x)
  }

  ghost predicate Inv<S(!new), B>(c: Codec<S, B>, net: Net<S, B>) {
    forall i | 0 <= i < |net.handles| :: GoodHandle(c, net.log, net.handles[i])
  }

  lemma LubExtends<S(!new)>(join: (S, S) -> S, xs: set<S>, u: S, d: S)
    requires Semilattice(join) && IsLub(join, xs, u)
    ensures IsLub(join, xs + {d}, join(u, d))
  {
    MergeIsLub(join, u, d);
    var v := join(u, d);
    assert Below(join, u, v) && Below(join, d, v);
    forall x <- xs + {d} ensures Below(join, x, v) {
      if x in xs { BelowTransitive(join, x, u, v); }
    }
    forall w | Bounds(join, xs + {d}, w) ensures Below(join, v, w) {
      assert Bounds(join, xs, w) && d in xs + {d};
      assert Bounds(join, {u, d}, w);
    }
  }

  lemma DecodedConcat<S(!new), B>(c: Codec<S, B>, a: seq<B>, b: seq<B>)
    ensures Decoded(c, a + b) == Decoded(c, a) + Decoded(c, b)
  {
    forall x ensures x in Decoded(c, a + b) <==> x in Decoded(c, a) + Decoded(c, b) {
      if x in Decoded(c, a) {
        var i :| 0 <= i < |a| && c.decode(a[i]).Some? && c.decode(a[i]).value == x;
        assert (a + b)[i] == a[i];
      }
      if x in Decoded(c, b) {
        var i :| 0 <= i < |b| && c.decode(b[i]).Some? && c.decode(b[i]).value == x;
        assert (a + b)[|a| + i] == b[i];
      }
    }
  }

  lemma CarriedGrows<S(!new), B>(c: Codec<S, B>, msgs: seq<B>, more: seq<B>, x: S)
    requires Carried(c, msgs, x) && forall m <- msgs :: m in more
    ensures Carried(c, more, x)
  {
    var y :| y in Decoded(c, msgs) && Below(c.join, x, y);
    var i :| 0 <= i < |msgs| && c.decode(msgs[i]).Some? && c.decode(msgs[i]).value == y;
    assert msgs[i] in more;
    var j :| 0 <= j < |more| && more[j] == msgs[i];
    assert y in Decoded(c, more);
  }

  lemma LogGrows<S(!new), B>(c: Codec<S, B>, log: seq<B>, m: B, h: Handle<S, B>)
    requires GoodHandle(c, log, h)
    ensures GoodHandle(c, log + [m], h)
  {
    assert (log + [m])[..h.cursor] == log[..h.cursor];
    forall x <- h.own ensures Carried(c, log + [m] + h.outbox, x) {
      CarriedGrows(c, log + h.outbox, log + [m] + h.outbox, x);
    }
  }

  lemma EncodedCarries<S(!new), B>(c: Codec<S, B>, msgs: seq<B>, s: S, x: S)
    requires Lawful(c) && c.encode(s) in msgs && Below(c.join, x, s)
    ensures Carried(c, msgs, x)
  {
    var i :| 0 <= i < |msgs| && msgs[i] == c.encode(s);
    assert c.decode(msgs[i]) == Some(s);
    assert s in Decoded(c, msgs);
  }

  lemma CreatedIsGood<S(!new), B>(c: Codec<S, B>, log: seq<B>, initial: S)
    requires Lawful(c)
    ensures GoodHandle(c, log + [c.encode(initial)], Handle(initial, 0, [], {initial}))
  {
    var all := log + [c.encode(initial)];
    assert all[..0] == [];
    assert {initial} + Decoded(c, []) == {initial};
    assert Idempotent(c.join, initial);
    assert all + [] == all;
    EncodedCarries(c, all, initial, initial);
  }

  lemma AppliedCarries<S(!new), B>(c: Codec<S, B>, sent: seq<B>, own: set<S>, cell: S, delta: S)
    requires Lawful(c) && forall x <- own :: Carried(c, sent, x)
    ensures forall x <- own + {delta} :: Carried(c, sent + [c.encode(c.join(cell, delta))], x)
  {
    var merged := c.join(cell, delta);
    var msgs := sent + [c.encode(merged)];
    assert msgs[|sent|] == c.encode(merged);
    MergeIsLub(c.join, cell, delta);
    assert Below(c.join, delta, merged);
    EncodedCarries(c, msgs, merged, delta);
    forall x <- own ensures Carried(c, msgs, x) { CarriedGrows(c, sent, msgs, x); }
  }

  lemma AppliedIsLub<S(!new)>(join: (S, S) -> S, own: set<S>, seen: set<S>, cell: S, delta: S)
    requires Semilattice(join) && IsLub(join, own + seen, cell)
    ensures IsLub(join, (own + {delta}) + seen, join(cell, delta))
  {
    LubExtends(join, own + seen, cell, delta);
    assert (own + {delta}) + seen == (own + seen) + {delta};
  }

  function Applied<S, B>(c: Codec<S, B>, me: Handle<S, B>, delta: S): Handle<S, B> {
    var merged := c.join(me.cell, delta);
    me.(cell := merged, outbox := me.outbox + [c.encode(merged)], own := me.own + {delta})
  }

  lemma AppliedIsGood<S(!new), B>(c: Codec<S, B>, log: seq<B>, me: Handle<S, B>, delta: S)
    requires Lawful(c) && GoodHandle(c, log, me)
    ensures GoodHandle(c, log, Applied(c, me, delta))
  {
    var post := Applied(c, me, delta);
    AppliedIsLub(c.join, me.own, Decoded(c, log[..me.cursor]), me.cell, delta);
    AppliedCarries(c, log + me.outbox, me.own, me.cell, delta);
    assert log + post.outbox == log + me.outbox + [c.encode(c.join(me.cell, delta))];
  }

  lemma PublishedIsGood<S(!new), B>(c: Codec<S, B>, net: Net<S, B>, h: nat, k: nat)
    requires Inv(c, net) && Enabled(net, Publish(h, k))
    ensures var next := Next(c, net, Publish(h, k)); GoodHandle(c, next.log, next.handles[h])
  {
    var me := net.handles[h];
    var next := Next(c, net, Publish(h, k));
    var post := next.handles[h];
    assert next.log[..me.cursor] == net.log[..me.cursor];
    assert me.outbox == me.outbox[..k] + [me.outbox[k]] + me.outbox[k + 1..];
    forall x <- post.own ensures Carried(c, next.log + post.outbox, x) {
      CarriedGrows(c, net.log + me.outbox, next.log + post.outbox, x);
    }
  }

  lemma PolledIsGood<S(!new), B>(c: Codec<S, B>, net: Net<S, B>, h: nat)
    requires Lawful(c) && Inv(c, net) && Enabled(net, Poll(h))
    ensures GoodHandle(c, net.log, Next(c, net, Poll(h)).handles[h])
  {
    var me := net.handles[h];
    var m := net.log[me.cursor];
    assert net.log[..me.cursor + 1] == net.log[..me.cursor] + [m];
    DecodedConcat(c, net.log[..me.cursor], [m]);
    var seen := Decoded(c, net.log[..me.cursor]);
    if c.decode(m).Some? {
      var peer := c.decode(m).value;
      assert [m][0] == m && Decoded(c, [m]) == {peer};
      LubExtends(c.join, me.own + seen, me.cell, peer);
      assert me.own + (seen + {peer}) == me.own + seen + {peer};
    } else {
      assert Decoded(c, [m]) == {};
      assert seen + {} == seen;
    }
  }

  lemma StepKeepsInv<S(!new), B>(c: Codec<S, B>, net: Net<S, B>, step: Step<S, B>)
    requires Lawful(c) && Inv(c, net) && Enabled(net, step)
    ensures Inv(c, Next(c, net, step))
  {
    var next := Next(c, net, step);
    match step
    case Create(initial) =>
      CreatedIsGood(c, net.log, initial);
      forall i | 0 <= i < |net.handles| { LogGrows(c, net.log, c.encode(initial), net.handles[i]); }
    case Apply(h, delta) =>
      AppliedIsGood(c, net.log, net.handles[h], delta);
    case Publish(h, k) =>
      PublishedIsGood(c, net, h, k);
      forall i | 0 <= i < |net.handles| { LogGrows(c, net.log, net.handles[h].outbox[k], net.handles[i]); }
    case Poll(h) =>
      PolledIsGood(c, net, h);
    case Foreign(bytes) =>
      forall i | 0 <= i < |net.handles| { LogGrows(c, net.log, bytes, net.handles[i]); }
  }

  /** In every run each cell is the join of its initial state, its own deltas and every decodable
      log entry before its cursor. */
  lemma {:induction false} CellsAreJoins<S(!new), B>(c: Codec<S, B>, steps: seq<Step<S, B>>)
    requires Lawful(c) && Run(c, steps).Some?
    ensures Inv(c, Run(c, steps).value)
    decreases |steps|
  {
    if steps != [] {
      CellsAreJoins(c, steps[..|steps| - 1]);
      StepKeepsInv(c, Run(c, steps[..|steps| - 1]).value, steps[|steps| - 1]);
    }
  }

  ghost predicate Quiescent<S, B>(net: Net<S, B>) {
    forall i | 0 <= i < |net.handles| :: net.handles[i].outbox == [] && net.handles[i].cursor == |net.log|
  }

  /** Once nothing is outstanding and every cursor is at the end, all cells are one value: the join of
      the whole log. */
  lemma QuiescentCellsAgree<S(!new), B>(c: Codec<S, B>, steps: seq<Step<S, B>>)
    requires Lawful(c) && Run(c, steps).Some? && Quiescent(Run(c, steps).value)
    ensures var net := Run(c, steps).value;
      && (forall i | 0 <= i < |net.handles| :: IsLub(c.join, Decoded(c, net.log), net.handles[i].cell))
      && (forall i, j | 0 <= i < |net.handles| && 0 <= j < |net.handles| :: net.handles[i].cell == net.handles[j].cell)
  {
    CellsAreJoins(c, steps);
    var net := Run(c, steps).value;
    forall i | 0 <= i < |net.handles| ensures IsLub(c.join, Decoded(c, net.log), net.handles[i].cell) {
      OwnIsInLog(c, net.log, net.handles[i]);
    }
    forall i, j | 0 <= i < |net.handles| && 0 <= j < |net.handles|
      ensures net.handles[i].cell == net.handles[j].cell
    {
      LubUnique(c.join, Decoded(c, net.log), net.handles[i].cell, net.handles[j].cell);
    }
  }

  lemma OwnIsInLog<S(!new), B>(c: Codec<S, B>, log: seq<B>, h: Handle<S, B>)
    requires Lawful(c) && GoodHandle(c, log, h) && h.outbox == [] && h.cursor == |log|
    ensures IsLub(c.join, Decoded(c, log), h.cell)
  {
    assert log[..h.cursor] == log && log + h.outbox == log;
    var all := h.own + Decoded(c, log);
    forall x <- all ensures exists y <- Decoded(c, log) :: Below(c.join, x, y) {
      if x !in h.own { assert Idempotent(c.join, x); }
    }
    CoveredLub(c.join, all, Decoded(c, log), h.cell);
  }

  /** A run of polls is what one `Sync` does. */
  lemma {:induction false} PollsAreDrain<S(!new), B>(c: Codec<S, B>, net: Net<S, B>, h: nat) returns (last: Net<S, B>)
    requires h < |net.handles| && net.handles[h].cursor <= |net.log|
    ensures Polls(c, net, h, last)
    ensures last == net.(handles := net.handles[h := net.handles[h].(
      cell := Drain(c, net.handles[h].cell, net.log[net.handles[h].cursor..]), cursor := |net.log|)])
    decreases |net.log| - net.handles[h].cursor
  {
    var me := net.handles[h];
    if me.cursor == |net.log| {
      last := net;
      assert net.handles[h := me] == net.handles;
    } else {
      var next := Next(c, net, Poll(h));
      last := PollsAreDrain(c, next, h);
      assert net.log[me.cursor..][1..] == net.log[me.cursor + 1..];
    }
  }

  ghost predicate Polls<S, B>(c: Codec<S, B>, net: Net<S, B>, h: nat, last: Net<S, B>)
    requires h < |net.handles| && net.handles[h].cursor <= |net.log|
    decreases |net.log| - net.handles[h].cursor
  {
    if net.handles[h].cursor == |net.log| then net == last else Polls(c, Next(c, net, Poll(h)), h, last)
  }

  /** Instantiated at the observed-remove set: quiet handles list the same members. */
  lemma QuiescentOrSetsAgree<B>(encode: OrSet -> B, decode: B -> Option<OrSet>, steps: seq<Step<OrSet, B>>,
                                i: nat, j: nat, e: Value)
    requires forall s :: decode(encode(s)) == Some(s)
    requires Run(Codec(JoinOr, encode, decode), steps).Some?
    requires var net := Run(Codec(JoinOr, encode, decode), steps).value;
      Quiescent(net) && i < |net.handles| && j < |net.handles|
    ensures var net := Run(Codec(JoinOr, encode, decode), steps).value;
      net.handles[i].cell.Contains(e) == net.handles[j].cell.Contains(e)
  {
    OrSetIsLattice();
    QuiescentCellsAgree(Codec(JoinOr, encode, decode), steps);
  }

  // ---- What the steps put in ----

  /** The initial states, handle by handle. */
  function Initials<S, B>(steps: seq<Step<S, B>>): seq<S> {
    if steps == [] then []
    else
      var n := |steps| - 1;
      Initials(steps[..n]) + if steps[n].Create? then [steps[n].initial] else []
  }

  ghost predicate Applies<S(!new), B(!new)>(steps: seq<Step<S, B>>, h: nat, x: S) {
    Step<S, B>.Apply(h, x) in steps
  }

  /** Every handle was given its initial state and the deltas applied to it, and nothing else; and every message
      announced or brought from outside is in the log. */
  lemma {:induction false} RunTakesSteps<S(!new), B(!new)>(c: Codec<S, B>, steps: seq<Step<S, B>>)
    requires Run(c, steps).Some?
    ensures var net := Run(c, steps).value;
      && |net.handles| == |Initials(steps)|
      && (forall h: nat, x | h < |net.handles| ::
            x in net.handles[h].own <==> x == Initials(steps)[h] || Applies(steps, h, x))
      && (forall s <- steps | s.Create? :: c.encode(s.initial) in net.log)
      && (forall s <- steps | s.Foreign? :: s.bytes in net.log)
      && (forall h: nat, x | Applies(steps, h, x) :: h < |net.handles|)
    decreases |steps|
  {
    if steps != [] {
      var n := |steps| - 1;
      RunTakesSteps(c, steps[..n]);
      assert steps == steps[..n] + [steps[n]];
      forall h: nat, x ensures Applies(steps, h, x) <==> Applies(steps[..n], h, x) || steps[n] == Apply(h, x) {}
    }
  }
}
