/** Shared signals: handles on one topic, each with a cell and a cursor into the topic's append-only
    log. The value type is any join-semilattice with a wire form. */
module SyncedSignals {
  import opened Lattice
  import opened Wrappers

  /** The value seam: merge, encode, and decode of untrusted bytes. */
  datatype Codec<!S, !B> = Codec(join: (S, S) -> S, encode: S -> B, decode: B -> Option<S>)

  ghost predicate Lawful<S(!new), B>(c: Codec<S, B>) {
    Semilattice(c.join) && forall s :: c.decode(c.encode(s)) == Some(s)
  }

  /** Merge one message into a cell; undecodable bytes are skipped. */
  function AbsorbBytes<S, B>(c: Codec<S, B>, cell: S, bytes: B): S {
    match c.decode(bytes)
    case None => cell
    case Some(peer) => c.join(cell, peer)
  }

  function Drain<S, B>(c: Codec<S, B>, cell: S, msgs: seq<B>): S {
    if msgs == [] then cell else Drain(c, AbsorbBytes(c, cell, msgs[0]), msgs[1..])
  }

  lemma AbsorbGoesUp<S(!new), B>(c: Codec<S, B>, cell: S, bytes: B)
    requires Lawful(c)
    ensures Below(c.join, cell, AbsorbBytes(c, cell, bytes))
  {
    match c.decode(bytes)
    case None => assert Idempotent(c.join, cell);
    case Some(peer) =>
      MergeIsLub(c.join, cell, peer);
      assert cell in {cell, peer};
  }

  lemma {:induction false} DrainSnoc<S, B>(c: Codec<S, B>, cell: S, msgs: seq<B>, m: B)
    ensures Drain(c, cell, msgs + [m]) == AbsorbBytes(c, Drain(c, cell, msgs), m)
    decreases |msgs|
  {
    if msgs == [] {
    } else {
      DrainSnoc(c, AbsorbBytes(c, cell, msgs[0]), msgs[1..], m);
      assert (msgs + [m])[1..] == msgs[1..] + [m];
    }
  }

  /** A peer's state merged into this one, or nothing if the bytes do not decode. */
  method MergePeerBytes<S, B>(c: Codec<S, B>, current: S, bytes: B) returns (merged: Option<S>)
    ensures merged.Some? == c.decode(bytes).Some?
    ensures (if merged.Some? then merged.value else current) == AbsorbBytes(c, current, bytes)
  {
    var peer := c.decode(bytes);
    if peer.None? { return None; }
    merged := Some(c.join(current, peer.value));
  }

  /** Merges only go up, so a drain that changed the value at any message ends with another value. */
  lemma ChangesAddUp<S(!new), B>(c: Codec<S, B>, start: S, msgs: seq<B>, bytes: B)
    requires Lawful(c) && Below(c.join, start, Drain(c, start, msgs))
    ensures
      var before, after := Drain(c, start, msgs), AbsorbBytes(c, Drain(c, start, msgs), bytes);
      && after == Drain(c, start, msgs + [bytes]) && Below(c.join, start, after)
      && (after != start <==> before != start || after != before)
  {
    var before, after := Drain(c, start, msgs), AbsorbBytes(c, Drain(c, start, msgs), bytes);
    DrainSnoc(c, start, msgs, bytes);
    AbsorbGoesUp(c, before, bytes);
    BelowTransitive(c.join, start, before, after);
    if after != before {
      UpIsOneWay(c.join, start, before, after);
    }
  }

  class Topic<B> {
    var log: seq<B>

    constructor ()
      ensures log == []
    {
      log := [];
    }

    method Publish(bytes: B)
      modifies this
      ensures log == old(log) + [bytes]
    {
      log := log + [bytes];
    }
  }

  class SyncedSignal<S(==, !new), B> {
    const codec: Codec<S, B>
    const topic: Topic<B>
    var cell: S
    var cursor: nat
    var wakes: nat

    ghost predicate Valid()
      reads this, topic
    {
      Lawful(codec) && cursor <= |topic.log|
    }

    constructor (codec: Codec<S, B>, topic: Topic<B>, initial: S)
      ensures this.codec == codec && this.topic == topic
      ensures cell == initial && cursor == 0 && wakes == 0
    {
      this.codec, this.topic := codec, topic;
      cell, cursor, wakes := initial, 0, 0;
    }

    /** Subscribe at the log start, announce the initial state, retain it. Either call may fail, and then there
        is no signal and nothing was announced. */
    static method Create(codec: Codec<S, B>, topic: Topic<B>, initial: S, subscribes: bool, publishes: bool)
        returns (r: Outcome<SyncedSignal<S, B>>)
      requires Lawful(codec)
      modifies topic
      ensures r.Ok? == (subscribes && publishes)
      ensures topic.log == old(topic.log) + if r.Ok? then [codec.encode(initial)] else []
      ensures r.Ok? ==>
        var signal := r.value;
        && fresh(signal) && signal.codec == codec && signal.topic == topic && signal.Valid()
        && signal.cell == initial && signal.cursor == 0 && signal.wakes == 0
    {
      var bytes := codec.encode(initial);
      if !subscribes || !publishes { return Err; }
      topic.Publish(bytes);
      var signal := new SyncedSignal<S, B>(codec, topic, initial);
      r := Ok(signal);
    }

    /** Local converge, wake, publish the new state. A publish that fails leaves the cell converged. */
    method Merge(delta: S, publishes: bool) returns (done: Outcome<()>)
      requires Valid()
      modifies this, topic
      ensures Valid()
      ensures cell == codec.join(old(cell), delta)
      ensures cursor == old(cursor) && wakes == old(wakes) + 1
      ensures done.Ok? == publishes
      ensures topic.log == if publishes then old(topic.log) + [codec.encode(cell)] else old(topic.log)
    {
      var merged := codec.join(cell, delta);
      var bytes := codec.encode(merged);
      cell := merged;
      wakes := wakes + 1;
      if !publishes { return Err; }
      topic.Publish(bytes);
      done := Ok(());
    }

    method Poll() returns (msg: Option<B>)
      requires Valid()
      modifies this`cursor
      ensures Valid()
      ensures old(cursor) == |topic.log| ==> msg == None && cursor == old(cursor)
      ensures old(cursor) < |topic.log| ==> msg == Some(topic.log[old(cursor)]) && cursor == old(cursor) + 1
    {
      if cursor == |topic.log| {
        msg := None;
      } else {
        msg := Some(topic.log[cursor]);
        cursor := cursor + 1;
      }
    }

    /** Drain every pending message, up to the poll that fails, if one does. Dependents are woken once if and
        only if no poll failed and the value ended up different. */
    method Sync(failing: Option<nat>) returns (done: Outcome<()>)
      requires Valid()
      modifies this
      ensures Valid()
      ensures
        var pending := topic.log[old(cursor)..];
        var taken := if failing.Some? && failing.value <= |pending| then failing.value else |pending|;
        && done.Err? == (failing.Some? && failing.value <= |pending|)
        && cursor == old(cursor) + taken && cell == Drain(codec, old(cell), pending[..taken])
      ensures wakes == old(wakes) + if done.Ok? && cell != old(cell) then 1 else 0
    {
      ghost var start, pending := cell, topic.log[cursor..];
      var changed, k := false, 0;
      assert Idempotent(codec.join, cell);
      while true
        invariant Valid() && wakes == old(wakes)
        invariant k <= |pending| && cursor == old(cursor) + k && topic.log[cursor..] == pending[k..]
        invariant failing.Some? ==> k <= failing.value
        invariant cell == Drain(codec, start, pending[..k])
        invariant Below(codec.join, start, cell)
        invariant changed <==> cell != start
        decreases |pending| - k
      {
        if failing == Some(k) { return Err; }
        var msg := Poll();
        if msg.None? { break; }
        assert pending[..k + 1] == pending[..k] + [pending[k]] && pending[k..][0] == msg.value;
        ChangesAddUp(codec, start, pending[..k], msg.value);
        var merged := MergePeerBytes(codec, cell, msg.value);
        if merged.Some? && cell != merged.value {
          cell := merged.value;
          changed := true;
        }
        k := k + 1;
      }
      if changed { wakes := wakes + 1; }
      done := Ok(());
    }
  }
}
