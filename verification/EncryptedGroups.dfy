/** The membership choreography of one encrypted group, free of any transport. Group encryption
    itself is an interface: key-bundle events, membership as a function of the control operations
    processed, and application data released once the receiver is a member. */
module EncryptedGroups {
  import opened Wrappers

  /** Member ids are totally ordered; only the order matters. */
  type Actor = nat

  datatype Op<+D> =
    | KeyBundle(author: Actor)
    | Create(author: Actor)
    | AddAuth(author: Actor, member: Actor)
    | AddSpace(author: Actor, member: Actor)
    | RemoveAuth(author: Actor, member: Actor)
    | RemoveSpace(author: Actor, member: Actor)
    | App(author: Actor, data: D)

  /** Bytes off the transport: an operation, or nothing decodable. */
  datatype Wire<+D> = Encoded(op: Op<D>) | Garbage

  datatype Event<+D> = Bundle(actor: Actor) | Application(payload: D)

  /** One node's view of the encrypted space: its members, the ciphertexts it cannot open yet, and
      whether it was removed. */
  datatype Space<+D> = Space(members: set<Actor>, held: seq<D>, revoked: bool)

  function Applications<D>(data: seq<D>): seq<Event<D>> {
    seq(|data|, i requires 0 <= i < |data| => Application(data[i]))
  }

  /** Process one operation: the new view and the events it surfaces. Only ciphertext can fail. */
  function Process<D>(s: Space<D>, me: Actor, op: Op<D>): Outcome<(Space<D>, seq<Event<D>>)> {
    match op
    case KeyBundle(a) => Ok((s, [Bundle(a)]))
    case Create(a) => Ok((s.(members := s.members + {a}), []))
    case AddAuth(_, _) => Ok((s, []))
    case AddSpace(_, m) =>
      if m == me then Ok((Space(s.members + {m}, [], false), Applications(s.held)))
      else Ok((s.(members := s.members + {m}), []))
    case RemoveAuth(_, _) => Ok((s, []))
    case RemoveSpace(_, m) => Ok((s.(members := s.members - {m}, revoked := s.revoked || m == me), []))
    case App(_, d) =>
      if me in s.members then Ok((s, [Application(d)]))
      else if s.revoked then Err
      else Ok((s.(held := s.held + [d]), []))
  }

  datatype Output<+D> = Output(decrypted: seq<D>, toSend: seq<Op<D>>)

  /** What a reaction broadcasts; a failed one broadcasts nothing. */
  function Sends<D>(o: Outcome<Output<D>>): seq<Op<D>> {
    if o.Ok? then o.value.toSend else []
  }

  /** The state of one group object. */
  datatype Group<+D> = Group(
    me: Actor,
    creator: bool,
    space: Space<D>,
    members: seq<Actor>,
    welcomed: bool,
    added: set<Actor>,
    known: set<Actor>,
    pending: Option<D>)

  predicate Smallest(me: Actor, members: seq<Actor>) {
    me in members && forall m <- members :: me <= m
  }

  function CreateOps<D>(me: Actor, parts: nat): seq<Op<D>> {
    seq(parts, _ => Create(me))
  }

  /** `parts` is how many operations creating a space takes. */
  function Opened<D>(me: Actor, members: seq<Actor>, parts: nat): (Group<D>, seq<Op<D>>) {
    if Smallest(me, members) then
      (Group(me, true, Space({me}, [], false), members, true, {me}, {}, None), [KeyBundle(me)] + CreateOps(me, parts))
    else
      (Group(me, false, Space({}, [], false), members, false, {}, {}, None), [KeyBundle(me)])
  }

  function Published<D>(g: Group<D>, data: D): (Group<D>, seq<Op<D>>) {
    if g.welcomed then (g, [App(g.me, data)]) else (g.(pending := Some(data)), [])
  }

  predicate IsEligible<D>(g: Group<D>, m: Actor) {
    m != g.me && m in g.known && m !in g.added
  }

  function Eligible<D>(g: Group<D>, ms: seq<Actor>): seq<Actor> {
    if ms == [] then []
    else if IsEligible(g, ms[0]) then [ms[0]] + Eligible(g, ms[1..])
    else Eligible(g, ms[1..])
  }

  function WelcomeOps<D>(me: Actor, ms: seq<Actor>): seq<Op<D>> {
    if ms == [] then [] else [AddAuth(me, ms[0]), AddSpace(me, ms[0])] + WelcomeOps(me, ms[1..])
  }

  function SetOf(ms: seq<Actor>): set<Actor> {
    set m | m in ms
  }

  function Added<D>(g: Group<D>, ms: seq<Actor>): Group<D> {
    g.(added := g.added + SetOf(ms), space := g.space.(members := g.space.members + SetOf(ms)))
  }

  /** Welcome every declared member whose bundle is known and who is not added yet. */
  function WelcomeEligible<D>(g: Group<D>): (Group<D>, seq<Op<D>>) {
    if !g.creator then (g, [])
    else
      var ms := Eligible(g, g.members);
      (Added(g, ms), WelcomeOps(g.me, ms))
  }

  function Payloads<D>(events: seq<Event<D>>): seq<D> {
    if events == [] then []
    else if events[0].Application? then [events[0].payload] + Payloads(events[1..])
    else Payloads(events[1..])
  }

  lemma {:induction false} PayloadsOfApplications<D>(data: seq<D>)
    ensures Payloads(Applications(data)) == data
    decreases |data|
  {
    if data != [] {
      PayloadsOfApplications(data[1..]);
      assert Applications(data)[1..] == Applications(data[1..]);
    }
  }

  function Bundles<D(==)>(events: seq<Event<D>>): set<Actor> {
    set e | e in events && e.Bundle? :: e.actor
  }

  /** Detect the welcome and flush what waited for it. */
  function Flushed<D>(g: Group<D>): (Group<D>, seq<Op<D>>) {
    if !g.welcomed && g.me in g.space.members then
      (g.(welcomed := true, pending := None), if g.pending.Some? then [App(g.me, g.pending.value)] else [])
    else (g, [])
  }

  function Received<D(==)>(g: Group<D>, wire: Wire<D>): (Group<D>, Outcome<Output<D>>) {
    match wire
    case Garbage => (g, Err)
    case Encoded(op) =>
      match Process(g.space, g.me, op)
      case Err => (g, Ok(Output([], [])))
      case Ok((space, events)) =>
        var g1 := g.(space := space, known := g.known + Bundles(events));
        var (g2, welcomes) := WelcomeEligible(g1);
        var (g3, flush) := Flushed(g2);
        (g3, Ok(Output(Payloads(events), welcomes + flush)))
  }

  function WithMember<D>(g: Group<D>, m: Actor): (Group<D>, seq<Op<D>>) {
    WelcomeEligible(if m in g.members then g else g.(members := g.members + [m]))
  }

  function Without(ms: seq<Actor>, m: Actor): seq<Actor> {
    if ms == [] then []
    else if ms[0] == m then Without(ms[1..], m)
    else [ms[0]] + Without(ms[1..], m)
  }

  function WithoutMember<D>(g: Group<D>, m: Actor): (Group<D>, seq<Op<D>>) {
    var g1 := g.(members := Without(g.members, m), added := g.added - {m}, known := g.known - {m});
    if !g.creator || m == g.me then (g1, [])
    else (g1.(space := g1.space.(members := g1.space.members - {m})), [RemoveAuth(g.me, m), RemoveSpace(g.me, m)])
  }

  // ---- Failing library calls ----

  /** Which library calls of one method fail: processing an operation, the addition at this place of a
      welcome round, asking for the membership, encrypting, removing. A call that fails changes nothing. */
  datatype Faults = Faults(process: bool, add: Option<nat>, ask: bool, publish: bool, remove: bool)

  const FAULTLESS := Faults(false, None, false, false, false)

  function WelcomedUnder<D>(g: Group<D>, f: Faults): (Group<D>, Outcome<seq<Op<D>>>) {
    var ms := Eligible(g, g.members);
    if g.creator && f.add.Some? && f.add.value < |ms| then (Added(g, ms[..f.add.value]), Err)
    else var (after, ops) := WelcomeEligible(g); (after, Ok(ops))
  }

  function FlushedUnder<D>(g: Group<D>, f: Faults): (Group<D>, Outcome<seq<Op<D>>>) {
    if !g.welcomed && f.ask then (g, Err)
    else
      var (after, ops) := Flushed(g);
      (after, if ops != [] && f.publish then Err else Ok(ops))
  }

  function ProcessUnder<D>(s: Space<D>, me: Actor, op: Op<D>, f: Faults): Outcome<(Space<D>, seq<Event<D>>)> {
    if f.process then Err else Process(s, me, op)
  }

  /** The reaction with its early returns: what was decrypted or built before the failure is dropped. */
  function ReceivedUnder<D(==)>(g: Group<D>, wire: Wire<D>, f: Faults): (Group<D>, Outcome<Output<D>>) {
    match wire
    case Garbage => (g, Err)
    case Encoded(op) =>
      match ProcessUnder(g.space, g.me, op, f)
      case Err => (g, if op.App? then Ok(Output([], [])) else Err)
      case Ok((space, events)) =>
        var (g2, welcomes) := WelcomedUnder(g.(space := space, known := g.known + Bundles(events)), f);
        if welcomes.Err? then (g2, Err)
        else
          var (g3, flush) := FlushedUnder(g2, f);
          (g3, if flush.Err? then Err else Ok(Output(Payloads(events), welcomes.value + flush.value)))
  }

  /** What an operation decrypts to, whether or not the reaction to it then fails. */
  function DecryptedUnder<D(==)>(g: Group<D>, wire: Wire<D>, f: Faults): seq<D> {
    match wire
    case Garbage => []
    case Encoded(op) =>
      match ProcessUnder(g.space, g.me, op, f)
      case Err => []
      case Ok((_, events)) => Payloads(events)
  }

  function PublishedUnder<D>(g: Group<D>, data: D, f: Faults): (Group<D>, Outcome<seq<Op<D>>>) {
    var (after, ops) := Published(g, data);
    (after, if g.welcomed && f.publish then Err else Ok(ops))
  }

  function WithMemberUnder<D>(g: Group<D>, m: Actor, f: Faults): (Group<D>, Outcome<seq<Op<D>>>) {
    WelcomedUnder(if m in g.members then g else g.(members := g.members + [m]), f)
  }

  function WithoutMemberUnder<D>(g: Group<D>, m: Actor, f: Faults): (Group<D>, Outcome<seq<Op<D>>>) {
    var (after, ops) := WithoutMember(g, m);
    if ops != [] && f.remove then (after.(space := g.space), Err) else (after, Ok(ops))
  }

  /** Without faults the calls are the ones above. */
  lemma FaultlessCalls<D>(g: Group<D>, wire: Wire<D>, d: D, m: Actor)
    ensures ReceivedUnder(g, wire, FAULTLESS) == Received(g, wire)
    ensures PublishedUnder(g, d, FAULTLESS) == (Published(g, d).0, Ok(Published(g, d).1))
    ensures WithMemberUnder(g, m, FAULTLESS) == (WithMember(g, m).0, Ok(WithMember(g, m).1))
    ensures WithoutMemberUnder(g, m, FAULTLESS) == (WithoutMember(g, m).0, Ok(WithoutMember(g, m).1))
  {
  }

  // ---- The object ----

  class EncryptedGroup<D(==)> {
    const me: Actor
    const creator: bool
    var space: Space<D>
    var members: seq<Actor>
    var welcomed: bool
    var added: set<Actor>
    var known: set<Actor>
    var pending: Option<D>

    ghost function View(): Group<D>
      reads this
    {
      Group(me, creator, space, members, welcomed, added, known, pending)
    }

    constructor (me: Actor, members: seq<Actor>, creator: bool)
      ensures View() == Group(me, creator, Space({}, [], false), members, false, {}, {}, None)
    {
      this.me := me;
      this.creator := creator;
      this.space := Space({}, [], false);
      this.members := members;
      this.welcomed := false;
      this.added := {};
      this.known := {};
      this.pending := None;
    }

    /** Elect the creator, announce the key bundle, and create the space if elected. Either library call may
        fail, and then there is no group. */
    static method Open(me: Actor, members: seq<Actor>, parts: nat, announces: bool, creates: bool)
        returns (r: Outcome<(EncryptedGroup<D>, seq<Op<D>>)>)
      ensures r.Ok? == (announces && (Smallest(me, members) ==> creates))
      ensures r.Ok? ==> fresh(r.value.0) && (r.value.0.View(), r.value.1) == Opened(me, members, parts)
    {
      var elected := me in members;
      var i := 0;
      while i < |members|
        invariant 0 <= i <= |members|
        invariant elected <==> me in members && forall j | 0 <= j < i :: me <= members[j]
      {
        if members[i] < me { elected := false; }
        i := i + 1;
      }
      assert forall j | 0 <= j < |members| :: members[j] in members;
      assert elected == Smallest(me, members);
      if !announces { return Err; }
      var g := new EncryptedGroup<D>(me, members, elected);
      var toSend: seq<Op<D>> := [KeyBundle(me)];
      if elected {
        if !creates { return Err; }
        g.space := Space({me}, [], false);
        toSend := toSend + CreateOps(me, parts);
        g.welcomed := true;
        g.added := g.added + {me};
        assert g.added == {me};
      }
      r := Ok((g, toSend));
    }

    method Publish(data: D, f: Faults) returns (toSend: Outcome<seq<Op<D>>>)
      modifies this
      ensures (View(), toSend) == PublishedUnder(old(View()), data, f)
    {
      if welcomed {
        toSend := if f.publish then Err else Ok([App(me, data)]);
      } else {
        pending := Some(data);
        toSend := Ok([]);
      }
    }

    /** The declared members to welcome now, in order of declaration. */
    method CollectEligible() returns (eligible: seq<Actor>)
      ensures eligible == Eligible(View(), members)
    {
      eligible := [];
      var i := 0;
      while i < |members|
        invariant 0 <= i <= |members|
        invariant eligible + Eligible(View(), members[i..]) == Eligible(View(), members)
      {
        if members[i] != me && members[i] in known && members[i] !in added { eligible := eligible + [members[i]]; }
        i := i + 1;
      }
      assert members[i..] == [];
    }

    method Welcome(f: Faults) returns (done: Outcome<seq<Op<D>>>)
      modifies this
      ensures (View(), done) == WelcomedUnder(old(View()), f)
    {
      var wire: seq<Op<D>> := [];
      if !creator { return Ok(wire); }
      ghost var g := View();
      var eligible := CollectEligible();
      var i := 0;
      AddedSnoc(g, [], me);
      while i < |eligible|
        invariant 0 <= i <= |eligible|
        invariant View() == Added(g, eligible[..i])
        invariant wire == WelcomeOps(me, eligible[..i])
        invariant f.add.Some? ==> i <= f.add.value
      {
        var m := eligible[i];
        if f.add == Some(i) { return Err; }
        AddedSnoc(g, eligible[..i], m);
        WelcomeOpsSnoc<D>(me, eligible[..i], m);
        assert eligible[..i + 1] == eligible[..i] + [m];
        space := space.(members := space.members + {m});
        added := added + {m};
        wire := wire + [AddAuth(me, m), AddSpace(me, m)];
        i := i + 1;
      }
      assert eligible[..i] == eligible;
      done := Ok(wire);
    }

    /** Keep the key bundles, hand on the decrypted payloads. */
    method Note(events: seq<Event<D>>) returns (decrypted: seq<D>)
      modifies this
      ensures View() == old(View()).(known := old(known) + Bundles(events))
      ensures decrypted == Payloads(events)
    {
      decrypted := [];
      ghost var g := View();
      var i := 0;
      while i < |events|
        invariant 0 <= i <= |events|
        invariant decrypted + Payloads(events[i..]) == Payloads(events)
        invariant View() == g.(known := g.known + Bundles(events[..i]))
      {
        assert events[..i + 1] == events[..i] + [events[i]];
        match events[i] {
          case Application(d) => decrypted := decrypted + [d];
          case Bundle(a) => known := known + {a};
        }
        i := i + 1;
      }
      assert events[..i] == events && events[i..] == [];
    }

    /** If this node has just become a member, send what waited for that. */
    method Flush(f: Faults) returns (done: Outcome<seq<Op<D>>>)
      modifies this
      ensures (View(), done) == FlushedUnder(old(View()), f)
    {
      if !welcomed {
        if f.ask { return Err; }
        if me in space.members {
          welcomed := true;
          if pending.Some? {
            var plaintext := pending.value;
            pending := None;
            if f.publish { return Err; }
            return Ok([App(me, plaintext)]);
          }
        }
      }
      done := Ok([]);
    }

    method Receive(wire: Wire<D>, f: Faults) returns (out: Outcome<Output<D>>)
      modifies this
      ensures (View(), out) == ReceivedUnder(old(View()), wire, f)
    {
      if wire.Garbage? { return Err; }
      var processed := ProcessUnder(space, me, wire.op, f);
      if processed.Err? { return if wire.op.App? then Ok(Output([], [])) else Err; }
      var (after, events) := processed.value;
      space := after;
      var decrypted := Note(events);
      var welcomes := Welcome(f);
      if welcomes.Err? { return Err; }
      var flush := Flush(f);
      if flush.Err? { return Err; }
      out := Ok(Output(decrypted, welcomes.value + flush.value));
    }

    method AddMember(m: Actor, f: Faults) returns (toSend: Outcome<seq<Op<D>>>)
      modifies this
      ensures (View(), toSend) == WithMemberUnder(old(View()), m, f)
    {
      if m !in members { members := members + [m]; }
      toSend := Welcome(f);
    }

    method RemoveMember(m: Actor, f: Faults) returns (toSend: Outcome<seq<Op<D>>>)
      modifies this
      ensures (View(), toSend) == WithoutMemberUnder(old(View()), m, f)
    {
      var kept: seq<Actor> := [];
      var i := 0;
      while i < |members|
        invariant 0 <= i <= |members| && View() == old(View())
        invariant kept + Without(members[i..], m) == Without(members, m)
      {
        if members[i] != m { kept := kept + [members[i]]; }
        i := i + 1;
      }
      assert members[i..] == [] && kept == Without(members, m);
      members := kept;
      added := added - {m};
      known := known - {m};
      if !creator || m == me { return Ok([]); }
      if f.remove { return Err; }
      space := space.(members := space.members - {m});
      toSend := Ok([RemoveAuth(me, m), RemoveSpace(me, m)]);
    }
  }

  lemma {:induction false} WelcomeOpsSnoc<D>(me: Actor, ms: seq<Actor>, m: Actor)
    ensures WelcomeOps<D>(me, ms + [m]) == WelcomeOps<D>(me, ms) + [AddAuth(me, m), AddSpace(me, m)]
    decreases |ms|
  {
    if ms != [] {
      WelcomeOpsSnoc<D>(me, ms[1..], m);
      assert (ms + [m])[1..] == ms[1..] + [m];
    }
  }

  lemma AddedSnoc<D>(g: Group<D>, ms: seq<Actor>, m: Actor)
    ensures Added(g, []) == g
    ensures
      var was := Added(g, ms);
      Added(g, ms + [m]) == was.(added := was.added + {m}, space := was.space.(members := was.space.members + {m}))
  {
    assert SetOf(ms + [m]) == SetOf(ms) + {m};
    assert g.added + SetOf([]) == g.added && g.space.members + SetOf([]) == g.space.members;
  }
}
