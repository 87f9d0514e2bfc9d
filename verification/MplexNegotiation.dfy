/**
 Negotiating a protocol on a stream of `MplexPair`: the task of the end that opened the stream asks for
 its protocol and waits for the echo; the task of the other end reads the request first and echoes it
 when it has a handler. Only then do they say anything else.
 */
module MplexNegotiation {
  import opened Bytes
  import opened MplexConn
  import opened MplexHeaders
  import opened MplexPair
  import opened Utf8
  import opened Wrappers

  // The protocols each end has a handler for.
  datatype Handlers = Handlers(west: set<Payload>, east: set<Payload>)

  function HandlersAt(h: Handlers, s: Side): set<Payload> { if s == West then h.west else h.east }

  function Said(e: End, id: nat): seq<Payload> { DataOf(e.sent, id) }

  function Heard(e: End, id: nat): seq<Payload> { DataOf(e.taken, id) }

  ghost predicate MaySay(e: End, t: Task, handlers: set<Payload>, flag: Flag, payload: Payload) {
    var said, heard := Said(e, t.id), Heard(e, t.id);
    if t.initiator then
      && t.proto.Some?
      && if said == [] then flag == HandshakeReq && payload == t.proto.value
      else heard != [] && Confirmed(t.proto.value, heard[0]).Agreed?
    else
      && heard != [] && Answered(handlers, heard[0]).Agreed?
      && (said == [] ==> flag == HandshakeRes && payload == heard[0])
  }

  ghost predicate MayRead(e: End, t: Task) {
    var said, heard := Said(e, t.id), Heard(e, t.id);
    if t.initiator then
      t.proto.Some? && said != [] && (heard != [] ==> Confirmed(t.proto.value, heard[0]).Agreed?)
    else heard != [] ==> said != []
  }

  // The step is one a negotiating stream task takes.
  ghost predicate Follows(p: Pair, s: Step, h: Handlers) {
    var e := At(p, s.at);
    match s
    case Say(at, id, flag, payload) =>
      forall t :: t in e.core.tasks && t.id == id ==> MaySay(e, t, HandlersAt(h, at), flag, payload)
    case Read(_, id) => forall t :: t in e.core.tasks && t.id == id ==> MayRead(e, t)
    case _ => true
  }

  ghost predicate Negotiating(p: Pair, steps: seq<Step>, h: Handlers)
    requires CanRun(p, steps)
  {
    steps == []
    || (Negotiating(p, steps[..|steps| - 1], h)
        && Follows(Run(p, steps[..|steps| - 1]), steps[|steps| - 1], h))
  }

  // ---------- who opened a stream ----------

  ghost predicate OppositeRoles(a: seq<Task>, b: seq<Task>) {
    && (forall i :: 0 <= i < |a| && i < |b| ==> a[i].initiator != b[i].initiator)
    && (forall i :: |b| <= i < |a| ==> a[i].initiator)
    && (forall i :: 0 <= i < |a| && a[i].initiator ==> a[i].proto.Some?)
  }

  // A stream both ends have started was opened by one of them; a stream only one has, by that one.
  ghost predicate Roles(p: Pair) {
    OppositeRoles(p.west.core.tasks, p.east.core.tasks) && OppositeRoles(p.east.core.tasks, p.west.core.tasks)
  }

  // The step leaves what was said and heard, and starts this task, if any.
  ghost predicate Adds(e: End, e': End, t: Option<Task>) {
    && e'.sent == e.sent && e'.taken == e.taken
    && match t
       case None => e'.core.tasks == e.core.tasks
       case Some(task) => e'.core.tasks == e.core.tasks + [task] && task.id == e.core.counter + 1
  }

  function Opening(e: End, it: Item): Option<Task> {
    if Opens(it) then Some(Task(e.core.counter + 1, true, Some(it.frame.payload))) else None
  }

  function Accepting(e: End, f: Frame): Option<Task> {
    if f.flag == NewStream then Some(Task(e.core.counter + 1, false, None)) else None
  }

  lemma PumpAdds(e: End, o: End)
    requires EndGood(e) && Link(o, e) && e.queue != []
    requires Opens(e.queue[0]) ==> e.core.counter + 1 < ID_LIMIT && NewIds(Pipe(o)) == []
    ensures Adds(e, Pumped(e), Opening(e, e.queue[0]))
    ensures Opens(e.queue[0]) ==> o.core.counter <= e.core.counter
  {
    assert e.queue[0] in e.queue;
    if Opens(e.queue[0]) {
      LinkIds(o, e);
      PumpedCounts(e);
    }
    hide Link, Pipe, NewIds;
  }

  lemma ArriveAdds(e: End, o: End)
    requires EndGood(e) && Link(o, e) && o.wire != []
    ensures Adds(e, Received(e, o.wire[0]), Accepting(e, o.wire[0]))
    ensures o.wire[0].flag == NewStream ==> e.core.counter < o.core.counter
  {
    var f := o.wire[0];
    PipeArrives(o);
    assert FromOpened(o.core.counter, f) by {
      FlowFrames(o, e);
      assert f in Pipe(o);
    }
    hide Pipe, Flow, IsData;
    if f.flag == NewStream {
      OpeningArrives(o, e, f);
    } else {
      DataIsRouted(e.core, f);
    }
  }

  lemma AddsKeepsRoles(e: End, e': End, o: End, t: Option<Task>)
    requires EndGood(e) && EndGood(o) && Adds(e, e', t)
    requires OppositeRoles(e.core.tasks, o.core.tasks) && OppositeRoles(o.core.tasks, e.core.tasks)
    requires t.Some? ==>
      if t.value.initiator then t.value.proto.Some? && o.core.counter <= e.core.counter
      else e.core.counter < o.core.counter
    ensures OppositeRoles(e'.core.tasks, o.core.tasks) && OppositeRoles(o.core.tasks, e'.core.tasks)
  {}

  lemma StepRoles(p: Pair, s: Step)
    requires Inv(p) && Roles(p) && Enabled(p, s) && InTurn(p, s)
    ensures Roles(Apply(p, s))
  {
    var e, o := At(p, s.at), At(p, Other(s.at));
    hide EndGood, Link, OppositeRoles, Adds, Pumped, Received;
    match s
    case Pump(_) =>
      PumpAdds(e, o);
      AddsKeepsRoles(e, Pumped(e), o, Opening(e, e.queue[0]));
    case Arrive(_) =>
      ArriveAdds(e, o);
      AddsKeepsRoles(e, Received(e, o.wire[0]), o, Accepting(e, o.wire[0]));
    case _ =>
  }

  // ---------- what each task has said and heard ----------

  ghost predicate TaskNegotiates(e: End, t: Task, handlers: set<Payload>) {
    var said, heard := Said(e, t.id), Heard(e, t.id);
    if t.initiator then
      && (said != [] ==> t.proto.Some? && said[0] == t.proto.value)
      && (heard != [] ==> said != [])
    else
      said != [] ==> heard != [] && said[0] == heard[0] && Answered(handlers, heard[0]).Agreed?
  }

  ghost predicate EndNegotiates(e: End, handlers: set<Payload>) {
    forall t :: t in e.core.tasks ==> TaskNegotiates(e, t, handlers)
  }

  ghost predicate Negotiates(p: Pair, h: Handlers) {
    EndNegotiates(p.west, h.west) && EndNegotiates(p.east, h.east)
  }

  lemma {:induction false} NoData(frames: seq<Frame>, id: nat)
    requires forall f :: f in frames ==> f.id != id
    ensures DataOf(frames, id) == []
  {
    if frames != [] {
      assert frames[0] in frames;
      assert forall f :: f in frames[1..] ==> f in frames;
      NoData(frames[1..], id);
    }
  }

  // Of a stream an end has not started, its tasks have said and heard nothing.
  lemma NewStreamIsSilent(e: End, o: End)
    requires Link(e, o) && Link(o, e)
    ensures Said(e, e.core.counter + 1) == [] == Heard(e, e.core.counter + 1)
  {
    var id := e.core.counter + 1;
    forall f | f in e.sent ensures f.id != id { assert FromOpened(e.core.counter, f); }
    NoData(e.sent, id);
    hide DataOf, Pipe;
    assert NothingEarly(o.sent, Pipe(o), e.taken, id);
  }

  lemma AddsNegotiates(e: End, e': End, o: End, t: Option<Task>, handlers: set<Payload>)
    requires Link(e, o) && Link(o, e) && Adds(e, e', t) && EndNegotiates(e, handlers)
    ensures EndNegotiates(e', handlers)
  {
    NewStreamIsSilent(e, o);
    hide Link, TaskNegotiates;
    forall u | u in e'.core.tasks ensures TaskNegotiates(e', u, handlers) {
      if u in e.core.tasks {
        TaskKeepsHistory(e, e', u, handlers);
      } else {
        SilentNegotiates(e', u, handlers);
      }
    }
  }

  lemma TaskKeepsHistory(e: End, e': End, t: Task, handlers: set<Payload>)
    requires TaskNegotiates(e, t, handlers) && e'.sent == e.sent && e'.taken == e.taken
    ensures TaskNegotiates(e', t, handlers)
  {
    hide DataOf;
  }

  lemma SilentNegotiates(e: End, t: Task, handlers: set<Payload>)
    requires Said(e, t.id) == [] == Heard(e, t.id)
    ensures TaskNegotiates(e, t, handlers)
  {
    hide DataOf;
  }

  lemma SayNegotiates(e: End, f: Frame, handlers: set<Payload>)
    requires EndNegotiates(e, handlers) && IsData(f.flag)
    requires forall t :: t in e.core.tasks && t.initiator ==> t.proto.Some?
    requires forall t :: t in e.core.tasks && t.id == f.id ==> MaySay(e, t, handlers, f.flag, f.payload)
    ensures EndNegotiates(e.(queue := e.queue + [Item(false, f)], sent := e.sent + [f]), handlers)
  {
    var e' := e.(queue := e.queue + [Item(false, f)], sent := e.sent + [f]);
    forall t | t in e'.core.tasks ensures TaskNegotiates(e', t, handlers) {
      assert TaskNegotiates(e, t, handlers);
      DataOfAppend(e.sent, [f], t.id);
      assert DataOf([f], t.id) == if t.id == f.id then [f.payload] else [];
      hide DataOf;
      if t.id == f.id { assert MaySay(e, t, handlers, f.flag, f.payload); }
    }
  }

  lemma ReadNegotiates(e: End, e': End, id: nat, payload: Payload, handlers: set<Payload>)
    requires EndNegotiates(e, handlers) && e'.sent == e.sent && e'.taken == e.taken + [Frame(id, Message, payload)]
    requires e'.core.tasks == e.core.tasks
    requires forall t :: t in e.core.tasks && t.id == id ==> MayRead(e, t)
    ensures EndNegotiates(e', handlers)
  {
    forall t | t in e'.core.tasks ensures TaskNegotiates(e', t, handlers) {
      assert TaskNegotiates(e, t, handlers);
      DataOfAppend(e.taken, [Frame(id, Message, payload)], t.id);
      assert DataOf([Frame(id, Message, payload)], t.id) == if t.id == id then [payload] else [];
      hide DataOf;
      if t.id == id { assert MayRead(e, t); }
    }
  }

  lemma StepNegotiates(p: Pair, s: Step, h: Handlers)
    requires Inv(p) && Roles(p) && Negotiates(p, h) && Enabled(p, s) && InTurn(p, s) && Follows(p, s, h)
    ensures Negotiates(Apply(p, s), h)
  {
    var e, o, handlers := At(p, s.at), At(p, Other(s.at)), HandlersAt(h, s.at);
    OpenersAsk(p, s.at);
    hide EndGood, Link, OppositeRoles, Adds, Pumped, Received, EndNegotiates, MaySay, MayRead, Pipe, NewIds;
    hide Roles;
    match s
    case Say(_, id, flag, payload) => SayNegotiates(e, Frame(id, flag, payload), handlers);
    case Read(_, id) => ReadNegotiates(e, At(Apply(p, s), s.at), id, e.core.inbox[id][0], handlers);
    case Pump(_) =>
      PumpAdds(e, o);
      AddsNegotiates(e, Pumped(e), o, Opening(e, e.queue[0]), handlers);
    case Arrive(_) =>
      ArriveAdds(e, o);
      AddsNegotiates(e, Received(e, o.wire[0]), o, Accepting(e, o.wire[0]), handlers);
      SameHistory(o, o.(wire := o.wire[1..]), HandlersAt(h, Other(s.at)));
    case Open(_, proto) => SameHistory(e, At(Apply(p, s), s.at), handlers);
    case Close(_, id) => SameHistory(e, At(Apply(p, s), s.at), handlers);
    case Ends(_, id) => SameHistory(e, At(Apply(p, s), s.at), handlers);
  }

  lemma OpenersAsk(p: Pair, s: Side)
    requires Roles(p)
    ensures forall t :: t in At(p, s).core.tasks && t.initiator ==> t.proto.Some?
  {}

  lemma SameHistory(e: End, e': End, handlers: set<Payload>)
    requires EndNegotiates(e, handlers)
    requires e'.sent == e.sent && e'.taken == e.taken && e'.core.tasks == e.core.tasks
    ensures EndNegotiates(e', handlers)
  {
    hide TaskNegotiates;
    forall t | t in e'.core.tasks ensures TaskNegotiates(e', t, handlers) { TaskKeepsHistory(e, e', t, handlers); }
  }

  lemma {:induction false} RunNegotiates(steps: seq<Step>, h: Handlers)
    requires CanRun(INITIAL, steps) && Orderly(INITIAL, steps) && Negotiating(INITIAL, steps, h)
    ensures var p := Run(INITIAL, steps); Inv(p) && Roles(p) && Negotiates(p, h)
  {
    hide Inv, Enabled, InTurn, Apply, Follows, Roles, Negotiates;
    if steps == [] {
      StartNegotiates(h);
    } else {
      var before, s := steps[..|steps| - 1], steps[|steps| - 1];
      RunNegotiates(before, h);
      StepInv(Run(INITIAL, before), s);
      StepRoles(Run(INITIAL, before), s);
      StepNegotiates(Run(INITIAL, before), s, h);
    }
  }

  lemma StartNegotiates(h: Handlers)
    ensures Inv(INITIAL) && Roles(INITIAL) && Negotiates(INITIAL, h)
  {
    StartInv();
  }

  // ---------- agreement ----------

  // The end at `s` opened stream `id` and asked for this protocol.
  ghost predicate Opener(p: Pair, s: Side, id: nat, protocol: Payload) {
    Task(id, true, Some(protocol)) in At(p, s).core.tasks
  }

  // What the end that opened the stream, and the other, has got out of negotiating so far.
  ghost function OpenerGot(p: Pair, s: Side, id: nat, protocol: Payload): Option<Negotiated> {
    var heard := Heard(At(p, s), id);
    if heard == [] then None else Some(Confirmed(protocol, heard[0]))
  }

  ghost function OtherGot(p: Pair, s: Side, id: nat, h: Handlers): Option<Negotiated> {
    var heard := Heard(At(p, Other(s)), id);
    if heard == [] then None else Some(Answered(HandlersAt(h, Other(s)), heard[0]))
  }

  lemma FirstOf(a: seq<Payload>, b: seq<Payload>, c: seq<Payload>)
    requires a + b <= c && a != []
    ensures c != [] && c[0] == a[0]
  {}

  // What an end heard first is what the other said first, and a stream an end has heard something on is
  // one the other has started.
  lemma HeardIsSaid(e: End, o: End, id: nat)
    requires EndGood(e) && EndGood(o) && Link(o, e) && 1 <= id <= e.core.counter && Heard(e, id) != []
    ensures Said(o, id) != [] && Said(o, id)[0] == Heard(e, id)[0]
    ensures id <= o.core.counter
  {
    assert ReadInOrder(o.sent, e.core, e.taken, id);
    FirstOf(Heard(e, id), Unread(e.core, id), Said(o, id));
    if id > o.core.counter {
      forall f | f in o.sent ensures f.id != id { assert FromOpened(o.core.counter, f); }
      NoData(o.sent, id);
      assert false;
    }
  }

  // The two tasks of a stream one end opened.
  lemma TasksOf(p: Pair, h: Handlers, s: Side, id: nat, protocol: Payload)
    requires Inv(p) && Roles(p) && Negotiates(p, h) && Opener(p, s, id, protocol)
    ensures var e, o := At(p, s), At(p, Other(s));
      && 1 <= id <= e.core.counter
      && TaskNegotiates(e, Task(id, true, Some(protocol)), HandlersAt(h, s))
      && (id <= o.core.counter ==>
            exists t :: t in o.core.tasks && t.id == id && !t.initiator
              && TaskNegotiates(o, t, HandlersAt(h, Other(s))))
  {
    hide TaskNegotiates, Link;
    var e, o := At(p, s), At(p, Other(s));
    assert EndNegotiates(e, HandlersAt(h, s)) && EndNegotiates(o, HandlersAt(h, Other(s)));
    var i :| 0 <= i < |e.core.tasks| && e.core.tasks[i] == Task(id, true, Some(protocol));
    assert e.core.tasks[i].id == i + 1;
    if id <= o.core.counter {
      assert o.core.tasks[i] in o.core.tasks && o.core.tasks[i].id == id && !o.core.tasks[i].initiator;
    }
  }

  // The other end hears the request first.
  lemma OtherHears(p: Pair, h: Handlers, s: Side, id: nat, protocol: Payload)
    requires Inv(p) && Roles(p) && Negotiates(p, h) && Opener(p, s, id, protocol)
    ensures Heard(At(p, Other(s)), id) != [] ==> Heard(At(p, Other(s)), id)[0] == protocol
  {
    var e, o := At(p, s), At(p, Other(s));
    TasksOf(p, h, s, id, protocol);
    hide DataOf, Link, Roles, Negotiates;
    if id > o.core.counter {
      HeardNothing(o, e, id);
    } else if Heard(o, id) != [] {
      HeardIsSaid(o, e, id);
    }
  }

  // The opener hears the echo, and only after the other end has heard the request and has a handler.
  lemma OpenerHears(p: Pair, h: Handlers, s: Side, id: nat, protocol: Payload)
    requires Inv(p) && Roles(p) && Negotiates(p, h) && Opener(p, s, id, protocol)
    requires Heard(At(p, s), id) != []
    ensures Heard(At(p, Other(s)), id) != [] && Heard(At(p, s), id)[0] == Heard(At(p, Other(s)), id)[0]
    ensures Answered(HandlersAt(h, Other(s)), Heard(At(p, s), id)[0]).Agreed?
  {
    var e, o := At(p, s), At(p, Other(s));
    TasksOf(p, h, s, id, protocol);
    hide DataOf, Link, Roles, Negotiates;
    HeardIsSaid(e, o, id);
  }

  lemma EndsAgreeAt(p: Pair, h: Handlers, s: Side, id: nat, protocol: Payload)
    requires Inv(p) && Roles(p) && Negotiates(p, h) && Opener(p, s, id, protocol)
    ensures OtherGot(p, s, id, h) in {None, Some(Answered(HandlersAt(h, Other(s)), protocol))}
    ensures OpenerGot(p, s, id, protocol).Some? ==>
      && OpenerGot(p, s, id, protocol) == OtherGot(p, s, id, h) == Some(Agreed(protocol))
      && protocol in HandlersAt(h, Other(s))
  {
    OtherHears(p, h, s, id, protocol);
    hide Heard, Roles, Negotiates, Inv;
    if Heard(At(p, s), id) != [] { OpenerHears(p, h, s, id, protocol); }
  }

  // The other end has heard the request and said its answer, if any, and the opener, while it waits, has
  // nothing on its way or unread.
  ghost predicate Settled(p: Pair, h: Handlers, s: Side, id: nat) {
    var e, o := At(p, s), At(p, Other(s));
    && Heard(o, id) != []
    && (Answered(HandlersAt(h, Other(s)), Heard(o, id)[0]).Agreed? ==> Said(o, id) != [])
    && (Heard(e, id) == [] ==>
          id in e.core.table && id in e.core.inbox && e.core.inbox[id] == [] == DataOf(Pipe(o), id))
  }

  lemma SettledAt(p: Pair, h: Handlers, s: Side, id: nat, protocol: Payload)
    requires Inv(p) && Roles(p) && Negotiates(p, h) && Opener(p, s, id, protocol) && Settled(p, h, s, id)
    ensures Heard(At(p, Other(s)), id) != []
    ensures Answered(HandlersAt(h, Other(s)), protocol).Agreed? ==> Heard(At(p, s), id) != []
  {
    OtherHears(p, h, s, id, protocol);
    hide DataOf, Roles, Negotiates, Pipe;
    var e, o := At(p, s), At(p, Other(s));
    if Heard(e, id) == [] { assert Projected(o.sent, Pipe(o), e.core, e.taken, id); }
  }

  lemma HeardNothing(e: End, o: End, id: nat)
    requires Link(o, e) && id > e.core.counter
    ensures Heard(e, id) == []
  {
    hide DataOf, Pipe;
    assert NothingEarly(o.sent, Pipe(o), e.taken, id);
  }

  // In every run in which the stream tasks negotiate: both ends see the protocol the opener asked for,
  // and when the opener has an answer, both have agreed on it and the other end has a handler for it.
  lemma EndsAgree(steps: seq<Step>, h: Handlers, s: Side, id: nat, protocol: Payload)
    requires CanRun(INITIAL, steps) && Orderly(INITIAL, steps) && Negotiating(INITIAL, steps, h)
    requires Opener(Run(INITIAL, steps), s, id, protocol)
    ensures var p := Run(INITIAL, steps);
      && OtherGot(p, s, id, h) in {None, Some(Answered(HandlersAt(h, Other(s)), protocol))}
      && (OpenerGot(p, s, id, protocol).Some? ==>
            && OpenerGot(p, s, id, protocol) == OtherGot(p, s, id, h) == Some(Agreed(protocol))
            && protocol in HandlersAt(h, Other(s)) && IsString(protocol))
  {
    RunNegotiates(steps, h);
    EndsAgreeAt(Run(INITIAL, steps), h, s, id, protocol);
  }

  // When negotiating is over, the opener has agreed exactly when the other end has a handler for the
  // protocol, which is a string; and if not, the other end knows.
  lemma OpenerAgreesIffHandled(steps: seq<Step>, h: Handlers, s: Side, id: nat, protocol: Payload)
    requires CanRun(INITIAL, steps) && Orderly(INITIAL, steps) && Negotiating(INITIAL, steps, h)
    requires Opener(Run(INITIAL, steps), s, id, protocol) && Settled(Run(INITIAL, steps), h, s, id)
    ensures var p := Run(INITIAL, steps);
      && OtherGot(p, s, id, h) == Some(Answered(HandlersAt(h, Other(s)), protocol))
      && (OpenerGot(p, s, id, protocol) == Some(Agreed(protocol)) <==>
            protocol in HandlersAt(h, Other(s)) && IsString(protocol))
      && (OtherGot(p, s, id, h) == Some(Agreed(protocol)) <==>
            protocol in HandlersAt(h, Other(s)) && IsString(protocol))
  {
    RunNegotiates(steps, h);
    var p := Run(INITIAL, steps);
    hide Run, CanRun, Settled, Roles, Negotiates, Inv, Heard;
    EndsAgreeAt(p, h, s, id, protocol);
    SettledAt(p, h, s, id, protocol);
  }
}
