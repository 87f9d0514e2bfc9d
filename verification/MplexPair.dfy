/**
 Two multiplexer ends joined by two wires, in every interleaving of their connection handlers and
 stream tasks, while ids stay below 2^29. Frames are values here; `MplexBytes` relates them to bytes.

 A run is orderly when an end opens a stream only while no opening of the other end is on its way to
 it. Orderly runs are those in which every opening gets a fresh id (`OpeningsFreshIffOrderly`).
 */
module MplexPair {
  import opened Bytes
  import opened MplexConn
  import opened MplexHeaders
  import opened Wrappers

  // An entry of the queue between the stream tasks and the connection.
  datatype Item = Item(internal: bool, frame: Frame)

  // `sent` is what the stream tasks of this end said, `taken` what they read, in order; `down` when the
  // connection handler has ended.
  datatype End = End(
    core: Core, queue: seq<Item>, wire: seq<Frame>, sent: seq<Frame>, taken: seq<Frame>, down: bool)

  datatype Side = West | East

  datatype Pair = Pair(west: End, east: End)

  function Other(s: Side): Side { if s == West then East else West }

  function At(p: Pair, s: Side): End { if s == West then p.west else p.east }

  function With(p: Pair, s: Side, e: End): Pair { if s == West then p.(west := e) else p.(east := e) }

  datatype Step =
    | Open(at: Side, proto: Payload)
    | Say(at: Side, id: nat, flag: Flag, payload: Payload)
    | Close(at: Side, id: nat)
    | Read(at: Side, id: nat)
    | Ends(at: Side, id: nat)
    | Pump(at: Side)
    | Arrive(at: Side)

  function TaskIds(core: Core): set<nat> { set t | t in core.tasks :: t.id }

  // A frame written to the wire has the low 29 bits of its id.
  function OnWire(f: Frame): Frame { f.(id := f.id % ID_LIMIT) }

  function Took(e: End, h: Handled, ends: bool): End {
    e.(core := h.core, queue := e.queue + QueuedReply(h.reply), down := e.down || ends)
  }

  function QueuedReply(reply: Option<Frame>): seq<Item> {
    match reply
    case None => []
    case Some(r) => [Item(false, r)]
  }

  function Received(e: End, f: Frame): End {
    var h := Handle(e.core, f);
    Took(e, h, h.live.Err?)
  }

  function Pumped(e: End): End
    requires e.queue != []
  {
    var rest, it := e.(queue := e.queue[1..]), e.queue[0];
    if it.internal then
      var h := Handle(e.core, it.frame);
      Took(rest, h, h.live != Ok(true))
    else rest.(wire := rest.wire + [OnWire(it.frame)])
  }

  predicate Opens(it: Item) { it.internal && it.frame.flag == NewStream }

  // The step takes an opening off the queue of the connection.
  predicate Starts(p: Pair, s: Step) { s.Pump? && At(p, s.at).queue != [] && Opens(At(p, s.at).queue[0]) }

  // A stream task that runs has its inbox. Nothing is queued at an end that is down, and no connection
  // handler goes on once one of the two is down.
  predicate Enabled(p: Pair, s: Step) {
    var e, o := At(p, s.at), At(p, Other(s.at));
    match s
    case Open(_, _) => !e.down
    case Say(_, id, flag, _) => !e.down && id in e.core.inbox && IsData(flag)
    case Close(_, id) => !e.down && id in e.core.inbox
    case Read(_, id) => id in e.core.inbox && e.core.inbox[id] != []
    case Ends(_, id) => id in e.core.inbox
    case Pump(_) => !e.down && !o.down && e.queue != [] && (Starts(p, s) ==> e.core.counter + 1 < ID_LIMIT)
    case Arrive(_) => !e.down && !o.down && o.wire != []
  }

  // No opening of the other end is on its way when a stream is opened.
  predicate InTurn(p: Pair, s: Step) { Starts(p, s) ==> NewIds(Pipe(At(p, Other(s.at)))) == [] }

  function Apply(p: Pair, s: Step): Pair
    requires Enabled(p, s)
  {
    var e, o := At(p, s.at), At(p, Other(s.at));
    match s
    case Open(_, proto) => With(p, s.at, e.(queue := e.queue + [Item(true, Frame(0, NewStream, proto))]))
    case Say(_, id, flag, payload) =>
      var f := Frame(id, flag, payload);
      With(p, s.at, e.(queue := e.queue + [Item(false, f)], sent := e.sent + [f]))
    case Close(_, id) => With(p, s.at, e.(queue := e.queue + [Item(true, Frame(id, CloseStream, []))]))
    case Read(_, id) =>
      var unread := e.core.inbox[id];
      With(p, s.at, e.(core := e.core.(inbox := e.core.inbox[id := unread[1..]]),
                       taken := e.taken + [Frame(id, Message, unread[0])]))
    case Ends(_, id) => With(p, s.at, e.(core := e.core.(inbox := e.core.inbox - {id})))
    case Pump(_) => With(p, s.at, Pumped(e))
    case Arrive(_) =>
      With(With(p, s.at, Received(e, o.wire[0])), Other(s.at), o.(wire := o.wire[1..]))
  }

  // ---------- what is on its way ----------

  function WireFrames(queue: seq<Item>): seq<Frame> {
    if queue == [] then []
    else (if queue[0].internal then [] else [queue[0].frame]) + WireFrames(queue[1..])
  }

  // Everything an end has queued or written that the other has not handled, oldest first.
  function Pipe(e: End): seq<Frame> { e.wire + WireFrames(e.queue) }

  function NewIds(frames: seq<Frame>): seq<nat> {
    if frames == [] then []
    else (if frames[0].flag == NewStream then [frames[0].id] else []) + NewIds(frames[1..])
  }

  // The handshake and message payloads of one stream.
  function DataOf(frames: seq<Frame>, id: nat): seq<Payload> {
    if frames == [] then []
    else (if IsData(frames[0].flag) && frames[0].id == id then [frames[0].payload] else []) + DataOf(frames[1..], id)
  }

  lemma {:induction false} WireFramesAppend(a: seq<Item>, b: seq<Item>)
    ensures WireFrames(a + b) == WireFrames(a) + WireFrames(b)
  {
    if a == [] { assert a + b == b; } else {
      assert (a + b)[1..] == a[1..] + b;
      WireFramesAppend(a[1..], b);
      var head := if a[0].internal then [] else [a[0].frame];
      assert head + (WireFrames(a[1..]) + WireFrames(b)) == (head + WireFrames(a[1..])) + WireFrames(b);
    }
  }

  lemma {:induction false} NewIdsAppend(a: seq<Frame>, b: seq<Frame>)
    ensures NewIds(a + b) == NewIds(a) + NewIds(b)
  {
    if a == [] { assert a + b == b; } else {
      assert (a + b)[1..] == a[1..] + b;
      NewIdsAppend(a[1..], b);
      var head := if a[0].flag == NewStream then [a[0].id] else [];
      assert head + (NewIds(a[1..]) + NewIds(b)) == (head + NewIds(a[1..])) + NewIds(b);
    }
  }

  lemma {:induction false} DataOfAppend(a: seq<Frame>, b: seq<Frame>, id: nat)
    ensures DataOf(a + b, id) == DataOf(a, id) + DataOf(b, id)
  {
    if a == [] { assert a + b == b; } else {
      assert (a + b)[1..] == a[1..] + b;
      DataOfAppend(a[1..], b, id);
      var head := if IsData(a[0].flag) && a[0].id == id then [a[0].payload] else [];
      assert head + (DataOf(a[1..], id) + DataOf(b, id)) == (head + DataOf(a[1..], id)) + DataOf(b, id);
    }
  }

  lemma PipeQueues(e: End, it: Item)
    ensures Pipe(e.(queue := e.queue + [it])) == Pipe(e) + if it.internal then [] else [it.frame]
  {
    WireFramesAppend(e.queue, [it]);
  }

  // Moving a frame from the queue to the wire keeps what is on its way.
  lemma PipePumps(e: End)
    requires e.queue != []
    ensures e.queue[0].internal ==> Pipe(e.(queue := e.queue[1..])) == Pipe(e)
    ensures !e.queue[0].internal ==>
      Pipe(e.(queue := e.queue[1..], wire := e.wire + [e.queue[0].frame])) == Pipe(e)
  {}

  lemma PipeArrives(e: End)
    requires e.wire != []
    ensures Pipe(e) == [e.wire[0]] + Pipe(e.(wire := e.wire[1..]))
  {
    assert e.wire == [e.wire[0]] + e.wire[1..];
  }

  function Range(a: nat, b: nat): (r: seq<nat>)
    decreases b - a
  {
    if a < b then [a] + Range(a + 1, b) else []
  }

  lemma {:induction false} RangeGrows(a: nat, b: nat)
    requires a <= b
    ensures Range(a, b + 1) == Range(a, b) + [b]
    decreases b - a
  {
    if a < b { RangeGrows(a + 1, b); }
  }

  lemma {:induction false} RangeHolds(a: nat, b: nat, x: nat)
    requires a <= x < b
    ensures x in Range(a, b)
    decreases b - a
  {
    if a < x { RangeHolds(a + 1, b, x); }
  }

  lemma {:induction false} NewIdIsFrame(frames: seq<Frame>, x: nat) returns (k: nat)
    requires x in NewIds(frames)
    ensures k < |frames| && frames[k].flag == NewStream && frames[k].id == x
  {
    if frames[0].flag == NewStream && frames[0].id == x {
      k := 0;
    } else {
      k := NewIdIsFrame(frames[1..], x);
      k := k + 1;
    }
  }

  // ---------- the invariant ----------

  // Stream tasks are started for 1, 2, 3, ... up to the counter, each once.
  ghost predicate EndGood(e: End) {
    && e.core.counter < ID_LIMIT
    && |e.core.tasks| == e.core.counter
    && (forall i :: 0 <= i < |e.core.tasks| ==> e.core.tasks[i].id == i + 1)
    && (forall id :: id in e.core.table ==> 1 <= id <= e.core.counter)
    && (forall id :: id in e.core.inbox ==> 1 <= id <= e.core.counter)
    && (forall it :: it in e.queue && it.internal ==>
          (it.frame.flag == CloseStream && 1 <= it.frame.id <= e.core.counter)
          || (it.frame.flag == NewStream && it.frame.id == 0))
  }

  ghost predicate FromOpened(counter: nat, f: Frame) {
    1 <= f.id <= counter && (f.flag == NewStream || IsData(f.flag))
  }

  // A stream's opening is ahead of its data.
  ghost predicate InOrder(frames: seq<Frame>) {
    forall i, k :: 0 <= i < k < |frames| && frames[k].flag == NewStream && IsData(frames[i].flag) ==>
      frames[i].id != frames[k].id
  }

  // What was said on a stream whose task runs is what was read, what waits in its inbox, and what is on
  // its way.
  ghost predicate Projected(sent: seq<Frame>, pipe: seq<Frame>, r: Core, taken: seq<Frame>, id: nat) {
    id in r.inbox ==> DataOf(sent, id) == DataOf(taken, id) + r.inbox[id] + DataOf(pipe, id)
  }

  // Of a stream not opened yet, nothing has arrived.
  ghost predicate NothingEarly(sent: seq<Frame>, pipe: seq<Frame>, taken: seq<Frame>, id: nat) {
    DataOf(sent, id) == DataOf(pipe, id) && DataOf(taken, id) == []
  }

  function Unread(r: Core, id: nat): seq<Payload> { if id in r.inbox then r.inbox[id] else [] }

  // What was read and what waits in an inbox is what was said first, even after the stream was closed
  // or its task ended.
  ghost predicate ReadInOrder(sent: seq<Frame>, r: Core, taken: seq<Frame>, id: nat) {
    DataOf(taken, id) + Unread(r, id) <= DataOf(sent, id)
  }

  // One direction: from an end with this counter, that said `sent` and whose frames `pipe` are on their
  // way, to an end with core `r`, whose streams read `taken`. The openings on their way are those the
  // receiver has not counted yet.
  ghost predicate Flow(counter: nat, sent: seq<Frame>, pipe: seq<Frame>, r: Core, taken: seq<Frame>) {
    && (forall f :: f in pipe ==> FromOpened(counter, f))
    && (forall f :: f in sent ==> FromOpened(counter, f))
    && NewIds(pipe) == Range(r.counter + 1, counter + 1) && InOrder(pipe)
    && (forall id :: id in r.table ==> Projected(sent, pipe, r, taken, id))
    && (forall id :: id > r.counter ==> NothingEarly(sent, pipe, taken, id))
    && (forall id: nat :: ReadInOrder(sent, r, taken, id))
  }

  ghost predicate Link(s: End, r: End) { Flow(s.core.counter, s.sent, Pipe(s), r.core, r.taken) }

  ghost predicate Inv(p: Pair) {
    EndGood(p.west) && EndGood(p.east) && Link(p.west, p.east) && Link(p.east, p.west)
  }

  const START := End(Core(0, {}, map[], None, []), [], [], [], [], false)

  const INITIAL := Pair(START, START)

  lemma StartInv()
    ensures Inv(INITIAL)
  {}

  // ---------- one direction, event by event ----------

  lemma SayProjected(sent: seq<Frame>, pipe: seq<Frame>, r: Core, taken: seq<Frame>, f: Frame, id: nat)
    ensures Projected(sent, pipe, r, taken, id) ==> Projected(sent + [f], pipe + [f], r, taken, id)
    ensures NothingEarly(sent, pipe, taken, id) ==> NothingEarly(sent + [f], pipe + [f], taken, id)
    ensures ReadInOrder(sent, r, taken, id) ==> ReadInOrder(sent + [f], r, taken, id)
  {
    DataOfAppend(pipe, [f], id);
    DataOfAppend(sent, [f], id);
    hide DataOf;
    if Projected(sent, pipe, r, taken, id) && id in r.inbox {
      var head := DataOf(taken, id) + r.inbox[id];
      assert head + (DataOf(pipe, id) + DataOf([f], id)) == (head + DataOf(pipe, id)) + DataOf([f], id);
    }
  }

  lemma FlowSay(counter: nat, sent: seq<Frame>, pipe: seq<Frame>, r: Core, taken: seq<Frame>, f: Frame)
    requires Flow(counter, sent, pipe, r, taken) && IsData(f.flag) && 1 <= f.id <= counter
    ensures Flow(counter, sent + [f], pipe + [f], r, taken)
  {
    NewIdsAppend(pipe, [f]);
    assert NewIds([f]) == [];
    hide DataOf, NewIds, IsData, Range, Projected, NothingEarly, ReadInOrder;
    forall id | id in r.table ensures Projected(sent + [f], pipe + [f], r, taken, id) {
      SayProjected(sent, pipe, r, taken, f, id);
    }
    forall id | id > r.counter ensures NothingEarly(sent + [f], pipe + [f], taken, id) {
      SayProjected(sent, pipe, r, taken, f, id);
    }
    forall id: nat ensures ReadInOrder(sent + [f], r, taken, id) {
      SayProjected(sent, pipe, r, taken, f, id);
    }
  }

  function AfterRead(r: Core, id: nat): Core
    requires id in r.inbox && r.inbox[id] != []
  {
    r.(inbox := r.inbox[id := r.inbox[id][1..]])
  }

  lemma ReadOne(sent: seq<Frame>, pipe: seq<Frame>, r: Core, taken: seq<Frame>, id: nat, x: nat)
    requires id in r.inbox && r.inbox[id] != []
    ensures var r', taken' := AfterRead(r, id), taken + [Frame(id, Message, r.inbox[id][0])];
      && (Projected(sent, pipe, r, taken, x) ==> Projected(sent, pipe, r', taken', x))
      && (NothingEarly(sent, pipe, taken, x) && x != id ==> NothingEarly(sent, pipe, taken', x))
      && (ReadInOrder(sent, r, taken, x) ==> ReadInOrder(sent, r', taken', x))
  {
    var read := Frame(id, Message, r.inbox[id][0]);
    DataOfAppend(taken, [read], x);
    assert DataOf([read], x) == if x == id then [read.payload] else [];
    hide DataOf;
    if x == id {
      var rest := r.inbox[id][1..];
      assert r.inbox[id] == [read.payload] + rest;
      assert DataOf(taken, x) + ([read.payload] + rest) == DataOf(taken, x) + [read.payload] + rest;
    }
  }

  lemma FlowRead(counter: nat, sent: seq<Frame>, pipe: seq<Frame>, r: Core, taken: seq<Frame>, id: nat)
    requires Flow(counter, sent, pipe, r, taken) && id in r.inbox && r.inbox[id] != [] && id <= r.counter
    ensures Flow(counter, sent, pipe, AfterRead(r, id), taken + [Frame(id, Message, r.inbox[id][0])])
  {
    hide Range, NewIds, Projected, NothingEarly, ReadInOrder, InOrder, FromOpened;
    var r', taken' := AfterRead(r, id), taken + [Frame(id, Message, r.inbox[id][0])];
    forall x | x in r'.table ensures Projected(sent, pipe, r', taken', x) {
      ReadOne(sent, pipe, r, taken, id, x);
    }
    forall x | x > r.counter ensures NothingEarly(sent, pipe, taken', x) {
      ReadOne(sent, pipe, r, taken, id, x);
    }
    forall x: nat ensures ReadInOrder(sent, r', taken', x) {
      ReadOne(sent, pipe, r, taken, id, x);
    }
  }

  lemma FlowClose(counter: nat, sent: seq<Frame>, pipe: seq<Frame>, r: Core, taken: seq<Frame>, id: nat)
    requires Flow(counter, sent, pipe, r, taken)
    ensures Flow(counter, sent, pipe, r.(table := r.table - {id}), taken)
  {
    forall x | x in r.table - {id} ensures Projected(sent, pipe, r.(table := r.table - {id}), taken, x) {
      assert Projected(sent, pipe, r, taken, x);
    }
    forall x: nat ensures ReadInOrder(sent, r.(table := r.table - {id}), taken, x) {
      assert ReadInOrder(sent, r, taken, x);
    }
  }

  lemma FlowEnds(counter: nat, sent: seq<Frame>, pipe: seq<Frame>, r: Core, taken: seq<Frame>, id: nat)
    requires Flow(counter, sent, pipe, r, taken)
    ensures Flow(counter, sent, pipe, r.(inbox := r.inbox - {id}), taken)
  {
    hide DataOf;
    var r' := r.(inbox := r.inbox - {id});
    forall x | x in r.table ensures Projected(sent, pipe, r', taken, x) { assert Projected(sent, pipe, r, taken, x); }
    forall x: nat ensures ReadInOrder(sent, r', taken, x) { assert ReadInOrder(sent, r, taken, x); }
  }

  lemma OpeningInOrder(pipe: seq<Frame>, f: Frame)
    requires InOrder(pipe) && forall g :: g in pipe ==> g.id != f.id
    ensures InOrder(pipe + [f])
  {
    forall i | 0 <= i < |pipe| ensures pipe[i].id != f.id { assert pipe[i] in pipe; }
  }

  lemma OpeningIsNoData(pipe: seq<Frame>, f: Frame, id: nat)
    requires f.flag == NewStream
    ensures DataOf(pipe + [f], id) == DataOf(pipe, id)
  {
    DataOfAppend(pipe, [f], id);
    assert DataOf([f], id) == [];
  }

  // The sending end opens the next stream.
  lemma FlowOpens(counter: nat, sent: seq<Frame>, pipe: seq<Frame>, r: Core, taken: seq<Frame>)
    requires Flow(counter, sent, pipe, r, taken) && r.counter <= counter
    ensures Flow(counter + 1, sent, pipe + [Frame(counter + 1, NewStream, [])], r, taken)
  {
    var f := Frame(counter + 1, NewStream, []);
    NewIdsAppend(pipe, [f]);
    assert NewIds([f]) == [f.id] + NewIds([]);
    RangeGrows(r.counter + 1, counter + 1);
    OpeningInOrder(pipe, f);
    hide NewIds, Range, InOrder, DataOf;
    forall id | id in r.table ensures Projected(sent, pipe + [f], r, taken, id) {
      OpeningIsNoData(pipe, f, id);
      assert Projected(sent, pipe, r, taken, id);
    }
    forall id | id > r.counter ensures NothingEarly(sent, pipe + [f], taken, id) {
      OpeningIsNoData(pipe, f, id);
      assert NothingEarly(sent, pipe, taken, id);
    }
  }

  // The sending end counts a stream the receiving end has opened.
  lemma FlowCounts(counter: nat, sent: seq<Frame>, pipe: seq<Frame>, r: Core, taken: seq<Frame>)
    requires Flow(counter, sent, pipe, r, taken) && counter < r.counter
    ensures Flow(counter + 1, sent, pipe, r, taken)
  {
    hide DataOf, NewIds;
  }

  // The receiving end starts a stream, on its own or because the next opening arrived.
  lemma FlowStarts(
      counter: nat, sent: seq<Frame>, pipe: seq<Frame>, pipe': seq<Frame>, r: Core, taken: seq<Frame>, t: Task)
    requires Flow(counter, sent, pipe, r, taken)
    requires NewIds(pipe') == Range(r.counter + 2, counter + 1) && InOrder(pipe')
    requires (forall f :: f in pipe' ==> f in pipe) && (forall id :: DataOf(pipe', id) == DataOf(pipe, id))
    ensures Flow(counter, sent, pipe', Opened(r, r.counter + 1, t), taken)
  {
    hide DataOf, NewIds, Range;
    var r' := Opened(r, r.counter + 1, t);
    forall id | id in r'.table ensures Projected(sent, pipe', r', taken, id) {
      if id == r.counter + 1 {
        assert NothingEarly(sent, pipe, taken, id);
      } else {
        assert Projected(sent, pipe, r, taken, id);
      }
    }
    forall id | id > r'.counter ensures NothingEarly(sent, pipe', taken, id) {
      assert NothingEarly(sent, pipe, taken, id);
    }
    forall id: nat ensures ReadInOrder(sent, r', taken, id) {
      assert ReadInOrder(sent, r, taken, id);
      if id == r.counter + 1 { assert NothingEarly(sent, pipe, taken, id); }
    }
  }

  // Data never overtakes the opening of its stream.
  lemma DataIsForOpenedStream(counter: nat, sent: seq<Frame>, pipe: seq<Frame>, r: Core, taken: seq<Frame>)
    requires Flow(counter, sent, pipe, r, taken) && pipe != [] && IsData(pipe[0].flag)
    ensures 1 <= pipe[0].id <= r.counter
  {
    hide DataOf;
    assert FromOpened(counter, pipe[0]);
    if pipe[0].id > r.counter {
      RangeHolds(r.counter + 1, counter + 1, pipe[0].id);
      var k := NewIdIsFrame(pipe, pipe[0].id);
      assert false;
    }
  }

  lemma TakeData(pipe: seq<Frame>)
    requires pipe != [] && IsData(pipe[0].flag) && InOrder(pipe)
    ensures (forall f :: f in pipe[1..] ==> f in pipe) && InOrder(pipe[1..])
    ensures NewIds(pipe[1..]) == NewIds(pipe)
    ensures forall id ::
      DataOf(pipe, id) == (if id == pipe[0].id then [pipe[0].payload] else []) + DataOf(pipe[1..], id)
  {
    forall i | 0 <= i < |pipe| - 1 ensures pipe[1..][i] == pipe[i + 1] {}
  }

  lemma Regroup<T>(a: seq<T>, b: seq<T>, c: seq<T>, d: seq<T>)
    ensures a + b + (c + d) == a + (b + c) + d
  {}

  lemma RouteProjected(sent: seq<Frame>, pipe: seq<Frame>, r: Core, taken: seq<Frame>, id: nat)
    requires pipe != [] && IsData(pipe[0].flag) && Projected(sent, pipe, r, taken, id) && id in r.table
    ensures Projected(sent, pipe[1..], Routed(r, pipe[0]), taken, id)
  {
    var f := pipe[0];
    assert DataOf(pipe, id) == (if id == f.id then [f.payload] else []) + DataOf(pipe[1..], id);
    hide DataOf;
    if id == f.id && id in r.inbox {
      Regroup(DataOf(taken, id), r.inbox[id], [f.payload], DataOf(pipe[1..], id));
    } else if id != f.id {
      assert DataOf(pipe, id) == DataOf(pipe[1..], id);
    }
  }

  lemma ProjectedInOrder(sent: seq<Frame>, pipe: seq<Frame>, r: Core, taken: seq<Frame>, id: nat)
    requires Projected(sent, pipe, r, taken, id) && id in r.inbox
    ensures ReadInOrder(sent, r, taken, id)
  {
    hide DataOf;
  }

  lemma FlowRoutes(counter: nat, sent: seq<Frame>, pipe: seq<Frame>, r: Core, taken: seq<Frame>)
    requires Flow(counter, sent, pipe, r, taken) && pipe != [] && IsData(pipe[0].flag)
    ensures Flow(counter, sent, pipe[1..], Routed(r, pipe[0]), taken)
  {
    var pipe', r' := pipe[1..], Routed(r, pipe[0]);
    DataIsForOpenedStream(counter, sent, pipe, r, taken);
    TakeData(pipe);
    hide DataOf, NewIds, Range, InOrder, IsData, FromOpened, Projected;
    forall id | id in r'.table ensures Projected(sent, pipe', r', taken, id) {
      RouteProjected(sent, pipe, r, taken, id);
    }
    forall id | id > r'.counter ensures NothingEarly(sent, pipe', taken, id) {
      assert NothingEarly(sent, pipe, taken, id);
      assert DataOf(pipe, id) == DataOf(pipe', id);
    }
    forall id: nat ensures ReadInOrder(sent, r', taken, id) {
      assert ReadInOrder(sent, r, taken, id);
      if id in r'.table && id in r'.inbox { ProjectedInOrder(sent, pipe', r', taken, id); }
    }
  }

  // ---------- steps ----------

  lemma ReadStep(e: End, o: End, id: nat)
    requires EndGood(e) && Link(e, o) && Link(o, e) && id in e.core.inbox && e.core.inbox[id] != []
    ensures var unread := e.core.inbox[id];
      var e' := e.(core := e.core.(inbox := e.core.inbox[id := unread[1..]]),
                   taken := e.taken + [Frame(id, Message, unread[0])]);
      EndGood(e') && Link(e', o) && Link(o, e')
  {
    hide Flow, Pipe;
    FlowRead(o.core.counter, o.sent, Pipe(o), e.core, e.taken, id);
    assert forall e': End :: e'.queue == e.queue && e'.wire == e.wire ==> Pipe(e') == Pipe(e) by { SamePipe(e); }
  }

  lemma EndsStep(e: End, o: End, id: nat)
    requires EndGood(e) && Link(e, o) && Link(o, e)
    ensures var e' := e.(core := e.core.(inbox := e.core.inbox - {id}));
      EndGood(e') && Link(e', o) && Link(o, e')
  {
    hide Flow, Pipe;
    FlowEnds(o.core.counter, o.sent, Pipe(o), e.core, e.taken, id);
    SamePipe(e);
  }

  lemma RunningIdsBelow(e: End)
    requires EndGood(e)
    ensures forall id :: id in e.core.inbox ==> 1 <= id <= e.core.counter
  {}

  lemma SamePipe(e: End)
    ensures forall e': End :: e'.queue == e.queue && e'.wire == e.wire ==> Pipe(e') == Pipe(e)
  {}

  lemma QueueStep(e: End, o: End, it: Item)
    requires EndGood(e) && Link(e, o) && Link(o, e)
    requires it.internal
    requires (it.frame.flag == CloseStream && 1 <= it.frame.id <= e.core.counter)
          || (it.frame.flag == NewStream && it.frame.id == 0)
    ensures var e' := e.(queue := e.queue + [it]); EndGood(e') && Link(e', o) && Link(o, e')
  {
    hide Flow;
    PipeQueues(e, it);
    assert Pipe(e) + [] == Pipe(e);
  }

  lemma SayStep(e: End, o: End, f: Frame)
    requires EndGood(e) && Link(e, o) && Link(o, e) && IsData(f.flag) && 1 <= f.id <= e.core.counter
    ensures var e' := e.(queue := e.queue + [Item(false, f)], sent := e.sent + [f]);
      EndGood(e') && Link(e', o) && Link(o, e')
  {
    hide Flow, IsData;
    PipeQueues(e, Item(false, f));
    FlowSay(e.core.counter, e.sent, Pipe(e), o.core, o.taken, f);
    SamePipe(e.(queue := e.queue + [Item(false, f)]));
  }

  lemma PumpFrame(e: End, o: End)
    requires EndGood(e) && Link(e, o) && Link(o, e) && e.queue != [] && !e.queue[0].internal
    ensures var e' := Pumped(e); EndGood(e') && Link(e', o) && Link(o, e')
  {
    var it := e.queue[0];
    PipePumps(e);
    assert it.frame in Pipe(e);
    assert FromOpened(e.core.counter, it.frame) by { FlowFrames(e, o); }
    hide Flow, IsData, Pipe;
    assert OnWire(it.frame) == it.frame;
  }

  lemma PumpedClose(e: End)
    requires EndGood(e) && e.queue != [] && e.queue[0].internal && e.queue[0].frame.flag == CloseStream
    ensures var rest := e.(queue := e.queue[1..]);
      && Pumped(e) == rest.(core := e.core.(table := e.core.table - {e.queue[0].frame.id}))
      && EndGood(Pumped(e)) && Pipe(Pumped(e)) == Pipe(e)
  {
    var rest := e.queue[1..];
    assert rest + [] == rest;
    PipePumps(e);
    hide Pipe;
    SamePipe(e.(queue := rest));
  }

  lemma PumpClose(e: End, o: End)
    requires EndGood(e) && Link(e, o) && Link(o, e) && e.queue != []
    requires e.queue[0].internal && e.queue[0].frame.flag == CloseStream
    ensures var e' := Pumped(e); EndGood(e') && Link(e', o) && Link(o, e')
  {
    PumpedClose(e);
    hide Flow, Pipe, Pumped, EndGood;
    FlowClose(o.core.counter, o.sent, Pipe(o), e.core, e.taken, e.queue[0].frame.id);
  }

  lemma PumpedOpening(e: End)
    requires EndGood(e) && e.queue != [] && Opens(e.queue[0]) && e.core.counter + 1 < ID_LIMIT
    ensures var e', next := Pumped(e), e.core.counter + 1;
      && e'.core == Opened(e.core, next, Task(next, true, Some(e.queue[0].frame.payload)))
      && e' == e.(core := e'.core, queue := e.queue[1..] + [Item(false, Frame(next, NewStream, []))])
      && EndGood(e') && Pipe(e') == Pipe(e) + [Frame(next, NewStream, [])]
  {
    assert Pow256(4) == 0x1_0000_0000;
    assert e.queue[0] in e.queue;
    var rest, reply := e.(queue := e.queue[1..]), Item(false, Frame(e.core.counter + 1, NewStream, []));
    PipePumps(e);
    PipeQueues(rest, reply);
    SamePipe(rest.(queue := rest.queue + [reply]));
    hide Pipe;
  }

  lemma PumpOpening(e: End, o: End)
    requires EndGood(e) && Link(e, o) && Link(o, e) && e.queue != []
    requires Opens(e.queue[0]) && e.core.counter + 1 < ID_LIMIT && NewIds(Pipe(o)) == []
    ensures var e' := Pumped(e); EndGood(e') && Link(e', o) && Link(o, e')
  {
    PumpedOpening(e);
    NoneOnTheirWay(o, e);
    hide Flow, Pipe, Pumped, EndGood, NewIds, Range;
    var t := Task(e.core.counter + 1, true, Some(e.queue[0].frame.payload));
    FlowOpens(e.core.counter, e.sent, Pipe(e), o.core, o.taken);
    FlowStarts(o.core.counter, o.sent, Pipe(o), Pipe(o), e.core, e.taken, t);
  }

  lemma PumpStep(e: End, o: End)
    requires EndGood(e) && EndGood(o) && Link(e, o) && Link(o, e) && e.queue != []
    requires Opens(e.queue[0]) ==> e.core.counter + 1 < ID_LIMIT && NewIds(Pipe(o)) == []
    ensures var e' := Pumped(e); EndGood(e') && Link(e', o) && Link(o, e')
  {
    assert e.queue[0] in e.queue;
    hide Link, Pumped, Pipe, NewIds;
    if !e.queue[0].internal { PumpFrame(e, o); }
    else if Opens(e.queue[0]) { PumpOpening(e, o); }
    else { PumpClose(e, o); }
  }

  lemma FlowFrames(s: End, r: End)
    requires Link(s, r)
    ensures forall f :: f in Pipe(s) ==> FromOpened(s.core.counter, f)
  {}

  lemma NoneOnTheirWay(s: End, r: End)
    requires Link(s, r) && NewIds(Pipe(s)) == []
    ensures s.core.counter <= r.core.counter
    ensures Range(r.core.counter + 2, s.core.counter + 1) == [] && InOrder(Pipe(s))
  {}

  lemma ArrivingFrame(e: End, o: End)
    requires Link(o, e) && o.wire != []
    ensures Pipe(o) != [] && Pipe(o)[0] == o.wire[0] && Pipe(o)[1..] == Pipe(o.(wire := o.wire[1..]))
    ensures FromOpened(o.core.counter, o.wire[0])
  {
    PipeArrives(o);
    FlowFrames(o, e);
    assert o.wire[0] in Pipe(o);
  }

  lemma ReceivedOpening(e: End, f: Frame)
    requires f.flag == NewStream && f.id == e.core.counter + 1
    ensures var e' := Received(e, f);
      && e'.core == Opened(e.core, f.id, Task(f.id, false, None)) && e'.queue == e.queue && e'.wire == e.wire
      && e'.sent == e.sent && e'.taken == e.taken
    ensures EndGood(e) && f.id < ID_LIMIT ==> EndGood(Received(e, f))
  {
    assert e.queue + [] == e.queue;
  }

  lemma ArriveOpening(e: End, o: End)
    requires EndGood(e) && EndGood(o) && Link(e, o) && Link(o, e) && o.wire != [] && o.wire[0].flag == NewStream
    ensures var e', o' := Received(e, o.wire[0]), o.(wire := o.wire[1..]);
      EndGood(e') && Link(e', o') && Link(o', e')
  {
    hide Flow, Received, Pipe, NewIds, InOrder, DataOf, Range;
    var f, o' := o.wire[0], o.(wire := o.wire[1..]);
    ArrivingFrame(e, o);
    OpeningArrives(o, e, f);
    assert o.core.counter < ID_LIMIT;
    hide EndGood;
    ReceivedOpening(e, f);
    SamePipe(e);
    FlowStarts(o.core.counter, o.sent, Pipe(o), Pipe(o'), e.core, e.taken, Task(f.id, false, None));
    FlowCounts(e.core.counter, e.sent, Pipe(e), o.core, o.taken);
  }

  lemma ArriveData(e: End, o: End)
    requires EndGood(e) && Link(e, o) && Link(o, e) && o.wire != [] && IsData(o.wire[0].flag)
    ensures var e', o' := Received(e, o.wire[0]), o.(wire := o.wire[1..]);
      EndGood(e') && Link(e', o') && Link(o', e')
  {
    var f, o' := o.wire[0], o.(wire := o.wire[1..]);
    ArrivingFrame(e, o);
    ReceivedData(e, f);
    SamePipe(e);
    SameCounter(e.core, f);
    hide Received, EndGood, Pipe, Routed;
    FlowRoutes(o.core.counter, o.sent, Pipe(o), e.core, e.taken);
    hide Flow;
  }

  lemma SameCounter(core: Core, f: Frame)
    ensures Routed(core, f).counter == core.counter
  {}

  lemma SameEndGood(e: End, wire: seq<Frame>)
    requires EndGood(e)
    ensures EndGood(e.(wire := wire))
  {}

  // The end `e` handles the oldest frame on the wire of `o`.
  lemma ArriveStep(e: End, o: End)
    requires EndGood(e) && EndGood(o) && Link(e, o) && Link(o, e) && o.wire != []
    ensures var e', o' := Received(e, o.wire[0]), o.(wire := o.wire[1..]);
      EndGood(e') && EndGood(o') && Link(e', o') && Link(o', e')
  {
    ArrivingFrame(e, o);
    hide Link, Received, Pipe, EndGood, Handle;
    SameEndGood(o, o.wire[1..]);
    if o.wire[0].flag == NewStream { ArriveOpening(e, o); } else { ArriveData(e, o); }
  }

  lemma ReceivedData(e: End, f: Frame)
    requires IsData(f.flag)
    ensures var e' := Received(e, f);
      && e'.core == Routed(e.core, f) && e'.queue == e.queue && e'.wire == e.wire
      && e'.sent == e.sent && e'.taken == e.taken
    ensures EndGood(e) ==> EndGood(Received(e, f))
  {
    assert e.queue + [] == e.queue;
  }

  lemma DataIsRouted(core: Core, f: Frame)
    requires IsData(f.flag)
    ensures Handle(core, f) == Sent(core, f) && Handle(core, f).core == Routed(core, f)
  {}

  // The oldest opening on its way is the next one to count.
  lemma OpeningArrives(s: End, r: End, f: Frame)
    requires Link(s, r) && Pipe(s) != [] && Pipe(s)[0] == f && f.flag == NewStream
    ensures f.id == r.core.counter + 1 <= s.core.counter
    ensures NewIds(Pipe(s)[1..]) == Range(r.core.counter + 2, s.core.counter + 1) && InOrder(Pipe(s)[1..])
    ensures forall g :: g in Pipe(s)[1..] ==> g in Pipe(s)
    ensures forall id :: DataOf(Pipe(s)[1..], id) == DataOf(Pipe(s), id)
  {
    var pipe := Pipe(s);
    assert NewIds(pipe) == [f.id] + NewIds(pipe[1..]);
    assert NewIds(pipe)[1..] == NewIds(pipe[1..]);
    assert Range(r.core.counter + 1, s.core.counter + 1)[1..] == Range(r.core.counter + 2, s.core.counter + 1);
    forall i | 0 <= i < |pipe| - 1 ensures pipe[1..][i] == pipe[i + 1] {}
  }

  lemma StepInv(p: Pair, s: Step)
    requires Inv(p) && Enabled(p, s) && InTurn(p, s)
    ensures Inv(Apply(p, s))
  {
    hide EndGood, Link, Pumped, Received;
    var e, o := At(p, s.at), At(p, Other(s.at));
    match s
    case Open(_, proto) => QueueStep(e, o, Item(true, Frame(0, NewStream, proto)));
    case Say(_, id, flag, payload) =>
      assert 1 <= id <= e.core.counter by { RunningIdsBelow(e); }
      SayStep(e, o, Frame(id, flag, payload));
    case Close(_, id) =>
      assert 1 <= id <= e.core.counter by { RunningIdsBelow(e); }
      QueueStep(e, o, Item(true, Frame(id, CloseStream, [])));
    case Read(_, id) => ReadStep(e, o, id);
    case Ends(_, id) => EndsStep(e, o, id);
    case Pump(_) => PumpStep(e, o);
    case Arrive(_) => ArriveStep(e, o);
  }

  lemma TaskIdsBelow(e: End)
    requires EndGood(e)
    ensures forall id :: id in TaskIds(e.core) <==> 1 <= id <= e.core.counter
  {
    forall id | 1 <= id <= e.core.counter ensures id in TaskIds(e.core) {
      assert e.core.tasks[id - 1] in e.core.tasks;
    }
  }

  // ---------- runs ----------

  ghost predicate CanRun(p: Pair, steps: seq<Step>)
    decreases |steps|, 0
  {
    steps == [] || (CanRun(p, steps[..|steps| - 1]) && Enabled(Run(p, steps[..|steps| - 1]), steps[|steps| - 1]))
  }

  ghost function Run(p: Pair, steps: seq<Step>): Pair
    requires CanRun(p, steps)
    decreases |steps|, 1
  {
    if steps == [] then p else Apply(Run(p, steps[..|steps| - 1]), steps[|steps| - 1])
  }

  ghost predicate Orderly(p: Pair, steps: seq<Step>)
    requires CanRun(p, steps)
  {
    steps == [] || (Orderly(p, steps[..|steps| - 1]) && InTurn(Run(p, steps[..|steps| - 1]), steps[|steps| - 1]))
  }

  lemma {:induction false} RunInv(steps: seq<Step>)
    requires CanRun(INITIAL, steps) && Orderly(INITIAL, steps)
    ensures Inv(Run(INITIAL, steps))
  {
    hide Inv, Enabled, Apply;
    if steps == [] {
      StartInv();
    } else {
      RunInv(steps[..|steps| - 1]);
      StepInv(Run(INITIAL, steps[..|steps| - 1]), steps[|steps| - 1]);
    }
  }

  ghost predicate IdsAgree(from: End, to: End) {
    && NewIds(Pipe(from)) == Range(to.core.counter + 1, from.core.counter + 1)
    && (NewIds(Pipe(from)) == [] && NewIds(Pipe(to)) == [] ==> from.core.counter == to.core.counter)
    && |to.core.tasks| == to.core.counter < ID_LIMIT
    && (forall i :: 0 <= i < |to.core.tasks| ==> to.core.tasks[i].id == i + 1)
  }

  // In every orderly run the openings on their way to an end are numbered from its counter up to the other's,
  // the counters agree when none is on its way, and each end starts the streams 1, 2, 3, ... once each.
  lemma IdsAlwaysAgree(steps: seq<Step>, s: Side)
    requires CanRun(INITIAL, steps) && Orderly(INITIAL, steps)
    ensures IdsAgree(At(Run(INITIAL, steps), s), At(Run(INITIAL, steps), Other(s)))
  {
    RunInv(steps);
    LinkedIdsAgree(Run(INITIAL, steps), s);
  }

  lemma LinkedIdsAgree(p: Pair, s: Side)
    requires Inv(p)
    ensures IdsAgree(At(p, s), At(p, Other(s)))
  {
    hide Pipe, Flow;
    var from, to := At(p, s), At(p, Other(s));
    assert Link(from, to) && Link(to, from) && EndGood(to);
    LinkIds(from, to);
    LinkIds(to, from);
  }

  lemma LinkIds(s: End, r: End)
    requires Link(s, r)
    ensures NewIds(Pipe(s)) == Range(r.core.counter + 1, s.core.counter + 1)
    ensures NewIds(Pipe(s)) == [] ==> s.core.counter <= r.core.counter
  {
    hide Pipe;
  }

  // ---------- which streams are open, and which tasks run ----------

  // The stream a step closes at an end: the one named by the close frame it takes off the queue.
  ghost function ClosedBy(p: Pair, s: Step, at: Side): set<nat> {
    var queue := At(p, at).queue;
    if s == Pump(at) && queue != [] && queue[0].internal && queue[0].frame.flag == CloseStream
    then {queue[0].frame.id} else {}
  }

  ghost function Closed(p: Pair, steps: seq<Step>, at: Side): set<nat>
    requires CanRun(p, steps)
  {
    if steps == [] then {}
    else
      var before := steps[..|steps| - 1];
      Closed(p, before, at) + ClosedBy(Run(p, before), steps[|steps| - 1], at)
  }

  function EndedBy(s: Step, at: Side): set<nat> { if s.Ends? && s.at == at then {s.id} else {} }

  function Ended(steps: seq<Step>, at: Side): set<nat> {
    if steps == [] then {} else Ended(steps[..|steps| - 1], at) + EndedBy(steps[|steps| - 1], at)
  }

  // What a step does to counter, table and inboxes of an end.
  ghost predicate CoreMoves(c: Core, c': Core, closed: set<nat>, ended: set<nat>) {
    && (c'.counter == c.counter || c'.counter == c.counter + 1)
    && c'.table == c.table + (if c'.counter == c.counter then {} else {c'.counter}) - closed
    && c'.inbox.Keys == c.inbox.Keys + (if c'.counter == c.counter then {} else {c'.counter}) - ended
    && (forall id :: id in closed || id in ended ==> id <= c.counter)
  }

  lemma PumpMoves(e: End)
    requires EndGood(e) && e.queue != [] && (Opens(e.queue[0]) ==> e.core.counter + 1 < ID_LIMIT)
    ensures var it := e.queue[0];
      CoreMoves(e.core, Pumped(e).core, if it.internal && it.frame.flag == CloseStream then {it.frame.id} else {}, {})
  {
    assert e.queue[0] in e.queue;
    assert Pow256(4) == 0x1_0000_0000;
  }

  lemma ArriveMoves(e: End, o: End)
    requires EndGood(e) && Link(o, e) && o.wire != []
    ensures CoreMoves(e.core, Received(e, o.wire[0]).core, {}, {})
  {
    var f := o.wire[0];
    ArrivingFrame(e, o);
    if f.flag == NewStream { OpeningArrives(o, e, f); }
    hide Link, EndGood, Pipe;
  }

  lemma IdleCore(p: Pair, s: Step, at: Side)
    requires Enabled(p, s) && s.at != at
    ensures At(Apply(p, s), at).core == At(p, at).core && ClosedBy(p, s, at) == {} && EndedBy(s, at) == {}
  {
    hide Pumped, Received;
  }

  lemma TaskMoves(p: Pair, s: Step)
    requires EndGood(At(p, s.at)) && Enabled(p, s) && !s.Pump? && !s.Arrive?
    ensures CoreMoves(At(p, s.at).core, At(Apply(p, s), s.at).core, ClosedBy(p, s, s.at), EndedBy(s, s.at))
  {
    RunningIdsBelow(At(p, s.at));
    hide EndGood, Starts;
    if s.Ends? { assert EndedBy(s, s.at) == {s.id}; }
  }

  lemma StepMoves(p: Pair, s: Step, at: Side)
    requires Inv(p) && Enabled(p, s)
    ensures CoreMoves(At(p, at).core, At(Apply(p, s), at).core, ClosedBy(p, s, at), EndedBy(s, at))
  {
    var e, o := At(p, at), At(p, Other(at));
    assert EndGood(e) && Link(o, e);
    hide Inv, EndGood, Link, Pumped, Received;
    if s.at != at {
      IdleCore(p, s, at);
    } else if s.Pump? {
      PumpMoves(e);
    } else if s.Arrive? {
      ArriveMoves(e, o);
    } else {
      TaskMoves(p, s);
    }
  }

  // The table and the inboxes of an end that has closed these streams and these of whose tasks have ended.
  ghost predicate TablesAre(core: Core, closed: set<nat>, ended: set<nat>) {
    && (forall id :: id in core.table <==> 1 <= id <= core.counter && id !in closed)
    && (forall id :: id in core.inbox <==> 1 <= id <= core.counter && id !in ended)
    && (forall id :: id in closed || id in ended ==> id <= core.counter)
  }

  lemma TablesMove(c: Core, c': Core, closed: set<nat>, ended: set<nat>, closing: set<nat>, ending: set<nat>)
    requires TablesAre(c, closed, ended) && CoreMoves(c, c', closing, ending)
    ensures TablesAre(c', closed + closing, ended + ending)
  {
    forall id ensures id in c'.inbox <==> 1 <= id <= c'.counter && id !in ended + ending {
      assert id in c'.inbox <==> id in c'.inbox.Keys;
    }
  }

  // In every orderly run, at either end: the streams in the table are those it has started and not closed,
  // and the tasks that run are those it has started and that have not ended.
  lemma {:induction false} OpenIsStartedNotClosed(steps: seq<Step>, at: Side)
    requires CanRun(INITIAL, steps) && Orderly(INITIAL, steps)
    ensures TablesAre(At(Run(INITIAL, steps), at).core, Closed(INITIAL, steps, at), Ended(steps, at))
    ensures var core := At(Run(INITIAL, steps), at).core;
      forall id :: id in TaskIds(core) <==> 1 <= id <= core.counter
  {
    hide TablesAre, CoreMoves, Enabled, InTurn, Apply, TaskIds, ClosedBy, EndedBy, EndGood, Link;
    RunInv(steps);
    TaskIdsBelow(At(Run(INITIAL, steps), at));
    hide Inv;
    if steps == [] {
      NothingStarted();
    } else {
      var before, s := steps[..|steps| - 1], steps[|steps| - 1];
      OpenIsStartedNotClosed(before, at);
      RunInv(before);
      var p := Run(INITIAL, before);
      StepMoves(p, s, at);
      TablesMove(At(p, at).core, At(Apply(p, s), at).core, Closed(INITIAL, before, at), Ended(before, at),
                 ClosedBy(p, s, at), EndedBy(s, at));
    }
  }

  lemma NothingStarted()
    ensures TablesAre(START.core, {}, {})
  {}

  // The stream has been started here, and neither closed here nor has its task ended.
  ghost predicate Live(steps: seq<Step>, at: Side, id: nat)
    requires CanRun(INITIAL, steps)
  {
    && id in TaskIds(At(Run(INITIAL, steps), at).core)
    && id !in Closed(INITIAL, steps, at) && id !in Ended(steps, at)
  }

  // In every orderly run, for every stream that is live at an end: what the other end said on it is what
  // was read from it, then what waits in its inbox, then what is on its way.
  lemma InboxIsProjection(steps: seq<Step>, s: Side, id: nat)
    requires CanRun(INITIAL, steps) && Orderly(INITIAL, steps) && Live(steps, Other(s), id)
    ensures var p := Run(INITIAL, steps);
      var from, to := At(p, s), At(p, Other(s));
      && id in to.core.inbox
      && DataOf(from.sent, id) == DataOf(to.taken, id) + to.core.inbox[id] + DataOf(Pipe(from), id)
  {
    OpenIsStartedNotClosed(steps, Other(s));
    RunInv(steps);
    hide DataOf, Run, CanRun, Orderly, Closed, Ended, TaskIds;
    var p := Run(INITIAL, steps);
    assert Projected(At(p, s).sent, Pipe(At(p, s)), At(p, Other(s)).core, At(p, Other(s)).taken, id);
  }

  // And for every stream whatever, what was read, and then its inbox, is what was said first.
  lemma ReadIsFirstSaid(steps: seq<Step>, s: Side, id: nat)
    requires CanRun(INITIAL, steps) && Orderly(INITIAL, steps)
    ensures var p := Run(INITIAL, steps);
      var from, to := At(p, s), At(p, Other(s));
      DataOf(to.taken, id) + Unread(to.core, id) <= DataOf(from.sent, id)
  {
    RunInv(steps);
    hide DataOf;
    var p := Run(INITIAL, steps);
    assert ReadInOrder(At(p, s).sent, At(p, Other(s)).core, At(p, Other(s)).taken, id);
  }

  // What becomes of a data frame taken off the wire: it is dropped if its stream was closed, brings the
  // connection handler down if the task has ended and the stream was not closed, and reaches its inbox
  // otherwise.
  ghost predicate DataHandled(to: End, f: Frame, closed: set<nat>, ended: set<nat>) {
    var to' := Received(to, f);
    if f.id in closed then to' == to
    else if f.id in ended then to' == to.(down := true)
    else
      && f.id in to.core.inbox
      && to' == to.(core := to.core.(inbox := to.core.inbox[f.id := to.core.inbox[f.id] + [f.payload]]))
  }

  // In every orderly run, a data frame taken off the wire is for a stream that was started here, and is
  // dropped, panicked on or handed over according to whether this end has closed the stream and whether its
  // task has ended.
  lemma DataReachesItsTask(steps: seq<Step>, s: Side)
    requires CanRun(INITIAL, steps) && Orderly(INITIAL, steps)
    requires var from := At(Run(INITIAL, steps), s); from.wire != [] && IsData(from.wire[0].flag)
    ensures var p := Run(INITIAL, steps);
      var f, to := At(p, s).wire[0], At(p, Other(s));
      && f.id in TaskIds(to.core)
      && DataHandled(to, f, Closed(INITIAL, steps, Other(s)), Ended(steps, Other(s)))
  {
    hide Closed, Ended, TablesAre, TaskIds, DataHandled;
    RunInv(steps);
    OpenIsStartedNotClosed(steps, Other(s));
    var p := Run(INITIAL, steps);
    hide Run, CanRun, Orderly;
    LinkedHere(p, s);
    hide Inv, Link, EndGood;
    StartedData(At(p, s), At(p, Other(s)));
    StartedIsHandled(At(p, Other(s)), At(p, s).wire[0], Closed(INITIAL, steps, Other(s)), Ended(steps, Other(s)));
  }

  lemma LinkedHere(p: Pair, s: Side)
    requires Inv(p)
    ensures Link(At(p, s), At(p, Other(s))) && EndGood(At(p, Other(s)))
  {}

  lemma StartedIsHandled(to: End, f: Frame, closed: set<nat>, ended: set<nat>)
    requires TablesAre(to.core, closed, ended) && IsData(f.flag) && 1 <= f.id <= to.core.counter
    ensures DataHandled(to, f, closed, ended)
  {
    DataIsRouted(to.core, f);
    assert to.queue + [] == to.queue;
  }

  lemma StartedData(from: End, to: End)
    requires Link(from, to) && EndGood(to) && from.wire != [] && IsData(from.wire[0].flag)
    ensures from.wire[0].id in TaskIds(to.core)
  {
    assert Pipe(from)[0] == from.wire[0];
    DataIsForOpenedStream(from.core.counter, from.sent, Pipe(from), to.core, to.taken);
    TaskIdsBelow(to);
  }

  // ---------- a task that ends ----------

  // One end opens a stream and asks for a protocol; the task of the other ends before the request arrives.
  function EndedTaskSteps(proto: Payload): seq<Step> {
    [Open(West, proto), Pump(West), Pump(West), Arrive(East), Ends(East, 1), Say(West, 1, HandshakeReq, proto),
     Pump(West)]
  }

  // The states they lead through.
  function EndedTaskStates(proto: Payload): seq<Pair> {
    var opening, request := Frame(1, NewStream, []), Frame(1, HandshakeReq, proto);
    var west := START.(core := Core(1, {1}, map[1 := []], None, [Task(1, true, Some(proto))]));
    var east := START.(core := Core(1, {1}, map[1 := []], None, [Task(1, false, None)]));
    var ended := START.(core := Core(1, {1}, map[], None, [Task(1, false, None)]));
    [INITIAL,
     Pair(START.(queue := [Item(true, Frame(0, NewStream, proto))]), START),
     Pair(west.(queue := [Item(false, opening)]), START),
     Pair(west.(wire := [opening]), START),
     Pair(west, east),
     Pair(west, ended),
     Pair(west.(queue := [Item(false, request)], sent := [request]), ended),
     Pair(west.(wire := [request], sent := [request]), ended)]
  }

  lemma EndedTaskOpens(proto: Payload, k: nat)
    requires k < 4
    ensures var p, s, p' := EndedTaskStates(proto)[k], EndedTaskSteps(proto)[k], EndedTaskStates(proto)[k + 1];
      Enabled(p, s) && InTurn(p, s) && Apply(p, s) == p'
  {
    assert Pow256(4) == 0x1_0000_0000;
  }

  lemma EndedTaskAsks(proto: Payload, k: nat)
    requires 4 <= k < 7
    ensures var p, s, p' := EndedTaskStates(proto)[k], EndedTaskSteps(proto)[k], EndedTaskStates(proto)[k + 1];
      Enabled(p, s) && InTurn(p, s) && Apply(p, s) == p'
  {
    var inbox: map<nat, seq<Payload>> := map[1 := []];
    assert inbox - {1} == map[];
  }

  // An orderly run after which the next frame to arrive brings the connection handler down.
  lemma EndedTaskRun(proto: Payload)
    ensures var steps := EndedTaskSteps(proto);
      && CanRun(INITIAL, steps) && Orderly(INITIAL, steps)
      && var p := Run(INITIAL, steps);
         p.west.wire == [Frame(1, HandshakeReq, proto)] && LosesReceiver(p.east.core, p.west.wire[0])
         && Enabled(p, Arrive(East)) && Apply(p, Arrive(East)).east.down
  {
    EndedTaskPrefix(proto, 7);
    assert EndedTaskSteps(proto)[..7] == EndedTaskSteps(proto);
    hide Run, CanRun, Orderly, EndedTaskSteps;
    EndedTaskLast(proto);
  }

  lemma EndedTaskLast(proto: Payload)
    ensures var p := EndedTaskStates(proto)[7];
      && p.west.wire == [Frame(1, HandshakeReq, proto)] && LosesReceiver(p.east.core, p.west.wire[0])
      && Enabled(p, Arrive(East)) && Apply(p, Arrive(East)).east.down
  {}

  lemma {:induction false} EndedTaskPrefix(proto: Payload, k: nat)
    requires k <= 7
    ensures var steps := EndedTaskSteps(proto)[..k];
      CanRun(INITIAL, steps) && Orderly(INITIAL, steps) && Run(INITIAL, steps) == EndedTaskStates(proto)[k]
  {
    if k > 0 {
      EndedTaskPrefix(proto, k - 1);
      if k <= 4 { EndedTaskOpens(proto, k - 1); } else { EndedTaskAsks(proto, k - 1); }
      hide Enabled, InTurn, Apply;
      assert EndedTaskSteps(proto)[..k][..k - 1] == EndedTaskSteps(proto)[..k - 1];
    }
  }

  // ---------- why the discipline and the limit ----------

  // An opening gets an id that the other end does not use exactly when none of the other end is on its
  // way.
  lemma OpeningIsFreshIff(e: End, o: End)
    requires EndGood(e) && EndGood(o) && Link(e, o) && Link(o, e)
    requires e.queue != [] && Opens(e.queue[0]) && e.core.counter + 1 < ID_LIMIT
    ensures Pumped(e).core.counter !in TaskIds(o.core) <==> NewIds(Pipe(o)) == []
  {
    hide Link;
    PumpedCounts(e);
    TaskIdsBelow(o);
    LinkIds(o, e);
    hide EndGood, Pipe, NewIds, TaskIds, Pumped;
    assert Range(e.core.counter + 1, o.core.counter + 1) == [] <==> o.core.counter <= e.core.counter;
  }

  lemma PumpedCounts(e: End)
    requires EndGood(e) && e.queue != [] && Opens(e.queue[0]) && e.core.counter + 1 < ID_LIMIT
    ensures Pumped(e).core.counter == e.core.counter + 1
  {
    assert e.queue[0] in e.queue;
    assert Pow256(4) == 0x1_0000_0000;
  }

  // The step, if it opens a stream, gives it an id that neither end has used.
  ghost predicate OpensFresh(p: Pair, s: Step)
    requires Enabled(p, s)
  {
    Starts(p, s) ==>
      var id := At(Apply(p, s), s.at).core.counter;
      id !in TaskIds(p.west.core) && id !in TaskIds(p.east.core)
  }

  ghost predicate AllOpenFresh(p: Pair, steps: seq<Step>)
    requires CanRun(p, steps)
  {
    steps == []
    || (AllOpenFresh(p, steps[..|steps| - 1]) && OpensFresh(Run(p, steps[..|steps| - 1]), steps[|steps| - 1]))
  }

  lemma StepOpensFreshIff(p: Pair, s: Step)
    requires Inv(p) && Enabled(p, s)
    ensures OpensFresh(p, s) <==> InTurn(p, s)
  {
    if Starts(p, s) {
      hide Link, EndGood, Pipe, NewIds;
      var e, o := At(p, s.at), At(p, Other(s.at));
      assert Apply(p, s) == With(p, s.at, Pumped(e));
      OpeningIsFreshIff(e, o);
      TaskIdsBelow(e);
      PumpedCounts(e);
    }
  }

  // In every run, all openings get fresh ids exactly when each was made in turn.
  lemma {:induction false} OpeningsFreshIffOrderly(steps: seq<Step>)
    requires CanRun(INITIAL, steps)
    ensures AllOpenFresh(INITIAL, steps) <==> Orderly(INITIAL, steps)
  {
    hide Enabled, Apply, Inv, OpensFresh, InTurn;
    if steps != [] {
      var before := steps[..|steps| - 1];
      OpeningsFreshIffOrderly(before);
      if Orderly(INITIAL, before) {
        RunInv(before);
        StepOpensFreshIff(Run(INITIAL, before), steps[|steps| - 1]);
      }
    }
  }

  // A run that is not: two ends that open at once pick the same id, and each then starts it a second time.
  lemma SimultaneousOpensCollide(proto: Payload)
    ensures var e := Pumped(START.(queue := [Item(true, Frame(0, NewStream, proto))]));
      && Pipe(e) == [Frame(1, NewStream, [])]
      && Received(e, Frame(1, NewStream, [])).core.tasks == [Task(1, true, Some(proto)), Task(1, false, None)]
  {
    var e := Pumped(START.(queue := [Item(true, Frame(0, NewStream, proto))]));
    assert Pow256(4) == 0x1_0000_0000;
    assert e.queue == [Item(false, Frame(1, NewStream, []))];
    assert WireFrames(e.queue) == [Frame(1, NewStream, [])] + WireFrames([]);
  }

  // An opening arrives as a request to open exactly when its id is a multiple of 2^29.
  lemma OpeningMisreadIff(core: Core, id: nat)
    ensures Handle(core, OnWire(Frame(id, NewStream, []))).reply.Some? <==> id % ID_LIMIT == 0
  {}
}
