/**
 Two connections over bytes. Each step does to the byte queues what the stream tasks and the connection
 handlers do; what a handler writes goes out with its length in front, and the other reads it off a stream
 of bytes, in short reads of any size (`TcpFraming.TcpConn.RecvMsg` is `Recv` however they fall).

 Runs over bytes and runs over the frames of `MplexPair` are the same runs.
 */
module MplexBytes {
  import opened Bytes
  import opened MplexConn
  import opened MplexHeaders
  import opened MplexPair
  import Tcp = TcpFraming
  import opened Wrappers

  // `wire` is what the socket of the other end has not been read of; `sent` and `taken` are histories.
  datatype ByteEnd = ByteEnd(conn: Conn, wire: seq<byte>, sent: seq<Frame>, taken: seq<Frame>)

  datatype BytePair = BytePair(west: ByteEnd, east: ByteEnd)

  function ByteAt(b: BytePair, s: Side): ByteEnd { if s == West then b.west else b.east }

  function ByteWith(b: BytePair, s: Side, e: ByteEnd): BytePair {
    if s == West then b.(west := e) else b.(east := e)
  }

  function Queued(e: ByteEnd, data: seq<byte>): ByteEnd {
    e.(conn := e.conn.(queue := e.conn.queue + [data]))
  }

  predicate OpensBytes(data: seq<byte>) {
    StartsWith(data, INTERNAL) && match ParseFrame(data[|INTERNAL|..])
                                  case Ok(f) => f.flag == NewStream
                                  case Err(_) => false
  }

  predicate ByteStarts(b: BytePair, s: Step) {
    s.Pump? && ByteAt(b, s.at).conn.queue != [] && OpensBytes(ByteAt(b, s.at).conn.queue[0])
  }

  // A payload length has 64 bits, and the length of a frame on the wire 32.
  predicate Short(s: Step) {
    match s
    case Open(_, proto) => |proto| < Pow256(8)
    case Say(_, id, flag, payload) => |BuildFrame(Frame(id, flag, payload))| < U32_LIMIT
    case _ => true
  }

  predicate ByteEnabled(b: BytePair, s: Step) {
    var c, o := ByteAt(b, s.at).conn, ByteAt(b, Other(s.at));
    && Short(s)
    && match s
       case Open(_, _) => !c.down
       case Say(_, id, flag, _) => !c.down && id in c.core.inbox && IsData(flag)
       case Close(_, id) => !c.down && id in c.core.inbox
       case Read(_, id) => id in c.core.inbox && c.core.inbox[id] != []
       case Ends(_, id) => id in c.core.inbox
       case Pump(_) =>
         !c.down && !o.conn.down && c.queue != [] && (ByteStarts(b, s) ==> c.core.counter + 1 < ID_LIMIT)
       case Arrive(_) => !c.down && !o.conn.down && Tcp.Recv(o.wire).0.Ok?
  }

  // What the connection handler does with the next entry of its queue, or the next message it reads.
  function Outcome(b: BytePair, s: Step): (Conn, Result<bool, Error>)
    requires ByteEnabled(b, s) && (s.Pump? || s.Arrive?)
  {
    var c := ByteAt(b, s.at).conn;
    if s.Pump? then Dispatch(c) else Accept(c, Tcp.Recv(ByteAt(b, Other(s.at)).wire).0.value)
  }

  // The handler's new state, with what it has written on the wire.
  function Handling(e: ByteEnd, c: Conn): ByteEnd {
    var done := |e.conn.written|;
    e.(conn := c, wire := e.wire + if done <= |c.written| then Tcp.Stream(c.written[done..]) else [])
  }

  function ByteApply(b: BytePair, s: Step): BytePair
    requires ByteEnabled(b, s)
  {
    var e, o := ByteAt(b, s.at), ByteAt(b, Other(s.at));
    match s
    case Open(_, proto) => ByteWith(b, s.at, Queued(e, Marked(Frame(0, NewStream, proto))))
    case Say(_, id, flag, payload) =>
      var f := Frame(id, flag, payload);
      ByteWith(b, s.at, Queued(e, BuildFrame(f)).(sent := e.sent + [f]))
    case Close(_, id) => ByteWith(b, s.at, Queued(e, Marked(Frame(id, CloseStream, []))))
    case Read(_, id) =>
      var unread := e.conn.core.inbox[id];
      var core := e.conn.core.(inbox := e.conn.core.inbox[id := unread[1..]]);
      ByteWith(b, s.at, e.(conn := e.conn.(core := core), taken := e.taken + [Frame(id, Message, unread[0])]))
    case Ends(_, id) =>
      var core := e.conn.core.(inbox := e.conn.core.inbox - {id});
      ByteWith(b, s.at, e.(conn := e.conn.(core := core)))
    case Pump(_) => ByteWith(b, s.at, Handling(e, Outcome(b, s).0))
    case Arrive(_) =>
      ByteWith(ByteWith(b, s.at, Handling(e, Outcome(b, s).0)), Other(s.at), o.(wire := Tcp.Recv(o.wire).1))
  }

  // The frames on their way to the other end.
  function FramesOf(list: seq<seq<byte>>): seq<Frame> {
    if list == [] then []
    else (if StartsWith(list[0], INTERNAL) then [] else Parsed(list[0])) + FramesOf(list[1..])
  }

  function Parsed(data: seq<byte>): seq<Frame> {
    match ParseFrame(data)
    case Ok(f) => [f]
    case Err(_) => []
  }

  function BytePipe(b: ByteEnd): seq<Frame> { FramesOf(Tcp.Messages(b.wire)) + FramesOf(b.conn.queue) }

  predicate ByteInTurn(b: BytePair, s: Step) {
    ByteStarts(b, s) ==> NewIds(BytePipe(ByteAt(b, Other(s.at)))) == []
  }

  // The message to arrive is data for a stream in the table whose task has ended.
  predicate ArrivesTooLate(b: BytePair, s: Step)
    requires ByteEnabled(b, s)
  {
    s.Arrive? && match ParseFrame(Tcp.Recv(ByteAt(b, Other(s.at)).wire).0.value)
                 case Ok(f) => LosesReceiver(ByteAt(b, s.at).conn.core, f)
                 case Err(_) => false
  }

  // ---------- bytes stand for frames ----------

  function ItemBytes(it: Item): seq<byte> { if it.internal then Marked(it.frame) else BuildFrame(it.frame) }

  ghost predicate SoundItem(it: Item) {
    && it.frame.id < ID_LIMIT && |it.frame.payload| < Pow256(8)
    && (!it.internal ==> !LooksInternal(it.frame) && |BuildFrame(it.frame)| < U32_LIMIT)
  }

  ghost predicate QueueCarries(queue: seq<seq<byte>>, items: seq<Item>) {
    |queue| == |items| && forall i :: 0 <= i < |items| ==> queue[i] == ItemBytes(items[i]) && SoundItem(items[i])
  }

  ghost predicate Carried(data: seq<byte>, f: Frame) {
    ParseFrame(data) == Ok(f) && f.id < ID_LIMIT && !StartsWith(data, INTERNAL)
  }

  ghost predicate WireCarries(wire: seq<byte>, frames: seq<Frame>) {
    var msgs := Tcp.Messages(wire);
    && Tcp.Stream(msgs) == wire && Tcp.Fit(msgs) && |msgs| == |frames|
    && forall i :: 0 <= i < |frames| ==> Carried(msgs[i], frames[i])
  }

  ghost predicate Carries(b: ByteEnd, e: End) {
    && b.conn.core == e.core && b.conn.down == e.down && b.sent == e.sent && b.taken == e.taken
    && QueueCarries(b.conn.queue, e.queue) && WireCarries(b.wire, e.wire)
  }

  // What the bytes of a sound queue entry are taken for.
  lemma ItemIsRead(it: Item)
    requires SoundItem(it)
    ensures var data := ItemBytes(it);
      if it.internal then StartsWith(data, INTERNAL) && ParseFrame(data[|INTERNAL|..]) == Ok(it.frame)
      else Carried(data, it.frame) && |data| < U32_LIMIT
  {
    hide ParseFrame, BuildFrame, StartsWith, LooksInternal, Marked;
    FrameIsParsed(it.frame);
    if it.internal { MarkedIsStripped(it.frame); } else { MistakenForInternalIff(it.frame); }
  }

  lemma FrameIsParsed(f: Frame)
    requires f.id < ID_LIMIT && |f.payload| < Pow256(8)
    ensures ParseFrame(BuildFrame(f)) == Ok(f)
  {
    hide ParseFrame, BuildFrame;
    FrameRoundTrip(f, []);
    assert BuildFrame(f) + [] == BuildFrame(f);
  }

  lemma MarkedIsStripped(f: Frame)
    ensures StartsWith(Marked(f), INTERNAL) && Marked(f)[|INTERNAL|..] == BuildFrame(f)
  {
    hide BuildFrame;
  }

  lemma Requeued(b: ByteEnd, e: End, it: Item)
    requires Carries(b, e) && SoundItem(it)
    ensures Carries(Queued(b, ItemBytes(it)), e.(queue := e.queue + [it]))
  {
    hide ItemBytes, SoundItem, WireCarries;
  }

  // ---------- the wire ----------

  lemma {:induction false} StreamAppend(msgs: seq<Tcp.Msg>, msg: Tcp.Msg)
    ensures Tcp.Stream(msgs + [msg]) == Tcp.Stream(msgs) + Tcp.Framed(msg)
  {
    if msgs == [] {
      assert [] + [msg] == [msg] && [msg][1..] == [];
    } else {
      assert (msgs + [msg])[1..] == msgs[1..] + [msg];
      StreamAppend(msgs[1..], msg);
    }
  }

  lemma StreamGrows(msgs: seq<Tcp.Msg>, msg: Tcp.Msg)
    requires Tcp.Fit(msgs) && |msg| < U32_LIMIT
    ensures var wire := Tcp.Stream(msgs) + Tcp.Stream([msg]);
      Tcp.Stream(msgs + [msg]) == wire && Tcp.Messages(wire) == msgs + [msg] && Tcp.Fit(msgs + [msg])
  {
    assert [msg][1..] == [] && Tcp.Stream([msg]) == Tcp.Framed(msg) + Tcp.Stream([]);
    hide Tcp.Framed, Tcp.Messages;
    StreamAppend(msgs, msg);
    Tcp.AllReceived(msgs + [msg]);
  }

  lemma WireWrites(wire: seq<byte>, frames: seq<Frame>, data: seq<byte>, f: Frame)
    requires WireCarries(wire, frames) && Carried(data, f) && |data| < U32_LIMIT
    ensures WireCarries(wire + Tcp.Stream([data]), frames + [f])
  {
    hide Tcp.Stream, Tcp.Messages, Tcp.Fit, Carried;
    StreamGrows(Tcp.Messages(wire), data);
  }

  // However the bytes fall into reads, what arrives next is the oldest message written.
  lemma WireReads(wire: seq<byte>, frames: seq<Frame>)
    requires WireCarries(wire, frames)
    ensures Tcp.Recv(wire).0.Ok? <==> frames != []
    ensures frames != [] ==> Carried(Tcp.Recv(wire).0.value, frames[0]) && WireCarries(Tcp.Recv(wire).1, frames[1..])
  {
    hide Tcp.Framed, Carried;
    var msgs := Tcp.Messages(wire);
    if msgs == [] {
      Tcp.EmptyStream();
    } else {
      Tcp.ReceivedIff(msgs[0], Tcp.Stream(msgs[1..]));
      Tcp.AllReceived(msgs[1..]);
    }
  }

  lemma NothingWritten(b: ByteEnd, c: Conn)
    requires c.written == b.conn.written
    ensures Handling(b, c) == b.(conn := c)
  {
    assert b.wire + Tcp.Stream([]) == b.wire;
  }

  // ---------- what the connection handlers do ----------

  // Handling the bytes of a frame is handling the frame.
  lemma BytesReceived(b: ByteEnd, e: End, data: seq<byte>, f: Frame, ends: bool)
    requires Carries(b, e) && ParseFrame(data) == Ok(f) && f.id < ID_LIMIT
    requires f.flag == NewStream && f.id == 0 ==> e.core.counter + 1 < ID_LIMIT
    ensures var (c, live) := HandleIncoming(b.conn, data);
      && Carries(b.(conn := c.(down := e.down || ends)), Took(e, Handle(e.core, f), ends))
      && live == Handle(e.core, f).live && c.written == b.conn.written
  {
    ReplyOf(e.core, f);
    var h := Handle(e.core, f);
    hide ParseFrame, ItemBytes, SoundItem, WireCarries, Handle, BuildFrame;
    if h.reply.Some? {
      var it := Item(false, h.reply.value);
      ReplyIsSound(h.reply.value);
      Requeued(b.(conn := b.conn.(core := h.core)), e.(core := h.core), it);
    } else {
      assert b.conn.queue + [] == b.conn.queue && e.queue + [] == e.queue;
    }
  }

  lemma ReplyOf(core: Core, f: Frame)
    requires f.flag == NewStream && f.id == 0 ==> core.counter + 1 < ID_LIMIT
    ensures var reply := Handle(core, f).reply; reply.Some? ==> reply.value.id < ID_LIMIT && reply.value.payload == []
  {
    assert Pow256(4) == 0x1_0000_0000;
  }

  lemma ReplyIsSound(f: Frame)
    requires f.id < ID_LIMIT && f.payload == []
    ensures SoundItem(Item(false, f)) && ItemBytes(Item(false, f)) == BuildFrame(f)
  {
    assert Pow256(8) > 0;
    EmptyFrameIsShort(f.id, f.flag);
  }

  lemma QueuePops(b: ByteEnd, e: End)
    requires Carries(b, e) && e.queue != []
    ensures b.conn.queue != [] && b.conn.queue[0] == ItemBytes(e.queue[0]) && SoundItem(e.queue[0])
    ensures Carries(b.(conn := b.conn.(queue := b.conn.queue[1..])), e.(queue := e.queue[1..]))
  {
    hide ItemBytes, SoundItem, WireCarries;
  }

  // The connection handler takes an entry to be internal or not as it was queued, and writes out bytes
  // that parse to the frame put on the wire.
  lemma MarkedPumped(b: ByteEnd, e: End)
    requires Carries(b, e) && e.queue != [] && e.queue[0].internal
    requires Opens(e.queue[0]) ==> e.core.counter + 1 < ID_LIMIT
    ensures var (c, live) := Dispatch(b.conn);
      Carries(Handling(b, c), Pumped(e)) && live == Handle(e.core, e.queue[0].frame).live
  {
    var it, data := e.queue[0], b.conn.queue[0];
    QueuePops(b, e);
    ItemIsRead(it);
    assert it.frame.id < ID_LIMIT;
    hide ItemBytes, SoundItem, ParseFrame, Carries, Handle;
    var b0, e0 := b.(conn := b.conn.(queue := b.conn.queue[1..])), e.(queue := e.queue[1..]);
    SameCore(b, e);
    BytesReceived(b0, e0, data[|INTERNAL|..], it.frame, Handle(e.core, it.frame).live != Ok(true));
    NothingWritten(b, Dispatch(b.conn).0);
  }

  lemma FramePumped(b: ByteEnd, e: End)
    requires Carries(b, e) && e.queue != [] && !e.queue[0].internal
    ensures var (c, live) := Dispatch(b.conn); Carries(Handling(b, c), Pumped(e)) && live == Ok(true)
  {
    hide ItemBytes, SoundItem, ParseFrame, Carries, StartsWith;
    QueuePops(b, e);
    var it, data := e.queue[0], b.conn.queue[0];
    ItemIsRead(it);
    assert SoundItem(it) ==> OnWire(it.frame) == it.frame by { SoundOnWire(it); }
    var b0, e0 := b.(conn := b.conn.(queue := b.conn.queue[1..])), e.(queue := e.queue[1..]);
    WriteCarried(b0, e0, data, it.frame);
    hide Handling;
    assert Dispatch(b.conn).0 == b0.conn.(written := b.conn.written + [data]);
    Wrote(b, Dispatch(b.conn).0, data);
  }

  lemma SoundOnWire(it: Item)
    ensures SoundItem(it) ==> OnWire(it.frame) == it.frame
  {}

  lemma WriteCarried(b: ByteEnd, e: End, data: seq<byte>, f: Frame)
    requires Carries(b, e) && Carried(data, f) && |data| < U32_LIMIT
    ensures var c := b.conn.(written := b.conn.written + [data]);
      Carries(b.(conn := c, wire := b.wire + Tcp.Stream([data])), e.(wire := e.wire + [f]))
  {
    hide WireCarries, QueueCarries, Carried, Tcp.Stream;
    WireWrites(b.wire, e.wire, data, f);
  }

  lemma Wrote(b: ByteEnd, c: Conn, data: seq<byte>)
    requires c.written == b.conn.written + [data]
    ensures Handling(b, c) == b.(conn := c, wire := b.wire + Tcp.Stream([data]))
  {
    hide Tcp.Stream;
    assert c.written[|b.conn.written|..] == [data];
  }

  // ---------- what is on its way ----------

  lemma {:induction false} QueueFrames(queue: seq<seq<byte>>, items: seq<Item>)
    requires QueueCarries(queue, items)
    ensures FramesOf(queue) == WireFrames(items)
  {
    if items != [] {
      ItemIsRead(items[0]);
      hide ItemBytes, SoundItem, ParseFrame;
      QueueFrames(queue[1..], items[1..]);
    }
  }

  lemma {:induction false} CarriedFrames(msgs: seq<seq<byte>>, frames: seq<Frame>)
    requires |msgs| == |frames| && forall i :: 0 <= i < |frames| ==> Carried(msgs[i], frames[i])
    ensures FramesOf(msgs) == frames
  {
    if frames != [] {
      assert Carried(msgs[0], frames[0]);
      CarriedFrames(msgs[1..], frames[1..]);
      assert frames == [frames[0]] + frames[1..];
    }
  }

  // The same frames are on their way.
  lemma SamePipes(b: ByteEnd, e: End)
    requires Carries(b, e)
    ensures BytePipe(b) == Pipe(e)
  {
    QueueFrames(b.conn.queue, e.queue);
    CarriedFrames(Tcp.Messages(b.wire), e.wire);
  }

  // ---------- steps ----------

  ghost predicate Alike(b: BytePair, p: Pair) { Carries(b.west, p.west) && Carries(b.east, p.east) }

  lemma AlikeAt(b: BytePair, p: Pair, s: Side)
    requires Alike(b, p)
    ensures Carries(ByteAt(b, s), At(p, s))
  {}

  lemma SameStarts(b: BytePair, p: Pair, s: Step)
    requires Alike(b, p)
    ensures ByteStarts(b, s) <==> Starts(p, s)
  {
    AlikeAt(b, p, s.at);
    hide ParseFrame, WireCarries;
    var e := At(p, s.at);
    if s.Pump? && e.queue != [] {
      assert ByteAt(b, s.at).conn.queue[0] == ItemBytes(e.queue[0]);
      ItemIsRead(e.queue[0]);
    }
  }

  // A step can be taken over bytes exactly when it can over frames and its lengths fit, in turn or not
  // alike.
  lemma EnabledAlike(b: BytePair, p: Pair, s: Step)
    requires Alike(b, p)
    ensures ByteEnabled(b, s) <==> Enabled(p, s) && Short(s)
    ensures ByteInTurn(b, s) <==> InTurn(p, s)
  {
    AlikeAt(b, p, s.at);
    AlikeAt(b, p, Other(s.at));
    SamePipes(ByteAt(b, Other(s.at)), At(p, Other(s.at)));
    SameStarts(b, p, s);
    WireReads(ByteAt(b, Other(s.at)).wire, At(p, Other(s.at)).wire);
    hide Alike, ByteStarts, Starts, QueueCarries, WireCarries, BytePipe, Tcp.Recv, Short;
    assert |ByteAt(b, s.at).conn.queue| == |At(p, s.at).queue| by { SameQueueLength(ByteAt(b, s.at), At(p, s.at)); }
  }

  lemma SameQueueLength(b: ByteEnd, e: End)
    requires Carries(b, e)
    ensures |b.conn.queue| == |e.queue|
  {}

  lemma SayCarried(b: ByteEnd, e: End, f: Frame)
    requires Carries(b, e) && EndGood(e) && f.id in e.core.inbox && IsData(f.flag) && |BuildFrame(f)| < U32_LIMIT
    ensures Carries(Queued(b, BuildFrame(f)).(sent := b.sent + [f]),
                    e.(queue := e.queue + [Item(false, f)], sent := e.sent + [f]))
  {
    PayloadFits(f);
    hide WireCarries, QueueCarries, BuildFrame;
    Requeued(b, e, Item(false, f));
  }

  lemma PayloadFits(f: Frame)
    requires |BuildFrame(f)| < U32_LIMIT
    ensures |f.payload| < Pow256(8)
  {
    assert Pow256(8) == 0x1_0000_0000_0000_0000;
  }

  lemma CloseCarried(b: ByteEnd, e: End, id: nat)
    requires Carries(b, e) && EndGood(e) && id in e.core.inbox
    ensures var f := Frame(id, CloseStream, []);
      Carries(Queued(b, Marked(f)), e.(queue := e.queue + [Item(true, f)]))
  {
    Requeued(b, e, Item(true, Frame(id, CloseStream, [])));
  }

  lemma OpenCarried(b: ByteEnd, e: End, proto: Payload)
    requires Carries(b, e) && |proto| < Pow256(8)
    ensures var f := Frame(0, NewStream, proto);
      Carries(Queued(b, Marked(f)), e.(queue := e.queue + [Item(true, f)]))
  {
    Requeued(b, e, Item(true, Frame(0, NewStream, proto)));
  }

  lemma CoreCarried(b: ByteEnd, e: End, core: Core, heard: seq<Frame>)
    requires Carries(b, e)
    ensures Carries(b.(conn := b.conn.(core := core), taken := b.taken + heard),
                    e.(core := core, taken := e.taken + heard))
  {}

  lemma SameCore(b: ByteEnd, e: End)
    requires Carries(b, e)
    ensures b.conn.core == e.core && b.sent == e.sent && b.taken == e.taken && b.conn.down == e.down
  {}

  // An entry of the queue never ends the connection.
  lemma PumpCarried(b: ByteEnd, e: End)
    requires Carries(b, e) && EndGood(e) && e.queue != [] && (Opens(e.queue[0]) ==> e.core.counter + 1 < ID_LIMIT)
    ensures var (c, live) := Dispatch(b.conn); Carries(Handling(b, c), Pumped(e)) && live == Ok(true)
  {
    assert e.queue[0] in e.queue;
    hide Carries, Dispatch, Handling;
    if e.queue[0].internal { MarkedPumped(b, e); } else { FramePumped(b, e); }
  }

  // A message off the wire ends it when it comes too late for its task, and only then.
  lemma ArriveCarried(b: ByteEnd, e: End, bo: ByteEnd, o: End)
    requires Carries(b, e) && Carries(bo, o) && Link(o, e) && o.wire != []
    ensures Tcp.Recv(bo.wire).0.Ok? && ParseFrame(Tcp.Recv(bo.wire).0.value) == Ok(o.wire[0])
    ensures var (c, live) := Accept(b.conn, Tcp.Recv(bo.wire).0.value);
      && Carries(Handling(b, c), Received(e, o.wire[0]))
      && live == if LosesReceiver(e.core, o.wire[0]) then Err(Panicked) else Ok(true)
    ensures Carries(bo.(wire := Tcp.Recv(bo.wire).1), o.(wire := o.wire[1..]))
  {
    var f := o.wire[0];
    PipeArrives(o);
    assert FromOpened(o.core.counter, f) by {
      FlowFrames(o, e);
      assert f in Pipe(o);
    }
    hide Link, ParseFrame, QueueCarries, WireCarries, Tcp.Recv;
    WireReads(bo.wire, o.wire);
    BytesAccepted(b, e, Tcp.Recv(bo.wire).0.value, f);
  }

  lemma LiveOf(core: Core, f: Frame)
    requires f.flag == NewStream || IsData(f.flag)
    ensures Handle(core, f).live == if LosesReceiver(core, f) then Err(Panicked) else Ok(true)
  {}

  lemma BytesAccepted(b: ByteEnd, e: End, data: seq<byte>, f: Frame)
    requires Carries(b, e) && Carried(data, f) && f.id != 0 && (f.flag == NewStream || IsData(f.flag))
    ensures ParseFrame(data) == Ok(f)
    ensures var (c, live) := Accept(b.conn, data);
      && Carries(Handling(b, c), Received(e, f))
      && live == if LosesReceiver(e.core, f) then Err(Panicked) else Ok(true)
  {
    SameCore(b, e);
    LiveOf(e.core, f);
    hide ParseFrame, Carries, Handle, Handling, StartsWith, LosesReceiver, HandleIncoming, Took;
    BytesReceived(b, e, data, f, Handle(e.core, f).live.Err?);
    NothingWritten(b, Accept(b.conn, data).0);
  }

  lemma QueueingAlike(b: BytePair, p: Pair, s: Step)
    requires Alike(b, p) && Inv(p) && ByteEnabled(b, s) && Enabled(p, s) && (s.Open? || s.Say? || s.Close?)
    ensures Alike(ByteApply(b, s), Apply(p, s))
  {
    AlikeAt(b, p, s.at);
    var be, e := ByteAt(b, s.at), At(p, s.at);
    SameCore(be, e);
    assert EndGood(e);
    hide Inv, EndGood, ByteStarts, Starts, Carries, Queued, Marked, BuildFrame, IsData;
    match s
    case Open(_, proto) => OpenCarried(be, e, proto);
    case Say(_, id, flag, payload) => SayCarried(be, e, Frame(id, flag, payload));
    case Close(_, id) => CloseCarried(be, e, id);
  }

  lemma InboxAlike(b: BytePair, p: Pair, s: Step)
    requires Alike(b, p) && ByteEnabled(b, s) && Enabled(p, s) && (s.Read? || s.Ends?)
    ensures Alike(ByteApply(b, s), Apply(p, s))
  {
    AlikeAt(b, p, s.at);
    var be, e := ByteAt(b, s.at), At(p, s.at);
    SameCore(be, e);
    hide ByteStarts, Starts, Carries;
    match s
    case Read(_, id) =>
      var unread := e.core.inbox[id];
      CoreCarried(be, e, e.core.(inbox := e.core.inbox[id := unread[1..]]), [Frame(id, Message, unread[0])]);
    case Ends(_, id) => EndsCarried(be, e, e.core.(inbox := e.core.inbox - {id}));
  }

  // Over bytes a step does what it does over frames. A connection handler panics when a message arrives
  // too late, and has no other way to fail.
  lemma StepAlike(b: BytePair, p: Pair, s: Step)
    requires Alike(b, p) && Inv(p) && ByteEnabled(b, s) && Enabled(p, s)
    ensures Alike(ByteApply(b, s), Apply(p, s))
    ensures s.Pump? || s.Arrive? ==> Outcome(b, s).1 == if ArrivesTooLate(b, s) then Err(Panicked) else Ok(true)
  {
    AlikeAt(b, p, s.at);
    AlikeAt(b, p, Other(s.at));
    var be, bo, e, o := ByteAt(b, s.at), ByteAt(b, Other(s.at)), At(p, s.at), At(p, Other(s.at));
    SameCore(be, e);
    assert EndGood(e) && EndGood(o) && Link(o, e);
    hide Inv, EndGood, Link, Dispatch, Accept, Handling, Pumped, Received, ByteStarts, Starts, Tcp.Recv, ParseFrame;
    hide Carries, LosesReceiver;
    match s
    case Pump(_) => PumpCarried(be, e);
    case Arrive(_) => ArriveCarried(be, e, bo, o);
    case Read(_, _) => InboxAlike(b, p, s);
    case Ends(_, _) => InboxAlike(b, p, s);
    case _ => QueueingAlike(b, p, s);
  }

  lemma EndsCarried(b: ByteEnd, e: End, core: Core)
    requires Carries(b, e)
    ensures Carries(b.(conn := b.conn.(core := core)), e.(core := core))
  {}

  // ---------- runs ----------

  const BYTE_START := ByteEnd(Conn(Core(0, {}, map[], None, []), [], [], false), [], [], [])

  const BYTE_INITIAL := BytePair(BYTE_START, BYTE_START)

  ghost predicate ByteCanRun(b: BytePair, steps: seq<Step>)
    decreases |steps|, 0
  {
    steps == []
    || (ByteCanRun(b, steps[..|steps| - 1]) && ByteEnabled(ByteRun(b, steps[..|steps| - 1]), steps[|steps| - 1]))
  }

  ghost function ByteRun(b: BytePair, steps: seq<Step>): BytePair
    requires ByteCanRun(b, steps)
    decreases |steps|, 1
  {
    if steps == [] then b else ByteApply(ByteRun(b, steps[..|steps| - 1]), steps[|steps| - 1])
  }

  ghost predicate ByteOrderly(b: BytePair, steps: seq<Step>)
    requires ByteCanRun(b, steps)
  {
    steps == []
    || (ByteOrderly(b, steps[..|steps| - 1]) && ByteInTurn(ByteRun(b, steps[..|steps| - 1]), steps[|steps| - 1]))
  }

  ghost predicate OrderlyBytes(steps: seq<Step>) {
    ByteCanRun(BYTE_INITIAL, steps) && ByteOrderly(BYTE_INITIAL, steps)
  }

  ghost predicate OrderlyFrames(steps: seq<Step>) {
    CanRun(INITIAL, steps) && Orderly(INITIAL, steps) && forall s :: s in steps ==> Short(s)
  }

  // The orderly runs over bytes are the orderly runs over frames whose lengths fit, and lead to the same.
  lemma {:induction false} SameRuns(steps: seq<Step>)
    ensures OrderlyBytes(steps) <==> OrderlyFrames(steps)
    ensures OrderlyBytes(steps) ==> Alike(ByteRun(BYTE_INITIAL, steps), Run(INITIAL, steps))
  {
    if steps == [] {
      InitiallyAlike();
    } else {
      var before, s := steps[..|steps| - 1], steps[|steps| - 1];
      SameRuns(before);
      FramesStep(steps);
      BytesStep(steps);
      hide ByteEnabled, ByteInTurn, ByteApply, Alike, Enabled, InTurn, Apply, Short, OrderlyFrames, OrderlyBytes, Inv;
      if OrderlyBytes(before) {
        assert CanRun(INITIAL, before) && Orderly(INITIAL, before) by { FramesRun(before); }
        RunInv(before);
        EnabledAlike(ByteRun(BYTE_INITIAL, before), Run(INITIAL, before), s);
        if OrderlyBytes(steps) { StepAlike(ByteRun(BYTE_INITIAL, before), Run(INITIAL, before), s); }
      }
    }
  }

  lemma FramesRun(steps: seq<Step>)
    requires OrderlyFrames(steps)
    ensures CanRun(INITIAL, steps) && Orderly(INITIAL, steps)
  {}

  lemma FramesStep(steps: seq<Step>)
    requires steps != []
    ensures var before, s := steps[..|steps| - 1], steps[|steps| - 1];
      && (OrderlyFrames(steps) <==>
            OrderlyFrames(before) && Enabled(Run(INITIAL, before), s) && InTurn(Run(INITIAL, before), s) && Short(s))
      && (OrderlyFrames(steps) ==> Run(INITIAL, steps) == Apply(Run(INITIAL, before), s))
  {
    hide Enabled, InTurn, Apply, Short;
    assert steps == steps[..|steps| - 1] + [steps[|steps| - 1]];
  }

  lemma BytesStep(steps: seq<Step>)
    requires steps != []
    ensures var before, s := steps[..|steps| - 1], steps[|steps| - 1];
      && (OrderlyBytes(steps) <==>
            && OrderlyBytes(before)
            && ByteEnabled(ByteRun(BYTE_INITIAL, before), s) && ByteInTurn(ByteRun(BYTE_INITIAL, before), s))
      && (OrderlyBytes(steps) ==>
            ByteRun(BYTE_INITIAL, steps) == ByteApply(ByteRun(BYTE_INITIAL, before), s))
  {
    hide ByteEnabled, ByteInTurn, ByteApply;
  }

  lemma InitiallyAlike()
    ensures Alike(BYTE_INITIAL, INITIAL)
  {
    Tcp.EmptyStream();
  }

  // The tables of the connections over bytes are those of the run over frames: the streams started and not
  // closed, and the tasks started that have not ended.
  lemma SameTables(steps: seq<Step>, at: Side)
    requires OrderlyBytes(steps)
    ensures CanRun(INITIAL, steps)
    ensures var core := ByteAt(ByteRun(BYTE_INITIAL, steps), at).conn.core;
      && (forall id :: id in core.table <==> id in TaskIds(core) && id !in Closed(INITIAL, steps, at))
      && (forall id :: id in core.inbox <==> id in TaskIds(core) && id !in Ended(steps, at))
  {
    SameRuns(steps);
    AlikeAt(ByteRun(BYTE_INITIAL, steps), Run(INITIAL, steps), at);
    hide ByteRun, ByteCanRun, ByteOrderly, Run, Closed, Ended, WireCarries, QueueCarries, TaskIds;
    OpenIsStartedNotClosed(steps, at);
  }

  // So over bytes too: what was said on an open stream whose task runs is what was read, then its inbox,
  // then what is on its way.
  lemma ByteInboxIsProjection(steps: seq<Step>, s: Side, id: nat)
    requires OrderlyBytes(steps)
    requires var core := ByteAt(ByteRun(BYTE_INITIAL, steps), Other(s)).conn.core;
      id in core.table && id in core.inbox
    ensures var b := ByteRun(BYTE_INITIAL, steps);
      var from, to := ByteAt(b, s), ByteAt(b, Other(s));
      DataOf(from.sent, id) == DataOf(to.taken, id) + to.conn.core.inbox[id] + DataOf(BytePipe(from), id)
  {
    SameRuns(steps);
    var b, p := ByteRun(BYTE_INITIAL, steps), Run(INITIAL, steps);
    AlikeAt(b, p, s);
    AlikeAt(b, p, Other(s));
    SamePipes(ByteAt(b, s), At(p, s));
    SameTables(steps, Other(s));
    hide ByteRun, ByteCanRun, ByteOrderly, Run, Orderly, DataOf, BytePipe, Pipe, WireCarries, QueueCarries;
    hide Closed, Ended, TaskIds;
    InboxIsProjection(steps, s, id);
  }

  // After every orderly run, a connection handler panics exactly when the message to arrive is data for a
  // stream in the table whose task has ended, and fails in no other way.
  lemma HandlerFailsIff(steps: seq<Step>, s: Step)
    requires OrderlyBytes(steps)
    requires ByteEnabled(ByteRun(BYTE_INITIAL, steps), s) && (s.Pump? || s.Arrive?)
    ensures var b := ByteRun(BYTE_INITIAL, steps);
      Outcome(b, s).1 == if ArrivesTooLate(b, s) then Err(Panicked) else Ok(true)
  {
    SameRuns(steps);
    RunInv(steps);
    hide ByteEnabled, ByteInTurn, ByteApply, Alike, Enabled, InTurn, Apply, Inv, Outcome, ArrivesTooLate;
    EnabledAlike(ByteRun(BYTE_INITIAL, steps), Run(INITIAL, steps), s);
    StepAlike(ByteRun(BYTE_INITIAL, steps), Run(INITIAL, steps), s);
  }

  // A run in which it does: a request arrives after the task that should read it has ended.
  lemma HandlerFails(proto: Payload)
    requires |BuildFrame(Frame(1, HandshakeReq, proto))| < U32_LIMIT
    ensures var steps := EndedTaskSteps(proto);
      && OrderlyBytes(steps)
      && var b := ByteRun(BYTE_INITIAL, steps);
         ByteEnabled(b, Arrive(East)) && Outcome(b, Arrive(East)).1 == Err(Panicked)
  {
    var steps, s := EndedTaskSteps(proto), Arrive(East);
    EndedTaskRun(proto);
    EndedTaskStepsFit(proto);
    SameRuns(steps);
    RunInv(steps);
    hide ByteRun, ByteCanRun, ByteOrderly, Run, CanRun, Orderly, EndedTaskSteps, Inv, Alike, Outcome, Apply;
    var b, p := ByteRun(BYTE_INITIAL, steps), Run(INITIAL, steps);
    EnabledAlike(b, p, s);
    NextMessage(b, p);
    HandlerFailsIff(steps, s);
    hide LosesReceiver, ByteEnabled, ParseFrame;
    assert ArrivesTooLate(b, s);
  }

  lemma EndedTaskStepsFit(proto: Payload)
    requires |BuildFrame(Frame(1, HandshakeReq, proto))| < U32_LIMIT
    ensures forall s :: s in EndedTaskSteps(proto) ==> Short(s)
  {
    PayloadFits(Frame(1, HandshakeReq, proto));
    hide BuildFrame;
  }

  lemma NextMessage(b: BytePair, p: Pair)
    requires Alike(b, p) && p.west.wire != []
    ensures b.east.conn.core == p.east.core && Tcp.Recv(b.west.wire).0.Ok?
    ensures ParseFrame(Tcp.Recv(b.west.wire).0.value) == Ok(p.west.wire[0])
  {
    hide QueueCarries, WireCarries, ParseFrame, Tcp.Recv;
    WireReads(b.west.wire, p.west.wire);
  }
}
