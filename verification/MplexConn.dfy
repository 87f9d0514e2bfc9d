/**
 One end of a multiplexed connection: the stream table, the id counter, the queue shared by the
 connection and its stream tasks, and the dispatch of frames arriving from the queue and the wire.
 */
module MplexConn {
  import opened Bytes
  import opened MplexHeaders
  import opened Utf8
  import opened Wrappers

  // A stream task started for an id; the end that opens the stream also knows the protocol.
  datatype Task = Task(id: nat, initiator: bool, proto: Option<Payload>)

  // `table` holds the streams a frame is routed to. `inbox` holds, for each stream whose task still runs,
  // what was routed and not yet read; a task that ends takes its inbox with it and leaves the table as it
  // is. `pings` is what the liveliness check has not read, if there is one running.
  datatype Core = Core(
    counter: nat, table: set<nat>, inbox: map<nat, seq<Payload>>, pings: Option<seq<Payload>>, tasks: seq<Task>)

  datatype Handled = Handled(core: Core, reply: Option<Frame>, live: Result<bool, Error>)

  predicate IsData(flag: Flag) { flag == Message || flag == HandshakeReq || flag == HandshakeRes }

  function Opened(core: Core, id: nat, task: Task): Core {
    core.(counter := id, table := core.table + {id}, inbox := core.inbox[id := []], tasks := core.tasks + [task])
  }

  function Routed(core: Core, f: Frame): Core {
    if f.id in core.table && f.id in core.inbox
    then core.(inbox := core.inbox[f.id := core.inbox[f.id] + [f.payload]])
    else core
  }

  // A frame for a stream in the table is handed to its task, and the handler panics if the task has ended.
  predicate LosesReceiver(core: Core, f: Frame) { IsData(f.flag) && f.id in core.table && f.id !in core.inbox }

  function Sent(core: Core, f: Frame): Handled {
    if LosesReceiver(core, f) then Handled(core, None, Err(Panicked)) else Handled(Routed(core, f), None, Ok(true))
  }

  // The counter has 32 bits.
  function Handle(core: Core, f: Frame): Handled {
    match f.flag
    case NewStream =>
      if f.id == 0 then
        var id := (core.counter + 1) % Pow256(4);
        Handled(Opened(core, id, Task(id, true, Some(f.payload))), Some(Frame(id, NewStream, [])), Ok(true))
      else Handled(Opened(core, f.id, Task(f.id, false, None)), None, Ok(true))
    case Message => Sent(core, f)
    case HandshakeReq => Sent(core, f)
    case HandshakeRes => Sent(core, f)
    case CloseStream => Handled(core.(table := core.table - {f.id}), None, Ok(true))
    case Disconnected => Handled(core, None, Ok(false))
    case Liveliness =>
      match core.pings
      case None => Handled(core, None, Err(Panicked))
      case Some(pings) => Handled(core.(pings := Some(pings + [f.payload])), None, Ok(true))
  }

  // ---------- the connection over bytes ----------

  // `down` when the connection handler has returned or panicked.
  datatype Conn = Conn(core: Core, queue: seq<seq<byte>>, written: seq<seq<byte>>, down: bool)

  function Replies(reply: Option<Frame>): seq<seq<byte>> {
    match reply
    case None => []
    case Some(f) => [BuildFrame(f)]
  }

  function HandleIncoming(c: Conn, frames: seq<byte>): (Conn, Result<bool, Error>) {
    match ParseFrame(frames)
    case Err(e) => (c, Err(e))
    case Ok(f) =>
      var h := Handle(c.core, f);
      (c.(core := h.core, queue := c.queue + Replies(h.reply)), h.live)
  }

  // The oldest entry of the queue is handled here if it is marked, and written to the wire if not.
  function Dispatch(c: Conn): (Conn, Result<bool, Error>)
    requires c.queue != []
  {
    var data, rest := c.queue[0], c.(queue := c.queue[1..]);
    if StartsWith(data, INTERNAL) then
      var (c', live) := HandleIncoming(rest, data[|INTERNAL|..]);
      (c'.(down := c.down || live != Ok(true)), live)
    else (rest.(written := rest.written + [data]), Ok(true))
  }

  // What comes off the wire is handled too; here only an error ends the handler.
  function Accept(c: Conn, frames: seq<byte>): (Conn, Result<bool, Error>) {
    var (c', live) := HandleIncoming(c, frames);
    (c'.(down := c.down || live.Err?), live)
  }

  // When a connection handler ends: on anything it cannot parse or hand over, and on a disconnection queued
  // here but not on one from the wire. Liveliness needs a check that runs.
  lemma HandlerEndsIff(c: Conn, f: Frame, data: seq<byte>, fromQueue: bool)
    requires ParseFrame(data) == Ok(f) && !c.down
    requires fromQueue ==> c.queue != [] && c.queue[0] == INTERNAL + data
    ensures var (c', live) := if fromQueue then Dispatch(c) else Accept(c, data);
      && (c'.down <==>
            || (IsData(f.flag) && f.id in c.core.table && f.id !in c.core.inbox)
            || (f.flag == Liveliness && c.core.pings == None)
            || (f.flag == Disconnected && fromQueue))
      && (live == Ok(false) <==> f.flag == Disconnected)
      && (f.flag == Liveliness && c.core.pings.Some? ==> c'.core.pings == Some(c.core.pings.value + [f.payload]))
  {
    if fromQueue { assert (INTERNAL + data)[|INTERNAL|..] == data; }
  }

  lemma MalformedEnds(c: Conn, data: seq<byte>)
    requires ParseFrame(data).Err?
    ensures Accept(c, data) == (c.(down := true), Err(ParseFrame(data).error))
    ensures c.queue != [] && c.queue[0] == INTERNAL + data ==>
      Dispatch(c) == (c.(queue := c.queue[1..], down := true), Err(ParseFrame(data).error))
  {
    assert (INTERNAL + data)[|INTERNAL|..] == data;
  }

  // ---------- negotiation ----------

  // How negotiating ends for a stream task; it panics on a protocol that is not a string.
  datatype Negotiated = Agreed(protocol: Payload) | Failed | Stuck

  // For the end that was asked, and for the end that asked and got this answer.
  function Answered(handlers: set<Payload>, asked: Payload): Negotiated {
    if !IsString(asked) then Stuck else if asked in handlers then Agreed(asked) else Failed
  }

  function Confirmed(protocol: Payload, answer: Payload): Negotiated {
    if protocol != answer then Failed else if !IsString(protocol) then Stuck else Agreed(protocol)
  }

  class MplexConn {
    var counter: nat
    var table: set<nat>
    var inbox: map<nat, seq<Payload>>
    var pings: Option<seq<Payload>>
    var tasks: seq<Task>
    var queue: seq<seq<byte>>
    var written: seq<seq<byte>>
    var down: bool

    ghost function Abstract(): Conn
      reads this
    {
      Conn(Core(counter, table, inbox, pings, tasks), queue, written, down)
    }

    constructor (checksPings: bool)
      ensures var pings := if checksPings then Some([]) else None;
        Abstract() == Conn(Core(0, {}, map[], pings, []), [], [], false)
    {
      counter, table, inbox, tasks, queue, written, down := 0, {}, map[], [], [], [], false;
      pings := if checksPings then Some([]) else None;
    }

    method InsertStream(id: nat, task: Task)
      modifies this`counter, this`table, this`inbox, this`tasks
      ensures Core(counter, table, inbox, pings, tasks) == Opened(old(Abstract()).core, id, task)
      ensures counter == id && table == old(table) + {id}
      ensures inbox == old(inbox)[id := []] && tasks == old(tasks) + [task]
    {
      counter := id;
      table := table + {id};
      inbox := inbox[id := []];
      tasks := tasks + [task];
    }

    // Handing the payload over fails, and the handler panics, when the stream's task has ended.
    method Route(f: Frame) returns (live: Result<bool, Error>)
      requires IsData(f.flag)
      modifies this`inbox
      ensures Handled(Core(counter, table, inbox, pings, tasks), None, live) == Sent(old(Abstract()).core, f)
      ensures live == if f.id in table && f.id !in old(inbox) then Err(Panicked) else Ok(true)
      ensures inbox == if f.id in table && f.id in old(inbox)
        then old(inbox)[f.id := old(inbox)[f.id] + [f.payload]] else old(inbox)
    {
      if f.id in table {
        if f.id !in inbox {
          return Err(Panicked);
        }
        inbox := inbox[f.id := inbox[f.id] + [f.payload]];
      }
      return Ok(true);
    }

    method Receive(frames: seq<byte>) returns (live: Result<bool, Error>)
      modifies this`counter, this`table, this`inbox, this`pings, this`tasks, this`queue
      ensures (Abstract(), live) == HandleIncoming(old(Abstract()), frames)
    {
      var parsed := ParseFrame(frames);
      if parsed.Err? {
        return Err(parsed.error);
      }
      var f := parsed.value;
      live := Ok(true);
      assert queue + Replies(None) == queue;
      match f.flag {
        case NewStream =>
          if f.id == 0 {
            var id := (counter + 1) % Pow256(4);
            InsertStream(id, Task(id, true, Some(f.payload)));
            var frame := WriteFrame(Frame(id, NewStream, []));
            queue := queue + [frame];
          } else {
            InsertStream(f.id, Task(f.id, false, None));
          }
        case Message => live := Route(f);
        case HandshakeReq => live := Route(f);
        case HandshakeRes => live := Route(f);
        case CloseStream => table := table - {f.id};
        case Disconnected => live := Ok(false);
        case Liveliness =>
          if pings.None? {
            return Err(Panicked);
          }
          pings := Some(pings.value + [f.payload]);
      }
    }

    // The two branches of the connection handler: an entry of the queue, and a message off the wire.
    method PumpQueue() returns (live: Result<bool, Error>)
      requires queue != []
      modifies this
      ensures (Abstract(), live) == Dispatch(old(Abstract()))
    {
      var data := queue[0];
      queue := queue[1..];
      if |INTERNAL| <= |data| && data[..|INTERNAL|] == INTERNAL {
        live := Receive(data[|INTERNAL|..]);
        down := down || live != Ok(true);
      } else {
        written := written + [data];
        live := Ok(true);
      }
    }

    method AcceptWire(frames: seq<byte>) returns (live: Result<bool, Error>)
      modifies this
      ensures (Abstract(), live) == Accept(old(Abstract()), frames)
    {
      live := Receive(frames);
      down := down || live.Err?;
    }
  }

  // A stream task: everything it says goes through the connection's queue, and fails once the connection
  // is down. It runs while it has its inbox.
  class MplexStream {
    const conn: MplexConn
    const id: nat
    const initiator: bool

    constructor (conn: MplexConn, id: nat, initiator: bool)
      ensures this.conn == conn && this.id == id && this.initiator == initiator
    {
      this.conn, this.id, this.initiator := conn, id, initiator;
    }

    method Write(msg: Payload) returns (ok: bool)
      modifies conn`queue
      ensures ok <==> !conn.down
      ensures conn.queue == old(conn.queue) + if ok then [BuildFrame(Frame(id, Message, msg))] else []
    {
      var frame := WriteFrame(Frame(id, Message, msg));
      ok := Send(frame);
    }

    method Send(data: seq<byte>) returns (ok: bool)
      modifies conn`queue
      ensures ok <==> !conn.down
      ensures conn.queue == old(conn.queue) + if ok then [data] else []
    {
      if conn.down {
        return false;
      }
      conn.queue := conn.queue + [data];
      return true;
    }

    method Close() returns (ok: bool)
      modifies conn`queue
      ensures ok <==> !conn.down
      ensures conn.queue == old(conn.queue) + if ok then [Marked(Frame(id, CloseStream, []))] else []
    {
      var frame := WriteFrame(Frame(id, CloseStream, []));
      ok := Send(INTERNAL + frame);
    }

    // Reading waits for the inbox to be filled, or for the connection to let go of the stream.
    method Read() returns (payload: Option<Payload>)
      requires id in conn.inbox && (conn.inbox[id] == [] ==> conn.down || id !in conn.table)
      modifies conn`inbox
      ensures var unread := old(conn.inbox[id]);
        if unread == [] then payload == None && conn.inbox == old(conn.inbox)
        else payload == Some(unread[0]) && conn.inbox == old(conn.inbox)[id := unread[1..]]
    {
      if conn.inbox[id] == [] {
        return None;
      }
      payload := Some(conn.inbox[id][0]);
      conn.inbox := conn.inbox[id := conn.inbox[id][1..]];
    }

    method RequestProtocol(protocol: Payload) returns (ok: bool)
      modifies conn`queue
      ensures ok <==> !conn.down
      ensures conn.queue == old(conn.queue) + if ok then [BuildFrame(Frame(id, HandshakeReq, protocol))] else []
    {
      var frame := WriteFrame(Frame(id, HandshakeReq, protocol));
      ok := Send(frame);
    }

    // The other end echoes the protocol when it has a handler for it, and gives up otherwise.
    method AnswerProtocol(handlers: set<Payload>) returns (r: Negotiated)
      requires id in conn.inbox && (conn.inbox[id] == [] ==> conn.down || id !in conn.table)
      modifies conn`queue, conn`inbox
      ensures var unread := old(conn.inbox[id]);
        && (r == Stuck <==>
              unread == [] || !IsString(unread[0]) || (unread[0] in handlers && conn.down))
        && (r == Failed <==> unread != [] && IsString(unread[0]) && unread[0] !in handlers)
        && (r.Agreed? <==> unread != [] && IsString(unread[0]) && unread[0] in handlers && !conn.down)
        && (r.Agreed? ==> r.protocol == unread[0])
        && conn.inbox == (if unread == [] then old(conn.inbox) else old(conn.inbox)[id := unread[1..]])
        && conn.queue == old(conn.queue)
             + if r.Agreed? then [BuildFrame(Frame(id, HandshakeRes, r.protocol))] else []
    {
      var asked := Read();
      if asked.None? || !IsString(asked.value) {
        return Stuck;
      }
      if asked.value !in handlers {
        return Failed;
      }
      var frame := WriteFrame(Frame(id, HandshakeRes, asked.value));
      var ok := Send(frame);
      r := if ok then Agreed(asked.value) else Stuck;
    }

    // And the end that asked accepts nothing but the echo.
    method ConfirmProtocol(protocol: Payload) returns (r: Negotiated)
      requires id in conn.inbox && (conn.inbox[id] == [] ==> conn.down || id !in conn.table)
      modifies conn`inbox
      ensures var unread := old(conn.inbox[id]);
        && (r == Stuck <==> unread == [] || (unread[0] == protocol && !IsString(protocol)))
        && (r == Failed <==> unread != [] && unread[0] != protocol)
        && (r.Agreed? <==> unread != [] && unread[0] == protocol && IsString(protocol))
        && (r.Agreed? ==> r.protocol == protocol)
        && conn.inbox == if unread == [] then old(conn.inbox) else old(conn.inbox)[id := unread[1..]]
    {
      var res := Read();
      if res.None? {
        return Stuck;
      }
      if protocol != res.value {
        return Failed;
      }
      r := if IsString(protocol) then Agreed(protocol) else Stuck;
    }

    // The task ends, whether it has closed the stream or not.
    method End()
      modifies conn`inbox
      ensures conn.inbox == old(conn.inbox) - {id}
    {
      conn.inbox := conn.inbox - {id};
    }
  }
}
