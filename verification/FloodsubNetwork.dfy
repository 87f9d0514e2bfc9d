/**
 A network of floodsub nodes with a fixed topology and fixed subscriptions, whose links are the
 outgoing queues of the nodes. A step publishes a message with a key not used before, or hands the
 oldest frame of one queue to its receiver. Nothing is evicted from the seen-caches meanwhile.
 */
module FloodsubNetwork {
  import opened Bytes
  import opened Floodsub

  // Who each node lists for a topic, and what it is subscribed to.
  datatype Config = Config(listed: map<Peer, map<Topic, seq<Peer>>>, topics: map<Peer, set<Topic>>)

  // The nodes, the messages published so far, and who accepted what, in order.
  datatype Net = Net(nodes: map<Peer, Node>, published: map<Key, Message>, log: seq<(Peer, Message)>)

  datatype Step =
    | Publish(at: Peer, topics: seq<Topic>, data: seq<byte>, now: nat)
    | Deliver(src: Peer, dst: Peer, now: nat)

  function Copy(m: Message): Rpc { Rpc([m], []) }

  function NodeQueue(n: Node, p: Peer): seq<Rpc> { if p in n.peers then n.peers[p] else [] }

  // The frames waiting on a link, oldest first.
  function Queue(net: Net, x: Peer, y: Peer): seq<Rpc> {
    if x in net.nodes then NodeQueue(net.nodes[x], y) else []
  }

  ghost predicate Seen(net: Net, y: Peer, k: Key) { y in net.nodes && k in net.nodes[y].seen }

  ghost predicate IsPublished(net: Net, m: Message) {
    |m.seqno| == 8 && KeyOf(m) in net.published && net.published[KeyOf(m)] == m
  }

  function Stamp(s: Step): Message
    requires s.Publish?
  {
    Message(s.at, s.data, Seqno(s.now), s.topics)
  }

  ghost predicate Enabled(net: Net, s: Step) {
    match s
    case Publish(at, _, _, _) => at in net.nodes && KeyOf(Stamp(s)) !in net.published
    case Deliver(src, dst, _) =>
      && dst in net.nodes && Queue(net, src, dst) != []
      && forall m :: m in Queue(net, src, dst)[0].publish ==> |m.seqno| == 8
  }

  // Taking the oldest frame off a link.
  function Popped(net: Net, x: Peer, y: Peer): Net
    requires Queue(net, x, y) != []
  {
    var n := net.nodes[x];
    WithNode(net, x, n.(peers := n.peers[y := n.peers[y][1..]]))
  }

  function WithNode(net: Net, x: Peer, n: Node): Net { net.(nodes := net.nodes[x := n]) }

  ghost function Apply(net: Net, s: Step): Net
    requires Enabled(net, s)
  {
    match s
    case Publish(at, _, _, _) =>
      var m := Stamp(s);
      WithNode(net, at, Published(net.nodes[at], at, m)).(published := net.published[KeyOf(m) := m])
    case Deliver(src, dst, now) =>
      var popped, rpc := Popped(net, src, dst), Queue(net, src, dst)[0];
      var n := popped.nodes[dst];
      var n' := Incoming(n, rpc, src, now);
      WithNode(popped, dst, n').(log := net.log + Entries(n, n', dst, rpc.publish))
  }

  // The messages of a frame that the receiver noted as seen.
  ghost function Entries(n: Node, n': Node, at: Peer, msgs: seq<Message>): seq<(Peer, Message)>
    requires forall m :: m in msgs ==> |m.seqno| == 8
  {
    if |msgs| == 1 && KeyOf(msgs[0]) !in n.seen && KeyOf(msgs[0]) in n'.seen then [(at, msgs[0])] else []
  }

  // ---------- the invariant ----------

  ghost predicate ListedFor(peerTopics: map<Topic, seq<Peer>>, topics: seq<Topic>, p: Peer) {
    exists t :: t in topics && t in peerTopics && p in peerTopics[t]
  }

  ghost predicate Wants(cfg: Config, y: Peer, m: Message) {
    y in cfg.topics && exists t :: t in m.topics && t in cfg.topics[y]
  }

  // A hop a message can take: to a subscriber listed by the sender, but never to its origin.
  ghost predicate Hop(cfg: Config, m: Message, x: Peer, y: Peer) {
    x in cfg.listed && ListedFor(cfg.listed[x], m.topics, y) && Wants(cfg, y, m) && y != m.from
  }

  ghost predicate IsPath(cfg: Config, m: Message, path: seq<Peer>) {
    && |path| > 0 && path[0] == m.from
    && forall i :: 0 < i < |path| ==> Hop(cfg, m, path[i - 1], path[i])
  }

  ghost predicate Reachable(cfg: Config, m: Message, y: Peer) {
    exists path :: |path| > 1 && IsPath(cfg, m, path) && path[|path| - 1] == y
  }

  ghost predicate NodeConfigured(cfg: Config, x: Peer, n: Node) {
    && x in cfg.listed && x in cfg.topics
    && n.self == x && n.peerTopics == cfg.listed[x] && n.topicApi.Keys == cfg.topics[x]
    && n.peers.Keys <= cfg.listed.Keys && ListedHavePeers(n)
  }

  ghost predicate Configured(cfg: Config, net: Net) {
    && cfg.listed.Keys == net.nodes.Keys == cfg.topics.Keys
    && forall x :: x in net.nodes ==> NodeConfigured(cfg, x, net.nodes[x])
  }

  ghost predicate HasSent(net: Net, x: Peer, m: Message)
    requires |m.seqno| == 8
  {
    x == m.from || Seen(net, x, KeyOf(m))
  }

  // A copy on a link: of a published message, from a node that has sent it, to a peer it lists.
  ghost predicate GoodCopy(cfg: Config, net: Net, x: Peer, y: Peer, rpc: Rpc) {
    && |rpc.publish| == 1 && rpc == Copy(rpc.publish[0])
    && var m := rpc.publish[0];
      && IsPublished(net, m) && HasSent(net, x, m)
      && x in cfg.listed && ListedFor(cfg.listed[x], m.topics, y) && y != m.from
  }

  ghost predicate QueuesGood(cfg: Config, net: Net) {
    forall x, y, i :: 0 <= i < |Queue(net, x, y)| ==> GoodCopy(cfg, net, x, y, Queue(net, x, y)[i])
  }

  ghost predicate QueuesDistinct(net: Net) {
    forall x, y, i, j :: 0 <= i < j < |Queue(net, x, y)| ==> Queue(net, x, y)[i] != Queue(net, x, y)[j]
  }

  ghost predicate PublishedKeyed(net: Net) {
    forall k :: k in net.published ==>
      IsPublished(net, net.published[k]) && KeyOf(net.published[k]) == k && net.published[k].from in net.nodes
  }

  ghost predicate SeenReachable(cfg: Config, net: Net) {
    forall y, k :: Seen(net, y, k) ==> k in net.published && Reachable(cfg, net.published[k], y)
  }

  // What a sender owes a hop is on the link or done.
  ghost predicate HopsServed(cfg: Config, net: Net) {
    forall m, x, y :: IsPublished(net, m) && HasSent(net, x, m) && Hop(cfg, m, x, y) ==>
      Seen(net, y, KeyOf(m)) || Copy(m) in Queue(net, x, y)
  }

  ghost predicate LogIsSeen(net: Net) {
    forall y, m :: (y, m) in net.log <==> IsPublished(net, m) && Seen(net, y, KeyOf(m))
  }

  ghost predicate LogDistinct(net: Net) {
    forall i, j :: 0 <= i < j < |net.log| ==> net.log[i] != net.log[j]
  }

  ghost predicate Inv(cfg: Config, net: Net) {
    && Configured(cfg, net) && QueuesGood(cfg, net) && QueuesDistinct(net) && PublishedKeyed(net)
    && SeenReachable(cfg, net) && HopsServed(cfg, net) && LogIsSeen(net) && LogDistinct(net)
  }

  ghost predicate Init(cfg: Config, net: Net) {
    && Configured(cfg, net) && net.published == map[] && net.log == []
    && forall x :: x in net.nodes ==>
         var n := net.nodes[x];
         && n.seen == map[]
         && (forall p :: p in n.peers ==> n.peers[p] == [])
         && (forall t :: t in n.topicApi ==> n.topicApi[t] == [])
  }

  lemma InitInv(cfg: Config, net: Net)
    requires Init(cfg, net)
    ensures Inv(cfg, net)
  {
    assert forall x, y :: Queue(net, x, y) == [];
  }

  lemma HopExtendsPath(cfg: Config, m: Message, x: Peer, y: Peer)
    requires x == m.from || Reachable(cfg, m, x)
    requires Hop(cfg, m, x, y)
    ensures Reachable(cfg, m, y)
  {
    var path: seq<Peer> := [m.from];
    if x != m.from {
      path :| |path| > 1 && IsPath(cfg, m, path) && path[|path| - 1] == x;
    }
    var longer := path + [y];
    assert IsPath(cfg, m, longer) && longer[|longer| - 1] == y;
  }

  // ---------- what a delivery does to one node ----------

  ghost predicate Accepts(n: Node, m: Message)
    requires |m.seqno| == 8
  {
    Subscribed(n, m) && m.from != n.self && KeyOf(m) !in n.seen
  }

  lemma IncomingCopy(n: Node, m: Message, x: Peer, now: nat)
    requires |m.seqno| == 8
    ensures Incoming(n, Copy(m), x, now) == if Accepts(n, m) then Consumed(n, x, m, now) else n
  {
    var msgs := [m];
    assert msgs[..0] == [] && AfterMessages(n, x, msgs[..0], now) == n;
    assert AfterMessages(n, x, msgs, now) == if Subscribed(n, m) then Consumed(n, x, m, now) else n;
  }

  // ---------- what a step does to the links ----------

  ghost predicate Target(cfg: Config, x: Peer, forwarder: Peer, m: Message, y: Peer) {
    x in cfg.listed && ListedFor(cfg.listed[x], m.topics, y) && y != forwarder && y != m.from
  }

  // At most one frame leaves the link (src, dst), and at most one message enters the links of `at`.
  datatype Traffic = Traffic(pops: bool, src: Peer, dst: Peer, sends: bool, at: Peer, forwarder: Peer, m: Message)

  ghost function Left(net: Net, e: Traffic, x: Peer, y: Peer): seq<Rpc> {
    if e.pops && x == e.src && y == e.dst && Queue(net, x, y) != [] then Queue(net, x, y)[1..] else Queue(net, x, y)
  }

  ghost function Added(cfg: Config, e: Traffic, x: Peer, y: Peer): seq<Rpc> {
    if e.sends && x == e.at && Target(cfg, x, e.forwarder, e.m, y) then [Copy(e.m)] else []
  }

  ghost predicate Moves(cfg: Config, net: Net, net': Net, e: Traffic) {
    forall x, y :: Queue(net', x, y) == Left(net, e, x, y) + Added(cfg, e, x, y)
  }

  lemma SendAtNode(cfg: Config, x: Peer, n: Node, forwarder: Peer, m: Message)
    requires NodeConfigured(cfg, x, n)
    ensures NodeConfigured(cfg, x, Published(n, forwarder, m))
    ensures forall p ::
      NodeQueue(Published(n, forwarder, m), p)
        == NodeQueue(n, p) + if Target(cfg, x, forwarder, m, p) then [Copy(m)] else []
  {
    forall p ensures p in Targets(n.peerTopics, m.topics, forwarder, m.from) <==> Target(cfg, x, forwarder, m, p) {}
  }

  lemma ReceiveAtNode(cfg: Config, x: Peer, n: Node, m: Message, src: Peer, now: nat)
    requires NodeConfigured(cfg, x, n) && |m.seqno| == 8
    ensures var n', accepts := Incoming(n, Copy(m), src, now), Accepts(n, m);
      && NodeConfigured(cfg, x, n')
      && (forall p ::
            NodeQueue(n', p) == NodeQueue(n, p) + if accepts && Target(cfg, x, src, m, p) then [Copy(m)] else [])
      && n'.seen.Keys == n.seen.Keys + if accepts then {KeyOf(m)} else {}
  {
    IncomingCopy(n, m, src, now);
    if Accepts(n, m) {
      var d := Delivery(m.data, m.from);
      var noted := n.(seen := n.seen[KeyOf(m) := now], topicApi := Notified(n.topicApi, m.topics, d));
      assert NodeConfigured(cfg, x, noted);
      SendAtNode(cfg, x, noted, src, m);
    }
  }

  // Replacing a node replaces its links.
  lemma WithNodeMoves(cfg: Config, net: Net, x: Peer, n: Node)
    requires Configured(cfg, net) && x in net.nodes && NodeConfigured(cfg, x, n)
    ensures Configured(cfg, WithNode(net, x, n))
    ensures forall y, z :: Queue(WithNode(net, x, n), y, z) == if y == x then NodeQueue(n, z) else Queue(net, y, z)
    ensures forall y, k :: Seen(WithNode(net, x, n), y, k) <==> if y == x then k in n.seen else Seen(net, y, k)
  {
    hide NodeConfigured;
  }

  lemma PopMoves(cfg: Config, net: Net, x: Peer, y: Peer)
    requires Configured(cfg, net) && Queue(net, x, y) != []
    ensures var popped := Popped(net, x, y);
      && Configured(cfg, popped)
      && (forall z, w :: Queue(popped, z, w) == if z == x && w == y then Queue(net, x, y)[1..] else Queue(net, z, w))
      && (forall z, k :: Seen(popped, z, k) <==> Seen(net, z, k))
      && (forall z :: z in net.nodes ==>
            popped.nodes[z].topicApi == net.nodes[z].topicApi && popped.nodes[z].self == net.nodes[z].self)
  {
    var n := net.nodes[x];
    var n' := n.(peers := n.peers[y := n.peers[y][1..]]);
    assert NodeConfigured(cfg, x, n);
    assert n'.peers.Keys == n.peers.Keys;
    assert NodeConfigured(cfg, x, n');
    WithNodeMoves(cfg, net, x, n');
  }

  lemma PublishMoves(cfg: Config, net: Net, s: Step)
    requires Configured(cfg, net) && s.Publish? && Enabled(net, s)
    ensures var net', m := Apply(net, s), Stamp(s);
      && Configured(cfg, net')
      && Moves(cfg, net, net', Traffic(false, s.at, s.at, true, s.at, s.at, m))
      && (forall y, k :: Seen(net', y, k) <==> Seen(net, y, k))
  {
    hide Target, NodeConfigured, NodeQueue;
    var m := Stamp(s);
    assert NodeConfigured(cfg, s.at, net.nodes[s.at]);
    SendAtNode(cfg, s.at, net.nodes[s.at], s.at, m);
    WithNodeMoves(cfg, net, s.at, Published(net.nodes[s.at], s.at, m));
  }

  // The message a delivery takes off its link, and whether the receiver accepts it.
  ghost function Head(net: Net, s: Step): Message
    requires s.Deliver? && Queue(net, s.src, s.dst) != []
    requires |Queue(net, s.src, s.dst)[0].publish| == 1
  {
    Queue(net, s.src, s.dst)[0].publish[0]
  }

  lemma ReceiveMoves(cfg: Config, net: Net, src: Peer, dst: Peer, m: Message, now: nat)
    requires Configured(cfg, net) && dst in net.nodes && |m.seqno| == 8
    ensures var n := net.nodes[dst];
      var net', accepts := WithNode(net, dst, Incoming(n, Copy(m), src, now)), Accepts(n, m);
      && Configured(cfg, net')
      && (forall x, y :: Queue(net', x, y) ==
            Queue(net, x, y) + if accepts && x == dst && Target(cfg, x, src, m, y) then [Copy(m)] else [])
      && (forall y, k :: Seen(net', y, k) <==> Seen(net, y, k) || (accepts && y == dst && k == KeyOf(m)))
      && Entries(n, Incoming(n, Copy(m), src, now), dst, [m]) == if accepts then [(dst, m)] else []
  {
    hide Target, NodeConfigured, NodeQueue, Incoming;
    var n := net.nodes[dst];
    assert NodeConfigured(cfg, dst, n);
    ReceiveAtNode(cfg, dst, n, m, src, now);
    WithNodeMoves(cfg, net, dst, Incoming(n, Copy(m), src, now));
  }

  lemma DeliverMoves(cfg: Config, net: Net, s: Step)
    requires Configured(cfg, net) && s.Deliver? && Enabled(net, s)
    requires GoodCopy(cfg, net, s.src, s.dst, Queue(net, s.src, s.dst)[0])
    ensures var net', m := Apply(net, s), Head(net, s);
      var accepts := Accepts(net.nodes[s.dst], m);
      && Configured(cfg, net')
      && Moves(cfg, net, net', Traffic(true, s.src, s.dst, accepts, s.dst, s.src, m))
      && (forall y, k :: Seen(net', y, k) <==> Seen(net, y, k) || (accepts && y == s.dst && k == KeyOf(m)))
      && net'.published == net.published
      && net'.log == net.log + if accepts then [(s.dst, m)] else []
  {
    hide Target, NodeConfigured, NodeQueue, Incoming, Entries;
    var m := Head(net, s);
    var popped := Popped(net, s.src, s.dst);
    PopMoves(cfg, net, s.src, s.dst);
    AcceptsIgnoresQueues(net, popped, s.dst, m);
    hide Accepts;
    ReceiveMoves(cfg, popped, s.src, s.dst, m, s.now);
    var rpc := Queue(net, s.src, s.dst)[0];
    assert rpc == Copy(m) && rpc.publish == [m];
  }

  lemma AcceptsIgnoresQueues(net: Net, net': Net, y: Peer, m: Message)
    requires y in net.nodes && y in net'.nodes && |m.seqno| == 8
    requires Seen(net, y, KeyOf(m)) <==> Seen(net', y, KeyOf(m))
    requires net.nodes[y].topicApi == net'.nodes[y].topicApi && net.nodes[y].self == net'.nodes[y].self
    ensures Accepts(net.nodes[y], m) <==> Accepts(net'.nodes[y], m)
  {}

  // ---------- the invariant is kept ----------

  // What every step leaves in place: publications and seen keys are never withdrawn, and a message
  // enters the links of a node that now counts as its sender and did not before.
  ghost predicate Extends(cfg: Config, net: Net, net': Net, e: Traffic) {
    && Moves(cfg, net, net', e)
    && (forall m :: IsPublished(net, m) ==> IsPublished(net', m))
    && (forall y, k :: Seen(net, y, k) ==> Seen(net', y, k))
    && (e.sends ==> IsPublished(net', e.m) && HasSent(net', e.at, e.m))
    && (e.sends ==> forall y :: Copy(e.m) !in Queue(net, e.at, y))
  }

  lemma QueuesStayGood(cfg: Config, net: Net, net': Net, e: Traffic)
    requires QueuesGood(cfg, net) && Extends(cfg, net, net', e)
    ensures QueuesGood(cfg, net')
  {
    hide Queue, Seen, ListedFor;
    forall x, y, i | 0 <= i < |Queue(net', x, y)|
      ensures GoodCopy(cfg, net', x, y, Queue(net', x, y)[i])
    {
      var left := Left(net, e, x, y);
      assert Queue(net', x, y) == left + Added(cfg, e, x, y);
      if i < |left| {
        assert GoodCopy(cfg, net, x, y, left[i]);
      }
    }
  }

  lemma QueuesStayDistinct(cfg: Config, net: Net, net': Net, e: Traffic)
    requires QueuesDistinct(net) && Extends(cfg, net, net', e)
    ensures QueuesDistinct(net')
  {
    hide Queue, Seen, Target;
    forall x, y, i, j | 0 <= i < j < |Queue(net', x, y)|
      ensures Queue(net', x, y)[i] != Queue(net', x, y)[j]
    {
      var left := Left(net, e, x, y);
      assert Queue(net', x, y) == left + Added(cfg, e, x, y);
      assert left[i] in Queue(net, x, y);
    }
  }

  // A copy stays on its link unless it is the one taken off.
  lemma CopyStays(cfg: Config, net: Net, net': Net, e: Traffic, x: Peer, y: Peer, m: Message)
    requires Moves(cfg, net, net', e) && Copy(m) in Queue(net, x, y)
    requires e.pops && x == e.src && y == e.dst ==> Queue(net, x, y)[0] != Copy(m)
    ensures Copy(m) in Queue(net', x, y)
  {
    var i :| 0 <= i < |Queue(net, x, y)| && Queue(net, x, y)[i] == Copy(m);
    if e.pops && x == e.src && y == e.dst { assert Queue(net, x, y)[1..][i - 1] == Copy(m); }
  }

  lemma PublishInv(cfg: Config, net: Net, s: Step)
    requires Inv(cfg, net) && s.Publish? && Enabled(net, s)
    ensures Inv(cfg, Apply(net, s))
  {
    hide NodeConfigured, Hop, Reachable, Queue, Seen, Target;
    var net', m := Apply(net, s), Stamp(s);
    var e := Traffic(false, s.at, s.at, true, s.at, s.at, m);
    PublishMoves(cfg, net, s);
    NotYetSent(cfg, net, s.at, m);
    QueuesStayGood(cfg, net, net', e);
    QueuesStayDistinct(cfg, net, net', e);
    forall m', x, y | IsPublished(net', m') && HasSent(net', x, m') && Hop(cfg, m', x, y)
      ensures Seen(net', y, KeyOf(m')) || Copy(m') in Queue(net', x, y)
    {
      if m' == m {
        HopIsTarget(cfg, m, x, x, y);
      } else if Copy(m') in Queue(net, x, y) {
        CopyStays(cfg, net, net', e, x, y, m');
      }
    }
  }

  // A message not published is on no link.
  lemma NotYetSent(cfg: Config, net: Net, x: Peer, m: Message)
    requires QueuesGood(cfg, net) && |m.seqno| == 8
    requires !IsPublished(net, m) || !HasSent(net, x, m)
    ensures forall y :: Copy(m) !in Queue(net, x, y)
  {
    forall y ensures Copy(m) !in Queue(net, x, y) { QueuedIsGood(cfg, net, x, y, m); }
  }

  lemma QueuedIsGood(cfg: Config, net: Net, x: Peer, y: Peer, m: Message)
    requires QueuesGood(cfg, net)
    ensures Copy(m) in Queue(net, x, y) ==> GoodCopy(cfg, net, x, y, Copy(m))
  {
    if Copy(m) in Queue(net, x, y) {
      var i :| 0 <= i < |Queue(net, x, y)| && Queue(net, x, y)[i] == Copy(m);
      assert GoodCopy(cfg, net, x, y, Queue(net, x, y)[i]);
    }
  }

  lemma HopIsTarget(cfg: Config, m: Message, x: Peer, forwarder: Peer, y: Peer)
    requires Hop(cfg, m, x, y)
    ensures y == forwarder || Target(cfg, x, forwarder, m, y) || x == m.from
    ensures y != forwarder ==> Target(cfg, x, forwarder, m, y)
    ensures Wants(cfg, y, m) && y != m.from
  {}

  lemma AcceptsIff(cfg: Config, net: Net, y: Peer, m: Message)
    requires Configured(cfg, net) && y in net.nodes && |m.seqno| == 8
    ensures Accepts(net.nodes[y], m) <==> Wants(cfg, y, m) && m.from != y && !Seen(net, y, KeyOf(m))
  {
    assert NodeConfigured(cfg, y, net.nodes[y]);
  }

  lemma DeliverInv(cfg: Config, net: Net, s: Step)
    requires Inv(cfg, net) && s.Deliver? && Enabled(net, s)
    ensures Inv(cfg, Apply(net, s))
  {
    hide NodeConfigured, Hop, Reachable, Queue, Seen, Target, Accepts;
    assert GoodCopy(cfg, net, s.src, s.dst, Queue(net, s.src, s.dst)[0]);
    var net', m := Apply(net, s), Head(net, s);
    var accepts := Accepts(net.nodes[s.dst], m);
    var e := Traffic(true, s.src, s.dst, accepts, s.dst, s.src, m);
    DeliverMoves(cfg, net, s);
    AcceptsIff(cfg, net, s.dst, m);
    if accepts {
      NotYetSent(cfg, net, s.dst, m);
      DeliveredIsHop(cfg, net, s.src, s.dst, m);
    }
    QueuesStayGood(cfg, net, net', e);
    QueuesStayDistinct(cfg, net, net', e);
    DeliverServesHops(cfg, net, net', e);
    forall y, m' ensures (y, m') in net'.log <==> IsPublished(net', m') && Seen(net', y, KeyOf(m')) {}
  }

  lemma DeliveredIsHop(cfg: Config, net: Net, x: Peer, y: Peer, m: Message)
    requires SeenReachable(cfg, net) && GoodCopy(cfg, net, x, y, Copy(m)) && Wants(cfg, y, m)
    ensures Hop(cfg, m, x, y) && Reachable(cfg, m, y)
  {
    HopExtendsPath(cfg, m, x, y);
  }

  lemma DeliverServesHops(cfg: Config, net: Net, net': Net, e: Traffic)
    requires HopsServed(cfg, net) && Extends(cfg, net, net', e) && net'.published == net.published
    requires e.pops && Queue(net, e.src, e.dst) != [] && e.forwarder == e.src && e.at == e.dst
    requires Queue(net, e.src, e.dst)[0] == Copy(e.m) && GoodCopy(cfg, net, e.src, e.dst, Copy(e.m))
    requires e.sends <==> Wants(cfg, e.dst, e.m) && e.m.from != e.dst && !Seen(net, e.dst, KeyOf(e.m))
    requires forall y, k :: Seen(net', y, k) <==> Seen(net, y, k) || (e.sends && y == e.dst && k == KeyOf(e.m))
    requires PublishedKeyed(net)
    ensures HopsServed(cfg, net')
  {
    hide Queue, Seen, Hop, Target;
    forall m, x, y | IsPublished(net', m) && HasSent(net', x, m) && Hop(cfg, m, x, y)
      ensures Seen(net', y, KeyOf(m)) || Copy(m) in Queue(net', x, y)
    {
      HopIsTarget(cfg, m, x, e.src, y);
      if HasSent(net, x, m) {
        if Copy(m) in Queue(net, x, y) && !(m == e.m && x == e.src && y == e.dst) {
          CopyStays(cfg, net, net', e, x, y, m);
        }
      } else {
        assert m == e.m && x == e.dst && e.sends;
      }
    }
  }

  // ---------- runs ----------

  ghost predicate CanRun(net: Net, steps: seq<Step>)
    decreases |steps|, 0
  {
    steps == [] || (CanRun(net, steps[..|steps| - 1])
      && Enabled(Run(net, steps[..|steps| - 1]), steps[|steps| - 1]))
  }

  ghost function Run(net: Net, steps: seq<Step>): Net
    requires CanRun(net, steps)
    decreases |steps|, 1
  {
    if steps == [] then net else Apply(Run(net, steps[..|steps| - 1]), steps[|steps| - 1])
  }

  lemma {:induction false} RunInv(cfg: Config, net: Net, steps: seq<Step>)
    requires Inv(cfg, net) && CanRun(net, steps)
    ensures Inv(cfg, Run(net, steps))
  {
    hide Inv, Enabled, Apply;
    if steps != [] {
      var before, s := Run(net, steps[..|steps| - 1]), steps[|steps| - 1];
      RunInv(cfg, net, steps[..|steps| - 1]);
      if s.Publish? { PublishInv(cfg, before, s); } else { DeliverInv(cfg, before, s); }
    }
  }

  // ---------- delivery ----------

  ghost predicate Quiet(net: Net, m: Message) { forall x, y :: Copy(m) !in Queue(net, x, y) }

  lemma {:induction false} PathIsServed(cfg: Config, net: Net, m: Message, path: seq<Peer>)
    requires HopsServed(cfg, net) && IsPublished(net, m) && Quiet(net, m)
    requires |path| > 1 && IsPath(cfg, m, path)
    ensures Seen(net, path[|path| - 1], KeyOf(m))
  {
    hide Hop, Seen, Queue;
    var last := |path| - 1;
    assert Hop(cfg, m, path[last - 1], path[last]);
    if last > 1 { PathIsServed(cfg, net, m, path[..last]); }
    assert HasSent(net, path[last - 1], m);
  }

  // Once a published message is on no link, the nodes that accepted it are those reachable from its
  // origin, each of them once, and never the origin.
  lemma DeliveredExactlyToReachable(cfg: Config, init: Net, steps: seq<Step>, m: Message)
    requires Init(cfg, init) && CanRun(init, steps)
    requires var net := Run(init, steps); IsPublished(net, m) && Quiet(net, m)
    ensures var net := Run(init, steps);
      && (forall y :: (y, m) in net.log <==> Reachable(cfg, m, y))
      && LogDistinct(net)
      && (m.from, m) !in net.log
  {
    InitInv(cfg, init);
    RunInv(cfg, init, steps);
    var net := Run(init, steps);
    forall y | Reachable(cfg, m, y) ensures Seen(net, y, KeyOf(m)) {
      var path :| |path| > 1 && IsPath(cfg, m, path) && path[|path| - 1] == y;
      PathIsServed(cfg, net, m, path);
    }
    forall y | Reachable(cfg, m, y) ensures y != m.from { ReachableIsNotOrigin(cfg, m, y); }
  }

  lemma ReachableIsNotOrigin(cfg: Config, m: Message, y: Peer)
    requires Reachable(cfg, m, y)
    ensures y != m.from
  {
    var path :| |path| > 1 && IsPath(cfg, m, path) && path[|path| - 1] == y;
    assert Hop(cfg, m, path[|path| - 2], path[|path| - 1]);
  }

  // ---------- what the subscribers receive ----------

  function Count(topics: seq<Topic>, t: Topic): nat {
    if topics == [] then 0 else (if topics[0] == t then 1 else 0) + Count(topics[1..], t)
  }

  function Repeat(d: Delivery, n: nat): seq<Delivery> { seq(n, _ => d) }

  // What the log says one topic queue of one node holds.
  function Deliveries(log: seq<(Peer, Message)>, y: Peer, t: Topic): seq<Delivery> {
    if log == [] then []
    else
      var (at, m) := log[|log| - 1];
      Deliveries(log[..|log| - 1], y, t)
        + if at == y then Repeat(Delivery(m.data, m.from), Count(m.topics, t)) else []
  }

  ghost predicate TopicQueuesMatchLog(net: Net) {
    forall y, t :: y in net.nodes && t in net.nodes[y].topicApi ==>
      net.nodes[y].topicApi[t] == Deliveries(net.log, y, t)
  }

  lemma {:induction false} NotifiedRepeats(api: map<Topic, seq<Delivery>>, topics: seq<Topic>, d: Delivery, t: Topic)
    requires t in api
    ensures Notified(api, topics, d)[t] == api[t] + Repeat(d, Count(topics, t))
    decreases |topics|
  {
    if topics != [] {
      var api' := if topics[0] in api then api[topics[0] := api[topics[0]] + [d]] else api;
      NotifiedRepeats(api', topics[1..], d, t);
    }
  }

  lemma DeliverTopics(cfg: Config, net: Net, s: Step)
    requires Configured(cfg, net) && s.Deliver? && Enabled(net, s)
    requires GoodCopy(cfg, net, s.src, s.dst, Queue(net, s.src, s.dst)[0])
    ensures var net', m := Apply(net, s), Head(net, s);
      && net'.nodes.Keys == net.nodes.Keys
      && forall y :: y in net.nodes ==>
           net'.nodes[y].topicApi == if y == s.dst && Accepts(net.nodes[y], m)
             then Notified(net.nodes[y].topicApi, m.topics, Delivery(m.data, m.from))
             else net.nodes[y].topicApi
  {
    hide NodeConfigured, Notified, Enqueue, Targets;
    var m := Head(net, s);
    var popped := Popped(net, s.src, s.dst);
    PopMoves(cfg, net, s.src, s.dst);
    AcceptsIgnoresQueues(net, popped, s.dst, m);
    IncomingCopy(popped.nodes[s.dst], m, s.src, s.now);
  }

  lemma DeliverTopicQueues(cfg: Config, net: Net, s: Step)
    requires Configured(cfg, net) && s.Deliver? && Enabled(net, s) && TopicQueuesMatchLog(net)
    requires GoodCopy(cfg, net, s.src, s.dst, Queue(net, s.src, s.dst)[0])
    ensures TopicQueuesMatchLog(Apply(net, s))
  {
    hide Apply, Notified, Accepts, Queue, NodeConfigured, Moves, Deliveries, Count;
    var net', m := Apply(net, s), Head(net, s);
    DeliverMoves(cfg, net, s);
    DeliverTopics(cfg, net, s);
    forall y, t | y in net'.nodes && t in net'.nodes[y].topicApi
      ensures net'.nodes[y].topicApi[t] == Deliveries(net'.log, y, t)
    {
      if Accepts(net.nodes[s.dst], m) {
        DeliveriesStep(net.log, s.dst, m, y, t);
        if y == s.dst { NotifiedRepeats(net.nodes[y].topicApi, m.topics, Delivery(m.data, m.from), t); }
      } else {
        assert net'.log == net.log;
      }
    }
  }

  lemma DeliveriesStep(log: seq<(Peer, Message)>, at: Peer, m: Message, y: Peer, t: Topic)
    ensures Deliveries(log + [(at, m)], y, t) ==
      Deliveries(log, y, t) + if at == y then Repeat(Delivery(m.data, m.from), Count(m.topics, t)) else []
  {
    assert (log + [(at, m)])[..|log|] == log;
  }

  lemma StepTopicQueues(cfg: Config, net: Net, s: Step)
    requires Inv(cfg, net) && Enabled(net, s) && TopicQueuesMatchLog(net)
    ensures TopicQueuesMatchLog(Apply(net, s))
  {
    if s.Deliver? {
      InvHeads(cfg, net, s);
      DeliverTopicQueues(cfg, net, s);
    }
  }

  lemma InvHeads(cfg: Config, net: Net, s: Step)
    requires Inv(cfg, net) && s.Deliver? && Queue(net, s.src, s.dst) != []
    ensures Configured(cfg, net) && GoodCopy(cfg, net, s.src, s.dst, Queue(net, s.src, s.dst)[0])
  {}

  // In every run, a topic queue holds one entry per occurrence of the topic in each message its node
  // accepted, in the order of acceptance.
  lemma {:induction false} TopicQueuesHoldWhatWasAccepted(cfg: Config, init: Net, steps: seq<Step>)
    requires Init(cfg, init) && CanRun(init, steps)
    ensures TopicQueuesMatchLog(Run(init, steps))
  {
    hide Inv, Enabled, Apply;
    if steps != [] {
      var before := steps[..|steps| - 1];
      TopicQueuesHoldWhatWasAccepted(cfg, init, before);
      InitInv(cfg, init);
      RunInv(cfg, init, before);
      StepTopicQueues(cfg, Run(init, before), steps[|steps| - 1]);
    }
  }

  // ---------- termination ----------

  ghost function Unseen(net: Net, m: Message): set<Peer>
    requires |m.seqno| == 8
  {
    set y | y in net.nodes && KeyOf(m) !in net.nodes[y].seen
  }

  // The links a copy is on; each link carries at most one (QueuesDistinct).
  ghost function Flight(net: Net, m: Message): set<(Peer, Peer)> {
    set x, y | x in net.nodes && y in net.nodes && Copy(m) in Queue(net, x, y) :: (x, y)
  }

  ghost function Work(net: Net, m: Message): nat
    requires |m.seqno| == 8
  {
    |Unseen(net, m)| * |net.nodes| + |Flight(net, m)|
  }

  lemma SubsetCard<T>(a: set<T>, b: set<T>)
    requires a <= b
    ensures |a| <= |b|
  {
    assert b == a + (b - a);
  }

  ghost function LinksOf(net: Net, x: Peer, sends: bool): set<(Peer, Peer)> {
    set y | y in net.nodes.Keys && sends :: (x, y)
  }

  // A copy taken off its link leaves it empty of copies; any other new copy is on a link of the sender.
  lemma FlightMoves(cfg: Config, net: Net, net': Net, e: Traffic)
    requires QueuesDistinct(net) && Moves(cfg, net, net', e) && net'.nodes.Keys == net.nodes.Keys
    requires e.pops && Queue(net, e.src, e.dst) != [] && Queue(net, e.src, e.dst)[0] == Copy(e.m)
    ensures Flight(net', e.m) <= Flight(net, e.m) - {(e.src, e.dst)} + LinksOf(net, e.at, e.sends)
  {
    hide Queue, Target;
    assert forall i :: 0 < i < |Queue(net, e.src, e.dst)| ==> Queue(net, e.src, e.dst)[i] != Copy(e.m);
    forall x, y | x in net.nodes && y in net.nodes && Copy(e.m) in Queue(net', x, y) && !(e.sends && x == e.at)
      ensures Copy(e.m) in Queue(net, x, y) && (x, y) != (e.src, e.dst)
    {
      assert Queue(net', x, y) == Left(net, e, x, y);
      var i :| 0 <= i < |Queue(net', x, y)| && Queue(net', x, y)[i] == Copy(e.m);
    }
  }

  lemma UnseenMoves(net: Net, net': Net, y: Peer, m: Message, accepts: bool)
    requires |m.seqno| == 8 && net'.nodes.Keys == net.nodes.Keys
    requires forall z, k :: Seen(net', z, k) <==> Seen(net, z, k) || (accepts && z == y && k == KeyOf(m))
    ensures Unseen(net', m) == Unseen(net, m) - if accepts then {y} else {}
  {
    forall z | z in net.nodes
      ensures z in Unseen(net', m) <==> (z in Unseen(net, m) && !(accepts && z == y))
    {
      assert Seen(net', z, KeyOf(m)) <==> Seen(net, z, KeyOf(m)) || (accepts && z == y);
    }
  }

  lemma {:induction false} LinksOfOneNode(nodes: set<Peer>, links: set<(Peer, Peer)>, x: Peer)
    requires forall l :: l in links ==> l.0 == x && l.1 in nodes
    ensures |links| <= |nodes|
    decreases nodes
  {
    if nodes != {} {
      var z :| z in nodes;
      LinksOfOneNode(nodes - {z}, links - {(x, z)}, x);
    } else {
      assert links == {};
    }
  }

  lemma WorkDrops(cfg: Config, net: Net, net': Net, e: Traffic)
    requires |e.m.seqno| == 8 && net'.nodes.Keys == net.nodes.Keys
    requires (e.src, e.dst) in Flight(net, e.m)
    requires Flight(net', e.m) <= Flight(net, e.m) - {(e.src, e.dst)} + LinksOf(net, e.at, e.sends)
    requires Unseen(net', e.m) == Unseen(net, e.m) - if e.sends then {e.at} else {}
    requires e.sends ==> e.at in Unseen(net, e.m)
    ensures Work(net', e.m) < Work(net, e.m)
  {
    hide Flight, Unseen;
    var m, links := e.m, LinksOf(net, e.at, e.sends);
    var rest := Flight(net, m) - {(e.src, e.dst)};
    assert |net.nodes.Keys| == |net.nodes| == |net'.nodes|;
    assert |rest| == |Flight(net, m)| - 1;
    SubsetCard(Flight(net', m), rest + links);
    if e.sends {
      LinksOfOneNode(net.nodes.Keys, links, e.at);
      assert |Unseen(net', m)| == |Unseen(net, m)| - 1;
    } else {
      assert links == {};
    }
    hide LinksOf;
    OneNodeLess(|Unseen(net, m)|, |net.nodes|);
  }

  lemma OneNodeLess(unseen: int, nodes: int)
    ensures (unseen - 1) * nodes + nodes == unseen * nodes
  {}

  // Every delivery of a copy of a message is progress on that message.
  lemma DeliveryDecreasesWork(cfg: Config, net: Net, s: Step)
    requires Inv(cfg, net) && s.Deliver? && Enabled(net, s)
    ensures GoodCopy(cfg, net, s.src, s.dst, Queue(net, s.src, s.dst)[0])
    ensures Work(Apply(net, s), Head(net, s)) < Work(net, Head(net, s))
  {
    InvHeads(cfg, net, s);
    hide Apply, Accepts, NodeConfigured, Queue, Target, Moves, Work, Seen;
    var net', m := Apply(net, s), Head(net, s);
    var e := Traffic(true, s.src, s.dst, Accepts(net.nodes[s.dst], m), s.dst, s.src, m);
    DeliverMoves(cfg, net, s);
    AcceptsIff(cfg, net, s.dst, m);
    FlightMoves(cfg, net, net', e);
    UnseenMoves(net, net', s.dst, m, e.sends);
    HeadInFlight(cfg, net, s);
    WorkDrops(cfg, net, net', e);
  }

  lemma HeadInFlight(cfg: Config, net: Net, s: Step)
    requires Configured(cfg, net) && s.Deliver? && Enabled(net, s)
    requires GoodCopy(cfg, net, s.src, s.dst, Queue(net, s.src, s.dst)[0])
    ensures (s.src, s.dst) in Flight(net, Head(net, s))
    ensures !Seen(net, s.dst, KeyOf(Head(net, s))) ==> s.dst in Unseen(net, Head(net, s))
  {
    assert Queue(net, s.src, s.dst)[0] == Copy(Head(net, s));
  }

  // A message is passed on only to peers listed for it, never to its origin or to the peer it came from.
  lemma NeverSentBack(cfg: Config, net: Net, s: Step, y: Peer)
    requires Inv(cfg, net) && s.Deliver? && Enabled(net, s)
    ensures GoodCopy(cfg, net, s.src, s.dst, Queue(net, s.src, s.dst)[0])
    ensures var net', m := Apply(net, s), Head(net, s);
      Copy(m) in Queue(net', s.dst, y) && Copy(m) !in Queue(net, s.dst, y) ==>
        y != s.src && y != m.from && ListedFor(cfg.listed[s.dst], m.topics, y)
  {
    InvHeads(cfg, net, s);
    hide Apply, Accepts, NodeConfigured, Queue, Seen, ListedFor;
    var net', m := Apply(net, s), Head(net, s);
    DeliverMoves(cfg, net, s);
    var e := Traffic(true, s.src, s.dst, Accepts(net.nodes[s.dst], m), s.dst, s.src, m);
    assert Queue(net', s.dst, y) == Left(net, e, s.dst, y) + Added(cfg, e, s.dst, y);
  }

  // In every run, no link to a node holds a copy of a message that node published.
  lemma NoCopyToOrigin(cfg: Config, init: Net, steps: seq<Step>, x: Peer, m: Message)
    requires Init(cfg, init) && CanRun(init, steps)
    ensures Copy(m) !in Queue(Run(init, steps), x, m.from)
  {
    InitInv(cfg, init);
    RunInv(cfg, init, steps);
    hide Run;
    QueuedIsGood(cfg, Run(init, steps), x, m.from, m);
  }

  // What a step leaves in place.
  lemma StepKeeps(cfg: Config, net: Net, s: Step)
    requires Inv(cfg, net) && Enabled(net, s)
    ensures forall m :: IsPublished(net, m) ==> IsPublished(Apply(net, s), m)
    ensures forall y, k :: Seen(net, y, k) ==> Seen(Apply(net, s), y, k)
    ensures Inv(cfg, Apply(net, s))
  {
    hide Inv, Apply, Configured;
    if s.Publish? {
      PublishInv(cfg, net, s);
      assert Configured(cfg, net) by { InvConfigured(cfg, net); }
      PublishMoves(cfg, net, s);
      assert Apply(net, s).published == net.published[KeyOf(Stamp(s)) := Stamp(s)] by { PublishNotes(net, s); }
    } else {
      DeliverInv(cfg, net, s);
      InvHeads(cfg, net, s);
      DeliverMoves(cfg, net, s);
    }
  }

  lemma InvConfigured(cfg: Config, net: Net)
    requires Inv(cfg, net)
    ensures Configured(cfg, net)
  {}

  lemma PublishNotes(net: Net, s: Step)
    requires s.Publish? && Enabled(net, s)
    ensures Apply(net, s).published == net.published[KeyOf(Stamp(s)) := Stamp(s)]
  {}

  // The step in which a node puts a message on its links.
  ghost predicate Sends(net: Net, s: Step, x: Peer, m: Message)
    requires Enabled(net, s)
  {
    match s
    case Publish(at, _, _, _) => at == x && Stamp(s) == m
    case Deliver(src, dst, _) => dst == x && Queue(net, src, dst)[0] == Copy(m) && Accepts(net.nodes[dst], m)
  }

  lemma SendsMeansSent(cfg: Config, net: Net, s: Step, x: Peer, m: Message)
    requires Inv(cfg, net) && Enabled(net, s) && Sends(net, s, x, m)
    ensures |m.seqno| == 8 && !(IsPublished(net, m) && HasSent(net, x, m))
    ensures IsPublished(Apply(net, s), m) && HasSent(Apply(net, s), x, m)
  {
    if s.Deliver? {
      InvHeads(cfg, net, s);
      DeliverMoves(cfg, net, s);
      AcceptsIff(cfg, net, s.dst, m);
    }
  }

  lemma {:induction false} SentStaysSent(cfg: Config, net: Net, steps: seq<Step>, x: Peer, m: Message)
    requires Inv(cfg, net) && CanRun(net, steps) && IsPublished(net, m) && HasSent(net, x, m)
    ensures IsPublished(Run(net, steps), m) && HasSent(Run(net, steps), x, m)
  {
    hide Inv, Enabled, Apply, IsPublished, Seen;
    if steps != [] {
      var before := steps[..|steps| - 1];
      SentStaysSent(cfg, net, before, x, m);
      RunInv(cfg, net, before);
      StepKeeps(cfg, Run(net, before), steps[|steps| - 1]);
    }
  }

  // In a run, no node puts the same message on its links twice.
  lemma SendsAtMostOnce(cfg: Config, net: Net, s: Step, between: seq<Step>, again: Step, x: Peer, m: Message)
    requires Inv(cfg, net) && Enabled(net, s) && Sends(net, s, x, m)
    requires CanRun(Apply(net, s), between) && Enabled(Run(Apply(net, s), between), again)
    ensures !Sends(Run(Apply(net, s), between), again, x, m)
  {
    hide Inv, Enabled, Apply, IsPublished, Seen, Sends, Run;
    StepKeeps(cfg, net, s);
    SendsMeansSent(cfg, net, s, x, m);
    SentStaysSent(cfg, Apply(net, s), between, x, m);
    RunInv(cfg, Apply(net, s), between);
    if Sends(Run(Apply(net, s), between), again, x, m) {
      SendsMeansSent(cfg, Run(Apply(net, s), between), again, x, m);
      assert false;
    }
  }

  ghost predicate Hands(net: Net, s: Step, m: Message)
    requires Enabled(net, s)
  {
    s.Deliver? && Queue(net, s.src, s.dst)[0] == Copy(m)
  }

  // Steps that do not hand over a copy of a message leave its work as it is.
  lemma OtherStepsKeepWork(cfg: Config, net: Net, s: Step, m: Message)
    requires Inv(cfg, net) && Enabled(net, s) && IsPublished(net, m) && !Hands(net, s, m)
    ensures Work(Apply(net, s), m) == Work(net, m)
  {
    var net' := Apply(net, s);
    InvConfigured(cfg, net);
    if s.Publish? {
      PublishMoves(cfg, net, s);
      OthersMove(cfg, net, net', Traffic(false, s.at, s.at, true, s.at, s.at, Stamp(s)), m);
    } else {
      InvHeads(cfg, net, s);
      DeliverMoves(cfg, net, s);
      var h := Head(net, s);
      OthersMove(cfg, net, net', Traffic(true, s.src, s.dst, Accepts(net.nodes[s.dst], h), s.dst, s.src, h), m);
    }
  }

  lemma OthersMove(cfg: Config, net: Net, net': Net, e: Traffic, m: Message)
    requires Configured(cfg, net) && Configured(cfg, net') && Moves(cfg, net, net', e) && e.m != m && |m.seqno| == 8
    requires e.pops ==> Queue(net, e.src, e.dst) != [] && Queue(net, e.src, e.dst)[0] == Copy(e.m)
    requires forall y :: Seen(net', y, KeyOf(m)) <==> Seen(net, y, KeyOf(m))
    ensures Work(net', m) == Work(net, m)
  {
    hide Queue, Target, NodeConfigured;
    forall x, y ensures Copy(m) in Queue(net', x, y) <==> Copy(m) in Queue(net, x, y) {
      if Copy(m) in Queue(net, x, y) { CopyStays(cfg, net, net', e, x, y, m); }
    }
    assert net'.nodes.Keys == net.nodes.Keys;
    assert |net'.nodes| == |net'.nodes.Keys| == |net.nodes|;
    assert Flight(net', m) == Flight(net, m);
    forall y | y in net.nodes ensures y in Unseen(net', m) <==> y in Unseen(net, m) {
      assert Seen(net', y, KeyOf(m)) <==> Seen(net, y, KeyOf(m));
    }
    assert Unseen(net', m) == Unseen(net, m);
  }

  ghost function Handed(net: Net, steps: seq<Step>, m: Message): nat
    requires CanRun(net, steps)
  {
    if steps == [] then 0
    else
      var before := steps[..|steps| - 1];
      Handed(net, before, m) + if Hands(Run(net, before), steps[|steps| - 1], m) then 1 else 0
  }

  // So the flood of a message ends: no run hands over more copies than the work there was.
  lemma {:induction false} FloodEnds(cfg: Config, net: Net, steps: seq<Step>, m: Message)
    requires Inv(cfg, net) && CanRun(net, steps) && IsPublished(net, m)
    ensures IsPublished(Run(net, steps), m)
    ensures Handed(net, steps, m) + Work(Run(net, steps), m) <= Work(net, m)
  {
    hide Inv, Enabled, Apply, IsPublished, Seen, Work, Queue;
    if steps != [] {
      var before, s := steps[..|steps| - 1], steps[|steps| - 1];
      FloodEnds(cfg, net, before, m);
      RunInv(cfg, net, before);
      StepKeeps(cfg, Run(net, before), s);
      if Hands(Run(net, before), s, m) {
        DeliveryDecreasesWork(cfg, Run(net, before), s);
      } else {
        OtherStepsKeepWork(cfg, Run(net, before), s, m);
      }
    }
  }

  // Whatever waits on a link can be delivered.
  lemma DeliveryIsEnabled(cfg: Config, net: Net, x: Peer, y: Peer, now: nat)
    requires Inv(cfg, net) && Queue(net, x, y) != []
    ensures Enabled(net, Deliver(x, y, now))
  {
    assert GoodCopy(cfg, net, x, y, Queue(net, x, y)[0]);
    assert NodeConfigured(cfg, x, net.nodes[x]);
  }

  // Taking the oldest frame off a link brings the copies behind it forward.
  lemma CopyAdvances(cfg: Config, net: Net, x: Peer, y: Peer, now: nat, m: Message, i: nat)
    requires Inv(cfg, net) && i < |Queue(net, x, y)| && Queue(net, x, y)[i] == Copy(m) && i > 0
    ensures Enabled(net, Deliver(x, y, now)) && Inv(cfg, Apply(net, Deliver(x, y, now)))
    ensures var queue := Queue(Apply(net, Deliver(x, y, now)), x, y);
      i - 1 < |queue| && queue[i - 1] == Copy(m)
    ensures !Hands(net, Deliver(x, y, now), m)
  {
    var s := Deliver(x, y, now);
    DeliveryIsEnabled(cfg, net, x, y, now);
    DeliverInv(cfg, net, s);
    InvHeads(cfg, net, s);
    assert QueuesDistinct(net);
    hide Inv, Apply, Queue, Target, Accepts, Enabled, NodeConfigured;
    DeliverMoves(cfg, net, s);
    var e := Traffic(true, x, y, Accepts(net.nodes[y], Head(net, s)), y, x, Head(net, s));
    assert Queue(Apply(net, s), x, y) == Left(net, e, x, y) + Added(cfg, e, x, y);
  }

  // From every state a run of deliveries takes the message off every link, so that it is delivered to
  // exactly the reachable subscribers. `done` are the deliveries so far.
  lemma {:induction false} FloodCanEnd(cfg: Config, net: Net, done: seq<Step>, m: Message, now: nat)
      returns (steps: seq<Step>)
    requires Inv(cfg, net) && CanRun(net, done) && IsPublished(Run(net, done), m)
    ensures done <= steps && CanRun(net, steps)
    ensures IsPublished(Run(net, steps), m) && Quiet(Run(net, steps), m)
    ensures forall i :: |done| <= i < |steps| ==> steps[i].Deliver?
    decreases Work(Run(net, done), m), 1, 0
  {
    RunInv(cfg, net, done);
    if Quiet(Run(net, done), m) {
      steps := done;
    } else {
      var x, y :| Copy(m) in Queue(Run(net, done), x, y);
      var i :| 0 <= i < |Queue(Run(net, done), x, y)| && Queue(Run(net, done), x, y)[i] == Copy(m);
      steps := CopyCanArrive(cfg, net, done, m, now, x, y, i);
    }
  }

  lemma {:induction false} CopyCanArrive(
      cfg: Config, net: Net, done: seq<Step>, m: Message, now: nat, x: Peer, y: Peer, i: nat)
      returns (steps: seq<Step>)
    requires Inv(cfg, net) && CanRun(net, done) && IsPublished(Run(net, done), m)
    requires i < |Queue(Run(net, done), x, y)| && Queue(Run(net, done), x, y)[i] == Copy(m)
    ensures done <= steps && CanRun(net, steps)
    ensures IsPublished(Run(net, steps), m) && Quiet(Run(net, steps), m)
    ensures forall j :: |done| <= j < |steps| ==> steps[j].Deliver?
    decreases Work(Run(net, done), m), 0, i
  {
    hide Inv, Enabled, Apply, IsPublished, Seen, Work, Queue, Quiet;
    var before, s := Run(net, done), Deliver(x, y, now);
    RunInv(cfg, net, done);
    DeliveryIsEnabled(cfg, before, x, y, now);
    StepKeeps(cfg, before, s);
    assert (done + [s])[..|done|] == done;
    assert CanRun(net, done + [s]) && Run(net, done + [s]) == Apply(before, s);
    if i == 0 {
      DeliveryDecreasesWork(cfg, before, s);
      steps := FloodCanEnd(cfg, net, done + [s], m, now);
    } else {
      CopyAdvances(cfg, before, x, y, now, m, i);
      OtherStepsKeepWork(cfg, before, s, m);
      steps := CopyCanArrive(cfg, net, done + [s], m, now, x, y, i - 1);
    }
  }

  // So in every run a published message can still reach exactly the subscribers it should.
  lemma DeliveryCanComplete(cfg: Config, init: Net, run: seq<Step>, m: Message, now: nat)
      returns (steps: seq<Step>)
    requires Init(cfg, init) && CanRun(init, run) && IsPublished(Run(init, run), m)
    ensures run <= steps && CanRun(init, steps) && forall i :: |run| <= i < |steps| ==> steps[i].Deliver?
    ensures forall y :: (y, m) in Run(init, steps).log <==> Reachable(cfg, m, y)
  {
    InitInv(cfg, init);
    RunInv(cfg, init, run);
    hide Inv, Enabled, Apply, IsPublished, Run, Reachable;
    steps := FloodCanEnd(cfg, init, run, m, now);
    DeliveredExactlyToReachable(cfg, init, steps, m);
  }
}
