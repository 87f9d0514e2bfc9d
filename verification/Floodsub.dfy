/**
 One floodsub node: the peer table with an outgoing queue per peer, the topics peers announced, the
 queues of the topics subscribed here, and the cache of message keys seen.

 Each handler is one atomic step. Queues are unbounded and the clock is a parameter. The functions
 say what a handler makes of a node; the class does it in place.
 */
module Floodsub {
  import opened Bytes
  import opened Wrappers

  type Peer = string
  type Topic = string

  datatype Message = Message(from: Peer, data: seq<byte>, seqno: seq<byte>, topics: seq<Topic>)

  datatype Key = Key(from: Peer, seqno: nat)

  datatype SubOpts = SubOpts(subscribe: bool, topic: Topic)

  datatype Rpc = Rpc(publish: seq<Message>, subscriptions: seq<SubOpts>)

  datatype GlobalEvent = TopicAdded(topic: Topic) | TopicDropped(topic: Topic)

  datatype Delivery = Delivery(data: seq<byte>, from: Peer)

  datatype Node = Node(
    self: Peer,
    peerTopics: map<Topic, seq<Peer>>,
    peers: map<Peer, seq<Rpc>>,
    topicApi: map<Topic, seq<Delivery>>,
    seen: map<Key, nat>)

  // The sequence number of a message published at `now`, and its value read back.
  function Seqno(now: nat): seq<byte> { ToLe(now, 8) }

  function SeqnoValue(seqno: seq<byte>): (v: Option<nat>) {
    if |seqno| != 8 then None else Some(FromLe(seqno))
  }

  // The key is only defined for an eight-byte sequence number; the source panics on any other.
  function KeyOf(m: Message): Key
    requires |m.seqno| == 8
  {
    Key(m.from, SeqnoValue(m.seqno).value)
  }

  lemma SeqnoRoundTrip(now: nat)
    requires now < Pow256(8)
    ensures SeqnoValue(Seqno(now)) == Some(now)
  {
    LeRoundTrip(now, 8);
  }

  // Eight bytes, the least significant first; no other length has a value.
  lemma SeqnoLayout(now: nat, i: nat, seqno: seq<byte>)
    requires i < 8
    ensures |Seqno(now)| == 8 && Seqno(now)[i] == (now / Pow256(i)) % 256
    ensures SeqnoValue(seqno).Some? <==> |seqno| == 8
  {
    LeDigit(now, 8, i);
  }

  // ---------- sending ----------

  // The peers announced for one of the topics, but not the forwarder or the origin.
  function Targets(peerTopics: map<Topic, seq<Peer>>, topics: seq<Topic>, forwarder: Peer, origin: Peer): set<Peer> {
    set t, p | t in topics && t in peerTopics && p in peerTopics[t] && p != forwarder && p != origin :: p
  }

  function Enqueue(peers: map<Peer, seq<Rpc>>, targets: set<Peer>, rpc: Rpc): map<Peer, seq<Rpc>> {
    map p | p in peers :: if p in targets then peers[p] + [rpc] else peers[p]
  }

  ghost predicate ListedHavePeers(n: Node) {
    forall t, p :: t in n.peerTopics && p in n.peerTopics[t] ==> p in n.peers
  }

  function Published(n: Node, forwarder: Peer, m: Message): Node {
    n.(peers := Enqueue(n.peers, Targets(n.peerTopics, m.topics, forwarder, m.from), Rpc([m], [])))
  }

  // ---------- receiving ----------

  function Notified(api: map<Topic, seq<Delivery>>, topics: seq<Topic>, d: Delivery): (r: map<Topic, seq<Delivery>>)
    ensures r.Keys == api.Keys
  {
    if topics == [] then api
    else Notified(if topics[0] in api then api[topics[0] := api[topics[0]] + [d]] else api, topics[1..], d)
  }

  ghost predicate Subscribed(n: Node, m: Message) {
    exists t :: t in m.topics && t in n.topicApi
  }

  // The cache after a key was checked: a new one is noted with the time.
  function Checked(seen: map<Key, nat>, key: Key, now: nat): map<Key, nat> {
    if key in seen then seen else seen[key := now]
  }

  // A message not our own and not seen is noted, handed to its topics and passed on.
  function Consumed(n: Node, forwarder: Peer, m: Message, now: nat): Node
    requires m.from == n.self || |m.seqno| == 8
  {
    if m.from == n.self || KeyOf(m) in n.seen then n
    else Published(
      n.(seen := Checked(n.seen, KeyOf(m), now), topicApi := Notified(n.topicApi, m.topics, Delivery(m.data, m.from))),
      forwarder, m)
  }

  // Accepting the message finds every peer it is passed on to in the table.
  ghost predicate CanPassOn(n: Node, forwarder: Peer, m: Message)
    requires m.from == n.self || |m.seqno| == 8
  {
    m.from == n.self || KeyOf(m) in n.seen
    || Targets(n.peerTopics, m.topics, forwarder, m.from) <= n.peers.Keys
  }

  // The key of a message is computed only when a topic of it is subscribed and it is not our own.
  ghost predicate HasKey(n: Node, m: Message) {
    Subscribed(n, m) && m.from != n.self ==> |m.seqno| == 8
  }

  ghost function AfterMessages(n: Node, forwarder: Peer, msgs: seq<Message>, now: nat): (r: Node)
    requires forall m :: m in msgs ==> HasKey(n, m)
    ensures r.self == n.self
  {
    if msgs == [] then n
    else
      var n' := AfterMessages(n, forwarder, msgs[..|msgs| - 1], now);
      var m := msgs[|msgs| - 1];
      assert HasKey(n, m);
      if Subscribed(n, m) then Consumed(n', forwarder, m, now) else n'
  }

  function Without(list: seq<Peer>, p: Peer): (r: seq<Peer>)
    ensures forall q :: q in r <==> q in list && q != p
  {
    if list == [] then [] else (if list[0] == p then [] else [list[0]]) + Without(list[1..], p)
  }

  function AfterSubOpts(n: Node, p: Peer, sub: SubOpts): Node {
    var t := sub.topic;
    if sub.subscribe then
      if t !in n.peerTopics then n.(peerTopics := n.peerTopics[t := [p]])
      else if p in n.peerTopics[t] then n
      else n.(peerTopics := n.peerTopics[t := n.peerTopics[t] + [p]])
    else if t in n.peerTopics then n.(peerTopics := n.peerTopics[t := Without(n.peerTopics[t], p)])
    else n
  }

  function AfterSubscriptions(n: Node, p: Peer, subs: seq<SubOpts>): Node {
    if subs == [] then n
    else AfterSubOpts(AfterSubscriptions(n, p, subs[..|subs| - 1]), p, subs[|subs| - 1])
  }

  // No message of the frame that is consumed lacks a key or a peer to be passed on to.
  ghost predicate LookupsSucceed(n: Node, rpc: Rpc, p: Peer, now: nat) {
    && (forall m :: m in rpc.publish ==> HasKey(n, m))
    && forall i :: 0 <= i < |rpc.publish| && Subscribed(n, rpc.publish[i]) ==>
         assert HasKey(n, rpc.publish[i]);
         CanPassOn(AfterMessages(n, p, rpc.publish[..i], now), p, rpc.publish[i])
  }

  ghost function Incoming(n: Node, rpc: Rpc, p: Peer, now: nat): Node
    requires forall m :: m in rpc.publish ==> HasKey(n, m)
  {
    AfterSubscriptions(AfterMessages(n, p, rpc.publish, now), p, rpc.subscriptions)
  }

  // ---------- membership ----------

  function WithoutPeer(peerTopics: map<Topic, seq<Peer>>, p: Peer): map<Topic, seq<Peer>> {
    map t | t in peerTopics :: Without(peerTopics[t], p)
  }

  // The peers are dropped in order, up to the first one not in the table.
  function AfterDeadPeers(n: Node, ids: seq<Peer>): Node
    decreases |ids|
  {
    if ids == [] || ids[0] !in n.peers then n
    else AfterDeadPeers(n.(peers := n.peers - {ids[0]}, peerTopics := WithoutPeer(n.peerTopics, ids[0])), ids[1..])
  }

  // A hello packet announces each subscribed topic once, in any order.
  ghost predicate IsHello(n: Node, rpc: Rpc) {
    && rpc.publish == [] && |rpc.subscriptions| == |n.topicApi|
    && (forall s :: s in rpc.subscriptions ==> s.subscribe && s.topic in n.topicApi)
    && (forall t :: t in n.topicApi ==> SubOpts(true, t) in rpc.subscriptions)
  }

  // ---------- the cache ----------

  const LAST_SEEN_TTL: nat := 120

  // Subtraction that stops at zero, for a clock that was set back.
  function Age(now: nat, firstSeen: nat): nat { if now >= firstSeen then now - firstSeen else 0 }

  function Cleaned(seen: map<Key, nat>, now: nat): map<Key, nat> {
    map k | k in seen && Age(now, seen[k]) <= LAST_SEEN_TTL :: seen[k]
  }

  // ---------- the node in place ----------

  class FloodSub {
    const localPeer: Peer
    var peerTopics: map<Topic, seq<Peer>>
    var peers: map<Peer, seq<Rpc>>
    var topicApi: map<Topic, seq<Delivery>>
    var seen: map<Key, nat>

    // What the application is told, and the topics a receive loop was started for.
    var events: seq<GlobalEvent>
    var receivers: seq<Topic>

    ghost function Abstract(): Node
      reads this
    {
      Node(localPeer, peerTopics, peers, topicApi, seen)
    }

    constructor (localPeer: Peer)
      ensures Abstract() == Node(localPeer, map[], map[], map[], map[]) && events == [] && receivers == []
    {
      this.localPeer := localPeer;
      peerTopics, peers, topicApi, seen, events, receivers := map[], map[], map[], map[], [], [];
    }

    method GetPeersToSend(topics: seq<Topic>, forwarder: Peer, origin: Peer) returns (targets: set<Peer>)
      ensures targets == Targets(peerTopics, topics, forwarder, origin)
    {
      targets := {};
      for i := 0 to |topics|
        invariant targets == Targets(peerTopics, topics[..i], forwarder, origin)
      {
        var t := topics[i];
        assert topics[..i + 1] == topics[..i] + [t];
        if t in peerTopics {
          var list := peerTopics[t];
          ghost var before := targets;
          for j := 0 to |list|
            invariant targets == before + set p | p in list[..j] && p != forwarder && p != origin
          {
            if list[j] != forwarder && list[j] != origin {
              targets := targets + {list[j]};
            }
            assert list[..j + 1] == list[..j] + [list[j]];
          }
          assert list[..|list|] == list;
        }
      }
      assert topics[..|topics|] == topics;
    }

    // The lookup of the peer panics when the table does not have it.
    method WriteMsg(p: Peer, rpc: Rpc)
      requires p in peers
      modifies this`peers
      ensures peers == old(peers)[p := old(peers[p]) + [rpc]]
    {
      peers := peers[p := peers[p] + [rpc]];
    }

    method Publish(forwarder: Peer, m: Message)
      requires Targets(peerTopics, m.topics, forwarder, m.from) <= peers.Keys
      modifies this`peers
      ensures Abstract() == Published(old(Abstract()), forwarder, m)
    {
      var targets := GetPeersToSend(m.topics, forwarder, m.from);
      hide Targets;
      var rest := targets;
      while rest != {}
        invariant rest <= targets && targets <= peers.Keys
        invariant peers == Enqueue(old(peers), targets - rest, Rpc([m], []))
      {
        var p :| p in rest;
        WriteMsg(p, Rpc([m], []));
        rest := rest - {p};
      }
    }

    // The API request: stamp the message with the local peer and the clock, and publish it.
    method PublishLocal(topics: seq<Topic>, data: seq<byte>, now: nat)
      requires Targets(peerTopics, topics, localPeer, localPeer) <= peers.Keys
      modifies this`peers
      ensures Abstract() == Published(old(Abstract()), localPeer, Message(localPeer, data, Seqno(now), topics))
    {
      Publish(localPeer, Message(localPeer, data, Seqno(now), topics));
    }

    method IsMsgSeen(m: Message, now: nat) returns (known: bool)
      requires |m.seqno| == 8
      modifies this`seen
      ensures known == (KeyOf(m) in old(seen))
      ensures seen == Checked(old(seen), KeyOf(m), now)
    {
      var key := Key(m.from, FromLe(m.seqno));
      if key in seen {
        return true;
      }
      seen := seen[key := now];
      return false;
    }

    method CleanupMsgCache(now: nat)
      modifies this`seen
      ensures seen == Cleaned(old(seen), now)
      ensures forall k :: k in seen <==> k in old(seen) && now <= old(seen)[k] + 120
      ensures forall k :: k in seen ==> seen[k] == old(seen)[k]
    {
      var rest := seen.Keys;
      while rest != {}
        invariant rest <= old(seen).Keys && rest <= seen.Keys <= old(seen).Keys
        invariant forall k :: k in old(seen) && k !in rest ==>
          (k in seen <==> Age(now, old(seen)[k]) <= LAST_SEEN_TTL)
        invariant forall k :: k in seen ==> seen[k] == old(seen)[k]
      {
        var k :| k in rest;
        if Age(now, seen[k]) > LAST_SEEN_TTL {
          seen := seen - {k};
        }
        rest := rest - {k};
      }
    }

    method NotifySubscription(t: Topic, m: Message)
      requires t in topicApi
      modifies this`topicApi
      ensures topicApi == old(topicApi)[t := old(topicApi[t]) + [Delivery(m.data, m.from)]]
    {
      topicApi := topicApi[t := topicApi[t] + [Delivery(m.data, m.from)]];
    }

    method ConsumePubsubMsg(forwarder: Peer, m: Message, now: nat)
      requires m.from == localPeer || |m.seqno| == 8
      requires CanPassOn(Abstract(), forwarder, m)
      modifies this`seen, this`topicApi, this`peers
      ensures Abstract() == Consumed(old(Abstract()), forwarder, m, now)
      ensures peers.Keys == old(peers.Keys) && topicApi.Keys == old(topicApi.Keys)
    {
      if m.from == localPeer {
        return;
      }
      var known := IsMsgSeen(m, now);
      if known {
        return;
      }
      var d := Delivery(m.data, m.from);
      for i := 0 to |m.topics|
        invariant Notified(old(topicApi), m.topics, d) == Notified(topicApi, m.topics[i..], d)
        invariant topicApi.Keys == old(topicApi.Keys)
        invariant seen == Checked(old(seen), KeyOf(m), now) && peers == old(peers) && peerTopics == old(peerTopics)
      {
        assert m.topics[i..][1..] == m.topics[i + 1..];
        if m.topics[i] in topicApi {
          NotifySubscription(m.topics[i], m);
        }
      }
      Publish(forwarder, m);
    }

    method HandleSubOpts(p: Peer, sub: SubOpts)
      modifies this`peerTopics
      ensures Abstract() == AfterSubOpts(old(Abstract()), p, sub)
    {
      var t := sub.topic;
      if sub.subscribe {
        if t in peerTopics {
          if p !in peerTopics[t] {
            peerTopics := peerTopics[t := peerTopics[t] + [p]];
          }
        } else {
          peerTopics := peerTopics[t := [p]];
        }
      } else if t in peerTopics {
        var list := Retain(peerTopics[t], p);
        peerTopics := peerTopics[t := list];
      }
    }

    method HandleIncoming(rpc: Rpc, p: Peer, now: nat)
      requires LookupsSucceed(Abstract(), rpc, p, now)
      modifies this`seen, this`topicApi, this`peers, this`peerTopics
      ensures Abstract() == Incoming(old(Abstract()), rpc, p, now)
    {
      var subscribedTopics := topicApi.Keys;
      for i := 0 to |rpc.publish|
        invariant topicApi.Keys == subscribedTopics
        invariant Abstract() == AfterMessages(old(Abstract()), p, rpc.publish[..i], now)
      {
        var m := rpc.publish[i];
        assert rpc.publish[..i + 1][..i] == rpc.publish[..i];
        var wanted := false;
        for j := 0 to |m.topics|
          invariant wanted <==> exists t :: t in m.topics[..j] && t in subscribedTopics
        {
          assert m.topics[..j + 1] == m.topics[..j] + [m.topics[j]];
          if m.topics[j] in subscribedTopics {
            wanted := true;
          }
        }
        assert m.topics[..|m.topics|] == m.topics;
        assert wanted <==> Subscribed(old(Abstract()), m);
        assert HasKey(old(Abstract()), m);
        if wanted {
          ConsumePubsubMsg(p, m, now);
        }
      }
      assert rpc.publish[..|rpc.publish|] == rpc.publish;
      ghost var n' := Abstract();
      for i := 0 to |rpc.subscriptions|
        invariant Abstract() == AfterSubscriptions(n', p, rpc.subscriptions[..i])
      {
        assert rpc.subscriptions[..i + 1][..i] == rpc.subscriptions[..i];
        HandleSubOpts(p, rpc.subscriptions[i]);
      }
      assert rpc.subscriptions[..|rpc.subscriptions|] == rpc.subscriptions;
    }

    method MessageAllPeers(rpc: Rpc)
      modifies this`peers
      ensures peers == Enqueue(old(peers), old(peers).Keys, rpc)
    {
      var rest := peers.Keys;
      while rest != {}
        invariant rest <= peers.Keys
        invariant peers == Enqueue(old(peers), old(peers).Keys - rest, rpc)
      {
        var p :| p in rest;
        peers := peers[p := peers[p] + [rpc]];
        rest := rest - {p};
      }
    }

    method Subscribe(t: Topic)
      modifies this`topicApi, this`peers, this`events, this`receivers
      ensures var n := old(Abstract());
        Abstract() == if t in n.topicApi then n
          else n.(topicApi := n.topicApi[t := []], peers := Enqueue(n.peers, n.peers.Keys, Rpc([], [SubOpts(true, t)])))
      ensures events == old(events) + if t in old(topicApi) then [] else [TopicAdded(t)]
      ensures receivers == old(receivers) + if t in old(topicApi) then [] else [t]
    {
      if t in topicApi {
        return;
      }
      events := events + [TopicAdded(t)];
      topicApi := topicApi[t := []];
      MessageAllPeers(Rpc([], [SubOpts(true, t)]));
      receivers := receivers + [t];
    }

    // Topics are dropped in order, up to the first one not subscribed.
    method Unsubscribe(topics: seq<Topic>)
      modifies this`topicApi, this`peers, this`events
      ensures Abstract() == AfterUnsubscribe(old(Abstract()), topics)
      ensures events == old(events) + Drops(old(topicApi).Keys, topics)
    {
      for i := 0 to |topics|
        invariant AfterUnsubscribe(old(Abstract()), topics) == AfterUnsubscribe(Abstract(), topics[i..])
        invariant old(events) + Drops(old(topicApi).Keys, topics) == events + Drops(topicApi.Keys, topics[i..])
      {
        if topics[i] !in topicApi {
          return;
        }
        assert topics[i..][1..] == topics[i + 1..];
        events := events + [TopicDropped(topics[i])];
        topicApi := topicApi - {topics[i]};
        MessageAllPeers(Rpc([], [SubOpts(false, topics[i])]));
      }
    }

    method GetHelloPacket() returns (rpc: Option<Rpc>)
      ensures rpc.None? <==> topicApi == map[]
      ensures rpc.Some? ==> IsHello(Abstract(), rpc.value)
    {
      if topicApi == map[] {
        return None;
      }
      var subs: seq<SubOpts> := [];
      var rest := topicApi.Keys;
      while rest != {}
        invariant rest <= topicApi.Keys && |subs| + |rest| == |topicApi.Keys|
        invariant forall s :: s in subs ==> s.subscribe && s.topic in topicApi
        invariant forall t :: t in topicApi ==> t in rest || SubOpts(true, t) in subs
      {
        var t :| t in rest;
        subs := subs + [SubOpts(true, t)];
        rest := rest - {t};
      }
      assert |topicApi.Keys| == |topicApi|;
      return Some(Rpc([], subs));
    }

    // A peer that connects gets a queue of its own, with the hello packet first.
    method HandleNewPeer(p: Peer)
      modifies this`peers
      ensures var n := old(Abstract());
        exists queue :: Abstract() == n.(peers := n.peers[p := queue])
          && (if n.topicApi == map[] then queue == [] else |queue| == 1 && IsHello(n, queue[0]))
    {
      peers := peers[p := []];
      var hello := GetHelloPacket();
      ghost var queue: seq<Rpc> := [];
      if hello.Some? {
        WriteMsg(p, hello.value);
        queue := [] + [hello.value];
      }
      assert peers == old(peers)[p := queue];
      assert Abstract() == old(Abstract()).(peers := old(peers)[p := queue]);
    }

    method DropFromTopics(p: Peer)
      modifies this`peerTopics
      ensures peerTopics == WithoutPeer(old(peerTopics), p)
    {
      var rest := peerTopics.Keys;
      while rest != {}
        invariant rest <= peerTopics.Keys == old(peerTopics).Keys
        invariant forall t :: t in old(peerTopics) ==>
          peerTopics[t] == if t in rest then old(peerTopics)[t] else Without(old(peerTopics)[t], p)
      {
        var t :| t in rest;
        var list := Retain(peerTopics[t], p);
        peerTopics := peerTopics[t := list];
        rest := rest - {t};
      }
    }

    method HandleDeadPeers(ids: seq<Peer>)
      modifies this`peers, this`peerTopics
      ensures Abstract() == AfterDeadPeers(old(Abstract()), ids)
    {
      for i := 0 to |ids|
        invariant AfterDeadPeers(old(Abstract()), ids) == AfterDeadPeers(Abstract(), ids[i..])
      {
        if ids[i] !in peers {
          return;
        }
        assert ids[i..][1..] == ids[i + 1..];
        peers := peers - {ids[i]};
        DropFromTopics(ids[i]);
      }
    }
  }

  function AfterUnsubscribe(n: Node, topics: seq<Topic>): Node
    decreases |topics|
  {
    if topics == [] || topics[0] !in n.topicApi then n
    else
      var peers := Enqueue(n.peers, n.peers.Keys, Rpc([], [SubOpts(false, topics[0])]));
      AfterUnsubscribe(n.(topicApi := n.topicApi - {topics[0]}, peers := peers), topics[1..])
  }

  lemma {:induction false} MessagesKeepTables(n: Node, forwarder: Peer, msgs: seq<Message>, now: nat)
    requires forall m :: m in msgs ==> HasKey(n, m)
    ensures var n' := AfterMessages(n, forwarder, msgs, now);
      n'.peers.Keys == n.peers.Keys && n'.peerTopics == n.peerTopics && n'.topicApi.Keys == n.topicApi.Keys
  {
    if msgs != [] { MessagesKeepTables(n, forwarder, msgs[..|msgs| - 1], now); }
  }

  // A node that has every listed peer in its table never fails to look one up.
  lemma ListedLookupsSucceed(n: Node, rpc: Rpc, p: Peer, now: nat)
    requires ListedHavePeers(n) && forall m :: m in rpc.publish ==> HasKey(n, m)
    ensures LookupsSucceed(n, rpc, p, now)
  {
    forall i | 0 <= i < |rpc.publish| && Subscribed(n, rpc.publish[i])
      ensures HasKey(n, rpc.publish[i])
      ensures CanPassOn(AfterMessages(n, p, rpc.publish[..i], now), p, rpc.publish[i])
    {
      assert HasKey(n, rpc.publish[i]);
      MessagesKeepTables(n, p, rpc.publish[..i], now);
    }
  }

  // Of two messages that arrive new, the second is dropped, data and all, exactly when the same peer
  // published both in the same second.
  lemma SecondIsDroppedIff(n: Node, first: Message, second: Message, t1: nat, t2: nat, p: Peer, q: Peer, now: nat)
    requires first.seqno == Seqno(t1) && second.seqno == Seqno(t2) && t1 < Pow256(8) && t2 < Pow256(8)
    requires first.from != n.self && KeyOf(first) !in n.seen
    requires second.from != n.self && KeyOf(second) !in n.seen
    ensures var n' := Consumed(n, p, first, now);
      Consumed(n', q, second, now) == n' <==> first.from == second.from && t1 == t2
  {
    hide ToLe, FromLe, Pow256, Targets, Enqueue, Notified;
    SeqnoRoundTrip(t1);
    SeqnoRoundTrip(t2);
    var n' := Consumed(n, p, first, now);
    assert n'.seen == n.seen[KeyOf(first) := now];
    if KeyOf(second) !in n'.seen { assert KeyOf(second) in Consumed(n', q, second, now).seen; }
  }

  // The topics dropped are the longest prefix of those asked for, each subscribed when its turn comes.
  function Drops(subscribed: set<Topic>, topics: seq<Topic>): seq<GlobalEvent>
    decreases |topics|
  {
    if topics == [] || topics[0] !in subscribed then []
    else [TopicDropped(topics[0])] + Drops(subscribed - {topics[0]}, topics[1..])
  }

  // ---------- what several topics or peers in one request come to ----------

  ghost predicate Distinct<T>(s: seq<T>) { forall i, j :: 0 <= i < j < |s| ==> s[i] != s[j] }

  // The longest prefix without repetition of things in `present`.
  ghost predicate LongestKnown<T>(s: seq<T>, present: set<T>, k: nat) {
    && k <= |s| && Distinct(s[..k]) && (forall x :: x in s[..k] ==> x in present)
    && (k < |s| ==> s[k] !in present || s[k] in s[..k])
  }

  lemma LongestKnownStep<T>(s: seq<T>, present: set<T>, k: nat)
    requires LongestKnown(s, present, k) && k > 0
    ensures s[0] in present && LongestKnown(s[1..], present - {s[0]}, k - 1)
    ensures s[..k] == [s[0]] + s[1..][..k - 1] && s[0] !in s[1..][..k - 1]
  {
    assert s[..k][0] == s[0] && s[0] in s[..k];
    var rest := s[1..][..k - 1];
    assert s[..k] == [s[0]] + rest;
    forall i | 0 <= i < k - 1 ensures rest[i] == s[..k][i + 1] {}
  }

  lemma {:induction false} LongestKnownExists<T>(s: seq<T>, present: set<T>) returns (k: nat)
    ensures LongestKnown(s, present, k)
  {
    if s == [] || s[0] !in present {
      k := 0;
    } else {
      k := LongestKnownExists(s[1..], present - {s[0]});
      assert s[..k + 1] == [s[0]] + s[1..][..k];
      forall x | x in s[1..][..k] ensures x in present && x != s[0] {}
      k := k + 1;
    }
  }

  function Withdrawals(topics: seq<Topic>): seq<Rpc> {
    seq(|topics|, i requires 0 <= i < |topics| => Rpc([], [SubOpts(false, topics[i])]))
  }

  // The queues of these topics are gone, every peer was sent one withdrawal for each, in order, and nothing
  // else changed.
  ghost predicate HasWithdrawn(n: Node, n': Node, topics: seq<Topic>) {
    && n'.self == n.self && n'.peerTopics == n.peerTopics && n'.seen == n.seen
    && (forall t :: t in n'.topicApi <==> t in n.topicApi && t !in topics)
    && (forall t :: t in n'.topicApi ==> n'.topicApi[t] == n.topicApi[t])
    && n'.peers.Keys == n.peers.Keys
    && (forall p :: p in n.peers ==> n'.peers[p] == n.peers[p] + Withdrawals(topics))
  }

  function WithdrawnOne(n: Node, t: Topic): Node {
    n.(topicApi := n.topicApi - {t}, peers := Enqueue(n.peers, n.peers.Keys, Rpc([], [SubOpts(false, t)])))
  }

  lemma WithdrawnFirst(n: Node, n': Node, t: Topic, rest: seq<Topic>)
    requires HasWithdrawn(WithdrawnOne(n, t), n', rest)
    ensures HasWithdrawn(n, n', [t] + rest)
  {
    var n1 := WithdrawnOne(n, t);
    assert Withdrawals([t] + rest) == [Rpc([], [SubOpts(false, t)])] + Withdrawals(rest);
    forall p | p in n.peers ensures n'.peers[p] == n.peers[p] + Withdrawals([t] + rest) {
      assert n1.peers[p] == n.peers[p] + [Rpc([], [SubOpts(false, t)])];
      assert n.peers[p] + ([Rpc([], [SubOpts(false, t)])] + Withdrawals(rest)) == n1.peers[p] + Withdrawals(rest);
    }
  }

  // Unsubscribing takes the longest prefix of distinct subscribed topics.
  lemma {:induction false} UnsubscribeEffect(n: Node, topics: seq<Topic>, k: nat)
    requires LongestKnown(topics, n.topicApi.Keys, k)
    ensures HasWithdrawn(n, AfterUnsubscribe(n, topics), topics[..k])
    decreases k
  {
    if k > 0 {
      var n1 := WithdrawnOne(n, topics[0]);
      LongestKnownStep(topics, n.topicApi.Keys, k);
      assert n1.topicApi.Keys == n.topicApi.Keys - {topics[0]};
      assert AfterUnsubscribe(n, topics) == AfterUnsubscribe(n1, topics[1..]);
      hide HasWithdrawn, LongestKnown, AfterUnsubscribe, WithdrawnOne;
      UnsubscribeEffect(n1, topics[1..], k - 1);
      WithdrawnFirst(n, AfterUnsubscribe(n1, topics[1..]), topics[0], topics[1..][..k - 1]);
    } else {
      assert AfterUnsubscribe(n, topics) == n && Withdrawals(topics[..0]) == [];
    }
  }

  // And the application is told of each of them.
  lemma {:induction false} DropsEffect(subscribed: set<Topic>, topics: seq<Topic>, k: nat)
    requires LongestKnown(topics, subscribed, k)
    ensures Drops(subscribed, topics) == seq(k, i requires 0 <= i < k => TopicDropped(topics[i]))
    decreases k
  {
    if k > 0 {
      LongestKnownStep(topics, subscribed, k);
      hide LongestKnown;
      DropsEffect(subscribed - {topics[0]}, topics[1..], k - 1);
    }
  }

  // These peers are out of the table and of every list, and nothing else changed.
  ghost predicate HasDropped(n: Node, n': Node, ids: seq<Peer>) {
    && n'.self == n.self && n'.topicApi == n.topicApi && n'.seen == n.seen
    && (forall p :: p in n'.peers <==> p in n.peers && p !in ids)
    && (forall p :: p in n'.peers ==> n'.peers[p] == n.peers[p])
    && n'.peerTopics.Keys == n.peerTopics.Keys
    && (forall t, p :: t in n.peerTopics ==> (p in n'.peerTopics[t] <==> p in n.peerTopics[t] && p !in ids))
  }

  function DroppedOne(n: Node, p: Peer): Node {
    n.(peers := n.peers - {p}, peerTopics := WithoutPeer(n.peerTopics, p))
  }

  lemma DroppedFirst(n: Node, n': Node, p: Peer, rest: seq<Peer>)
    requires HasDropped(DroppedOne(n, p), n', rest)
    ensures HasDropped(n, n', [p] + rest)
  {
    var n1 := DroppedOne(n, p);
    assert n1.peerTopics.Keys == n.peerTopics.Keys;
    forall t, q | t in n.peerTopics
      ensures q in n'.peerTopics[t] <==> q in n.peerTopics[t] && q !in [p] + rest
    {
      assert q in n1.peerTopics[t] <==> q in n.peerTopics[t] && q != p;
    }
  }

  // Of several dead peers, the longest prefix of distinct known ones is dropped.
  lemma {:induction false} DeadPeersEffect(n: Node, ids: seq<Peer>, k: nat)
    requires LongestKnown(ids, n.peers.Keys, k)
    ensures HasDropped(n, AfterDeadPeers(n, ids), ids[..k])
    decreases k
  {
    if k > 0 {
      var n1 := DroppedOne(n, ids[0]);
      LongestKnownStep(ids, n.peers.Keys, k);
      assert n1.peers.Keys == n.peers.Keys - {ids[0]};
      assert AfterDeadPeers(n, ids) == AfterDeadPeers(n1, ids[1..]);
      hide HasDropped, LongestKnown, AfterDeadPeers, DroppedOne;
      DeadPeersEffect(n1, ids[1..], k - 1);
      DroppedFirst(n, AfterDeadPeers(n1, ids[1..]), ids[0], ids[1..][..k - 1]);
    }
  }

  // Dropping a peer from a list keeps the others in their order.
  lemma {:induction false} WithoutConcat(a: seq<Peer>, b: seq<Peer>, p: Peer)
    ensures Without(a + b, p) == Without(a, p) + Without(b, p)
  {
    if a == [] {
      assert a + b == b;
    } else {
      assert (a + b)[1..] == a[1..] + b;
      WithoutConcat(a[1..], b, p);
      var head := if a[0] == p then [] else [a[0]];
      assert head + (Without(a[1..], p) + Without(b, p)) == head + Without(a[1..], p) + Without(b, p);
    }
  }

  lemma WithoutOne(q: Peer, p: Peer)
    ensures Without([q], p) == if q == p then [] else [q]
  {
    assert [q][1..] == [];
  }

  // ---------- frames of several messages and announcements ----------

  // A frame is handled as its messages one by one, and then its announcements one by one.
  lemma {:induction false} MessagesConcat(n: Node, p: Peer, a: seq<Message>, m: Message, now: nat)
    requires forall x :: x in a + [m] ==> HasKey(n, x)
    ensures (forall x :: x in a ==> HasKey(n, x)) && HasKey(AfterMessages(n, p, a, now), m)
    ensures AfterMessages(n, p, a + [m], now) == Incoming(AfterMessages(n, p, a, now), Rpc([m], []), p, now)
  {
    forall x | x in a ensures HasKey(n, x) { assert x in a + [m]; }
    assert m in a + [m];
    var n' := AfterMessages(n, p, a, now);
    MessagesKeepTables(n, p, a, now);
    assert Subscribed(n', m) <==> Subscribed(n, m);
    assert (a + [m])[..|a|] == a;
    assert [m][..0] == [] && AfterMessages(n', p, [], now) == n';
    assert AfterMessages(n', p, [m], now) == if Subscribed(n', m) then Consumed(n', p, m, now) else n';
  }

  // After a frame, the keys noted are those noted before and those of its messages that have a subscribed
  // topic and another origin.
  lemma {:induction false} FrameNotesKeys(n: Node, p: Peer, msgs: seq<Message>, now: nat, k: Key)
    requires forall x :: x in msgs ==> HasKey(n, x)
    ensures k in AfterMessages(n, p, msgs, now).seen <==>
      k in n.seen || exists m :: m in msgs && Subscribed(n, m) && m.from != n.self && KeyOf(m) == k
  {
    if msgs != [] {
      var before, m := msgs[..|msgs| - 1], msgs[|msgs| - 1];
      assert msgs == before + [m];
      assert m in msgs && HasKey(n, m);
      FrameNotesKeys(n, p, before, now, k);
      var n' := AfterMessages(n, p, before, now);
      assert n'.self == n.self;
      hide Published, Notified;
      if Subscribed(n, m) && m.from != n.self {
        assert Consumed(n', p, m, now).seen.Keys == n'.seen.Keys + {KeyOf(m)} by { ConsumedNotes(n', p, m, now); }
      }
    }
  }

  lemma ConsumedNotes(n: Node, p: Peer, m: Message, now: nat)
    requires m.from != n.self && |m.seqno| == 8
    ensures Consumed(n, p, m, now).seen.Keys == n.seen.Keys + {KeyOf(m)}
  {}

  lemma {:induction false} WithoutAppend(a: seq<Peer>, x: Peer, p: Peer)
    ensures Without(a + [x], p) == Without(a, p) + if x == p then [] else [x]
  {
    if a != [] {
      assert (a + [x])[1..] == a[1..] + [x];
      WithoutAppend(a[1..], x, p);
    }
  }

  method Retain(list: seq<Peer>, p: Peer) returns (kept: seq<Peer>)
    ensures kept == Without(list, p)
  {
    kept := [];
    for i := 0 to |list|
      invariant kept == Without(list[..i], p)
    {
      assert list[..i + 1] == list[..i] + [list[i]];
      WithoutAppend(list[..i], list[i], p);
      if list[i] != p {
        kept := kept + [list[i]];
      }
    }
    assert list[..|list|] == list;
  }
}
